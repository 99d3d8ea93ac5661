// A blob as chunks and an index: how it is split over the pages there is room on, and why the split
// always finds a place for the index and never runs out of chunk numbers.
module BlobWrites {
  import opened NvsTypes
  import opened PageImage
  import opened PageRam
  import opened PageValues
  import opened PageCuts
  import opened FlashDevice
  import opened StoreImage
  import opened PageLists
  import opened StoreSearch
  import opened StoreWrites
  import opened StoreAccounts

  // ---------------------------------------------------------------- the parts of a blob

  function Joined(pieces: seq<seq<byte>>): seq<byte> {
    if pieces == [] then [] else Joined(pieces[..|pieces| - 1]) + pieces[|pieces| - 1]
  }

  predicate Numbered(start: byte, n: nat) {
    start + n <= CHUNK_ANY
  }

  function ChunkRecs(ns: byte, key: string, start: byte, pieces: seq<seq<byte>>): seq<Rec>
    requires Numbered(start, |pieces|)
  {
    if pieces == [] then []
    else
      var last := RecOf(ns, BLOB_DATA, key, Variable(pieces[|pieces| - 1]), start + |pieces| - 1);
      ChunkRecs(ns, key, start, pieces[..|pieces| - 1]) + [last]
  }

  lemma {:induction false} OneMorePiece(ns: byte, key: string, start: byte, pieces: seq<seq<byte>>, piece: seq<byte>)
    requires Numbered(start, |pieces| + 1)
    ensures Joined(pieces + [piece]) == Joined(pieces) + piece
    ensures ChunkRecs(ns, key, start, pieces + [piece])
      == ChunkRecs(ns, key, start, pieces) + [RecOf(ns, BLOB_DATA, key, Variable(piece), start + |pieces|)]
  {
    assert (pieces + [piece])[..|pieces|] == pieces;
  }

  lemma {:induction false} ChunkCount(ns: byte, key: string, start: byte, pieces: seq<seq<byte>>)
    requires Numbered(start, |pieces|)
    ensures |ChunkRecs(ns, key, start, pieces)| == |pieces|
  {
    if pieces != [] {
      ChunkCount(ns, key, start, pieces[..|pieces| - 1]);
    }
  }

  lemma {:induction false} AllTaken(ns: byte, key: string, start: byte, pieces: seq<seq<byte>>)
    requires Numbered(start, |pieces|)
    ensures |ChunkRecs(ns, key, start, pieces)| == |pieces|
      && ChunkRecs(ns, key, start, pieces)[..|pieces|] == ChunkRecs(ns, key, start, pieces)
  {
    ChunkCount(ns, key, start, pieces);
  }

  lemma IndexIsNoChunk(recs: seq<Rec>, ns: byte, key: string, size: nat, count: byte, start: byte)
    requires size <= 127 * 125 * 32
    ensures NoPairWith(recs, IndexRec(ns, key, size, count, start))
  {
  }

  // As much of the data from `offset` on as fits.
  function NextPiece(data: seq<byte>, offset: nat, tailroom: nat): (piece: seq<byte>)
    requires offset <= |data|
    ensures piece <= data[offset..] && |piece| == if |data| - offset > tailroom then tailroom else |data| - offset
  {
    var left := |data| - offset;
    data[offset..offset + if left > tailroom then tailroom else left]
  }

  // The chunks written, when the last attempt may have failed.
  lemma {:induction false} TriedRecords(before: multiset<Rec>, ns: byte, key: string, start: byte,
                                        pieces: seq<seq<byte>>, tried: seq<seq<byte>>, written: bool, piece: seq<byte>)
    requires Numbered(start, |tried|) && (tried == pieces + [piece] || (tried == pieces && !written))
    ensures |ChunkRecs(ns, key, start, pieces)| == |pieces| && |ChunkRecs(ns, key, start, tried)| == |tried|
    ensures var n := |pieces| + if written then 1 else 0;
      multiset(ChunkRecs(ns, key, start, tried)[..n])
      == multiset(ChunkRecs(ns, key, start, pieces)) + if written
        then multiset{RecOf(ns, BLOB_DATA, key, Variable(piece), start + |pieces|)}
        else multiset{}
  {
    hide RecOf, ChunkRecs;
    ChunkCount(ns, key, start, pieces);
    ChunkCount(ns, key, start, tried);
    var recs := ChunkRecs(ns, key, start, tried);
    if tried == pieces {
      assert recs[..|pieces|] == recs;
    } else {
      OneMorePiece(ns, key, start, pieces, piece);
      assert recs[..|pieces|] == ChunkRecs(ns, key, start, pieces) && recs[..|pieces| + 1] == recs;
    }
  }

  // The first n bytes have been written as chunks, on top of the records `before`.
  ghost predicate Chunked(live: multiset<Rec>, before: multiset<Rec>, ns: byte, key: string, data: seq<byte>,
                          start: byte, pieces: seq<seq<byte>>, n: nat) {
    && Numbered(start, |pieces|) && n <= |data| && Joined(pieces) == data[..n]
    && live == before + multiset(ChunkRecs(ns, key, start, pieces))
  }

  lemma {:induction false} NoneChunked(live: multiset<Rec>, ns: byte, key: string, data: seq<byte>, start: byte)
    ensures Chunked(live, live, ns, key, data, start, [], 0) && ChunkRecs(ns, key, start, []) == []
  {
  }

  lemma MoreChunked(live: multiset<Rec>, before: multiset<Rec>, ns: byte, key: string, data: seq<byte>, start: byte,
                    pieces: seq<seq<byte>>, n: nat, size: nat, now: multiset<Rec>)
    requires Chunked(live, before, ns, key, data, start, pieces, n) && n + size <= |data|
      && Numbered(start, |pieces| + 1)
    requires now == live + multiset{RecOf(ns, BLOB_DATA, key, Variable(data[n..n + size]), start + |pieces|)}
    ensures Chunked(now, before, ns, key, data, start, pieces + [data[n..n + size]], n + size)
  {
    hide Joined, ChunkRecs, RecOf;
    OneMorePiece(ns, key, start, pieces, data[n..n + size]);
    assert data[..n] + data[n..n + size] == data[..n + size];
  }

  lemma {:induction false} ChunkedMeans(live: multiset<Rec>, before: multiset<Rec>, ns: byte, key: string,
                                        data: seq<byte>, start: byte, pieces: seq<seq<byte>>, n: nat)
    requires Chunked(live, before, ns, key, data, start, pieces, n)
    ensures n <= |data| && Numbered(start, |pieces|) && live == before + multiset(ChunkRecs(ns, key, start, pieces))
  {
  }

  lemma {:induction false} ChunkedAll(live: multiset<Rec>, before: multiset<Rec>, ns: byte, key: string,
                                      data: seq<byte>, start: byte, pieces: seq<seq<byte>>)
    requires Chunked(live, before, ns, key, data, start, pieces, |data|)
    ensures Numbered(start, |pieces|) && Joined(pieces) == data
      && live == before + multiset(ChunkRecs(ns, key, start, pieces))
  {
    assert data[..|data|] == data;
  }

  function IndexRec(ns: byte, key: string, size: nat, count: byte, start: byte): Rec {
    RecOf(ns, BLOB_IDX, key, Index(size, count, start), CHUNK_ANY)
  }

  // ---------------------------------------------------------------- room on a page

  lemma ChunkFits(r: Ram, key: string, data: seq<byte>)
    requires |data| <= Tailroom(r) && Tailroom(r) > 0
    ensures WriteVerdict(r.state, r.nextFree, BLOB_DATA, key, Variable(data)) ==
      if |key| > MAX_KEY_LENGTH then KEY_TOO_LONG else OK
    ensures FirstFree(r) + SpanFor(BLOB_DATA, Variable(data)) <= ENTRY_COUNT && !r.state.FULL?
    ensures |data| + ENTRY_SIZE <= Tailroom(r) ==> FirstFree(r) + SpanFor(BLOB_DATA, Variable(data)) < ENTRY_COUNT
    ensures |data| == Tailroom(r) ==> FirstFree(r) + SpanFor(BLOB_DATA, Variable(data)) == ENTRY_COUNT
  {
  }

  lemma IndexFits(r: Ram, key: string, size: nat, count: byte, start: byte)
    requires !r.state.FULL? && |key| <= MAX_KEY_LENGTH && FirstFree(r) < ENTRY_COUNT
    ensures WriteVerdict(r.state, r.nextFree, BLOB_IDX, key, Index(size, count, start)) == OK
  {
  }

  // The current page is one of those with the most room, without a gap, and there is no second free
  // page: another page will not be better.
  ghost predicate NoBetter(rams: seq<Ram>, list: seq<nat>, free: seq<nat>) {
    && list != [] && (forall k :: 0 <= k < |list| ==> list[k] < |rams|) && |free| == 1 && Fresh(rams[list[|list| - 1]])
    && forall k :: 0 <= k < |list| ==> rams[list[|list| - 1]].used <= rams[list[k]].used
  }

  // After a collection the current page is one of those with the fewest entries in use.
  lemma LeastUsed(rams0: seq<Ram>, img0: seq<FPage>, p: nat, rams: seq<Ram>, img: seq<FPage>, list: seq<nat>,
                  free: seq<nat>, rams': seq<Ram>, img': seq<FPage>, list': seq<nat>, free': seq<nat>, freed: nat)
    requires MarkedFull(rams0, img0, p, rams, img) && list != [] && p == list[|list| - 1]
      && Partition(|rams0|, list, free)
    requires Relocated(rams, img, list, free, rams', img', list', free', freed) && |free| == 1
    ensures NoBetter(rams', list', free') && rams'[list'[|list'| - 1]].used <= rams0[p].used
      && Fresh(rams'[list'[|list'| - 1]])
    ensures NoBetter(rams0, list, free) ==> rams'[list'[|list'| - 1]].used == rams0[p].used
  {
    hide RecsOf, Fresh;
    var at :| 0 <= at < |list| && list[at] == freed && list' == Collected(list, at, free[0]);
    assert forall k :: 0 <= k < |list| ==> rams[list[k]].used == rams0[list[k]].used;
    forall k | 0 <= k < |list'| ensures list'[k] < |rams'| && rams'[free[0]].used <= rams'[list'[k]].used {
      if k < |list| - 1 {
        var j := if k < at then k else k + 1;
        assert list'[k] == list[j] && list[j] != list[at] && list[j] != free[0];
      }
    }
  }

  // What another page offers: an empty one, or again as much as the current one did.
  lemma NewTailroom(rams0: seq<Ram>, img0: seq<FPage>, p: nat, rams: seq<Ram>, img: seq<FPage>, list: seq<nat>,
                    free: seq<nat>, rams': seq<Ram>, img': seq<FPage>, list': seq<nat>, free': seq<nat>, freed: nat)
    requires MarkedFull(rams0, img0, p, rams, img) && list != [] && p == list[|list| - 1]
      && Partition(|rams0|, list, free)
    requires Relocated(rams, img, list, free, rams', img', list', free', freed)
    ensures list' != [] && list'[|list'| - 1] < |rams'| && Fresh(rams'[list'[|list'| - 1]])
    ensures |free| >= 2 ==> Tailroom(rams'[list'[|list'| - 1]]) == CHUNK_MAX_SIZE
    ensures |free| == 1 ==> NoBetter(rams', list', free')
    ensures NoBetter(rams0, list, free) ==> Tailroom(rams'[list'[|list'| - 1]]) == Tailroom(rams0[p])
  {
    hide Relocated, MarkedFull, Partition;
    if |free| == 1 {
      LeastUsed(rams0, img0, p, rams, img, list, free, rams', img', list', free', freed);
    } else {
      TakenAnew(rams, img, list, free, rams', img', list', free', freed);
    }
  }

  lemma TakenAnew(rams: seq<Ram>, img: seq<FPage>, list: seq<nat>, free: seq<nat>, rams': seq<Ram>, img': seq<FPage>,
                  list': seq<nat>, free': seq<nat>, freed: nat)
    requires Relocated(rams, img, list, free, rams', img', list', free', freed) && |free| != 1
    ensures |free| >= 2 && list' != [] && list'[|list'| - 1] < |rams'| && rams'[list'[|list'| - 1]].used == 0
      && Fresh(rams'[list'[|list'| - 1]])
  {
  }

  // ---------------------------------------------------------------- how many chunks there can be

  ghost function Filled(rams: seq<Ram>, list: seq<nat>): set<nat> {
    set p | p in list && p < |rams| && rams[p].used == ENTRY_COUNT
  }

  // The current page is not filled, so there are fewer filled pages than listed ones.
  lemma FilledBound(rams: seq<Ram>, list: seq<nat>, free: seq<nat>, n: nat)
    requires Partition(n, list, free) && free != [] && list != [] && |rams| == n
      && rams[list[|list| - 1]].used < ENTRY_COUNT
    ensures |Filled(rams, list)| + 2 <= n
  {
    PartitionSize(n, list, free);
    DistinctSize(list);
    var cur := list[|list| - 1];
    assert Filled(rams, list) <= Members(list) - {cur};
    Subset(Filled(rams, list), Members(list) - {cur});
  }

  lemma {:induction false} Subset<T>(a: set<T>, b: set<T>)
    requires a <= b
    ensures |a| <= |b|
  {
    if a != {} {
      var x :| x in a;
      Subset(a - {x}, b - {x});
    }
  }

  // Making room leaves filled pages filled, and listed.
  lemma StaysFilled(rams0: seq<Ram>, img0: seq<FPage>, p: nat, rams: seq<Ram>, img: seq<FPage>, list: seq<nat>,
                    free: seq<nat>, rams': seq<Ram>, img': seq<FPage>, list': seq<nat>, free': seq<nat>, freed: nat)
    requires MarkedFull(rams0, img0, p, rams, img) && Relocated(rams, img, list, free, rams', img', list', free', freed)
    requires |free| >= 2 || exists k :: 0 <= k < |list| && rams[list[k]].used < ENTRY_COUNT
    requires free[0] !in list
    ensures |Filled(rams', list')| >= |Filled(rams0, list)|
    ensures list' != [] && list'[|list'| - 1] < |rams'| && rams'[list'[|list'| - 1]].used < ENTRY_COUNT
  {
    forall q | q in Filled(rams0, list) ensures q in Filled(rams', list') {
      var j :| 0 <= j < |list| && list[j] == q;
      if |free| == 1 {
        var at :| 0 <= at < |list| && list[at] == freed && list' == Collected(list, at, free[0]);
        assert list'[if j < at then j else j - 1] == q;
      }
    }
    Subset(Filled(rams0, list), Filled(rams', list'));
  }

  // A chunk that takes all that is left of a page fills it.
  lemma OneMoreFilled(rams: seq<Ram>, list: seq<nat>, p: nat, rams': seq<Ram>)
    requires p in list && OnlyAt(rams, rams', p) && rams[p].used < ENTRY_COUNT
    ensures |Filled(rams', list)| >= |Filled(rams, list)|
    ensures rams'[p].used == ENTRY_COUNT ==> |Filled(rams', list)| == |Filled(rams, list)| + 1
  {
    if rams'[p].used == ENTRY_COUNT {
      assert Filled(rams', list) == Filled(rams, list) + {p};
    } else {
      assert Filled(rams', list) == Filled(rams, list);
    }
  }

  lemma ListedOnce(rams: seq<Ram>, img: seq<FPage>, list: seq<nat>, free: seq<nat>, next: nat, hashOf: Id -> nat)
    requires InOrder(rams, img, list, free, next, hashOf)
    ensures |rams| == |img| && Partition(|rams|, list, free) && free != [] && free[0] !in list && list != []
  {
  }

  // A page with less room than an empty one has is in use.
  lemma SmallIsLive(rams: seq<Ram>, img: seq<FPage>, list: seq<nat>, free: seq<nat>, next: nat, hashOf: Id -> nat)
    requires InOrder(rams, img, list, free, next, hashOf) && Tailroom(rams[list[|list| - 1]]) < CHUNK_MAX_SIZE
    ensures list != [] && list[|list| - 1] < |rams| && LiveState(rams[list[|list| - 1]].state)
  {
    hide RamOk;
  }

  // A page without a gap that a chunk has taken all the room of is filled.
  lemma ChunkPlaced(rams: seq<Ram>, list: seq<nat>, p: nat, rams': seq<Ram>, r: Ram, r': Ram, piece: seq<byte>)
    requires p in list && OnlyAt(rams, rams', p) && rams[p] == r && rams'[p] == r'
    requires |piece| <= Tailroom(r) && Tailroom(r) > 0 && r'.used == r.used + SpanFor(BLOB_DATA, Variable(piece))
    requires r'.nextFree == FirstFree(r) + SpanFor(BLOB_DATA, Variable(piece)) && r'.state == ACTIVE
    requires r.state.UNINITIALIZED? ==> r.used == 0
    requires r.state.ACTIVE? ==> r.used <= r.nextFree
    requires !r.state.UNINITIALIZED? ==> r.state.ACTIVE? || r.state.FULL?
    ensures LiveState(r'.state) && !r'.state.FULL?
    ensures |piece| + ENTRY_SIZE <= Tailroom(r) ==> FirstFree(r') < ENTRY_COUNT
    ensures |Filled(rams', list)| >= |Filled(rams, list)| + if Fresh(r) && |piece| == Tailroom(r) then 1 else 0
  {
    OneMoreFilled(rams, list, p, rams');
  }

  // ---------------------------------------------------------------- pages that take chunks

  // A search for any chunk of this name finds none among these.
  ghost predicate ClearOf(host: seq<Rec>, ns: byte, key: string) {
    forall q :: q in host ==> !(q.item.typ.BLOB_DATA? && OfName(q, ns, key))
  }

  ghost predicate AllClear(hosts: seq<seq<Rec>>, ns: byte, key: string) {
    forall k :: 0 <= k < |hosts| ==> ClearOf(hosts[k], ns, key)
  }

  lemma ClearMore(hosts: seq<seq<Rec>>, host: seq<Rec>, ns: byte, key: string)
    ensures AllClear(hosts + [host], ns, key) <==> AllClear(hosts, ns, key) && ClearOf(host, ns, key)
  {
    hide ClearOf;
    var more := hosts + [host];
    assert AllClear(more, ns, key) ==> ClearOf(more[|hosts|], ns, key);
    assert forall k :: 0 <= k < |hosts| ==> more[k] == hosts[k];
  }

  lemma ClearIsNoPair(host: seq<Rec>, ns: byte, key: string, piece: seq<byte>, chunk: byte)
    requires ClearOf(host, ns, key) && chunk != CHUNK_ANY
    ensures NoPairWith(host, RecOf(ns, BLOB_DATA, key, Variable(piece), chunk))
  {
  }

  // ---------------------------------------------------------------- blobs that lost power

  // Some of these records have been added, in this order.
  ghost predicate PartAdded(c: seq<FPage>, before: multiset<Rec>, recs: seq<Rec>) {
    exists j :: 0 <= j <= |recs| && Recoverable(c, before + multiset(recs[..j]))
  }

  lemma NoneAdded(c: seq<FPage>, before: multiset<Rec>, recs: seq<Rec>)
    requires Recoverable(c, before)
    ensures PartAdded(c, before, recs)
  {
    hide Recoverable;
    assert before + multiset(recs[..0]) == before;
  }

  // A record more has been added, or is being added.
  lemma OneMoreAdded(cuts: iset<seq<FPage>>, mid: iset<seq<FPage>>, cuts0: iset<seq<FPage>>, before: multiset<Rec>,
                     recs: seq<Rec>, n: Rec)
    requires forall c :: c in mid && c !in cuts0 ==> PartAdded(c, before, recs)
    requires forall c :: c in cuts && c !in mid ==>
      Recoverable(c, before + multiset(recs)) || Recoverable(c, before + multiset(recs) + multiset{n})
    ensures forall c :: c in cuts && c !in cuts0 ==> PartAdded(c, before, recs + [n])
  {
    hide Recoverable;
    var more := recs + [n];
    forall c: seq<FPage> | c in cuts && c !in cuts0 ensures PartAdded(c, before, more) {
      if c in mid {
        var j :| 0 <= j <= |recs| && Recoverable(c, before + multiset(recs[..j]));
        assert more[..j] == recs[..j];
      } else {
        assert more[..|recs|] == recs && more[..|recs| + 1] == more;
        assert before + multiset(recs) + multiset{n} == before + multiset(more);
      }
    }
  }

  lemma AllPart(cuts: iset<seq<FPage>>, mid: iset<seq<FPage>>, cuts0: iset<seq<FPage>>, before: multiset<Rec>,
                recs: seq<Rec>)
    requires forall c :: c in mid && c !in cuts0 ==> Recoverable(c, before)
    requires forall c :: c in cuts && c !in mid ==> PartAdded(c, before, recs)
    ensures forall c :: c in cuts && c !in cuts0 ==> PartAdded(c, before, recs)
  {
    hide Recoverable, PartAdded;
    forall c: seq<FPage> | c in cuts && c !in cuts0 ensures PartAdded(c, before, recs) {
      if c in mid {
        NoneAdded(c, before, recs);
      }
    }
  }

  lemma AppendIsEither(img: seq<FPage>, cuts: iset<seq<FPage>>, cuts0: iset<seq<FPage>>, n: Rec, ok: bool)
    requires forall c :: c in cuts && c !in cuts0 ==> AppendCut(c, Live(img), n, ok)
    ensures forall c :: c in cuts && c !in cuts0 ==>
      Recoverable(c, Live(img)) || Recoverable(c, Live(img) + multiset{n})
  {
    hide Live, Recoverable, Appending;
    forall c: seq<FPage> | c in cuts && c !in cuts0
      ensures Recoverable(c, Live(img)) || Recoverable(c, Live(img) + multiset{n}) {
      if ok {
        AppendingIsRecoverable(c, Live(img), n, None);
      }
    }
  }
}
