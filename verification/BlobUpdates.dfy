// What writing and erasing a blob comes to, complete, cut short by power loss, or failed for want of
// space.
module BlobUpdates {
  import opened NvsTypes
  import opened PageImage
  import opened PageRam
  import opened PageSearch
  import opened PageTwins
  import opened PageValues
  import opened FlashDevice
  import opened PageCuts
  import opened StoreImage
  import opened PageLists
  import opened Startup
  import opened StoreSearch
  import opened StoreWrites
  import opened StoreMap
  import opened BlobWrites
  import opened BlobSearch

  // ---------------------------------------------------------------- erasing a part on one page

  // The search takes none of these.
  ghost predicate NotTaken(recs: seq<Rec>, q: Query) {
    NoneAsked(recs, q) || (!q.typ.BLOB_DATA? && exists r :: r in recs && Judge(r.item, q).Mismatch?)
  }

  // What a search on one page finds.
  lemma PartOn(rams: seq<Ram>, img: seq<FPage>, list: seq<nat>, free: seq<nat>, next: nat, hashOf: Id -> nat, p: nat,
               q: Query) returns (o: Option<Rec>)
    requires InOrder(rams, img, list, free, next, hashOf) && p < |img| && p < |rams| && BlobQuery(q)
    ensures |rams| == |img| && (o.Some? <==> LiveState(rams[p].state) && FindVia(img[p].slots, q, hashOf, 0).Hit?)
    ensures o.Some? ==>
      IsAt(rams, img, p, FindVia(img[p].slots, q, hashOf, 0).index, o.value) && Judge(o.value.item, q).Take?
    ensures o.None? ==> NotTaken(RecsOf(img[p]), q)
  {
    hide RamOk, Quiet, Recs, InOrder, Judge, FindVia;
    InRange(rams, img, list, free, next, hashOf);
    o := None;
    if LiveState(rams[p].state) {
      LiveHeader(rams, img, list, free, next, hashOf, p);
      RecordPage(rams, img, list, free, next, hashOf, p);
      PageHit(img[p].slots, rams[p].top, hashOf, q);
      var f := FindVia(img[p].slots, q, hashOf, 0);
      if f.Hit? {
        o := Some(RecAt(img[p].slots, f.index));
      } else if f.WrongType? {
        RecWritable(img[p].slots, rams[p].top, RecAt(img[p].slots, f.index));
        NotTakenIsMismatch(RecAt(img[p].slots, f.index), q);
      }
    } else {
      NoHeaderNoRecs(rams, img, list, free, next, hashOf, p);
    }
  }

  lemma NotTakenIsMismatch(r: Rec, q: Query)
    requires Asked(r, q) && !Judge(r.item, q).Take? && BlobQuery(q)
      && (r.item.typ.BLOB_DATA? <==> r.item.chunk != CHUNK_ANY)
    ensures Judge(r.item, q).Mismatch? && !q.typ.BLOB_DATA?
  {
  }

  lemma NoHeaderNoRecs(rams: seq<Ram>, img: seq<FPage>, list: seq<nat>, free: seq<nat>, next: nat, hashOf: Id -> nat,
                       p: nat)
    requires InOrder(rams, img, list, free, next, hashOf) && p < |img| && p < |rams| && !LiveState(rams[p].state)
    ensures RecsOf(img[p]) == []
  {
    hide RamOk, Recs;
    HeadersAre(rams, img, hashOf);
  }

  // One of the records is gone.
  ghost predicate LessOne(recs: seq<Rec>, o: Rec, now: seq<Rec>) {
    exists k :: 0 <= k < |recs| && recs[k] == o && now == recs[..k] + recs[k + 1..]
  }

  lemma {:induction false} ErasedLessOne(img: seq<FPage>, c: seq<FPage>, x: nat, i: nat, o: Rec)
    requires OnlyPage(img, c, x) && c[x].hdr == img[x].hdr && img[x].hdr.Header? && |img[x].slots| == ENTRY_COUNT
      && i < ENTRY_COUNT
    requires Whole(img[x].slots, i) && RecAt(img[x].slots, i) == o
    requires Recs(c[x].slots) == RecsIn(img[x].slots, 0, i) + RecsIn(img[x].slots, i + 1, ENTRY_COUNT)
    ensures LessOne(RecsOf(img[x]), o, RecsOf(c[x]))
  {
    hide Whole, RecsIn;
    SplitAt(img[x].slots, i);
    var a, b := RecsIn(img[x].slots, 0, i), RecsIn(img[x].slots, i + 1, ENTRY_COUNT);
    var recs := Recs(img[x].slots);
    assert recs == a + [o] + b;
    assert recs[|a|] == o && recs[..|a|] == a && recs[|a| + 1..] == b;
  }

  lemma LessOneMeans(recs: seq<Rec>, o: Rec, now: seq<Rec>)
    requires LessOne(recs, o, now)
    ensures o in recs && multiset(recs) == multiset(now) + multiset{o}
      && forall r :: r != o ==> (r in now <==> r in recs)
  {
    var k :| 0 <= k < |recs| && recs[k] == o && now == recs[..k] + recs[k + 1..];
    OneBetween(recs[..k], o, recs[k + 1..]);
    assert recs == recs[..k] + [o] + recs[k + 1..];
  }

  lemma OneBetween(a: seq<Rec>, o: Rec, b: seq<Rec>)
    ensures multiset(a + [o] + b) == multiset(a + b) + multiset{o}
    ensures forall r :: r != o ==> (r in a + b <==> r in a + [o] + b)
  {
  }

  // ---------------------------------------------------------------- undoing a failed write

  predicate IsChunkNo(r: Rec, ns: byte, key: string, k: nat) {
    r.item.typ.BLOB_DATA? && OfName(r, ns, Truncated(key)) && r.item.chunk == k
  }

  // The chunk with number k is erased on the page that the k-th chunk was written to.
  ghost predicate Condemned(img: seq<FPage>, used: seq<nat>, n: nat, ns: byte, key: string, r: Rec) {
    exists k :: 0 <= k < n && k < |used| && used[k] < |img| && r in RecsOf(img[used[k]]) && IsChunkNo(r, ns, key, k)
  }

  // What is left on each page after the first n erasures.
  ghost predicate LeftOn(img0: seq<FPage>, img: seq<FPage>, used: seq<nat>, n: nat, ns: byte, key: string) {
    |img| == |img0|
      && forall p, r :: 0 <= p < |img| ==>
      (r in RecsOf(img[p]) <==> r in RecsOf(img0[p]) && !Condemned(img0, used, n, ns, key, r))
  }

  lemma NothingErased(img0: seq<FPage>, used: seq<nat>, ns: byte, key: string)
    ensures LeftOn(img0, img0, used, 0, ns, key)
  {
  }

  lemma TakenIsChunkNo(r: Rec, ns: byte, key: string, k: byte)
    requires ns != NS_ANY && k != CHUNK_ANY
    ensures Judge(r.item, ChunkQuery(ns, key, k)).Take? <==> IsChunkNo(r, ns, key, k)
  {
  }

  lemma CondemnedMore(img: seq<FPage>, used: seq<nat>, n: nat, ns: byte, key: string, r: Rec)
    requires n < |used| && used[n] < |img|
    ensures Condemned(img, used, n + 1, ns, key, r) <==>
      Condemned(img, used, n, ns, key, r) || (r in RecsOf(img[used[n]]) && IsChunkNo(r, ns, key, n))
  {
    hide RecsOf, IsChunkNo;
  }

  // A record that counts once is on one page.
  lemma OnOnePage(img: seq<FPage>, x: nat, p: nat, r: Rec)
    requires Unique(Live(img)) && x < |img| && p < |img| && r in RecsOf(img[x]) && r in RecsOf(img[p])
    ensures x == p
  {
    hide RecsOf, Live;
    if x != p {
      CountsTwice(img, x, p, r);
    }
  }

  lemma CountsTwice(img: seq<FPage>, x: nat, p: nat, r: Rec)
    requires x < |img| && p < |img| && x != p && r in RecsOf(img[x]) && r in RecsOf(img[p])
    ensures Live(img)[r] >= 2
  {
    hide RecsOf, Live, Rest;
    RestAround(img, x, p);
    LiveAround(img, x);
    assert r in multiset(RecsOf(img[x])) && r in multiset(RecsOf(img[p]));
  }

  // A record that counts once and is taken off its page is there no more.
  lemma GoneFrom(img: seq<FPage>, p: nat, all: multiset<Rec>, o: Rec, now: seq<Rec>)
    requires p < |img| && Live(img) <= all && Unique(all) && LessOne(RecsOf(img[p]), o, now)
    ensures o !in now && o in all && forall r :: r in RecsOf(img[p]) ==> r in all
  {
    hide RecsOf, Live, Rest, LessOne;
    LessOneMeans(RecsOf(img[p]), o, now);
    LiveAround(img, p);
    assert o in multiset(RecsOf(img[p]));
    assert multiset(now)[o] + 1 <= all[o];
    forall r | r in RecsOf(img[p]) ensures r in all {
      assert r in multiset(RecsOf(img[p]));
    }
  }

  // One more chunk has been looked for on its page, and erased if it was there.
  lemma OneMoreGoneOn(img0: seq<FPage>, img: seq<FPage>, c: seq<FPage>, used: seq<nat>, n: nat, ns: byte, key: string,
                      o: Option<Rec>)
    requires Unique(Live(img0)) && Live(img) <= Live(img0) && LeftOn(img0, img, used, n, ns, key) && ns != NS_ANY
    requires n < |used| && used[n] < |img| && n < 127
    requires o.None? ==> c == img && NotTaken(RecsOf(img[used[n]]), ChunkQuery(ns, key, n as byte))
    requires o.Some? ==> OnlyPage(img, c, used[n]) && LessOne(RecsOf(img[used[n]]), o.value, RecsOf(c[used[n]]))
    requires o.Some? ==> Judge(o.value.item, ChunkQuery(ns, key, n as byte)).Take?
    ensures LeftOn(img0, c, used, n + 1, ns, key)
  {
    hide RecsOf, Live, Unique, LessOne, Condemned, IsChunkNo, Judge;
    var p := used[n];
    forall x, r | 0 <= x < |c|
      ensures r in RecsOf(c[x]) <==> r in RecsOf(img0[x]) && !Condemned(img0, used, n + 1, ns, key, r)
    {
      CondemnedMore(img0, used, n, ns, key, r);
      TakenIsChunkNo(r, ns, key, n as byte);
      if r in RecsOf(img0[x]) && r in RecsOf(img0[p]) {
        OnOnePage(img0, x, p, r);
      }
      if o.Some? && x == p {
        LessOneMeans(RecsOf(img[p]), o.value, RecsOf(c[p]));
        GoneFrom(img, p, Live(img0), o.value, RecsOf(c[p]));
        TakenIsChunkNo(o.value, ns, key, n as byte);
        if r in RecsOf(img[p]) && IsChunkNo(r, ns, key, n) {
          SameChunkNo(Live(img0), r, o.value, ns, key, n);
        }
      }
    }
  }

  lemma SameChunkNo(all: multiset<Rec>, r: Rec, o: Rec, ns: byte, key: string, n: nat)
    requires Unique(all) && r in all && o in all && IsChunkNo(r, ns, key, n) && IsChunkNo(o, ns, key, n)
    ensures r == o
  {
  }

  lemma AllGoneOn(img0: seq<FPage>, img: seq<FPage>, used: seq<nat>, ns: byte, key: string)
    requires LeftOn(img0, img, used, |used|, ns, key)
    ensures forall r :: r in Live(img) <==> r in Live(img0) && !Condemned(img0, used, |used|, ns, key, r)
  {
    hide RecsOf, Live, Condemned;
    forall r ensures r in Live(img) <==> r in Live(img0) && !Condemned(img0, used, |used|, ns, key, r) {
      if r in Live(img) {
        var p := PageOf(img, r);
        assert r in RecsOf(img0[p]) && !Condemned(img0, used, |used|, ns, key, r);
        OnPageIsLive(img0, p, r);
      }
      if r in Live(img0) && !Condemned(img0, used, |used|, ns, key, r) {
        var p := PageOf(img0, r);
        assert r in RecsOf(img[p]);
        OnPageIsLive(img, p, r);
      }
    }
  }

  // Flash holds at least these and at most those records.
  ghost predicate Between(c: seq<FPage>, low: multiset<Rec>, high: multiset<Rec>) {
    exists live :: low <= live <= high && Recoverable(c, live)
  }

  lemma LessBetween(cuts: iset<seq<FPage>>, mid: iset<seq<FPage>>, cuts0: iset<seq<FPage>>, high: multiset<Rec>,
                    live: multiset<Rec>, now: multiset<Rec>, o: Option<Rec>)
    requires live <= high && now == live - if o.Some? then multiset{o.value} else multiset{}
    requires forall c :: c in mid && c !in cuts0 ==> Between(c, live, high)
    requires forall c :: c in cuts && c !in mid ==> o.Some? && AllOrAllBut(c, live, o.value)
    ensures forall c :: c in cuts && c !in cuts0 ==> Between(c, now, high)
  {
    hide Recoverable;
    forall c: seq<FPage> | c in cuts && c !in cuts0 ensures Between(c, now, high) {
      if c in mid {
        var x :| live <= x <= high && Recoverable(c, x);
        assert now <= x;
      }
    }
  }

  // ---------------------------------------------------------------- writing

  // What an attempt to write a blob did: the pieces it tried to write, the last of which may have
  // failed; what each page held that was to take one; the pages that did; and flash when it gave up.
  datatype Attempt = Attempt(tried: seq<seq<byte>>, hosts: seq<seq<Rec>>, used: seq<nat>, img: seq<FPage>)

  // Of the pieces that were tried, the last of which may have failed, the first `used` are there
  // as chunks.
  ghost predicate TriedAt(img: seq<FPage>, cuts: iset<seq<FPage>>, img0: seq<FPage>, cuts0: iset<seq<FPage>>, ns: byte,
                          key: string, start: byte, used: nat, tried: seq<seq<byte>>, hosts: seq<seq<Rec>>) {
    && |tried| <= 127 && Numbered(start, |tried|) && used <= |ChunkRecs(ns, key, start, tried)| == |tried|
    && Live(img) == Live(img0) + multiset(ChunkRecs(ns, key, start, tried)[..used])
    && (forall c :: c in cuts && c !in cuts0 ==> PartAdded(c, Live(img0), ChunkRecs(ns, key, start, tried)))
    && (AllClear(hosts, ns, key) && ChunksApart(img0) ==>
         ChunksApart(img) && forall c :: c in cuts && c !in cuts0 ==> ChunksApart(c))
  }

  lemma NothingTriedYet(img: seq<FPage>, cuts: iset<seq<FPage>>, ns: byte, key: string, start: byte)
    requires Numbered(start, 0)
    ensures TriedAt(img, cuts, img, cuts, ns, key, start, 0, [], [])
  {
    hide Live, Recoverable, ChunksApart, AllClear;
    NothingTried(Live(img), ns, key, start);
    assert multiset(ChunkRecs(ns, key, start, [])[..0]) == multiset{};
  }

  // One more piece has been tried, unless there were too many.
  lemma TriedMore(was: seq<FPage>, mid: iset<seq<FPage>>, img: seq<FPage>, cuts: iset<seq<FPage>>, img0: seq<FPage>,
                  cuts0: iset<seq<FPage>>, ns: byte, key: string, start: byte, pieces: seq<seq<byte>>,
                  hosts: seq<seq<Rec>>, piece: seq<byte>, host: seq<Rec>, written: bool) returns (tried: seq<seq<byte>>)
    requires TriedAt(was, mid, img0, cuts0, ns, key, start, |pieces|, pieces, hosts)
    requires |pieces| == 127 ==> cuts == mid && img == was && !written
    requires |pieces| < 127 ==> Numbered(start, |pieces| + 1)
    requires |pieces| < 127 ==>
      forall c :: c in cuts && c !in mid ==>
        || Recoverable(c, Live(was))
        || Recoverable(c, Live(was) + multiset{RecOf(ns, BLOB_DATA, key, Variable(piece), start + |pieces|)})
    requires Live(img) == Live(was) + if written
      then multiset{RecOf(ns, BLOB_DATA, key, Variable(piece), start + |pieces|)}
      else multiset{}
    requires ClearOf(host, ns, key) && ChunksApart(was) ==>
      ChunksApart(img) && forall c :: c in cuts && c !in mid ==> ChunksApart(c)
    ensures tried == if |pieces| == 127 then pieces else pieces + [piece]
    ensures TriedAt(img, cuts, img0, cuts0, ns, key, start, |pieces| + if written then 1 else 0, tried, hosts + [host])
  {
    hide Live, Recoverable, ChunksApart, AllClear, ClearOf, RecOf, PartAdded, ChunkRecs;
    ClearMore(hosts, host, ns, key);
    AllTaken(ns, key, start, pieces);
    tried := pieces;
    if |pieces| < 127 {
      tried := pieces + [piece];
      OneMorePiece(ns, key, start, pieces, piece);
      OneMoreAdded(cuts, mid, cuts0, Live(img0), ChunkRecs(ns, key, start, pieces),
        RecOf(ns, BLOB_DATA, key, Variable(piece), start + |pieces|));
    }
    TriedRecords(Live(img0), ns, key, start, pieces, tried, written, piece);
  }

  // First room was made, then the chunks were written.
  lemma TailroomThenChunks(img0: seq<FPage>, mid: iset<seq<FPage>>, cuts0: iset<seq<FPage>>, was: seq<FPage>,
                           img: seq<FPage>, cuts: iset<seq<FPage>>, ns: byte, key: string, start: byte, used: nat,
                           tried: seq<seq<byte>>, hosts: seq<seq<Rec>>)
    requires Live(was) == Live(img0) && (ChunksApart(img0) ==> ChunksApart(was))
    requires forall c :: c in mid && c !in cuts0 ==> Safe(img0, c, Live(img0))
    requires TriedAt(img, cuts, was, mid, ns, key, start, used, tried, hosts)
    ensures TriedAt(img, cuts, img0, cuts0, ns, key, start, used, tried, hosts)
  {
    hide Live, Recoverable, ChunksApart, AllClear, PartAdded, ChunkRecs;
    AllPart(cuts, mid, cuts0, Live(img0), ChunkRecs(ns, key, start, tried));
  }

  lemma SafeApart(img: seq<FPage>, cuts: iset<seq<FPage>>, cuts0: iset<seq<FPage>>, live: multiset<Rec>)
    requires forall c :: c in cuts && c !in cuts0 ==> Safe(img, c, live)
    ensures ChunksApart(img) ==> forall c :: c in cuts && c !in cuts0 ==> ChunksApart(c)
  {
    hide Recoverable, ChunksApart;
  }

  lemma LiveWritable(rams: seq<Ram>, img: seq<FPage>, list: seq<nat>, free: seq<nat>, next: nat, hashOf: Id -> nat)
    requires InOrder(rams, img, list, free, next, hashOf)
    ensures forall r :: r in Live(img) ==> WritableId(r.item)
  {
    hide RamOk, Live, Recs, Quiet, InOrder, WritableId;
    forall r | r in Live(img) ensures WritableId(r.item) {
      var p := PageOf(img, r);
      RecordPage(rams, img, list, free, next, hashOf, p);
      RecWritable(img[p].slots, rams[p].top, r);
    }
  }

  // The name has no chunk of this version.
  ghost predicate VersionFree(live: multiset<Rec>, ns: byte, key: string, start: byte) {
    forall r :: r in live && r.item.typ.BLOB_DATA? && OfName(r, ns, key) ==> !(start <= r.item.chunk < start + 127)
  }

  lemma {:induction false} UniqueWith(before: multiset<Rec>, ns: byte, key: string, start: byte, pieces: seq<seq<byte>>,
                                      n: nat)
    requires Unique(before) && VersionFree(before, ns, key, start) && n <= |pieces| <= 127 && Numbered(start, |pieces|)
    requires forall x :: x in before ==> WritableId(x.item)
    ensures |ChunkRecs(ns, key, start, pieces)| == |pieces|
    ensures Unique(before + multiset(ChunkRecs(ns, key, start, pieces)[..n]))
    decreases n
  {
    hide Unique, ChunkRecs, VersionFree;
    ChunkCount(ns, key, start, pieces);
    var recs := ChunkRecs(ns, key, start, pieces);
    if n == 0 {
      assert before + multiset(recs[..0]) == before;
    } else {
      UniqueWith(before, ns, key, start, pieces, n - 1);
      ChunkIn(ns, key, start, pieces, n - 1);
      assert recs[..n] == recs[..n - 1] + [recs[n - 1]];
      assert before + multiset(recs[..n]) == before + multiset(recs[..n - 1]) + multiset{recs[n - 1]};
      forall r | r in before + multiset(recs[..n - 1]) ensures IdOf(r.item) != IdOf(recs[n - 1].item) {
        OtherId(before, ns, key, start, pieces, n, r);
      }
      UniqueMore(before + multiset(recs[..n - 1]), recs[n - 1]);
    }
  }

  lemma {:induction false} OtherId(before: multiset<Rec>, ns: byte, key: string, start: byte, pieces: seq<seq<byte>>,
                                   n: nat, r: Rec)
    requires VersionFree(before, ns, key, start) && 0 < n <= |pieces| <= 127 && Numbered(start, |pieces|)
    requires n <= |ChunkRecs(ns, key, start, pieces)|
      && r in before + multiset(ChunkRecs(ns, key, start, pieces)[..n - 1])
    requires forall x :: x in before ==> WritableId(x.item)
    ensures IdOf(r.item) != IdOf(ChunkRecs(ns, key, start, pieces)[n - 1].item)
  {
    hide ChunkRecs;
    var recs := ChunkRecs(ns, key, start, pieces);
    ChunkIn(ns, key, start, pieces, n - 1);
    if r !in before {
      assert r in recs[..n - 1];
      var k :| 0 <= k < n - 1 && recs[k] == r;
      ChunkIn(ns, key, start, pieces, k);
    }
  }

  lemma UniqueMore(live: multiset<Rec>, n: Rec)
    requires Unique(live) && forall r :: r in live ==> IdOf(r.item) != IdOf(n.item)
    ensures Unique(live + multiset{n})
  {
    assert n !in live;
  }

  // Power that fails while a blob is written leaves some of its chunks, or all and the index or not.
  ghost predicate WritingBlob(c: seq<FPage>, before: multiset<Rec>, recs: seq<Rec>, idx: Rec) {
    PartAdded(c, before, recs) || Appending(c, before + multiset(recs), idx)
  }

  // After a write that failed: the chunks that were written are there, but for those erased again.
  ghost predicate Unwritten(before: multiset<Rec>, now: multiset<Rec>, ns: byte, key: string, start: byte, t: Attempt) {
    && |t.tried| <= 127 && Numbered(start, |t.tried|) && |t.used| <= |ChunkRecs(ns, key, start, t.tried)|
    && Live(t.img) == before + multiset(ChunkRecs(ns, key, start, t.tried)[..|t.used|])
    && forall r :: r in now <==> r in Live(t.img) && !Condemned(t.img, t.used, |t.used|, ns, key, r)
  }

  lemma NoAttempt(before: multiset<Rec>, ns: byte, key: string, start: byte, img: seq<FPage>)
    requires Live(img) == before
    ensures Unwritten(before, before, ns, key, start, Attempt([], [], [], img))
  {
    assert ChunkRecs(ns, key, start, [])[..0] == [];
  }

  // The record that was written last is the last one of the active page.
  lemma IsAppended(rams: seq<Ram>, img: seq<FPage>, list: seq<nat>, free: seq<nat>, next: nat, hashOf: Id -> nat,
                   recs: seq<Rec>, live: multiset<Rec>, n: Rec)
    requires InOrder(rams, img, list, free, next, hashOf) && list != [] && list[|list| - 1] < |rams|
      && rams[list[|list| - 1]].state.ACTIVE?
    requires list[|list| - 1] < |img| && RecsOf(img[list[|list| - 1]]) == recs + [n] && Live(img) == live + multiset{n}
    ensures Appended(img, live, n, list[|list| - 1])
  {
    hide RamOk, RecsOf, Live;
    HeadersAre(rams, img, hashOf);
    InOrderIsStable(rams, img, list, free, next, hashOf);
  }

  lemma {:induction false} NothingTried(before: multiset<Rec>, ns: byte, key: string, start: byte)
    ensures ChunkRecs(ns, key, start, []) == [] && before + multiset(ChunkRecs(ns, key, start, [])) == before
  {
  }

  lemma SafeBetween(img: seq<FPage>, cuts: iset<seq<FPage>>, cuts0: iset<seq<FPage>>, before: multiset<Rec>,
                    now: multiset<Rec>, high: multiset<Rec>)
    requires before <= high && forall c :: c in cuts && c !in cuts0 ==> Safe(img, c, before)
    ensures forall c :: c in cuts && c !in cuts0 ==> Between(c, before * now, high)
  {
    hide Recoverable, ChunksApart;
    assert before * now <= before <= high;
  }

  lemma PartBetween(cuts: iset<seq<FPage>>, mid: iset<seq<FPage>>, cuts0: iset<seq<FPage>>, before: multiset<Rec>,
                    recs: seq<Rec>, now: multiset<Rec>, high: multiset<Rec>)
    requires forall c :: c in mid && c !in cuts0 ==> PartAdded(c, before, recs)
    requires forall c :: c in cuts && c !in mid ==> Between(c, now, high)
    requires high <= before + multiset(recs)
    ensures forall c :: c in cuts && c !in cuts0 ==> Between(c, before * now, before + multiset(recs))
  {
    hide Recoverable;
    forall c: seq<FPage> | c in cuts && c !in cuts0 ensures Between(c, before * now, before + multiset(recs)) {
      if c in mid {
        var j :| 0 <= j <= |recs| && Recoverable(c, before + multiset(recs[..j]));
        PrefixCounts(recs, j);
        assert before * now <= before <= before + multiset(recs[..j]) <= before + multiset(recs);
      } else {
        var live :| now <= live <= high && Recoverable(c, live);
        assert before * now <= now;
      }
    }
  }

  lemma PrefixCounts(recs: seq<Rec>, j: nat)
    requires j <= |recs|
    ensures multiset(recs[..j]) <= multiset(recs)
  {
    assert recs == recs[..j] + recs[j..];
  }

  lemma WritingCuts(cuts: iset<seq<FPage>>, mid: iset<seq<FPage>>, cuts0: iset<seq<FPage>>, before: multiset<Rec>,
                    recs: seq<Rec>, img: seq<FPage>, idx: Rec)
    requires Live(img) == before + multiset(recs)
    requires forall c :: c in mid && c !in cuts0 ==> PartAdded(c, before, recs)
    requires forall c :: c in cuts && c !in mid ==> AppendCut(c, Live(img), idx, true)
    ensures forall c :: c in cuts && c !in cuts0 ==> WritingBlob(c, before, recs, idx)
  {
    hide Recoverable, PartAdded, Appending, Live;
  }

  // ---------------------------------------------------------------- one blob for another

  function PartsOf(ns: byte, key: string, b: Blob): multiset<Rec>
    requires BlobOk(b)
  {
    multiset{IndexOf(ns, key, b)} + multiset(ChunksOf(ns, key, b))
  }

  // The name stands for this blob, or for nothing.
  ghost predicate OnlyBlob(live: multiset<Rec>, ns: byte, key: string, b: Option<Blob>) {
    match b
    case None => forall r :: r in live ==> !OfName(r, ns, Truncated(key))
    case Some(x) =>
      BlobOk(x) && PartsOf(ns, key, x) <= live
        && forall r :: r in live && OfName(r, ns, Truncated(key)) ==> r in PartsOf(ns, key, x)
  }

  lemma PartIs(ns: byte, key: string, b: Blob, r: Rec) returns (i: nat)
    requires BlobOk(b) && r in PartsOf(ns, key, b)
    ensures OfName(r, ns, Truncated(key)) && i <= |b.pieces|
    ensures if i == |b.pieces| then r == IndexOf(ns, key, b) && r.item.typ.BLOB_IDX? && r.item.chunk == CHUNK_ANY
      else r == ChunkOfBlob(ns, key, b, i) && r.item.typ.BLOB_DATA? && r.item.chunk == b.start + i < CHUNK_ANY
  {
    hide ChunkRecs;
    i := |b.pieces|;
    if r != IndexOf(ns, key, b) {
      var recs := ChunksOf(ns, key, b);
      assert r in recs;
      i :| 0 <= i < |recs| && recs[i] == r;
      ChunkCount(ns, Truncated(key), b.start, b.pieces);
      ChunkIn(ns, Truncated(key), b.start, b.pieces, i);
    }
  }

  lemma ChunkIsPart(ns: byte, key: string, b: Blob, i: nat)
    requires BlobOk(b) && i < |b.pieces|
    ensures ChunkOfBlob(ns, key, b, i) in PartsOf(ns, key, b) && ChunkOfBlob(ns, key, b, i) in ChunksOf(ns, key, b)
  {
    hide ChunkRecs;
    ChunkIn(ns, Truncated(key), b.start, b.pieces, i);
  }

  // A blob that a name stands for is found, with all of its parts.
  lemma OnlyBlobIsFound(live: multiset<Rec>, ns: byte, key: string, b: Option<Blob>)
    requires OnlyBlob(live, ns, key, b) && ns != NS_ANY
    ensures FindsIndex(live, ns, key, b)
  {
    hide BlobOk, PartsOf, IndexOf, ChunkOfBlob, OnlyAsked, HasIndex, HasChunks;
    match b
    case None =>
      NothingAsked(live, ns, key);
    case Some(x) =>
      IndexFound(live, ns, key, x);
      ChunksFound(live, ns, key, x);
  }

  lemma NothingAsked(live: multiset<Rec>, ns: byte, key: string)
    requires OnlyBlob(live, ns, key, None) && ns != NS_ANY
    ensures OnlyAsked(live, IndexQuery(ns, key, VER_ANY), None)
  {
  }

  lemma IndexTaken(ns: byte, key: string, b: Blob)
    requires BlobOk(b) && ns != NS_ANY
    ensures IndexOf(ns, key, b) in PartsOf(ns, key, b)
    ensures Judge(IndexOf(ns, key, b).item, IndexQuery(ns, key, VER_ANY)).Take?
      && Judge(IndexOf(ns, key, b).item, IndexQuery(ns, key, b.start)).Take?
  {
  }

  lemma ChunkTaken(ns: byte, key: string, b: Blob, i: nat)
    requires BlobOk(b) && i < |b.pieces| && ns != NS_ANY
    ensures b.start + i < CHUNK_ANY && Judge(ChunkOfBlob(ns, key, b, i).item, ChunkQuery(ns, key, b.start + i)).Take?
  {
  }

  // What searches for parts of a name ask for.
  lemma IndexAsked(x: Rec, ns: byte, key: string, ver: byte)
    requires Asked(x, IndexQuery(ns, key, ver)) && ns != NS_ANY
    ensures OfName(x, ns, Truncated(key)) && x.item.chunk == CHUNK_ANY
      && (ver != VER_ANY ==> ChunkStartOf(x.item.val) == ver)
  {
  }

  lemma ChunkAsked(x: Rec, ns: byte, key: string, chunk: byte)
    requires Asked(x, ChunkQuery(ns, key, chunk)) && ns != NS_ANY && chunk != CHUNK_ANY
    ensures OfName(x, ns, Truncated(key)) && x.item.chunk == chunk
  {
  }

  lemma IndexFound(live: multiset<Rec>, ns: byte, key: string, b: Blob)
    requires OnlyBlob(live, ns, key, Some(b)) && ns != NS_ANY
    ensures BlobOk(b) && HasIndex(live, ns, key, b)
  {
    hide BlobOk, PartsOf, IndexOf, ChunkOfBlob, Judge;
    var q, idx := IndexQuery(ns, key, VER_ANY), IndexOf(ns, key, b);
    IndexTaken(ns, key, b);
    forall x | x in live && Asked(x, q) ensures x == idx {
      IndexAsked(x, ns, key, VER_ANY);
      var i := PartIs(ns, key, b, x);
    }
  }

  lemma ChunksFound(live: multiset<Rec>, ns: byte, key: string, b: Blob)
    requires OnlyBlob(live, ns, key, Some(b)) && ns != NS_ANY
    ensures BlobOk(b) && HasChunks(live, ns, key, b)
  {
    hide BlobOk, PartsOf, IndexOf, ChunkOfBlob, Judge;
    forall k | 0 <= k < |b.pieces|
      ensures b.start + k < CHUNK_ANY
        && OnlyAsked(live, ChunkQuery(ns, key, b.start + k), Some(ChunkOfBlob(ns, key, b, k)))
    {
      ChunkTaken(ns, key, b, k);
      ChunkIsPart(ns, key, b, k);
      forall x | x in live && Asked(x, ChunkQuery(ns, key, b.start + k)) ensures x == ChunkOfBlob(ns, key, b, k) {
        ChunkAsked(x, ns, key, b.start + k);
        var i := PartIs(ns, key, b, x);
      }
    }
  }

  // The other version.
  function Toggled(b: Option<Blob>): byte {
    if b.Some? && b.value.start == 0 then 128 else 0
  }

  lemma ToggledIsFree(live: multiset<Rec>, ns: byte, key: string, b: Option<Blob>)
    requires OnlyBlob(live, ns, key, b)
    ensures VersionFree(live, ns, Truncated(key), Toggled(b))
  {
    hide PartsOf, IndexOf, ChunkOfBlob, ChunkRecs;
    forall r | r in live && r.item.typ.BLOB_DATA? && OfName(r, ns, Truncated(key))
      ensures !(Toggled(b) <= r.item.chunk < Toggled(b) + 127) {
      var i := PartIs(ns, key, b.value, r);
    }
  }

  // While two versions are there the old one can be told from the new one.
  lemma OldErasable(live: multiset<Rec>, ns: byte, key: string, b: Blob, n: Blob)
    requires OnlyBlob(live, ns, key, Some(b)) && BlobOk(n) && n.start != b.start && ns != NS_ANY
    ensures Erasable(live + PartsOf(ns, key, n), ns, key, b.start, b)
  {
    hide PartsOf, IndexOf, ChunkOfBlob, Judge, Joined;
    var both := live + PartsOf(ns, key, n);
    IndexTaken(ns, key, b);
    forall x | x in both && Asked(x, IndexQuery(ns, key, b.start)) ensures x == IndexOf(ns, key, b) {
      IndexAsked(x, ns, key, b.start);
      if x in live {
        var i := PartIs(ns, key, b, x);
      } else {
        var i := PartIs(ns, key, n, x);
        IndexMeans(ns, key, n);
      }
    }
    forall k | 0 <= k < |b.pieces|
      ensures OnlyAsked(both, ChunkQuery(ns, key, b.start + k), Some(ChunkOfBlob(ns, key, b, k)))
    {
      ChunkTaken(ns, key, b, k);
      ChunkIsPart(ns, key, b, k);
      forall x | x in both && Asked(x, ChunkQuery(ns, key, b.start + k)) ensures x == ChunkOfBlob(ns, key, b, k) {
        ChunkAsked(x, ns, key, b.start + k);
        if x in live {
          var i := PartIs(ns, key, b, x);
        } else {
          var i := PartIs(ns, key, n, x);
        }
      }
    }
  }

  ghost function Without(live: multiset<Rec>, ns: byte, key: string, b: Option<Blob>): multiset<Rec>
    requires b.Some? ==> BlobOk(b.value)
  {
    if b.Some? then live - PartsOf(ns, key, b.value) else live
  }

  // With the blob gone the name stands for nothing.
  lemma NoneNamedWithout(live: multiset<Rec>, ns: byte, key: string, b: Option<Blob>)
    requires OnlyBlob(live, ns, key, b) && Unique(live)
    ensures b.Some? ==> BlobOk(b.value)
    ensures Unique(Without(live, ns, key, b)) && OnlyBlob(Without(live, ns, key, b), ns, key, None)
    ensures forall r :: !OfName(r, ns, Truncated(key)) ==> Without(live, ns, key, b)[r] == live[r]
  {
    hide PartsOf, BlobOk;
    if b.Some? {
      forall r ensures OfName(r, ns, Truncated(key)) ==> Without(live, ns, key, b)[r] == 0
        ensures !OfName(r, ns, Truncated(key)) ==> Without(live, ns, key, b)[r] == live[r]
      {
        if r in PartsOf(ns, key, b.value) {
          var i := PartIs(ns, key, b.value, r);
        }
      }
    }
  }

  lemma ChunksUnique(rest: multiset<Rec>, ns: byte, key: string, n: Blob)
    requires Unique(rest) && VersionFree(rest, ns, Truncated(key), n.start) && BlobOk(n)
      && (forall r :: r in rest ==> WritableId(r.item))
    ensures Unique(rest + multiset(ChunksOf(ns, key, n)))
  {
    hide ChunkRecs, Unique, Joined;
    UniqueWith(rest, ns, Truncated(key), n.start, n.pieces, |n.pieces|);
    assert ChunksOf(ns, key, n)[..|n.pieces|] == ChunksOf(ns, key, n);
  }

  // A name that stands for nothing is given a blob.
  lemma BlobAdded(rest: multiset<Rec>, ns: byte, key: string, n: Blob)
    requires Unique(rest) && OnlyBlob(rest, ns, key, None) && BlobOk(n)
      && (forall r :: r in rest ==> WritableId(r.item)) && ns != NS_ANY
    ensures Unique(rest + PartsOf(ns, key, n)) && OnlyBlob(rest + PartsOf(ns, key, n), ns, key, Some(n))
  {
    hide ChunkRecs, Unique, IndexOf, ChunkOfBlob, BlobOk;
    ChunksUnique(rest, ns, key, n);
    var some, idx := rest + multiset(ChunksOf(ns, key, n)), IndexOf(ns, key, n);
    IndexTaken(ns, key, n);
    var k := PartIs(ns, key, n, idx);
    forall r | r in some ensures IdOf(r.item) != IdOf(idx.item) {
      if r !in rest {
        NotIndex(ns, key, n, r);
      }
    }
    UniqueMore(some, idx);
    assert some + multiset{idx} == rest + PartsOf(ns, key, n);
  }

  lemma ChunkIsPartOf(ns: byte, key: string, n: Blob, e: Rec)
    requires BlobOk(n) && e in ChunksOf(ns, key, n)
    ensures e in PartsOf(ns, key, n)
  {
  }

  lemma NotIndex(ns: byte, key: string, b: Blob, r: Rec)
    requires BlobOk(b) && r in ChunksOf(ns, key, b)
    ensures r.item.typ.BLOB_DATA? && r.item.chunk != CHUNK_ANY
  {
    hide ChunkRecs;
    var recs := ChunksOf(ns, key, b);
    ChunkCount(ns, Truncated(key), b.start, b.pieces);
    var i :| 0 <= i < |recs| && recs[i] == r;
    ChunkIn(ns, Truncated(key), b.start, b.pieces, i);
  }

  // ---------------------------------------------------------------- an update cut short

  // The old value, and maybe some chunks of the new one.
  ghost predicate OldSide(x: multiset<Rec>, live: multiset<Rec>, ns: byte, key: string, n: Blob)
    requires BlobOk(n)
  {
    live <= x <= live + multiset(ChunksOf(ns, key, n))
  }

  ghost function NewRecords(live: multiset<Rec>, ns: byte, key: string, b: Option<Blob>, n: Blob): multiset<Rec>
    requires BlobOk(n) && (b.Some? ==> BlobOk(b.value))
  {
    Without(live, ns, key, b) + PartsOf(ns, key, n)
  }

  // The new value, and maybe some chunks of the old one.
  ghost predicate NewSide(x: multiset<Rec>, live: multiset<Rec>, ns: byte, key: string, b: Option<Blob>, n: Blob)
    requires BlobOk(n) && (b.Some? ==> BlobOk(b.value))
  {
    var now := NewRecords(live, ns, key, b, n);
    now <= x <= now + if b.Some? then multiset(ChunksOf(ns, key, b.value)) else multiset{}
  }

  ghost predicate UpdateCut(c: seq<FPage>, live: multiset<Rec>, ns: byte, key: string, b: Option<Blob>, n: Blob)
    requires BlobOk(n) && (b.Some? ==> BlobOk(b.value))
  {
    exists x :: Recoverable(c, x) && (OldSide(x, live, ns, key, n) || NewSide(x, live, ns, key, b, n))
  }

  lemma WritingIsUpdate(c: seq<FPage>, live: multiset<Rec>, ns: byte, key: string, b: Option<Blob>, n: Blob)
    requires OnlyBlob(live, ns, key, b) && (b.Some? ==> BlobOk(b.value) && b.value.start != n.start) && BlobOk(n)
    requires WritingBlob(c, live, ChunksOf(ns, key, n), IndexOf(ns, key, n))
    ensures UpdateCut(c, live, ns, key, b, n)
  {
    hide Recoverable, ChunkRecs, BlobOk, IndexOf, Appending, PartsOf, OnlyBlob;
    var recs, idx := ChunksOf(ns, key, n), IndexOf(ns, key, n);
    if PartAdded(c, live, recs) {
      var j :| 0 <= j <= |recs| && Recoverable(c, live + multiset(recs[..j]));
      PrefixCounts(recs, j);
      assert OldSide(live + multiset(recs[..j]), live, ns, key, n);
    } else {
      assert recs[..|recs|] == recs;
      if b.Some? {
        IndexTwins(ns, key, b.value, n);
        IndexThere(live, ns, key, b.value);
      }
      var o := if b.Some? then Some(IndexOf(ns, key, b.value)) else None;
      AppendingIsRecoverable(c, live + multiset(recs), idx, o);
      IsNewSide(Updated(live + multiset(recs), o, idx), live, ns, key, b, n);
    }
  }

  lemma IndexTwins(ns: byte, key: string, b: Blob, n: Blob)
    requires BlobOk(b) && BlobOk(n) && b.start != n.start
    ensures Twins(IndexOf(ns, key, n), IndexOf(ns, key, b)) && IndexOf(ns, key, n) != IndexOf(ns, key, b)
  {
  }

  lemma IndexThere(live: multiset<Rec>, ns: byte, key: string, b: Blob)
    requires OnlyBlob(live, ns, key, Some(b))
    ensures BlobOk(b) && IndexOf(ns, key, b) in live && PartsOf(ns, key, b) <= live
  {
    assert IndexOf(ns, key, b) in PartsOf(ns, key, b);
  }

  lemma IsNewSide(x: multiset<Rec>, live: multiset<Rec>, ns: byte, key: string, b: Option<Blob>, n: Blob)
    requires BlobOk(n) && (b.Some? ==> BlobOk(b.value) && PartsOf(ns, key, b.value) <= live)
    requires x == Updated(live + multiset(ChunksOf(ns, key, n)),
      if b.Some? then Some(IndexOf(ns, key, b.value)) else None, IndexOf(ns, key, n))
    ensures NewSide(x, live, ns, key, b, n)
  {
    hide BlobOk, ChunkRecs, IndexOf;
    if b.Some? {
      var most, idx, chunks := live - PartsOf(ns, key, b.value), IndexOf(ns, key,
        b.value), multiset(ChunksOf(ns, key, b.value));
      assert live == most + chunks + multiset{idx};
      assert x == most + PartsOf(ns, key, n) + chunks;
    }
  }

  lemma ErasingIsUpdate(c: seq<FPage>, live: multiset<Rec>, ns: byte, key: string, b: Blob, n: Blob)
    requires BlobOk(b) && BlobOk(n) && ErasingBlob(c, live + PartsOf(ns, key, n), ns, key, b, true)
      && PartsOf(ns, key, b) <= live
    ensures UpdateCut(c, live, ns, key, Some(b), n)
  {
    hide Recoverable, ChunkRecs, BlobOk, IndexOf;
    var was := ChunksOf(ns, key, b);
    var most, idx, chunks := live - PartsOf(ns, key, b), IndexOf(ns, key, b), multiset(was);
    assert live == most + chunks + multiset{idx};
    var i :| 0 <= i <= |was| && Recoverable(c, live + PartsOf(ns, key, n) - multiset{idx} - multiset(was[..i]));
    var x := live + PartsOf(ns, key, n) - multiset{idx} - multiset(was[..i]);
    PrefixCounts(was, i);
    assert x == most + PartsOf(ns, key, n) + (chunks - multiset(was[..i]));
    assert NewSide(x, live, ns, key, Some(b), n);
  }

  lemma BlobCuts(cuts: iset<seq<FPage>>, mid: iset<seq<FPage>>, cuts0: iset<seq<FPage>>, live: multiset<Rec>, ns: byte,
                 key: string, b: Option<Blob>, n: Blob)
    requires OnlyBlob(live, ns, key, b) && (b.Some? ==> BlobOk(b.value) && b.value.start != n.start) && BlobOk(n)
    requires forall c :: c in mid && c !in cuts0 ==> WritingBlob(c, live, ChunksOf(ns, key, n), IndexOf(ns, key, n))
    requires forall c :: c in cuts && c !in mid ==>
      b.Some? && ErasingBlob(c, live + PartsOf(ns, key, n), ns, key, b.value, true)
    ensures forall c :: c in cuts && c !in cuts0 ==> UpdateCut(c, live, ns, key, b, n)
  {
    hide Recoverable, BlobOk, IndexOf, ChunksOf, WritingBlob, ErasingBlob, OnlyBlob, UpdateCut;
    forall c: seq<FPage> | c in cuts && c !in cuts0 ensures UpdateCut(c, live, ns, key, b, n) {
      if c in mid {
        WritingIsUpdate(c, live, ns, key, b, n);
      } else {
        IndexThere(live, ns, key, b.value);
        ErasingIsUpdate(c, live, ns, key, b.value, n);
      }
    }
  }

  // The blob the chunks make.
  lemma NewBlob(ns: byte, key: string, data: seq<byte>, start: byte, pieces: seq<seq<byte>>) returns (n: Blob)
    requires 0 < |pieces| < 128 && Numbered(start, |pieces|) && (start == VER_0_OFFSET || start == VER_1_OFFSET)
      && Joined(pieces) == data
    requires |data| <= 127 * 125 * 32 && |key| <= MAX_KEY_LENGTH
    ensures n == Blob(data, start, pieces) && BlobOk(n)
    ensures ChunksOf(ns, key, n) == ChunkRecs(ns, key, start, pieces)
      && IndexOf(ns, key, n) == IndexRec(ns, key, |data|, |pieces|, start)
  {
    n := Blob(data, start, pieces);
  }

  lemma SameBlobMeans(b: Blob, data: seq<byte>, crcOf: seq<byte> -> nat, n: nat, offset: nat)
    requires BlobOk(b) && n <= |b.pieces| && offset == |Joined(b.pieces[..n])| && |data| == |b.data|
    requires SameUpTo(b, data, crcOf, n)
    ensures n == |b.pieces| ==> offset == |data| && SameBlob(b, data, crcOf)
    ensures n < |b.pieces| ==> offset + |b.pieces[n]| <= |data|
    ensures n < |b.pieces| && SamePiece(b, data, crcOf, n, offset) ==>
      SameUpTo(b, data, crcOf, n + 1) && offset + |b.pieces[n]| == |Joined(b.pieces[..n + 1])|
    ensures n < |b.pieces| && !SamePiece(b, data, crcOf, n, offset) ==> !SameBlob(b, data, crcOf)
  {
    if n == |b.pieces| {
      assert b.pieces[..n] == b.pieces;
      assert data[..offset] == data;
    } else {
      JoinedMore(b, n);
      JoinedPrefix(b.pieces, n + 1);
    }
  }

  // The piece is there at this offset, with a checksum that passes.
  ghost predicate SamePiece(b: Blob, data: seq<byte>, crcOf: seq<byte> -> nat, n: nat, offset: nat)
    requires n < |b.pieces| && offset <= |data|
  {
    && offset + |b.pieces[n]| <= |data| && data[offset..offset + |b.pieces[n]|] == b.pieces[n]
    && crcOf(data[..|b.pieces[n]|]) == crcOf(b.pieces[n])
  }

  ghost predicate SameUpTo(b: Blob, data: seq<byte>, crcOf: seq<byte> -> nat, n: nat)
    requires n <= |b.pieces|
  {
    && |Joined(b.pieces[..n])| <= |data| && data[..|Joined(b.pieces[..n])|] == Joined(b.pieces[..n])
    && forall i :: 0 <= i < n ==> |b.pieces[i]| <= |data| && crcOf(data[..|b.pieces[i]|]) == crcOf(b.pieces[i])
  }

  // What a comparison takes for the same value: the checksum of each chunk is compared with that of
  // as many bytes at the start of the data, wherever the chunk begins.
  ghost predicate SameBlob(b: Blob, data: seq<byte>, crcOf: seq<byte> -> nat) {
    data == b.data
      && forall i :: 0 <= i < |b.pieces| ==>
      |b.pieces[i]| <= |data| && crcOf(data[..|b.pieces[i]|]) == crcOf(b.pieces[i])
  }

  lemma SamePieceMeans(b: Blob, data: seq<byte>, crcOf: seq<byte> -> nat, n: nat, offset: nat)
    requires n < |b.pieces| && offset <= |data|
    ensures var m := |b.pieces[n]|;
      SamePiece(b, data, crcOf, n, offset) <==>
        offset + m <= |data| && crcOf(data[..m]) == crcOf(b.pieces[n]) && data[offset..offset + m] == b.pieces[n]
  {
  }

  // Data of another length is not the same.
  lemma SameFromStart(b: Blob, data: seq<byte>, crcOf: seq<byte> -> nat)
    ensures SameUpTo(b, data, crcOf, 0) && (|data| != |b.data| ==> !SameBlob(b, data, crcOf))
      && |Joined(b.pieces[..0])| == 0
  {
  }

  lemma CmpMeansData(err: Error, data: seq<byte>, s: seq<Slot>, index: nat, size: nat)
    requires CmpAnswers(err, data, s, Hit(index), BLOB_DATA) && |data| == size
    ensures Whole(s, index)
    ensures RecAt(s, index).item.val.VarLength? && RecAt(s, index).item.val.dataSize == size ==>
      (err == OK <==> data == DataOf(RecAt(s, index)))
  {
    assert data[..size] == data;
  }

  // In place of the old blob there is the new one, and nothing else has changed.
  ghost predicate Replaced(before: multiset<Rec>, live: multiset<Rec>, ns: byte, key: string, b: Option<Blob>, n: Blob)
    requires BlobOk(n) && (b.Some? ==> BlobOk(b.value))
  {
    && live == Without(before, ns, key, b) + PartsOf(ns, key, n) && Unique(live) && OnlyBlob(live, ns, key, Some(n))
    && forall r :: !OfName(r, ns, Truncated(key)) ==> live[r] == before[r]
  }

  lemma IsReplaced(before: multiset<Rec>, ns: byte, key: string, b: Option<Blob>, n: Blob)
    requires Unique(before) && OnlyBlob(before, ns, key, b) && BlobOk(n) && ns != NS_ANY
      && forall r :: r in before ==> WritableId(r.item)
    ensures b.Some? ==> BlobOk(b.value)
    ensures Replaced(before, Without(before, ns, key, b) + PartsOf(ns, key, n), ns, key, b, n)
  {
    hide PartsOf, BlobOk, Unique, OnlyBlob, WritableId;
    NoneNamedWithout(before, ns, key, b);
    var rest := Without(before, ns, key, b);
    assert rest <= before;
    BlobAdded(rest, ns, key, n);
    forall r | !OfName(r, ns, Truncated(key)) ensures (rest + PartsOf(ns, key, n))[r] == before[r] {
      if r in PartsOf(ns, key, n) {
        var i := PartIs(ns, key, n, r);
      }
    }
  }

  lemma FreeForKey(live: multiset<Rec>, ns: byte, key: string, b: Option<Blob>)
    requires OnlyBlob(live, ns, key, b) && forall r :: r in live ==> WritableId(r.item)
    ensures VersionFree(live, ns, key, Toggled(b))
  {
    hide OnlyBlob;
    ToggledIsFree(live, ns, key, b);
  }

  // The new index has just been written: it supersedes the old one.
  lemma NewIndexSupersedes(img: seq<FPage>, live: multiset<Rec>, ns: byte, key: string, b: Blob, n: Blob, p: nat)
    requires OnlyBlob(live, ns, key, Some(b)) && BlobOk(n) && n.start != b.start
    requires Appended(img, live + multiset(ChunksOf(ns, key, n)), IndexOf(ns, key, n), p)
    ensures BlobOk(b) && Superseded(img, IndexOf(ns, key, b), Some(IndexOf(ns, key, n)), p)
      && Live(img) == live + PartsOf(ns, key, n)
  {
    hide ChunkRecs, IndexOf, Live, Sound, NoneFreeing, Spare, RecsOf, OnlyBlob;
    IndexThere(live, ns, key, b);
    IndexTwins(ns, key, b, n);
    var most, idx := live + multiset(ChunksOf(ns, key, n)), IndexOf(ns, key, n);
    assert Live(img) - multiset{idx} == most;
  }

  lemma WithoutIs(live: multiset<Rec>, ns: byte, key: string, b: Blob, n: Blob)
    requires OnlyBlob(live, ns, key, Some(b)) && BlobOk(n)
    ensures BlobOk(b)
      && WithoutBlob(live + PartsOf(ns, key, n), ns, key, b) == Without(live, ns, key, Some(b)) + PartsOf(ns, key, n)
  {
    hide ChunkRecs, IndexOf, BlobOk;
  }

  lemma OldBlobOk(live: multiset<Rec>, ns: byte, key: string, b: Option<Blob>)
    requires OnlyBlob(live, ns, key, b)
    ensures b.Some? ==> BlobOk(b.value)
  {
  }

  ghost predicate SameAsBefore(was: Option<Blob>, data: seq<byte>, crcOf: seq<byte> -> nat) {
    was.Some? && SameBlob(was.value, data, crcOf)
  }

  lemma AddedIs(live: multiset<Rec>, ns: byte, key: string, n: Blob)
    requires BlobOk(n)
    ensures live + multiset(ChunksOf(ns, key, n)) + multiset{IndexOf(ns, key, n)} == live + PartsOf(ns, key, n)
    ensures Without(live, ns, key, None) == live
  {
  }

  // What an update relies on.
  lemma BeforeUpdate(rams: seq<Ram>, img: seq<FPage>, list: seq<nat>, free: seq<nat>, next: nat, hashOf: Id -> nat,
                     live: multiset<Rec>, ns: byte, key: string, b: Option<Blob>)
    requires Keeps(rams, img, list, free, next, hashOf, live) && OnlyBlob(live, ns, key, b)
    ensures (b.Some? ==> BlobOk(b.value)) && (forall r :: r in live ==> WritableId(r.item))
      && VersionFree(live, ns, key, Toggled(b))
    ensures Toggled(b) == VER_0_OFFSET || Toggled(b) == VER_1_OFFSET
    ensures b.Some? ==>
      Toggled(b) != b.value.start && Toggled(b) == if b.value.start == VER_0_OFFSET then VER_1_OFFSET else VER_0_OFFSET
    ensures b.None? ==> Toggled(b) == VER_0_OFFSET
  {
    hide InOrder, Live, OnlyBlob, WritableId, VersionFree;
    OldBlobOk(live, ns, key, b);
    LiveWritable(rams, img, list, free, next, hashOf);
    FreeForKey(live, ns, key, b);
  }

  // ---------------------------------------------------------------- updates that fail

  // Chunks are erased again by numbers counted from 0. If the new version is the one that starts at
  // 0, nothing of the old value is touched. Otherwise all chunks that were written stay, and what is
  // erased are chunks of the old value: exactly those on the page that the new chunk of the same
  // place in the blob went to.
  lemma {:induction false} FailedUpdate(before: multiset<Rec>, now: multiset<Rec>, ns: byte, key: string,
                                        b: Option<Blob>, t: Attempt)
    requires OnlyBlob(before, ns, key, b) && Unwritten(before, now, ns, key, Toggled(b), t)
    ensures Toggled(b) == VER_0_OFFSET ==> forall r :: r in before ==> r in now
    ensures Toggled(b) == VER_1_OFFSET ==>
      forall r :: r in ChunkRecs(ns, key, VER_1_OFFSET, t.tried)[..|t.used|] ==> r in now
    ensures forall r :: r in before ==> (r in now <==> !Condemned(t.img, t.used, |t.used|, ns, key, r))
  {
    hide ChunkRecs, PartsOf, IndexOf, ChunkOfBlob, Live, RecsOf;
    ChunkCount(ns, key, Toggled(b), t.tried);
    forall r | r in before && Condemned(t.img, t.used, |t.used|, ns, key, r)
      ensures b.Some? && b.value.start == VER_0_OFFSET {
      var i := PartIs(ns, key, b.value, r);
    }
    var recs := ChunkRecs(ns, key, Toggled(b), t.tried)[..|t.used|];
    forall r | r in recs && Toggled(b) == VER_1_OFFSET ensures r in now {
      var k :| 0 <= k < |recs| && recs[k] == r;
      ChunkIn(ns, key, Toggled(b), t.tried, k);
      assert r in multiset(recs);
    }
  }
}
