// Storage::init (nvs_storage.cpp): loads the pages, then clears away blobs that are not complete.
module StorageInits {
  import opened NvsTypes
  import opened PageImage
  import opened PageRam
  import opened PageSearch
  import opened PageSteps
  import opened FlashDevice
  import opened ItemHashList
  import opened StoreImage
  import opened Recovery
  import opened PageLists
  import opened Startup
  import opened PageManagers
  import opened StoreSearch
  import opened StoreUpdates
  import opened StoreMap
  import opened StoreWalk
  import opened BlobSearch
  import opened BlobUpdates
  import opened BlobPurge
  import opened Storages

  // All records, in list order.
  ghost function ListedAll(s: Storage): seq<Rec>
    requires s.Valid()
    reads s.pm, s.pm.dev, s.pm.Objects()
  {
    InRange(s.pm.Rams(), s.pm.dev.pages, s.pm.pageList, s.pm.freeList, s.pm.seqNumber, s.pm.hashOf);
    ListRecs(s.pm.dev.pages, s.pm.pageList, 0)
  }

  // The records of a store, and what walking over them finds.
  lemma WalkFinds(s: Storage)
    requires s.Valid() && Unique(s.Records())
    ensures IndicesOf(Of(ListedAll(s), INDEX_WALK), s.Records()) && ChunksIn(Of(ListedAll(s), CHUNK_WALK), s.Records())
  {
    hide HashList.Valid, InOrder, RamsOk, Live, Unique, IndicesOf, ChunksIn, WritableId, PageManager.Wired,
      PageManager.HashListsOk;
    AllAreListed(s.pm.Rams(), s.pm.dev.pages, s.pm.pageList, s.pm.freeList, s.pm.seqNumber, s.pm.hashOf);
    LiveWritable(s.pm.Rams(), s.pm.dev.pages, s.pm.pageList, s.pm.freeList, s.pm.seqNumber, s.pm.hashOf);
    WalkedIndices(ListedAll(s), s.Records());
    WalkedChunks(ListedAll(s), s.Records());
  }

  // What the header of an item found on a page holds.
  lemma HeaderHas(rams: seq<Ram>, img: seq<FPage>, list: seq<nat>, free: seq<nat>, next: nat, hashOf: Id -> nat, p: nat,
                  i: nat, r: Rec)
    requires InOrder(rams, img, list, free, next, hashOf) && IsAt(rams, img, p, i, r)
    ensures WritableId(r.item) && (r.item.typ.BLOB_IDX? ==> IsIndex(r))
      && (r.item.typ.BLOB_DATA? ==> r.item.val.VarLength?)
    ensures r in Live(img) && r.item.span >= 1
  {
    hide RamOk, Quiet, Recs, Live, WritableId;
    RecordPage(rams, img, list, free, next, hashOf, p);
    HeadOfItem(img[p].slots, rams[p].top, i);
    OnPageIsLive(img, p, r);
  }

  lemma HeadOfItem(s: seq<Slot>, nf: nat, i: nat)
    requires Quiet(s, nf) && i < |s| && Whole(s, i)
    ensures HeadFits(s, i, nf) && RecAt(s, i).item == s[i].body.item
  {
    HeadOfWhole(s, nf, i);
  }

  // The list of all blob indices.
  method PopulateBlobIndices(s: Storage) returns (nodes: seq<BlobNode>, ghost idx: seq<Rec>)
    requires s.Valid() && Unique(s.Records())
    ensures s.Valid() && s.pm.Rams() == old(s.pm.Rams()) && IndicesOf(idx, s.Records()) && NodesOf(nodes, idx, [])
  {
    hide HashList.Valid, InOrder, Of, Ahead, PageManager.Wired, RamsOk, CursorOk, ListRecs, Live, Unique, IsAt,
      IndicesOf, ChunksIn, Sought, WritableId, PageManager.HashListsOk;
    ghost var rams, all := s.pm.Rams(), ListedAll(s);
    WalkFinds(s);
    PageStart(rams, s.pm.dev.pages, s.pm.pageList, s.pm.freeList, s.pm.seqNumber, s.pm.hashOf, 0, INDEX_WALK);
    nodes, idx := [], [];
    var cur, more := Cursor(0, 0), true;
    while more
      invariant s.pm.Rams() == rams && s.Valid() && CursorOk(rams, s.pm.dev.pages, s.pm.pageList, cur)
      invariant forall j :: 0 <= j < |s.pm.pageList| ==> s.pm.pageList[j] < |s.pm.dev.pages|
      invariant Of(all, INDEX_WALK) ==
        idx + (if more then Ahead(s.pm.dev.pages, s.pm.pageList, cur, INDEX_WALK) else [])
      invariant NodesOf(nodes, idx, [])
      decreases more, |Ahead(s.pm.dev.pages, s.pm.pageList, cur, INDEX_WALK)|
    {
      var item: Option<Item>;
      ghost var i: nat, r: Option<Rec>;
      more, cur, item, i, r := s.NextRecord(cur, INDEX_WALK);
      if more {
        HeaderHas(rams, s.pm.dev.pages, s.pm.pageList, s.pm.freeList, s.pm.seqNumber, s.pm.hashOf,
          s.pm.pageList[cur.at], i, r.value);
        SoughtIndex(r.value);
        var v := item.value.val;
        nodes := nodes + [BlobNode(item.value.key, item.value.ns, v.chunkStart, v.chunkCount, v.totalSize, 0, 0)];
        idx := idx + [r.value];
      }
    }
    assert idx + [] == idx;
  }

  // Counts chunks and bytes for each blob of the list.
  method ObserveChunks(s: Storage, list: seq<BlobNode>, ghost idx: seq<Rec>)
    returns (nodes: seq<BlobNode>, ghost chunks: seq<Rec>)
    requires s.Valid() && Unique(s.Records()) && NodesOf(list, idx, []) && NamesDiffer(idx)
    ensures s.Valid() && s.pm.Rams() == old(s.pm.Rams()) && ChunksIn(chunks, s.Records()) && NodesOf(nodes, idx, chunks)
  {
    hide HashList.Valid, InOrder, Of, Ahead, PageManager.Wired, RamsOk, CursorOk, ListRecs, Live, Unique, IsAt,
      IndicesOf, ChunksIn, Sought, WritableId, NodesOf, NamesDiffer, PageManager.HashListsOk;
    ghost var rams, all := s.pm.Rams(), ListedAll(s);
    WalkFinds(s);
    PageStart(rams, s.pm.dev.pages, s.pm.pageList, s.pm.freeList, s.pm.seqNumber, s.pm.hashOf, 0, CHUNK_WALK);
    nodes, chunks := list, [];
    var cur, more := Cursor(0, 0), true;
    while more
      invariant s.pm.Rams() == rams && s.Valid() && CursorOk(rams, s.pm.dev.pages, s.pm.pageList, cur)
      invariant forall j :: 0 <= j < |s.pm.pageList| ==> s.pm.pageList[j] < |s.pm.dev.pages|
      invariant Of(all, CHUNK_WALK) ==
        chunks + (if more then Ahead(s.pm.dev.pages, s.pm.pageList, cur, CHUNK_WALK) else [])
      invariant NodesOf(nodes, idx, chunks)
      decreases more, |Ahead(s.pm.dev.pages, s.pm.pageList, cur, CHUNK_WALK)|
    {
      var item: Option<Item>;
      ghost var i: nat, r: Option<Rec>;
      more, cur, item, i, r := s.NextRecord(cur, CHUNK_WALK);
      if more {
        HeaderHas(rams, s.pm.dev.pages, s.pm.pageList, s.pm.freeList, s.pm.seqNumber, s.pm.hashOf,
          s.pm.pageList[cur.at], i, r.value);
        SoughtChunk(r.value);
        var k := FindFamily(nodes, item.value);
        OneMoreObserved(nodes, idx, chunks, r.value, k);
        if k < |nodes| {
          nodes := nodes[k := nodes[k].(observedSize := nodes[k].observedSize + item.value.val.dataSize,
            observedCount := nodes[k].observedCount + 1)];
        }
        chunks := chunks + [r.value];
      }
    }
    assert chunks + [] == chunks;
  }

  // ---------------------------------------------------------------- indices without all their chunks

  ghost predicate SomeHeader(img: seq<FPage>) {
    exists p :: 0 <= p < |img| && img[p].hdr.Header?
  }

  // Where nothing had to go nothing was written.
  ghost predicate Touched(s: Storage, img0: seq<FPage>, cuts0: iset<seq<FPage>>, gone: seq<Rec>)
    reads s, s.pm, s.pm.dev
  {
    if gone == [] then s.pm.dev.pages == img0 && s.pm.dev.cuts == cuts0 else SomeHeader(s.pm.dev.pages)
  }

  lemma StillHasHeader(rams: seq<Ram>, img: seq<FPage>, c: seq<FPage>, p: nat, i: nat, r: Rec)
    requires IsAt(rams, img, p, i, r) && p < |c| && c[p].hdr == img[p].hdr
    ensures SomeHeader(c)
  {
    WasAt(rams, img, p, i, r);
  }

  // Erases a blob index, on whatever page it is.
  method EraseIndexAnywhere(s: Storage, n: BlobNode, ghost i: Rec)
    requires s.Valid() && n.ns != NS_ANY && OnlyAsked(s.Records(), IndexQuery(n.ns, n.key, n.start), Some(i))
    modifies s.pm.dev, s.pm.Objects()
    ensures s.Valid() && s.Records() == old(s.Records()) - multiset{i}
    ensures s.pm.pages == old(s.pm.pages) && s.pm.pageList == old(s.pm.pageList) && s.pm.freeList == old(s.pm.freeList)
      && s.pm.seqNumber == old(s.pm.seqNumber)
    ensures forall c :: c in s.pm.dev.cuts && c !in old(s.pm.dev.cuts) ==> AllOrAllBut(c, old(s.Records()), i)
    ensures s.StillApart(old(s.pm.dev.pages), old(s.pm.dev.cuts), true) && SomeHeader(s.pm.dev.pages)
  {
    hide HashList.Valid, InOrder, PageManager.Wired, RamsOk, Live, OnlyAsked, IsAt, NotTaken, LessOne, AllOrAllBut,
      Removed, ChunksApart, Judge, RecsOf, PageManager.HashListsOk, SomeHeader;
    ghost var q, img := IndexQuery(n.ns, n.key, n.start), s.pm.dev.pages;
    InRange(s.pm.Rams(), img, s.pm.pageList, s.pm.freeList, s.pm.seqNumber, s.pm.hashOf);
    var at := 0;
    while at < |s.pm.pageList|
      invariant at <= |s.pm.pageList| && s.pm.pages == old(s.pm.pages) && s.pm.pageList == old(s.pm.pageList)
        && s.pm.freeList == old(s.pm.freeList)
      invariant s.pm.seqNumber == old(s.pm.seqNumber) && s.pm.Rams() == old(s.pm.Rams()) && s.pm.dev.pages == img
        && s.pm.dev.cuts == old(s.pm.dev.cuts)
      invariant s.Valid()
        && forall k :: 0 <= k < at ==> s.pm.pageList[k] < |img| && NotTaken(RecsOf(img[s.pm.pageList[k]]), q)
    {
      ghost var index, o;
      var err: Error;
      err, index, o := s.ErasePartOn(s.pm.pageList[at], IndexQuery(n.ns, n.key, n.start));
      if err == OK {
        TakenIsOnly(s.pm.dev.pages, img, old(s.Records()), q, i, s.pm.pageList[at], o.value);
        StillHasHeader(old(s.pm.Rams()), img, s.pm.dev.pages, s.pm.pageList[at], index, o.value);
        return;
      }
      at := at + 1;
    }
    IsTaken(s.pm.Rams(), img, s.pm.pageList, s.pm.freeList, s.pm.seqNumber, s.pm.hashOf, q, i);
  }

  lemma TakenIsOnly(c: seq<FPage>, img: seq<FPage>, live: multiset<Rec>, q: Query, i: Rec, p: nat, o: Rec)
    requires OnlyAsked(live, q, Some(i)) && Live(img) == live && p < |img| && p < |c|
      && LessOne(RecsOf(img[p]), o, RecsOf(c[p])) && Judge(o.item, q).Take?
    ensures o == i
  {
    hide Live, RecsOf, Judge, LessOne;
    LessOneMeans(RecsOf(img[p]), o, RecsOf(c[p]));
    OnPageIsLive(img, p, o);
  }

  // A search of all pages takes a record that is there.
  lemma IsTaken(rams: seq<Ram>, img: seq<FPage>, list: seq<nat>, free: seq<nat>, next: nat, hashOf: Id -> nat, q: Query,
                i: Rec)
    requires InOrder(rams, img, list, free, next, hashOf) && OnlyAsked(Live(img), q, Some(i))
    ensures exists k :: 0 <= k < |list| && list[k] < |img| && !NotTaken(RecsOf(img[list[k]]), q)
  {
    hide RamOk, InOrder, Live, RecsOf, Judge;
    var p := PageOf(img, i);
    RecordPage(rams, img, list, free, next, hashOf, p);
    var k :| 0 <= k < |list| && list[k] == p;
    if r :| r in RecsOf(img[p]) && Judge(r.item, q).Mismatch? {
      OnPageIsLive(img, p, r);
    }
    assert Asked(i, q);
  }

  // Of each blob in the list, whether its chunks are all there decides.
  ghost predicate Sifted(idx: seq<Rec>, k: nat, live: multiset<Rec>, kept: seq<Rec>, gone: seq<Rec>)
    requires k <= |idx|
  {
    && (forall i :: i in kept <==> i in idx[..k] && Matched(live, i))
    && (forall i :: i in gone <==> i in idx[..k] && !Matched(live, i))
    && Distinct(gone)
  }

  lemma SiftedMore(idx: seq<Rec>, k: nat, live: multiset<Rec>, kept: seq<Rec>, gone: seq<Rec>)
    requires k < |idx| && Distinct(idx) && Sifted(idx, k, live, kept, gone)
    ensures idx[k] !in gone
    ensures if Matched(live, idx[k]) then Sifted(idx, k + 1, live, kept + [idx[k]], gone)
      else Sifted(idx, k + 1, live, kept, gone + [idx[k]])
  {
    hide Matched;
    assert idx[..k + 1] == idx[..k] + [idx[k]];
    assert forall i :: i in idx[..k] ==> i != idx[k];
  }

  lemma IndexIsAsked(live: multiset<Rec>, gone: seq<Rec>, i: Rec)
    requires Unique(live) && i in live && i !in gone && IsIndex(i) && (forall r :: r in live ==> WritableId(r.item))
      && i.item.ns != NS_ANY
    ensures OnlyAsked(live - multiset(gone), IndexQuery(i.item.ns, i.item.key, i.item.val.chunkStart), Some(i))
  {
    var q := IndexQuery(i.item.ns, i.item.key, i.item.val.chunkStart);
    var now := live - multiset(gone);
    assert i !in multiset(gone);
    forall x | x in now && Asked(x, q) ensures x == i {
      IndexAsked(x, i.item.ns, i.item.key, i.item.val.chunkStart);
      assert x in live && IdOf(x.item) == IdOf(i.item);
    }
  }

  // eraseMismatchedBlobIndexes, once the chunks have been counted.
  method EraseMismatched(s: Storage, nodes: seq<BlobNode>, ghost idx: seq<Rec>, ghost chunks: seq<Rec>,
                         ghost live: multiset<Rec>)
    returns (kept: seq<BlobNode>, ghost keptIdx: seq<Rec>, ghost gone: seq<Rec>)
    requires s.Valid() && s.Records() == live && Unique(live) && IndicesOf(idx, live) && ChunksIn(chunks, live)
      && NodesOf(nodes, idx, chunks)
    modifies s.pm.dev, s.pm.Objects()
    ensures s.Valid() && s.pm.pages == old(s.pm.pages) && s.Records() == live - multiset(gone)
      && NodesOf(kept, keptIdx, chunks)
    ensures (forall i :: i in keptIdx <==> i in idx && Matched(live, i))
      && (forall i :: i in gone <==> i in idx && !Matched(live, i)) && Distinct(gone)
    ensures forall c :: c in s.pm.dev.cuts && c !in old(s.pm.dev.cuts) ==> Between(c, s.Records(), live)
    ensures s.StillApart(old(s.pm.dev.pages), old(s.pm.dev.cuts), true)
      && Touched(s, old(s.pm.dev.pages), old(s.pm.dev.cuts), gone)
  {
    hide HashList.Valid, InOrder, PageManager.Wired, RamsOk, Live, OnlyAsked, AllOrAllBut, ChunksApart, Unique, Matched,
      Between, NodeOf, WritableId, PageManager.HashListsOk, SomeHeader;
    LiveWritable(s.pm.Rams(), s.pm.dev.pages, s.pm.pageList, s.pm.freeList, s.pm.seqNumber, s.pm.hashOf);
    kept, keptIdx, gone := [], [], [];
    var k := 0;
    while k < |nodes|
      invariant k <= |nodes| && s.Valid() && s.pm.pages == old(s.pm.pages) && Sifted(idx, k, live, keptIdx, gone)
        && NodesOf(kept, keptIdx, chunks)
      invariant s.Records() == live - multiset(gone) && s.StillApart(old(s.pm.dev.pages), old(s.pm.dev.cuts), true)
      invariant Touched(s, old(s.pm.dev.pages), old(s.pm.dev.cuts), gone)
      invariant forall c :: c in s.pm.dev.cuts && c !in old(s.pm.dev.cuts) ==> Between(c, s.Records(), live)
    {
      SiftedMore(idx, k, live, keptIdx, gone);
      MatchedIs(live, chunks, idx[k]);
      if IsMatched(nodes[k]) {
        kept, keptIdx := kept + [nodes[k]], keptIdx + [idx[k]];
      } else {
        ghost var cuts, was := s.pm.dev.cuts, s.Records();
        assert idx[k] in idx;
        NodeHas(live, chunks, idx[k]);
        IndexIsAsked(live, gone, idx[k]);
        EraseIndexAnywhere(s, nodes[k], idx[k]);
        LessBetween(s.pm.dev.cuts, cuts, old(s.pm.dev.cuts), live, was, s.Records(), Some(idx[k]));
        GoneMore(live, gone, idx[k]);
        gone := gone + [idx[k]];
      }
      k := k + 1;
    }
    assert idx[..k] == idx;
  }

  lemma NodeHas(live: multiset<Rec>, chunks: seq<Rec>, i: Rec)
    requires IsIndex(i) && i in live && forall r :: r in live ==> WritableId(r.item)
    ensures var n := NodeOf(i, chunks);
      n.ns == i.item.ns != NS_ANY && n.key == i.item.key && n.start == i.item.val.chunkStart
  {
  }

  lemma GoneMore(live: multiset<Rec>, gone: seq<Rec>, i: Rec)
    ensures live - multiset(gone) - multiset{i} == live - multiset(gone + [i])
  {
  }

  // ---------------------------------------------------------------- chunks without an index

  // The search that is to erase a chunk finds the chunk it was meant for.
  lemma OrphanFound(rams: seq<Ram>, img: seq<FPage>, list: seq<nat>, free: seq<nat>, next: nat, hashOf: Id -> nat,
                    p: nat, i: nat, r: Rec, o: Option<Rec>, index: nat)
    requires InOrder(rams, img, list, free, next, hashOf) && IsAt(rams, img, p, i, r) && r.item.typ.BLOB_DATA?
      && Unique(Live(img)) && WritableId(r.item)
    requires o.None? ==> NotTaken(RecsOf(img[p]), ChunkQuery(r.item.ns, r.item.key, r.item.chunk))
    requires o.Some? ==>
      IsAt(rams, img, p, index, o.value) && Judge(o.value.item, ChunkQuery(r.item.ns, r.item.key, r.item.chunk)).Take?
    ensures o == Some(r) && index == i
  {
    hide RamOk, InOrder, Live, Recs, Whole;
    ChunkAskedFor(r);
    RecordPage(rams, img, list, free, next, hashOf, p);
    OnPageIsLive(img, p, r);
    if o.Some? {
      OnPageIsLive(img, p, o.value);
      assert IdOf(o.value.item) == IdOf(r.item);
      if index != i {
        TwiceOnPage(img, p, i, index, r);
      }
    }
  }

  lemma ChunkAskedFor(r: Rec)
    requires r.item.typ.BLOB_DATA? && WritableId(r.item)
    ensures Judge(r.item, ChunkQuery(r.item.ns, r.item.key, r.item.chunk)).Take?
  {
  }

  lemma TwiceOnPage(img: seq<FPage>, p: nat, i: nat, j: nat, r: Rec)
    requires p < |img| && i < |img[p].slots| && j < |img[p].slots| && i != j && RecsOf(img[p]) == Recs(img[p].slots)
    requires Whole(img[p].slots, i) && Whole(img[p].slots, j) && RecAt(img[p].slots, i) == r
      && RecAt(img[p].slots, j) == r
    ensures Live(img)[r] >= 2
  {
    hide RecsOf, Live, Whole;
    LiveAround(img, p);
    TwiceIn(img[p].slots, if i < j then i else j, if i < j then j else i, r);
  }

  lemma TwiceIn(s: seq<Slot>, i: nat, j: nat, r: Rec)
    requires i < j < |s| && Whole(s, i) && Whole(s, j) && RecAt(s, i) == r && RecAt(s, j) == r
    ensures multiset(Recs(s))[r] >= 2
  {
    hide Whole, RecsIn;
    RecsAround(s, j);
    RecsSplit(s, 0, i + 1, j);
    RecsSplit(s, 0, i, i + 1);
    RecsOne(s, i);
    var a, b, c := RecsIn(s, 0, i), RecsIn(s, i + 1, j), RecsIn(s, j + 1, |s|);
    assert Recs(s) == (a + [r] + b) + [r] + c;
    assert r in a + [r] + b by {
      assert (a + [r] + b)[|a|] == r;
    }
    assert r in multiset(a + [r] + b);
  }

  // What lies behind an item that was erased is as it was.
  lemma AheadStill(img: seq<FPage>, c: seq<FPage>, list: seq<nat>, next: Cursor, q: Query, nf: nat, i: nat)
    requires next.at < |list| && (forall j :: 0 <= j < |list| ==> list[j] < |img|)
      && (forall j, k :: 0 <= j < k < |list| ==> list[j] != list[k])
    requires var p := list[next.at];
      OnlyPage(img, c, p) && c[p].hdr == img[p].hdr && Removed(img[p].slots, c[p].slots, nf, i)
    requires next.index == i + SpanAt(img[list[next.at]].slots, i)
    ensures Ahead(c, list, next, q) == Ahead(img, list, next, q)
  {
    hide Of, RecsOf;
    var p := list[next.at];
    BehindStill(img[p].slots, c[p].slots, nf, i, next.index);
    ListedStill(img, c, list, next.at + 1, p);
  }

  lemma {:induction false} BehindStill(s: seq<Slot>, t: seq<Slot>, nf: nat, i: nat, index: nat)
    requires Removed(s, t, nf, i) && index == i + SpanAt(s, i)
    ensures |t| == |s| && (index <= |s| ==> RecsIn(t, index, |t|) == RecsIn(s, index, |s|))
  {
    if index <= |s| {
      forall k: nat | index <= k < |s| ensures Whole(s, k) == Whole(t, k) {
        assert forall j :: k <= j < |s| ==> t[j] == s[j];
      }
      forall k: nat | index <= k < |s| && Whole(s, k) && Whole(t, k) ensures RecAt(s, k) == RecAt(t, k) {
        assert forall j :: k <= j < |s| ==> t[j] == s[j];
      }
      RecsSame(s, t, index, |s|);
    }
  }

  lemma {:induction false} ListedStill(img: seq<FPage>, c: seq<FPage>, list: seq<nat>, k: nat, p: nat)
    requires |c| == |img| && (forall j :: 0 <= j < |list| ==> list[j] < |img|)
      && forall j :: k <= j < |list| ==> c[list[j]] == img[list[j]]
    ensures ListRecs(c, list, k) == ListRecs(img, list, k)
    decreases |list| - k
  {
    hide RecsOf;
    if k < |list| {
      ListedStill(img, c, list, k + 1, p);
    }
  }

  // The chunks passed so far that no blob of the list counts.
  ghost predicate OrphansOf(done: seq<Rec>, nodes: seq<BlobNode>, gone: seq<Rec>) {
    forall c :: c in gone <==> c in done && !AnyCounts(nodes, c.item)
  }

  lemma OrphansMore(done: seq<Rec>, nodes: seq<BlobNode>, gone: seq<Rec>, r: Rec)
    requires OrphansOf(done, nodes, gone)
    ensures OrphansOf(done + [r], nodes, if AnyCounts(nodes, r.item) then gone else gone + [r])
  {
    hide AnyCounts;
  }

  // The chunks a walk has still to come to.
  ghost function ChunksAhead(s: Storage, cur: Cursor): seq<Rec>
    reads s.pm, s.pm.dev
  {
    if forall j :: 0 <= j < |s.pm.pageList| ==> s.pm.pageList[j] < |s.pm.dev.pages|
    then Ahead(s.pm.dev.pages, s.pm.pageList, cur, CHUNK_WALK)
    else []
  }

  lemma FirstAhead(s: Storage)
    requires s.Valid()
    ensures CursorOk(s.pm.Rams(), s.pm.dev.pages, s.pm.pageList, Cursor(0, 0))
      && ChunksAhead(s, Cursor(0, 0)) == Of(ListedAll(s), CHUNK_WALK)
  {
    hide HashList.Valid, InOrder, RamsOk, Of, CursorOk, ListRecs, Ahead, PageManager.Wired, PageManager.HashListsOk;
    PageStart(s.pm.Rams(), s.pm.dev.pages, s.pm.pageList, s.pm.freeList, s.pm.seqNumber, s.pm.hashOf, 0, CHUNK_WALK);
  }

  // Erases a chunk that no blob of the list counts; the walk goes on behind it.
  method EraseOrphan(s: Storage, cur: Cursor, item: Item, ghost i: nat, ghost r: Rec)
    requires s.Valid() && Unique(s.Records()) && CursorOk(s.pm.Rams(), s.pm.dev.pages, s.pm.pageList, cur)
      && cur.at < |s.pm.pageList|
    requires item == r.item && item.typ.BLOB_DATA?
    requires IsAt(s.pm.Rams(), s.pm.dev.pages, s.pm.pageList[cur.at], i, r) && cur.index == i + item.span
    modifies s.pm.dev, s.pm.Objects()
    ensures s.Valid() && s.Records() == old(s.Records()) - multiset{r} && |s.pm.dev.pages| == |old(s.pm.dev.pages)|
    ensures s.pm.pages == old(s.pm.pages) && s.pm.pageList == old(s.pm.pageList) && s.pm.freeList == old(s.pm.freeList)
      && s.pm.seqNumber == old(s.pm.seqNumber)
    ensures CursorOk(s.pm.Rams(), s.pm.dev.pages, s.pm.pageList, cur)
    ensures ChunksAhead(s, cur) == old(ChunksAhead(s, cur))
    ensures forall c :: c in s.pm.dev.cuts && c !in old(s.pm.dev.cuts) ==> AllOrAllBut(c, old(s.Records()), r)
    ensures s.StillApart(old(s.pm.dev.pages), old(s.pm.dev.cuts), true) && SomeHeader(s.pm.dev.pages)
  {
    hide HashList.Valid, InOrder, PageManager.Wired, RamsOk, Live, IsAt, NotTaken, LessOne, AllOrAllBut, Removed,
      ChunksApart, Judge, RecsOf, Unique, WritableId, Ahead, CursorOn, PageManager.HashListsOk, SomeHeader;
    ghost var rams, img, list, p := s.pm.Rams(), s.pm.dev.pages, s.pm.pageList, s.pm.pageList[cur.at];
    HeaderHas(rams, img, list, s.pm.freeList, s.pm.seqNumber, s.pm.hashOf, p, i, r);
    NumberedChunk(r);
    ghost var index, o;
    var err: Error;
    err, index, o := s.ErasePartOn(s.pm.pageList[cur.at], ChunkQuery(item.ns, item.key, item.chunk));
    OrphanFound(rams, img, list, s.pm.freeList, s.pm.seqNumber, s.pm.hashOf, p, i, r, o, index);
    WasAt(rams, img, p, i, r);
    InRange(rams, img, list, s.pm.freeList, s.pm.seqNumber, s.pm.hashOf);
    ListApart(rams, img, list, s.pm.freeList, s.pm.seqNumber, s.pm.hashOf);
    AheadStill(img, s.pm.dev.pages, list, cur, CHUNK_WALK, s.pm.Rams()[p].top, i);
    StillBoundary(img[p].slots, s.pm.dev.pages[p].slots, s.pm.Rams()[p], s.pm.dev.pages[p], i);
    StillHasHeader(rams, img, s.pm.dev.pages, p, i, r);
  }

  lemma NumberedChunk(r: Rec)
    requires r.item.typ.BLOB_DATA? && WritableId(r.item)
    ensures r.item.ns != NS_ANY && r.item.chunk != CHUNK_ANY
      && BlobQuery(ChunkQuery(r.item.ns, r.item.key, r.item.chunk))
  {
  }

  lemma ListApart(rams: seq<Ram>, img: seq<FPage>, list: seq<nat>, free: seq<nat>, next: nat, hashOf: Id -> nat)
    requires InOrder(rams, img, list, free, next, hashOf)
    ensures forall j, k :: 0 <= j < k < |list| ==> list[j] != list[k]
  {
  }

  // Goes on to the next chunk, and erases it if no blob of the list counts it.
  method PassChunk(s: Storage, cur: Cursor, nodes: seq<BlobNode>)
    returns (more: bool, next: Cursor, ghost r: Option<Rec>, ghost o: Option<Rec>)
    requires s.Valid() && Unique(s.Records()) && CursorOk(s.pm.Rams(), s.pm.dev.pages, s.pm.pageList, cur)
    modifies s.pm.dev, s.pm.Objects()
    ensures s.pm.pages == old(s.pm.pages) && s.pm.pageList == old(s.pm.pageList) && s.pm.freeList == old(s.pm.freeList)
      && s.pm.seqNumber == old(s.pm.seqNumber)
    ensures s.Valid() && CursorOk(s.pm.Rams(), s.pm.dev.pages, s.pm.pageList, next)
      && |s.pm.dev.pages| == |old(s.pm.dev.pages)|
    ensures (more <==> r.Some?) && o == if more && !AnyCounts(nodes, r.value.item) then r else None
    ensures old(ChunksAhead(s, cur)) == if more then [r.value] + ChunksAhead(s, next) else []
    ensures s.Records() == old(s.Records()) - if o.Some? then multiset{o.value} else multiset{}
    ensures forall c :: c in s.pm.dev.cuts && c !in old(s.pm.dev.cuts) ==>
      o.Some? && AllOrAllBut(c, old(s.Records()), o.value)
    ensures s.StillApart(old(s.pm.dev.pages), old(s.pm.dev.cuts), true)
    ensures if o.Some? then SomeHeader(s.pm.dev.pages)
      else s.pm.dev.pages == old(s.pm.dev.pages) && s.pm.dev.cuts == old(s.pm.dev.cuts)
  {
    hide HashList.Valid, InOrder, Of, Ahead, PageManager.Wired, RamsOk, CursorOk, ListRecs, Live, IsAt, Sought,
      WritableId, AnyCounts, AllOrAllBut, ChunksApart, Unique, PageManager.HashListsOk, SomeHeader;
    var item: Option<Item>;
    ghost var i: nat;
    more, next, item, i, r := s.NextRecord(cur, CHUNK_WALK);
    o := None;
    if !more {
      r := None;
    } else {
      HeaderHas(s.pm.Rams(), s.pm.dev.pages, s.pm.pageList, s.pm.freeList, s.pm.seqNumber, s.pm.hashOf,
        s.pm.pageList[next.at], i, r.value);
      SoughtChunk(r.value);
      if !AnyCounts(nodes, item.value) {
        EraseOrphan(s, next, item.value, i, r.value);
        o := r;
      }
    }
  }

  // All but these are left, and whenever power could have failed nothing else was gone.
  ghost predicate LeftBut(s: Storage, cuts0: iset<seq<FPage>>, live: multiset<Rec>, gone: seq<Rec>)
    reads s, s.pm, s.pm.dev
  {
    s.Records() == live - multiset(gone)
      && forall c :: c in s.pm.dev.cuts && c !in cuts0 ==> Between(c, s.Records(), live)
  }

  // The same, keeping count of what has been passed and what was erased.
  method NextOrphan(s: Storage, cur: Cursor, nodes: seq<BlobNode>, ghost live: multiset<Rec>, ghost img0: seq<FPage>,
                    ghost cuts0: iset<seq<FPage>>, ghost done: seq<Rec>, ghost gone0: seq<Rec>)
    returns (more: bool, next: Cursor, ghost passed: seq<Rec>, ghost gone: seq<Rec>)
    requires s.Valid() && Unique(live) && CursorOk(s.pm.Rams(), s.pm.dev.pages, s.pm.pageList, cur)
    requires LeftBut(s, cuts0, live, gone0) && OrphansOf(done, nodes, gone0) && Touched(s, img0, cuts0, gone0)
    modifies s.pm.dev, s.pm.Objects()
    ensures s.pm.pages == old(s.pm.pages) && s.pm.pageList == old(s.pm.pageList) && s.pm.freeList == old(s.pm.freeList)
      && s.pm.seqNumber == old(s.pm.seqNumber)
    ensures s.Valid() && CursorOk(s.pm.Rams(), s.pm.dev.pages, s.pm.pageList, next)
    ensures LeftBut(s, cuts0, live, gone) && OrphansOf(done + passed, nodes, gone) && Touched(s, img0, cuts0, gone)
    ensures if more then |passed| == 1 else passed == []
    ensures old(ChunksAhead(s, cur)) == passed + if more then ChunksAhead(s, next) else []
    ensures s.StillApart(old(s.pm.dev.pages), old(s.pm.dev.cuts), true)
  {
    hide HashList.Valid, InOrder, ChunksAhead, PageManager.Wired, RamsOk, CursorOk, Live, AnyCounts, Between,
      AllOrAllBut, ChunksApart, Unique, SomeHeader, OrphansOf, PageManager.HashListsOk;
    ghost var r, o;
    ghost var cuts, was := s.pm.dev.cuts, s.Records();
    UniqueWithout(live, gone0);
    more, next, r, o := PassChunk(s, cur, nodes);
    LessBetween(s.pm.dev.cuts, cuts, cuts0, live, was, s.Records(), o);
    gone, passed := gone0, [];
    if more {
      OrphansMore(done, nodes, gone0, r.value);
      passed := [r.value];
      if o.Some? {
        GoneMore(live, gone0, r.value);
        gone := gone0 + [r.value];
      }
    } else {
      assert done + [] == done;
    }
  }

  // eraseOrphanDataBlobs.
  method EraseOrphans(s: Storage, nodes: seq<BlobNode>) returns (ghost gone: seq<Rec>)
    requires s.Valid() && Unique(s.Records())
    modifies s.pm.dev, s.pm.Objects()
    ensures s.Valid() && s.pm.pages == old(s.pm.pages) && s.Records() == old(s.Records()) - multiset(gone)
    ensures forall c :: c in gone <==> c in old(s.Records()) && c.item.typ.BLOB_DATA? && !AnyCounts(nodes, c.item)
    ensures forall c :: c in s.pm.dev.cuts && c !in old(s.pm.dev.cuts) ==> Between(c, s.Records(), old(s.Records()))
    ensures s.StillApart(old(s.pm.dev.pages), old(s.pm.dev.cuts), true)
      && Touched(s, old(s.pm.dev.pages), old(s.pm.dev.cuts), gone)
  {
    hide SomeHeader, HashList.Valid, InOrder, Of, ChunksAhead, PageManager.Wired, RamsOk, CursorOk, ListRecs, Live,
      AnyCounts, Between, AllOrAllBut, ChunksApart, Unique, OrphansOf, IndicesOf, ChunksIn, PageManager.HashListsOk;
    ghost var live, cuts0, all, done := s.Records(), s.pm.dev.cuts, Of(ListedAll(s), CHUNK_WALK), [];
    WalkFinds(s);
    FirstAhead(s);
    gone := [];
    NoOrphansYet(nodes);
    var cur, more := Cursor(0, 0), true;
    while more
      invariant s.Valid() && s.pm.pages == old(s.pm.pages) && CursorOk(s.pm.Rams(), s.pm.dev.pages, s.pm.pageList, cur)
      invariant all == done + (if more then ChunksAhead(s, cur) else [])
      invariant LeftBut(s, cuts0, live, gone) && OrphansOf(done, nodes, gone)
        && Touched(s, old(s.pm.dev.pages), cuts0, gone)
      invariant s.StillApart(old(s.pm.dev.pages), old(s.pm.dev.cuts), true)
      decreases more, |ChunksAhead(s, cur)|
    {
      ghost var passed;
      more, cur, passed, gone := NextOrphan(s, cur, nodes, live, old(s.pm.dev.pages), cuts0, done, gone);
      done := done + passed;
    }
    assert done + [] == done;
    AllOrphans(done, nodes, gone, live);
  }

  lemma NoOrphansYet(nodes: seq<BlobNode>)
    ensures OrphansOf([], nodes, [])
  {
  }

  lemma UniqueWithout(live: multiset<Rec>, gone: seq<Rec>)
    requires Unique(live)
    ensures Unique(live - multiset(gone))
  {
    assert forall r :: r in live - multiset(gone) ==> r in live && (live - multiset(gone))[r] <= live[r];
  }

  lemma AllOrphans(done: seq<Rec>, nodes: seq<BlobNode>, gone: seq<Rec>, live: multiset<Rec>)
    requires OrphansOf(done, nodes, gone) && ChunksIn(done, live)
    ensures forall c :: c in gone <==> c in live && c.item.typ.BLOB_DATA? && !AnyCounts(nodes, c.item)
  {
    hide AnyCounts;
  }

  // ---------------------------------------------------------------- all of it

  // A chunk is counted by a blob of the list exactly if a complete blob counts it.
  lemma CountedIs(live: multiset<Rec>, idx: seq<Rec>, kept: seq<BlobNode>, keptIdx: seq<Rec>, chunks: seq<Rec>, c: Rec)
    requires IndicesOf(idx, live) && NodesOf(kept, keptIdx, chunks) && c.item.typ.BLOB_DATA?
    requires forall i :: i in keptIdx <==> i in idx && Matched(live, i)
    ensures AnyCounts(kept, c.item) <==> exists i :: i in live && Matched(live, i) && Counts(i, c)
  {
    hide Family, TotalSize;
    if k :| 0 <= k < |kept| && HasCounted(kept[k], c.item) {
      assert keptIdx[k] in keptIdx && Counts(keptIdx[k], c);
    }
    if i :| i in live && Matched(live, i) && Counts(i, c) {
      assert i in keptIdx;
      var k :| 0 <= k < |keptIdx| && keptIdx[k] == i;
      assert HasCounted(kept[k], c.item);
    }
  }

  // First the indices go that do not match, then the chunks no matching index counts.
  lemma ClearedAway(live: multiset<Rec>, idx: seq<Rec>, kept: seq<BlobNode>, keptIdx: seq<Rec>, chunks: seq<Rec>,
                    gone: seq<Rec>, orphans: seq<Rec>)
    requires Unique(live) && IndicesOf(idx, live) && NodesOf(kept, keptIdx, chunks)
      && (forall r :: r in live && r.item.typ.BLOB_IDX? ==> IsIndex(r))
    requires (forall i :: i in keptIdx <==> i in idx && Matched(live, i))
      && (forall i :: i in gone <==> i in idx && !Matched(live, i))
    requires forall c :: c in orphans <==>
      c in live - multiset(gone) && c.item.typ.BLOB_DATA? && !AnyCounts(kept, c.item)
    ensures Purged(live, live - multiset(gone) - multiset(orphans))
  {
    hide Matched, AnyCounts, Unique, Counts, IndicesOf, NodesOf;
    var now := live - multiset(gone) - multiset(orphans);
    forall r | r in live ensures now[r] == if Stays(live, r) then live[r] else 0 {
      OnceIn(live, r);
      IndexIn(idx, live, r);
      if r.item.typ.BLOB_DATA? {
        CountedIs(live, idx, kept, keptIdx, chunks, r);
      }
      assert r in multiset(gone) <==> r in gone;
      assert r in multiset(orphans) <==> r in orphans;
    }
  }

  lemma OnceIn(live: multiset<Rec>, r: Rec)
    requires Unique(live) && r in live
    ensures live[r] == 1
  {
  }

  lemma IndexIn(idx: seq<Rec>, live: multiset<Rec>, r: Rec)
    requires IndicesOf(idx, live) && r in live
    ensures r in idx <==> r.item.typ.BLOB_IDX?
  {
  }

  lemma NothingToClear(live: multiset<Rec>, idx: seq<Rec>, kept: seq<BlobNode>, keptIdx: seq<Rec>, chunks: seq<Rec>,
                       gone: seq<Rec>, orphans: seq<Rec>)
    requires IndicesOf(idx, live) && NodesOf(kept, keptIdx, chunks)
      && (forall r :: r in live && r.item.typ.BLOB_IDX? ==> IsIndex(r))
    requires (forall i :: i in keptIdx <==> i in idx && Matched(live, i))
      && (forall i :: i in gone <==> i in idx && !Matched(live, i))
    requires forall c :: c in orphans <==>
      c in live - multiset(gone) && c.item.typ.BLOB_DATA? && !AnyCounts(kept, c.item)
    ensures Tidy(live) ==> gone == [] && orphans == []
  {
    hide Matched, AnyCounts, Counts, NodesOf;
    if Tidy(live) {
      forall i | i in idx ensures Matched(live, i) {
        assert IsIndex(i) && Stays(live, i);
      }
      forall c | c in live && c.item.typ.BLOB_DATA? ensures AnyCounts(kept, c.item) {
        IsNoIndex(c);
        CountedIs(live, idx, kept, keptIdx, chunks, c);
        assert Stays(live, c);
      }
      NoElements(gone);
      NoElements(orphans);
    }
  }

  lemma NoElements(recs: seq<Rec>)
    ensures (forall r :: r !in recs) ==> recs == []
  {
    if recs != [] {
      assert recs[0] in recs;
    }
  }

  lemma IsNoIndex(c: Rec)
    requires c.item.typ.BLOB_DATA?
    ensures !IsIndex(c)
  {
  }

  // Clears away blobs that are not complete. Where there are none nothing is written.
  method ClearBlobs(s: Storage)
    requires s.Valid() && Unique(s.Records())
    modifies s.pm.dev, s.pm.Objects()
    ensures s.Valid() && s.pm.pages == old(s.pm.pages) && Purged(old(s.Records()), s.Records())
    ensures (Started(old(s.pm.dev.pages)) ==> Started(s.pm.dev.pages))
    ensures Tidy(old(s.Records())) ==> s.pm.dev.pages == old(s.pm.dev.pages) && s.pm.dev.cuts == old(s.pm.dev.cuts)
    ensures forall c :: c in s.pm.dev.cuts && c !in old(s.pm.dev.cuts) ==> Between(c, s.Records(), old(s.Records()))
    ensures s.StillApart(old(s.pm.dev.pages), old(s.pm.dev.cuts), true)
  {
    hide HashList.Valid, InOrder, PageManager.Wired, RamsOk, Live, IndicesOf, ChunksIn, AnyCounts, Between, ChunksApart,
      Unique, Purged, NodesOf, Matched, PageManager.HashListsOk, Tidy, Started, SomeHeader;
    ghost var live, cuts0 := s.Records(), s.pm.dev.cuts;
    IndicesHave(s.pm.Rams(), s.pm.dev.pages, s.pm.pageList, s.pm.freeList, s.pm.seqNumber, s.pm.hashOf);
    ghost var idx, chunks, keptIdx, gone;
    var list, nodes, kept;
    list, idx := PopulateBlobIndices(s);
    IndicesDiffer(idx, live);
    nodes, chunks := ObserveChunks(s, list, idx);
    kept, keptIdx, gone := EraseMismatched(s, nodes, idx, chunks, live);
    ghost var mid, cuts := s.Records(), s.pm.dev.cuts;
    UniqueWithout(live, gone);
    ghost var orphans := EraseOrphans(s, kept);
    ClearedAway(live, idx, kept, keptIdx, chunks, gone, orphans);
    NothingToClear(live, idx, kept, keptIdx, chunks, gone, orphans);
    HeaderIsStarted(s.pm.dev.pages);
    BetweenTwice(s.pm.dev.cuts, cuts, cuts0, live, mid, s.Records());
  }

  lemma HeaderIsStarted(img: seq<FPage>)
    ensures SomeHeader(img) ==> Started(img)
  {
  }

  lemma IndicesDiffer(idx: seq<Rec>, live: multiset<Rec>)
    requires IndicesOf(idx, live)
    ensures NamesDiffer(idx)
  {
  }

  lemma IndicesHave(rams: seq<Ram>, img: seq<FPage>, list: seq<nat>, free: seq<nat>, next: nat, hashOf: Id -> nat)
    requires InOrder(rams, img, list, free, next, hashOf)
    ensures forall r :: r in Live(img) && r.item.typ.BLOB_IDX? ==> IsIndex(r)
  {
    hide RamOk, Live, Quiet, InOrder, HeadFits;
    forall r | r in Live(img) && r.item.typ.BLOB_IDX? ensures IsIndex(r) {
      var p := PageOf(img, r);
      RecordPage(rams, img, list, free, next, hashOf, p);
      var k := PlaceOfRec(img[p].slots, |img[p].slots|, r);
      HeadOfItem(img[p].slots, rams[p].top, k);
      IndexHeader(img[p].slots, k, rams[p].top);
    }
  }

  lemma IndexHeader(s: seq<Slot>, k: nat, nf: nat)
    requires HeadFits(s, k, nf)
    ensures s[k].body.item.typ.BLOB_IDX? ==> s[k].body.item.val.BlobIndex?
  {
  }

  lemma BetweenTwice(cuts: iset<seq<FPage>>, mid: iset<seq<FPage>>, cuts0: iset<seq<FPage>>, live: multiset<Rec>,
                     was: multiset<Rec>, now: multiset<Rec>)
    requires now <= was <= live
    requires forall c :: c in mid && c !in cuts0 ==> Between(c, was, live)
    requires forall c :: c in cuts && c !in mid ==> Between(c, now, was)
    ensures forall c :: c in cuts && c !in cuts0 ==> Between(c, now, live)
  {
    hide Recoverable;
    forall c: seq<FPage> | c in cuts && c !in cuts0 ensures Between(c, now, live) {
      if c in mid {
        var x :| was <= x <= live && Recoverable(c, x);
        assert now <= x;
      } else {
        var x :| now <= x <= was && Recoverable(c, x);
        assert x <= live;
      }
    }
  }

  // Brings the store up. If the page in use comes through being loaded, exactly the records are left
  // that belong to complete blobs or to none; otherwise, of those that loading leaves. A store at
  // rest in which every blob is complete is not written to.
  method Init(s: Storage, ghost live: multiset<Rec>) returns (err: Error, ghost loaded: multiset<Rec>)
    requires Recoverable(s.pm.dev.pages, live) && Identified(live)
    modifies s.pm, s.pm.dev
    ensures err == OK && s.Valid() && fresh(s.pm.Objects()) && Purged(loaded, s.Records())
    ensures loaded <= live && (loaded == live <==> Kept(old(s.pm.dev.pages), s.pm.hashOf))
      && LeftBy(old(s.pm.dev.pages), live, loaded, s.pm.hashOf)
    ensures Kept(old(s.pm.dev.pages), s.pm.hashOf) ==>
      forall c :: c in s.pm.dev.cuts && c !in old(s.pm.dev.cuts) ==> Between(c, s.Records(), live)
    ensures Kept(old(s.pm.dev.pages), s.pm.hashOf) ==> s.StillApart(old(s.pm.dev.pages), old(s.pm.dev.cuts), true)
    ensures Rested(s.pm.dev.pages) && Stable(s.pm.dev.pages, s.Records())
    ensures Tidy(live) && Rested(old(s.pm.dev.pages)) && Stable(old(s.pm.dev.pages), live) ==>
      Kept(old(s.pm.dev.pages), s.pm.hashOf) ==>
        s.pm.dev.pages == old(s.pm.dev.pages) && s.pm.dev.cuts == old(s.pm.dev.cuts)
  {
    hide HashList.Valid, InOrder, PageManager.Wired, RamsOk, Live, Between, ChunksApart, Unique, Purged, Recoverable,
      Identified, Kept, LeftBy, Rested, Stable, PageManager.HashListsOk, Tidy, Started;
    ghost var cuts0, img := s.pm.dev.cuts, s.pm.dev.pages;
    err := s.pm.Load(live);
    loaded := s.Records();
    ghost var cuts, mid := s.pm.dev.cuts, s.pm.dev.pages;
    IdentifiedWithin(live, loaded);
    IsUnique(loaded);
    RestedIsStarted(mid);
    ClearBlobs(s);
    ValidIsRested(s.pm.Rams(), s.pm.dev.pages, s.pm.pageList, s.pm.freeList, s.pm.seqNumber, s.pm.hashOf);
    if Kept(img, s.pm.hashOf) {
      LoadedThenCleared(img, mid, s.pm.dev.cuts, cuts, cuts0, live, s.Records());
    }
  }

  lemma RestedIsStarted(img: seq<FPage>)
    requires Rested(img)
    ensures Started(img)
  {
  }

  // Brings the store up twice. The second time nothing is written if and only if the page in use
  // that the first left comes through being loaded, and every blob that the first left is complete.
  method InitTwice(dev: Flash, hashOf: Id -> nat, crcOf: seq<byte> -> nat, ghost live: multiset<Rec>)
    returns (again: Storage, ghost mid: seq<FPage>, ghost cuts: iset<seq<FPage>>)
    requires Recoverable(dev.pages, live) && Identified(live)
    modifies dev
    ensures again.Valid() && again.pm.dev == dev && Live(mid) <= live
    ensures dev.pages == mid && dev.cuts == cuts <==> Kept(mid, hashOf) && Tidy(Live(mid))
  {
    hide HashList.Valid, Recoverable, Identified, ChunksApart, Stable, Live, Rested, Kept, InOrder, RamsOk, Tidy,
      Purged, LeftBy, Between, PageManager.Wired, PageManager.HashListsOk;
    var pm := new PageManager(dev, hashOf);
    var first := new Storage(pm, crcOf);
    var err;
    ghost var loaded;
    err, loaded := Init(first, live);
    mid, cuts := dev.pages, dev.cuts;
    PurgedWithin(loaded, first.Records());
    IdentifiedWithin(live, Live(mid));
    StableIsRecoverable(mid, Live(mid));
    pm := new PageManager(dev, hashOf);
    again := new Storage(pm, crcOf);
    err, loaded := Init(again, Live(mid));
    PurgedAll(Live(mid), loaded, again.Records());
  }

  lemma PurgedWithin(live: multiset<Rec>, now: multiset<Rec>)
    requires Purged(live, now)
    ensures now <= live
  {
  }

  // Nothing has gone exactly if nothing was lost in loading and nothing had to be cleared away.
  lemma PurgedAll(live: multiset<Rec>, loaded: multiset<Rec>, now: multiset<Rec>)
    requires Purged(loaded, now) && loaded <= live
    ensures now == live <==> loaded == live && Tidy(live)
  {
    hide Stays;
    if now == live {
      assert loaded == live;
      forall r | r in live ensures Stays(live, r) {
        assert now[r] > 0;
      }
    }
  }

  lemma IsUnique(live: multiset<Rec>)
    requires Identified(live)
    ensures Unique(live)
  {
  }

  lemma LoadedThenCleared(img: seq<FPage>, c: seq<FPage>, cuts: iset<seq<FPage>>, mid: iset<seq<FPage>>,
                          cuts0: iset<seq<FPage>>, live: multiset<Rec>, now: multiset<Rec>)
    requires (forall c :: c in mid && c !in cuts0 ==> Safe(img, c, live)) && Purged(live, now)
    requires forall c :: c in cuts && c !in mid ==> Between(c, now, live)
    ensures forall c :: c in cuts && c !in cuts0 ==> Between(c, now, live)
    ensures ChunksApart(img) ==> forall c :: c in mid && c !in cuts0 ==> ChunksApart(c)
  {
    hide Recoverable, ChunksApart, Stays;
  }
}
