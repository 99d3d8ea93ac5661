// A single record takes the name of a blob: once it is there, the parts of the blob are still found,
// and erasing them leaves it alone.
module Overwrites {
  import opened NvsTypes
  import opened PageImage
  import opened PageRam
  import opened PageSearch
  import opened PageValues
  import opened FlashDevice
  import opened StoreImage
  import opened PageLists
  import opened Startup
  import opened StoreSearch
  import opened StoreUpdates
  import opened StoreWrites
  import opened StoreMap
  import opened BlobSearch
  import opened BlobUpdates
  import opened PartErases
  import opened BlobNames

  // n, of a plain type, has just been written as the last record of page p; the rest are as before.
  ghost predicate Overwriting(img: seq<FPage>, live: multiset<Rec>, ns: byte, key: string, b: Blob, n: Rec, p: nat) {
    && OnlyBlob(live, ns, key, Some(b)) && PlainType(n.item.typ) && n.item.chunk == CHUNK_ANY
    && OfName(n, ns, Truncated(key)) && n !in live
    && Appended(img, live, n, p)
  }

  lemma OverwritingMeans(img: seq<FPage>, live: multiset<Rec>, ns: byte, key: string, b: Blob, n: Rec, p: nat)
    requires Overwriting(img, live, ns, key, b, n, p)
    ensures OnlyBlob(live, ns, key, Some(b)) && n !in live && Live(img) == live + multiset{n} && p < |img|
    ensures RecsOf(img[p]) != [] && RecsOf(img[p])[|RecsOf(img[p])| - 1] == n
    ensures !n.item.typ.BLOB_DATA? && !n.item.typ.BLOB_IDX? && n.item.chunk == CHUNK_ANY
  {
    hide OnlyBlob, Live, RecsOf;
  }

  // Of the records an index of this version is asked of, only the new one is not the index.
  lemma AskedWithNew(live: multiset<Rec>, ns: byte, key: string, b: Blob, n: Rec, x: Rec)
    requires OnlyBlob(live, ns, key, Some(b)) && ns != NS_ANY && BlobOk(b) && x in live + multiset{n}
      && Asked(x, IndexQuery(ns, key, b.start))
    ensures x == n || x == IndexOf(ns, key, b)
  {
    hide BlobOk, PartsOf, IndexOf, ChunkOfBlob, Judge;
    if x in live {
      IndexAsked(x, ns, key, b.start);
      var i := PartIs(ns, key, b, x);
    }
  }

  // An item before another on a page comes before it in the records.
  lemma BeforeLast(s: seq<Slot>, f: nat, k: nat, n: Rec, o: Rec)
    requires f < |s| && k < |s| && Whole(s, f) && Whole(s, k) && RecAt(s, f) == n && RecAt(s, k) == o && o != n
    requires Recs(s) != [] && Recs(s)[|Recs(s)| - 1] == n && multiset(Recs(s))[n] == 1
    ensures k < f
  {
    RecsAround(s, f);
    var a, c := RecsIn(s, 0, f), RecsIn(s, f + 1, |s|);
    assert Recs(s) == a + [n] + c;
    LastIsOnly(a, n, c);
    if k > f {
      InTail(s, f + 1, k);
    }
  }

  lemma LastIsOnly(a: seq<Rec>, n: Rec, c: seq<Rec>)
    requires (a + [n] + c)[|a| + |c|] == n && multiset(a + [n] + c)[n] == 1
    ensures c == []
  {
    assert multiset(a + [n] + c) == multiset(a) + multiset{n} + multiset(c);
    assert n !in multiset(c);
  }

  lemma {:induction false} InTail(s: seq<Slot>, from: nat, k: nat)
    requires from <= k < |s| && Whole(s, k)
    ensures RecsIn(s, from, |s|) != []
  {
    RecsSplit(s, from, k, |s|);
    RecsSplit(s, k, k + 1, |s|);
    assert RecsIn(s, k, k + 1) == RecsIn(s, k, k) + ItemAt(s, k);
  }

  // On the page of the index the search stops at it.
  lemma StopsAtIndex(rams: seq<Ram>, img: seq<FPage>, list: seq<nat>, free: seq<nat>, next: nat, hashOf: Id -> nat,
                     live: multiset<Rec>, ns: byte, key: string, b: Blob, n: Rec, p: nat, y: nat)
    requires InOrder(rams, img, list, free, next, hashOf) && Overwriting(img, live, ns, key, b, n, p) && ns != NS_ANY
      && BlobOk(b)
    requires y < |img| && img[y].hdr.Header? && IndexOf(ns, key, b) in RecsOf(img[y])
    ensures FindVia(img[y].slots, IndexQuery(ns, key, b.start), hashOf, 0).Hit?
  {
    hide RamOk, Quiet, Whole, Recs, InOrder, Live, Judge, BlobOk, IndexOf, Overwriting, FindVia;
    var q, s, o := IndexQuery(ns, key, b.start), img[y].slots, IndexOf(ns, key, b);
    OverwritingMeans(img, live, ns, key, b, n, p);
    RecordPage(rams, img, list, free, next, hashOf, y);
    PageHit(s, rams[y].top, hashOf, q);
    IndexTaken(ns, key, b);
    var f := FindVia(s, q, hashOf, 0);
    assert Asked(o, q);
    var r := RecAt(s, f.index);
    OnPageIsLive(img, y, r);
    AskedWithNew(live, ns, key, b, n, r);
    NewIsLater(img, live, ns, key, b, n, p, y, rams[y].top, hashOf);
  }

  // The new record is the last of its page; a search that stops there has not passed the index.
  lemma NewIsLater(img: seq<FPage>, live: multiset<Rec>, ns: byte, key: string, b: Blob, n: Rec, p: nat, y: nat,
                   nf: nat, hashOf: Id -> nat)
    requires Overwriting(img, live, ns, key, b, n, p) && ns != NS_ANY && BlobOk(b) && y < |img|
      && IndexOf(ns, key, b) in RecsOf(img[y])
    requires RecsOf(img[y]) == Recs(img[y].slots) && Quiet(img[y].slots, nf)
    requires !FindVia(img[y].slots, IndexQuery(ns, key, b.start), hashOf, 0).Nothing?
    ensures var f := FindVia(img[y].slots, IndexQuery(ns, key, b.start), hashOf, 0);
      f.index < |img[y].slots| && Whole(img[y].slots, f.index) && RecAt(img[y].slots, f.index) != n
  {
    hide Quiet, Recs, RecsOf, Live, Judge, BlobOk, IndexOf, Overwriting, Whole, FindVia, Appended, OnlyBlob;
    var q, s, o := IndexQuery(ns, key, b.start), img[y].slots, IndexOf(ns, key, b);
    OverwritingMeans(img, live, ns, key, b, n, p);
    IndexTaken(ns, key, b);
    PageHit(s, nf, hashOf, q);
    var f := FindVia(s, q, hashOf, 0);
    var k := PassesNone(s, nf, hashOf, q, o);
    if RecAt(s, f.index) == n {
      OnlyCopy(img, live, n, p, y);
      NewIsPlain(live, ns, key, b, n);
      BeforeLast(s, f.index, k, n, o);
    }
  }

  // A search does not pass a record it is for.
  lemma PassesNone(s: seq<Slot>, nf: nat, hashOf: Id -> nat, q: Query, o: Rec) returns (k: nat)
    requires Quiet(s, nf) && BlobQuery(q) && o in Recs(s) && Judge(o.item, q).Take?
    ensures !FindVia(s, q, hashOf, 0).Nothing? && k < |s| && Whole(s, k) && RecAt(s, k) == o
      && FindVia(s, q, hashOf, 0).index <= k
  {
    hide Quiet, Judge;
    HashAgreesWithScan(s, q, hashOf, 0);
    FindMeans(s, q, 0);
    k := PlaceOfRec(s, |s|, o);
    WholeIsHead(s, k);
  }

  lemma NewIsPlain(live: multiset<Rec>, ns: byte, key: string, b: Blob, n: Rec)
    requires OnlyBlob(live, ns, key, Some(b)) && BlobOk(b) && n !in live
    ensures n != IndexOf(ns, key, b)
  {
    hide BlobOk;
    OnlyBlobHas(live, ns, key, b);
  }

  lemma OnlyCopy(img: seq<FPage>, live: multiset<Rec>, n: Rec, p: nat, y: nat)
    requires Live(img) == live + multiset{n} && n !in live && p < |img| && y < |img| && n in RecsOf(img[p])
      && n in RecsOf(img[y])
    ensures y == p && multiset(RecsOf(img[p]))[n] == 1
  {
    hide RecsOf, Live;
    LiveAround(img, p);
    assert (live + multiset{n})[n] == 1;
    if y != p {
      RestAround(img, p, y);
    }
  }

  // The index is still found, and so are the chunks.
  lemma OverwrittenInReach(rams: seq<Ram>, img: seq<FPage>, list: seq<nat>, free: seq<nat>, next: nat,
                           hashOf: Id -> nat, live: multiset<Rec>, ns: byte, key: string, b: Blob, n: Rec, p: nat)
    requires InOrder(rams, img, list, free, next, hashOf) && Overwriting(img, live, ns, key, b, n, p) && ns != NS_ANY
    ensures InReach(rams, img, list, hashOf, ns, key, b.start, b)
  {
    hide RamOk, Recs, RecsOf, InOrder, Live, Judge, BlobOk, IndexOf, Overwriting, FindVia, OnlyBlob, HasChunks;
    OverwritingMeans(img, live, ns, key, b, n, p);
    OnlyBlobHas(live, ns, key, b);
    var q, o := IndexQuery(ns, key, b.start), IndexOf(ns, key, b);
    var y := PageOf(img, o);
    RecordPage(rams, img, list, free, next, hashOf, y);
    StopsAtIndex(rams, img, list, free, next, hashOf, live, ns, key, b, n, p, y);
    var k :| 0 <= k < |list| && list[k] == y;
    forall at: nat, index: nat | Locates(rams, img, list, q, hashOf, at, index)
      ensures IsAt(rams, img, list[at], index, o) {
      var r := PartHit(rams, img, list, free, next, hashOf, q, at, index);
      HitIsIndex(rams, img, list, free, next, hashOf, q, at, index, r);
      IndexOfBlob(live, ns, key, b, n, r);
    }
    ChunksBesideNew(live, ns, key, b, n);
  }

  lemma IndexOfBlob(live: multiset<Rec>, ns: byte, key: string, b: Blob, n: Rec, r: Rec)
    requires OnlyBlob(live, ns, key, Some(b)) && BlobOk(b) && r in live + multiset{n} && !n.item.typ.BLOB_IDX?
    requires r.item.typ.BLOB_IDX? && OfName(r, ns, Truncated(key))
    ensures r == IndexOf(ns, key, b)
  {
    hide BlobOk, PartsOf, IndexOf;
    var i := PartIs(ns, key, b, r);
  }

  lemma ChunksBesideNew(live: multiset<Rec>, ns: byte, key: string, b: Blob, n: Rec)
    requires OnlyBlob(live, ns, key, Some(b)) && BlobOk(b) && ns != NS_ANY && n.item.chunk == CHUNK_ANY
    ensures HasChunks(live + multiset{n}, ns, key, b)
  {
    hide BlobOk, PartsOf, IndexOf, ChunkOfBlob, Judge, OnlyBlob;
    ChunksFound(live, ns, key, b);
    forall k | 0 <= k < |b.pieces|
      ensures b.start + k < CHUNK_ANY
        && OnlyAsked(live + multiset{n}, ChunkQuery(ns, key, b.start + k), Some(ChunkOfBlob(ns, key, b, k)))
    {
      ChunkTaken(ns, key, b, k);
      forall x | x in live + multiset{n} && Asked(x, ChunkQuery(ns, key, b.start + k))
        ensures x == ChunkOfBlob(ns, key, b, k) {
        ChunkAsked(x, ns, key, b.start + k);
      }
    }
  }

  // If a chunk was met instead, and its page has been moved since, some chunk is found again.
  lemma FindsSomeChunk(rams: seq<Ram>, img: seq<FPage>, list: seq<nat>, free: seq<nat>, next: nat, hashOf: Id -> nat,
                       live: multiset<Rec>, ns: byte, key: string, b: Blob, n: Rec, p: nat, o: Rec, found: bool,
                       at: nat, index: nat) returns (r: Rec)
    requires InOrder(rams, img, list, free, next, hashOf) && Overwriting(img, live, ns, key, b, n, p) && ns != NS_ANY
      && BlobOk(b)
    requires o in ChunksOf(ns, key, b)
    requires found ==> Locates(rams, img, list, KeyQuery(ns, BLOB_DATA, key), hashOf, at, index)
    requires !found ==> NoHitBefore(rams, img, list, KeyQuery(ns, BLOB_DATA, key), hashOf, |list|)
    ensures found && at < |list| && IsAt(rams, img, list[at], index, r) && r in ChunksOf(ns, key, b)
  {
    hide RamOk, RecsOf, InOrder, Live, BlobOk, IndexOf, Overwriting, OnlyBlob, FindVia, ChunksOf;
    OverwritingMeans(img, live, ns, key, b, n, p);
    ChunkIsNamed(live, ns, key, b, o);
    assert ChunkQuery(ns, key, CHUNK_ANY) == KeyQuery(ns, BLOB_DATA, key);
    var y := PageOf(img, o);
    RecordPage(rams, img, list, free, next, hashOf, y);
    PageHasChunk(img[y].slots, rams[y].top, hashOf, ns, key, o);
    var k :| 0 <= k < |list| && list[k] == y;
    r := ChunkHit(rams, img, list, free, next, hashOf, list[at], ns, key, 0, index);
    HitOfType(rams, img, list, free, next, hashOf, KeyQuery(ns, BLOB_DATA, key), at, index);
    WasAt(rams, img, list[at], index, r);
    ChunkOfTheBlob(live, ns, key, b, n, r);
  }

  lemma ChunkIsNamed(live: multiset<Rec>, ns: byte, key: string, b: Blob, o: Rec)
    requires OnlyBlob(live, ns, key, Some(b)) && BlobOk(b) && o in ChunksOf(ns, key, b)
    ensures o in live && ChunkNamed(o.item, ns, Truncated(key))
  {
    hide BlobOk, IndexOf, ChunksOf;
    ChunkIsPartOf(ns, key, b, o);
    var i := PartIs(ns, key, b, o);
    NotIndex(ns, key, b, o);
  }

  lemma PageHasChunk(s: seq<Slot>, nf: nat, hashOf: Id -> nat, ns: byte, key: string, o: Rec)
    requires Quiet(s, nf) && ns != NS_ANY && o in Recs(s) && ChunkNamed(o.item, ns, Truncated(key))
    ensures FindVia(s, ChunkQuery(ns, key, CHUNK_ANY), hashOf, 0).Hit?
  {
    hide Quiet, FindVia;
    ScanToChunk(s, hashOf, ns, key, 0);
    var k := PlaceOfRec(s, |s|, o);
    WholeIsHead(s, k);
  }

  lemma ChunkOfTheBlob(live: multiset<Rec>, ns: byte, key: string, b: Blob, n: Rec, r: Rec)
    requires OnlyBlob(live, ns, key, Some(b)) && BlobOk(b) && r in live + multiset{n} && !n.item.typ.BLOB_DATA?
    requires r.item.typ.BLOB_DATA? && OfName(r, ns, Truncated(key))
    ensures r in ChunksOf(ns, key, b)
  {
    hide BlobOk, IndexOf, ChunksOf;
    var i := PartIs(ns, key, b, r);
    if i < |b.pieces| {
      ChunkIsPart(ns, key, b, i);
    }
  }

  // ---------------------------------------------------------------- what is left

  // Without the blob the name stands for the new record; other names stand for what they did.
  lemma OverwriteIsMapUpdate(live: multiset<Rec>, ns: byte, key: string, b: Blob, n: Rec)
    requires Unique(live) && OnlyBlob(live, ns, key, Some(b)) && BlobOk(b) && OfName(n, ns, Truncated(key))
      && n !in live && PlainType(n.item.typ)
    requires n.item.chunk == CHUNK_ANY
    ensures WithoutBlob(live + multiset{n}, ns, key, b) == WithoutBlob(live, ns, key, b) + multiset{n}
    ensures MapUpdate(live, WithoutBlob(live, ns, key, b) + multiset{n}, n, ns, Truncated(key))
  {
    hide BlobOk, Unique, WithoutBlob, Without, PartsOf, OnlyBlob;
    NoneNamedWithout(live, ns, key, Some(b));
    WithoutBeside(live, ns, key, b, n);
    var rest := WithoutBlob(live, ns, key, b);
    OnlyBlobMeans(rest, ns, key);
    OneAdded(rest, n, ns, Truncated(key));
    OtherNames(live, rest + multiset{n}, ns, Truncated(key));
  }

  lemma OnlyBlobMeans(rest: multiset<Rec>, ns: byte, key: string)
    requires OnlyBlob(rest, ns, key, None)
    ensures forall r :: r in rest ==> !OfName(r, ns, Truncated(key))
  {
  }

  lemma WithoutBeside(live: multiset<Rec>, ns: byte, key: string, b: Blob, n: Rec)
    requires OnlyBlob(live, ns, key, Some(b)) && BlobOk(b) && n !in live
    ensures WithoutBlob(live + multiset{n}, ns, key, b) == WithoutBlob(live, ns, key, b) + multiset{n}
    ensures WithoutBlob(live, ns, key, b) == Without(live, ns, key, Some(b))
  {
    hide BlobOk, IndexOf, ChunksOf;
    assert PartsOf(ns, key, b) <= live && n !in PartsOf(ns, key, b);
    LessOfBoth(live, multiset{IndexOf(ns, key, b)}, multiset(ChunksOf(ns, key, b)), n);
  }

  lemma LessOfBoth(live: multiset<Rec>, i: multiset<Rec>, c: multiset<Rec>, n: Rec)
    requires i + c <= live && n !in i + c
    ensures live + multiset{n} - i - c == live - i - c + multiset{n} && live - i - c == live - (i + c)
  {
  }

  lemma OneAdded(rest: multiset<Rec>, n: Rec, ns: byte, key: string)
    requires Unique(rest) && (forall r :: r in rest ==> !OfName(r, ns, key)) && OfName(n, ns, key)
      && PlainType(n.item.typ)
    ensures Unique(rest + multiset{n}) && NoBlob(rest + multiset{n}, ns, key)
      && forall o :: RecordOf(rest + multiset{n}, ns, key, o) <==> o == Some(n)
  {
    var now := rest + multiset{n};
    assert n !in rest && now[n] == 1;
    forall r, q | r in now && q in now && IdOf(r.item) == IdOf(q.item) ensures r == q {
      if r == n || q == n {
        assert OfName(r, ns, key) && OfName(q, ns, key);
      }
    }
  }

  // ---------------------------------------------------------------- the steps of the write

  // What the search by name has met of the blob: this chunk, or its index.
  ghost predicate Met(b: Blob, ns: byte, key: string, chunk: Option<Rec>, item: Item, lured: bool) {
    && BlobOk(b) && (chunk.Some? <==> lured)
    && (chunk.Some? ==> chunk.value in ChunksOf(ns, key, b) && item == chunk.value.item && item.typ.BLOB_DATA?)
    && (chunk.None? ==> item.typ.BLOB_IDX? && item.val == BlobIndex(|b.data|, |b.pieces|, b.start))
  }

  lemma MetMeans(b: Blob, ns: byte, key: string, chunk: Option<Rec>, item: Item, lured: bool)
    requires Met(b, ns, key, chunk, item, lured)
    ensures BlobOk(b) && (chunk.Some? <==> lured) && (chunk.Some? ==> item == chunk.value.item)
  {
    hide BlobOk;
  }

  // The record n is to take the name of the blob, of which this was met.
  ghost predicate TakesName(live: multiset<Rec>, ns: byte, key: string, b: Blob, chunk: Option<Rec>, item: Item,
                            n: Rec) {
    && Unique(live) && OnlyBlob(live, ns, key, Some(b)) && PlainType(n.item.typ) && n.item.chunk == CHUNK_ANY
    && OfName(n, ns, Truncated(key)) && n !in live
    && exists lured :: Met(b, ns, key, chunk, item, lured)
  }

  lemma NewOverwrites(live: multiset<Rec>, ns: byte, typ: ItemType, key: string, v: Input, b: Blob, chunk: Option<Rec>,
                      item: Item, lured: bool)
    requires Unique(live) && OnlyBlob(live, ns, key, Some(b)) && PlainType(typ) && |key| <= MAX_KEY_LENGTH
      && Met(b, ns, key, chunk, item, lured)
    requires WellFormed(typ, v, CHUNK_ANY)
    ensures TakesName(live, ns, key, b, chunk, item, RecOf(ns, typ, key, v, CHUNK_ANY))
  {
    hide BlobOk, PartsOf, Unique;
    var n := RecOf(ns, typ, key, v, CHUNK_ANY);
    if n in live {
      var i := PartIs(ns, key, b, n);
    }
  }

  // The chunk o was met, and n has been written since.
  ghost predicate Meeting(img: seq<FPage>, live: multiset<Rec>, ns: byte, key: string, b: Blob, o: Rec, n: Rec,
                          p: nat) {
    Overwriting(img, live, ns, key, b, n, p) && BlobOk(b) && o in ChunksOf(ns, key, b) && o.item.typ.BLOB_DATA?
  }

  lemma MeetingMeans(img: seq<FPage>, live: multiset<Rec>, ns: byte, key: string, b: Blob, o: Rec, n: Rec, p: nat)
    requires Overwriting(img, live, ns, key, b, n, p) && BlobOk(b) && o in ChunksOf(ns, key, b)
    ensures o in live && o != n
  {
    hide BlobOk, ChunksOf, OnlyBlob;
    OverwritingMeans(img, live, ns, key, b, n, p);
    ChunkIsNamed(live, ns, key, b, o);
  }

  lemma OverwritesMeans(img: seq<FPage>, live: multiset<Rec>, ns: byte, key: string, b: Blob, chunk: Option<Rec>,
                        item: Item, n: Rec, p: nat)
    requires TakesName(live, ns, key, b, chunk, item, n) && Appended(img, live, n, p)
    ensures Overwriting(img, live, ns, key, b, n, p) && BlobOk(b) && Unique(live) && OnlyBlob(live, ns, key, Some(b))
      && n !in live
    ensures PlainType(n.item.typ) && n.item.chunk == CHUNK_ANY && OfName(n, ns, Truncated(key))
    ensures chunk.Some? ==> Meeting(img, live, ns, key, b, chunk.value, n, p)
    ensures chunk.Some? ==> item == chunk.value.item && item.typ.BLOB_DATA?
    ensures chunk.None? ==> item.typ.BLOB_IDX? && item.val == BlobIndex(|b.data|, |b.pieces|, b.start)
  {
    hide BlobOk, ChunksOf, OnlyBlob, Unique, Appended;
  }

  lemma NotOfBlob(live: multiset<Rec>, o: Rec, n: Rec, ns: byte, key: string)
    requires Displaces(live, o, n, ns, key)
    ensures !o.item.typ.BLOB_IDX?
  {
  }

  // What is left of the blob besides n: nothing, or all but one chunk.
  ghost predicate Overwritten(live: multiset<Rec>, now: multiset<Rec>, ns: byte, key: string, b: Blob, chunk: bool,
                              n: Rec) {
    && BlobOk(b)
    && if chunk then exists c :: c in ChunksOf(ns, key, b) && now == live - multiset{c} + multiset{n}
       else now == WithoutBlob(live, ns, key, b) + multiset{n}
  }

  lemma AllOverwritten(live: multiset<Rec>, ns: byte, key: string, b: Blob, n: Rec)
    requires Unique(live) && OnlyBlob(live, ns, key, Some(b)) && BlobOk(b) && OfName(n, ns, Truncated(key))
      && n !in live && PlainType(n.item.typ)
    requires n.item.chunk == CHUNK_ANY
    ensures Overwritten(live, WithoutBlob(live + multiset{n}, ns, key, b), ns, key, b, false, n)
  {
    hide BlobOk, WithoutBlob, OnlyBlob, Unique, MapUpdate;
    OverwriteIsMapUpdate(live, ns, key, b, n);
  }

  lemma ChunkOverwritten(live: multiset<Rec>, now: multiset<Rec>, ns: byte, key: string, b: Blob, gone: Rec, n: Rec)
    requires BlobOk(b) && gone in ChunksOf(ns, key, b) && now == live - multiset{gone} + multiset{n}
    ensures Overwritten(live, now, ns, key, b, true, n)
  {
    hide BlobOk, ChunksOf;
  }

  lemma OverwrittenIsUpdate(live: multiset<Rec>, now: multiset<Rec>, ns: byte, key: string, b: Blob, item: Item, n: Rec)
    requires TakesName(live, ns, key, b, None, item, n) && Overwritten(live, now, ns, key, b, false, n)
    ensures MapUpdate(live, now, n, ns, Truncated(key))
  {
    hide BlobOk, WithoutBlob, OnlyBlob, Unique, MapUpdate, Met;
    OverwriteIsMapUpdate(live, ns, key, b, n);
  }

  // ---------------------------------------------------------------- a blob takes the name of a record

  // The name stands for the single record o.
  ghost predicate Single(live: multiset<Rec>, ns: byte, key: string, o: Rec) {
    Unique(live) && NoBlob(live, ns, Truncated(key)) && RecordOf(live, ns, Truncated(key), Some(o))
  }

  function Besides(live: multiset<Rec>, o: Option<Rec>): multiset<Rec> {
    if o.Some? then live - multiset{o.value} else live
  }

  lemma SingleMeans(live: multiset<Rec>, ns: byte, key: string, o: Rec)
    requires Single(live, ns, key, o) && forall r :: r in live ==> WritableId(r.item)
    ensures Unique(live) && o in live && WritableId(o.item) && VersionFree(live, ns, key, VER_0_OFFSET)
    ensures OfName(o, ns, Truncated(key)) && PlainType(o.item.typ) && !o.item.typ.ANY? && o.item.chunk == CHUNK_ANY
    ensures forall r :: r in live && OfName(r, ns, Truncated(key)) ==> r == o
  {
    forall r | r in live && OfName(r, ns, Truncated(key)) ensures r == o {
      assert IdOf(r.item) == IdOf(o.item);
    }
  }

  lemma SingleHasNoIndex(live: multiset<Rec>, ns: byte, key: string, o: Rec)
    requires Single(live, ns, key, o)
    ensures !HasAnIndex(live, ns, Truncated(key))
  {
  }

  // At most one record has the name, and it is no part of a blob.
  lemma NamedAtMost(live: multiset<Rec>, ns: byte, key: string, o: Option<Rec>)
    requires (forall r :: r in live ==> WritableId(r.item))
      && (if o.Some? then Single(live, ns, key, o.value) else OnlyBlob(live, ns, key, None))
    ensures NoBlob(live, ns, Truncated(key)) && forall r :: r in live && OfName(r, ns, Truncated(key)) ==> o == Some(r)
    ensures o.Some? ==> o.value in live && OfName(o.value, ns, Truncated(key))
  {
    hide Unique, WritableId;
    if o.Some? {
      SingleMeans(live, ns, key, o.value);
    }
  }

  // Once the blob is there, the record is the only one of the name that is no part of it.
  lemma OnlySingle(live: multiset<Rec>, ns: byte, key: string, o: Rec, n: Blob)
    requires Single(live, ns, key, o) && BlobOk(n) && forall r :: r in live ==> WritableId(r.item)
    ensures o in live + PartsOf(ns, key, n) && OfName(o, ns, Truncated(key)) && PlainType(o.item.typ)
      && !o.item.typ.ANY? && o.item.chunk == CHUNK_ANY
    ensures forall r :: r in live + PartsOf(ns, key, n) && OfName(r, ns, Truncated(key)) ==>
      r == o || !PlainType(r.item.typ)
  {
    hide BlobOk, PartsOf, Single, WritableId;
    SingleMeans(live, ns, key, o);
    forall r | r in live + PartsOf(ns, key, n) && OfName(r, ns, Truncated(key))
      ensures r == o || !PlainType(r.item.typ) {
      if r in PartsOf(ns, key, n) {
        var i := PartIs(ns, key, n, r);
      } else {
        assert r in live;
      }
    }
  }

  lemma SingleReplaced(live: multiset<Rec>, ns: byte, key: string, o: Rec, n: Blob)
    requires Single(live, ns, key, o) && BlobOk(n) && ns != NS_ANY && forall r :: r in live ==> WritableId(r.item)
    ensures Replaced(live - multiset{o}, live + PartsOf(ns, key, n) - multiset{o}, ns, key, None, n)
  {
    hide BlobOk, PartsOf, Replaced, Unique, WritableId, NoBlob;
    var rest := live - multiset{o};
    SingleMeans(live, ns, key, o);
    RestIsUnique(live, o);
    assert forall r :: r in rest ==> r in live && r != o;
    IsReplaced(rest, ns, key, None, n);
    assert Without(rest, ns, key, None) == rest;
    assert live + PartsOf(ns, key, n) - multiset{o} == rest + PartsOf(ns, key, n);
  }

  lemma RestIsUnique(live: multiset<Rec>, o: Rec)
    requires Unique(live) && o in live
    ensures Unique(live - multiset{o}) && o !in live - multiset{o}
  {
  }
}
