// Looking for the index of a blob or for one of its chunks over all pages: the search goes by what is
// asked for, whatever the hashes.
module BlobSearch {
  import opened NvsTypes
  import opened PageImage
  import opened PageRam
  import opened PageSearch
  import opened PageValues
  import opened FlashDevice
  import opened StoreImage
  import opened PageLists
  import opened Startup
  import opened StoreSearch
  import opened StoreWalk
  import opened PageSteps
  import opened PageWalk
  import opened BlobWrites
  import opened StoreMap

  function IndexQuery(ns: byte, key: string, ver: byte): Query {
    Query(ns, BLOB_IDX, Some(key), CHUNK_ANY, ver)
  }

  function ChunkQuery(ns: byte, key: string, chunk: byte): Query {
    Query(ns, BLOB_DATA, Some(key), chunk, VER_ANY)
  }

  predicate HasName(it: Item, ns: byte, key: string) {
    it.ns == ns && it.key == if |key| > 15 then key[..15] else key
  }

  // What the searches of the store make of an item. One by key and type goes on past other names, takes
  // the item of the type and stops at one of another. One for a chunk takes the chunk of this number and
  // stops at anything else with the number; one for any chunk takes nothing else and never stops.
  lemma WhatIsTaken(it: Item, ns: byte, typ: ItemType, key: string, chunk: byte)
    requires ns != 255 && PlainType(typ)
    ensures Judge(it, KeyQuery(ns, typ, key)) ==
      if !HasName(it, ns, key) then Skip else if typ.ANY? || it.typ == typ then Take else Mismatch
    ensures chunk != 255 ==>
      Judge(it, ChunkQuery(ns, key, chunk)) ==
        if !HasName(it, ns, key) || it.chunk != chunk then Skip else if it.typ.BLOB_DATA? then Take else Mismatch
    ensures Judge(it, ChunkQuery(ns, key, 255)) ==
      if HasName(it, ns, key) && it.typ.BLOB_DATA? then Take else Skip
  {
  }

  // One for an index takes it if the version is right, or if any will do. The version of another item is
  // what lies in the same byte.
  lemma WhichIndexIsTaken(it: Item, ns: byte, key: string, ver: byte)
    requires ns != 255 && (it.val.Scalar? ==> |it.val.bytes| == 8)
    ensures Judge(it, IndexQuery(ns, key, ver)) ==
      if !HasName(it, ns, key) || it.chunk != 255 then Skip
      else if ver != 255 && it.val.BlobIndex? && it.val.chunkStart != ver then Skip
      else if ver != 255 && it.val.Scalar? && it.val.bytes[5] != ver then Skip
      else if ver != 255 && it.val.VarLength? then Skip
      else if it.typ.BLOB_IDX? then Take else Mismatch
  {
  }

  // Queries that start at a hash and never miss an item by that.
  predicate BlobQuery(q: Query) {
    q.ns != NS_ANY && q.key.Some?
      && ((q.typ.BLOB_DATA? && q.chunk != CHUNK_ANY) || (q.typ.BLOB_IDX? && q.chunk == CHUNK_ANY))
  }

  predicate Asked(r: Rec, q: Query) {
    !Judge(r.item, q).Skip?
  }

  ghost predicate NoneAsked(recs: seq<Rec>, q: Query) {
    forall r :: r in recs ==> !Asked(r, q)
  }

  ghost predicate HitIs(r: Rec, recs: seq<Rec>, q: Query, f: Found) {
    r in recs && Asked(r, q) && (f.Hit? <==> Judge(r.item, q).Take?)
  }

  // On one page: the first item that is asked for.
  lemma PageHit(s: seq<Slot>, nf: nat, hashOf: Id -> nat, q: Query)
    requires Quiet(s, nf) && BlobQuery(q)
    ensures var f := FindVia(s, q, hashOf, 0);
      if f.Nothing?
        then NoneAsked(Recs(s), q)
        else f.index < |s| && Whole(s, f.index) && HitIs(RecAt(s, f.index), Recs(s), q, f)
  {
    hide Judge, Quiet, Recs;
    HashAgreesWithScan(s, q, hashOf, 0);
    FindMeans(s, q, 0);
    var f := FindVia(s, q, hashOf, 0);
    if f.Nothing? {
      forall r | r in Recs(s) ensures !Asked(r, q) {
        RecHead(s, r, q);
      }
    } else {
      HeadOfWhole(s, nf, f.index);
      RecIsInRecs(s, f.index);
    }
  }

  lemma RecHead(s: seq<Slot>, r: Rec, q: Query)
    requires r in Recs(s) && SkippedIn(s, q, 0, |s|)
    ensures !Asked(r, q)
  {
    hide Judge;
    var k := PlaceOfRec(s, |s|, r);
  }

  // Over all pages, if one record at most is asked for: that is what is found.
  ghost predicate OnlyAsked(live: multiset<Rec>, q: Query, r: Option<Rec>) {
    match r
    case None => forall x :: x in live ==> !Asked(x, q)
    case Some(o) => o in live && Judge(o.item, q).Take? && forall x :: x in live && Asked(x, q) ==> x == o
  }

  lemma FindsAsked(rams: seq<Ram>, img: seq<FPage>, list: seq<nat>, free: seq<nat>, next: nat, hashOf: Id -> nat,
                   live: multiset<Rec>, q: Query, r: Option<Rec>, found: bool, at: nat, index: nat)
    requires Keeps(rams, img, list, free, next, hashOf, live) && BlobQuery(q) && OnlyAsked(live, q, r)
    requires found ==> Locates(rams, img, list, q, hashOf, at, index)
    requires !found ==> NoHitBefore(rams, img, list, q, hashOf, |list|)
    ensures found <==> r.Some?
    ensures found ==> at < |list| && IsAt(rams, img, list[at], index, r.value)
  {
    hide RamOk, Quiet, FindVia, Whole, Recs, InOrder, Live, Judge;
    if found {
      FoundOn(rams, img, list, free, next, hashOf, live, q, r, at, index);
    } else if r.Some? {
      TakenIsAsked(r.value, q);
      MissedNone(rams, img, list, free, next, hashOf, live, q, r.value);
    }
  }

  // The search finds this record.
  ghost predicate Finds(rams: seq<Ram>, img: seq<FPage>, list: seq<nat>, q: Query, hashOf: Id -> nat, r: Rec) {
    && !NoHitBefore(rams, img, list, q, hashOf, |list|)
    && forall at: nat, index: nat :: Locates(rams, img, list, q, hashOf, at, index) ==>
         IsAt(rams, img, list[at], index, r)
  }

  lemma AskedIsFound(rams: seq<Ram>, img: seq<FPage>, list: seq<nat>, free: seq<nat>, next: nat, hashOf: Id -> nat,
                     live: multiset<Rec>, q: Query, r: Rec)
    requires Keeps(rams, img, list, free, next, hashOf, live) && BlobQuery(q) && OnlyAsked(live, q, Some(r))
    ensures Finds(rams, img, list, q, hashOf, r)
  {
    hide InOrder, Live, NoHitBefore, IsAt, OnlyAsked, FindVia;
    if NoHitBefore(rams, img, list, q, hashOf, |list|) {
      FindsAsked(rams, img, list, free, next, hashOf, live, q, Some(r), false, 0, 0);
    }
    forall at: nat, index: nat | Locates(rams, img, list, q, hashOf, at, index)
      ensures IsAt(rams, img, list[at], index, r) {
      FindsAsked(rams, img, list, free, next, hashOf, live, q, Some(r), true, at, index);
    }
  }

  lemma FoundOn(rams: seq<Ram>, img: seq<FPage>, list: seq<nat>, free: seq<nat>, next: nat, hashOf: Id -> nat,
                live: multiset<Rec>, q: Query, r: Option<Rec>, at: nat, index: nat)
    requires Keeps(rams, img, list, free, next, hashOf, live) && BlobQuery(q) && OnlyAsked(live, q, r)
    requires Locates(rams, img, list, q, hashOf, at, index)
    ensures r.Some? && IsAt(rams, img, list[at], index, r.value)
  {
    hide RamOk, Quiet, FindVia, Whole, Recs, InOrder, Live, Judge;
    var p := list[at];
    LiveHeader(rams, img, list, free, next, hashOf, p);
    RecordPage(rams, img, list, free, next, hashOf, p);
    PageHit(img[p].slots, rams[p].top, hashOf, q);
    OnPageIsLive(img, p, RecAt(img[p].slots, index));
  }

  lemma LiveHeader(rams: seq<Ram>, img: seq<FPage>, list: seq<nat>, free: seq<nat>, next: nat, hashOf: Id -> nat,
                   p: nat)
    requires InOrder(rams, img, list, free, next, hashOf) && p < |img| && p < |rams| && LiveState(rams[p].state)
    ensures img[p].hdr.Header?
  {
    hide RamOk;
    HeadersAre(rams, img, hashOf);
  }

  lemma TakenIsAsked(o: Rec, q: Query)
    requires Judge(o.item, q).Take?
    ensures Asked(o, q)
  {
  }

  // Where everything that is asked for is taken, something is found if there is anything.
  lemma MissedNone(rams: seq<Ram>, img: seq<FPage>, list: seq<nat>, free: seq<nat>, next: nat, hashOf: Id -> nat,
                   live: multiset<Rec>, q: Query, o: Rec)
    requires Keeps(rams, img, list, free, next, hashOf, live) && BlobQuery(q) && o in live && Asked(o, q)
    requires forall x :: x in live && Asked(x, q) ==> Judge(x.item, q).Take?
    ensures !NoHitBefore(rams, img, list, q, hashOf, |list|)
  {
    hide RamOk, Quiet, FindVia, Whole, Recs, InOrder, Live, Judge;
    var p := PageOf(img, o);
    RecordPage(rams, img, list, free, next, hashOf, p);
    PageHit(img[p].slots, rams[p].top, hashOf, q);
    var f := FindVia(img[p].slots, q, hashOf, 0);
    OnPageIsLive(img, p, RecAt(img[p].slots, f.index));
    var k :| 0 <= k < |list| && list[k] == p;
  }

  // ---------------------------------------------------------------- blobs and other records

  predicate PartOf(r: Rec, ns: byte, key: string) {
    OfName(r, ns, key) && (r.item.typ.BLOB_DATA? || r.item.typ.BLOB_IDX?)
  }

  // The chunks of a blob.
  lemma {:induction false} ChunkIn(ns: byte, key: string, start: byte, pieces: seq<seq<byte>>, i: nat)
    requires Numbered(start, |pieces|) && i < |pieces|
    ensures |ChunkRecs(ns, key, start, pieces)| == |pieces|
    ensures ChunkRecs(ns, key, start, pieces)[i] == RecOf(ns, BLOB_DATA, key, Variable(pieces[i]), start + i)
  {
    if i < |pieces| - 1 {
      ChunkIn(ns, key, start, pieces[..|pieces| - 1], i);
    } else if |pieces| > 1 {
      ChunkIn(ns, key, start, pieces[..|pieces| - 1], 0);
    }
  }

  // A blob: its bytes, its version, and how it is split.
  datatype Blob = Blob(data: seq<byte>, start: byte, pieces: seq<seq<byte>>)

  predicate BlobOk(b: Blob) {
    && 0 < |b.pieces| < 128 && Numbered(b.start, |b.pieces|) && (b.start == 0 || b.start == 128)
    && Joined(b.pieces) == b.data && |b.data| <= 127 * 125 * 32
  }

  function IndexOf(ns: byte, key: string, b: Blob): Rec
    requires BlobOk(b)
  {
    IndexRec(ns, Truncated(key), |b.data|, |b.pieces|, b.start)
  }

  function ChunkOfBlob(ns: byte, key: string, b: Blob, i: nat): Rec
    requires BlobOk(b) && i < |b.pieces|
  {
    RecOf(ns, BLOB_DATA, Truncated(key), Variable(b.pieces[i]), b.start + i)
  }

  function ChunksOf(ns: byte, key: string, b: Blob): (recs: seq<Rec>)
    requires BlobOk(b)
  {
    ChunkRecs(ns, Truncated(key), b.start, b.pieces)
  }

  // The blob is there, and searches for its parts can find nothing else.
  ghost predicate HasBlob(live: multiset<Rec>, ns: byte, key: string, b: Blob) {
    BlobOk(b) && HasIndex(live, ns, key, b) && HasChunks(live, ns, key, b)
  }

  ghost predicate HasIndex(live: multiset<Rec>, ns: byte, key: string, b: Blob)
    requires BlobOk(b)
  {
    OnlyAsked(live, IndexQuery(ns, key, VER_ANY), Some(IndexOf(ns, key, b)))
  }

  // An index is found for a blob that is there, and none where there is none.
  ghost predicate FindsIndex(live: multiset<Rec>, ns: byte, key: string, b: Option<Blob>) {
    match b
    case None => OnlyAsked(live, IndexQuery(ns, key, VER_ANY), None)
    case Some(x) => HasBlob(live, ns, key, x)
  }

  function IndexRecOf(ns: byte, key: string, b: Option<Blob>): (r: Option<Rec>)
    requires b.Some? ==> BlobOk(b.value)
  {
    if b.Some? then Some(IndexOf(ns, key, b.value)) else None
  }

  lemma BlobIsAsked(live: multiset<Rec>, ns: byte, key: string, b: Option<Blob>)
    requires FindsIndex(live, ns, key, b)
    ensures (b.Some? ==> BlobOk(b.value)) && OnlyAsked(live, IndexQuery(ns, key, VER_ANY), IndexRecOf(ns, key, b))
  {
    hide OnlyAsked;
  }

  lemma IndexMeans(ns: byte, key: string, b: Blob)
    requires BlobOk(b)
    ensures IndexOf(ns, key, b).item.val == BlobIndex(|b.data|, |b.pieces|, b.start)
  {
  }

  lemma BlobMeans(live: multiset<Rec>, ns: byte, key: string, b: Blob)
    requires HasBlob(live, ns, key, b)
    ensures BlobOk(b) && Joined(b.pieces) == b.data && Joined(b.pieces[..0]) == []
  {
  }

  lemma ChunkIsAsked(live: multiset<Rec>, ns: byte, key: string, b: Blob, i: nat)
    requires HasBlob(live, ns, key, b) && i < |b.pieces|
    ensures BlobOk(b) && b.start + i < CHUNK_ANY
      && OnlyAsked(live, ChunkQuery(ns, key, b.start + i), Some(ChunkOfBlob(ns, key, b, i)))
  {
    hide OnlyAsked;
  }

  ghost predicate HasChunks(live: multiset<Rec>, ns: byte, key: string, b: Blob)
    requires BlobOk(b)
  {
    HasChunksFrom(live, ns, key, b, 0)
  }

  // The chunks of the blob from this one on are there.
  ghost predicate HasChunksFrom(live: multiset<Rec>, ns: byte, key: string, b: Blob, k: nat)
    requires BlobOk(b)
  {
    forall i :: k <= i < |b.pieces| ==>
      OnlyAsked(live, ChunkQuery(ns, key, b.start + i), Some(ChunkOfBlob(ns, key, b, i)))
  }

  // ---------------------------------------------------------------- any blob that can be read

  ghost function BytesIn(r: Rec): seq<byte> {
    if WholeRec(r) && IsVariableLengthType(r.item.typ) then DataOf(r) else []
  }

  // The data of these records, one after the other.
  ghost function DataFrom(cs: seq<Rec>): seq<byte> {
    if cs == [] then [] else DataFrom(cs[..|cs| - 1]) + BytesIn(cs[|cs| - 1])
  }

  ghost predicate PieceAt(live: multiset<Rec>, ns: byte, key: string, number: nat, c: Rec) {
    number < CHUNK_ANY && OnlyAsked(live, ChunkQuery(ns, key, number), Some(c)) && WholeRec(c) && c.item.typ.BLOB_DATA?
  }

  // The chunks with the numbers from `start` on are these.
  ghost predicate HasPieces(live: multiset<Rec>, ns: byte, key: string, start: byte, cs: seq<Rec>) {
    forall k :: 0 <= k < |cs| ==> PieceAt(live, ns, key, start + k, cs[k])
  }

  // The index i counts the chunks cs, and they hold as many bytes as it says.
  ghost predicate Readable(live: multiset<Rec>, ns: byte, key: string, i: Rec, cs: seq<Rec>) {
    && OnlyAsked(live, IndexQuery(ns, key, VER_ANY), Some(i)) && i.item.val.BlobIndex?
    && |cs| == i.item.val.chunkCount && HasPieces(live, ns, key, i.item.val.chunkStart, cs)
    && |DataFrom(cs)| == i.item.val.totalSize
  }

  lemma ReadableOnce(live: multiset<Rec>, ns: byte, key: string, i: Rec, cs: seq<Rec>, j: Rec, ds: seq<Rec>)
    requires Readable(live, ns, key, i, cs) && Readable(live, ns, key, j, ds)
    ensures i == j && cs == ds
  {
    hide Judge, WholeRec;
    forall k | 0 <= k < |cs| ensures cs[k] == ds[k] {
      assert PieceAt(live, ns, key, i.item.val.chunkStart + k, cs[k]);
      assert PieceAt(live, ns, key, i.item.val.chunkStart + k, ds[k]);
    }
  }

  lemma ReadableMissesNone(live: multiset<Rec>, ns: byte, key: string, i: Rec, cs: seq<Rec>)
    requires Readable(live, ns, key, i, cs)
    ensures forall j: Rec, k: nat :: !Misses(live, ns, key, j, k)
  {
    hide Judge, WholeRec, DataFrom;
    forall j: Rec, k: nat ensures !Misses(live, ns, key, j, k) {
      if k < |cs| {
        assert PieceAt(live, ns, key, i.item.val.chunkStart + k, cs[k]);
      }
    }
  }

  lemma {:induction false} ReadableMeans(live: multiset<Rec>, ns: byte, key: string, i: Rec, cs: seq<Rec>)
    requires Readable(live, ns, key, i, cs)
    ensures OnlyAsked(live, IndexQuery(ns, key, VER_ANY), Some(i)) && i.item.val.BlobIndex?
    ensures |cs| == i.item.val.chunkCount && HasPieces(live, ns, key, i.item.val.chunkStart, cs)
      && |DataFrom(cs)| == i.item.val.totalSize
  {
  }

  lemma {:induction false} DataPrefix(cs: seq<Rec>, k: nat)
    requires k <= |cs|
    ensures |DataFrom(cs[..k])| <= |DataFrom(cs)|
  {
    if k == |cs| {
      assert cs[..k] == cs;
    } else {
      DataPrefix(cs[..|cs| - 1], k);
      assert cs[..|cs| - 1][..k] == cs[..k];
    }
  }

  // The next chunk, and what it adds.
  lemma {:induction false} PieceMore(live: multiset<Rec>, ns: byte, key: string, start: byte, cs: seq<Rec>, k: nat)
    requires HasPieces(live, ns, key, start, cs) && k < |cs|
    ensures start + k < CHUNK_ANY && OnlyAsked(live, ChunkQuery(ns, key, start + k), Some(cs[k]))
      && cs[k].item.val.VarLength?
    ensures WholeRec(cs[k]) && cs[k].item.typ.BLOB_DATA? && |DataOf(cs[k])| == cs[k].item.val.dataSize
    ensures DataFrom(cs[..k + 1]) == DataFrom(cs[..k]) + DataOf(cs[k])
    ensures |DataFrom(cs[..k])| + cs[k].item.val.dataSize <= |DataFrom(cs)|
  {
    hide OnlyAsked;
    assert PieceAt(live, ns, key, start + k, cs[k]);
    assert cs[..k + 1][..k] == cs[..k];
    DataPrefix(cs, k + 1);
  }

  lemma ChunkHolds(ns: byte, key: string, data: seq<byte>, chunk: byte)
    ensures BytesIn(RecOf(ns, BLOB_DATA, key, Variable(data), chunk)) == data
  {
    ReadsBack(ns, BLOB_DATA, key, data, chunk);
  }

  lemma {:induction false} ChunksHold(ns: byte, key: string, start: byte, pieces: seq<seq<byte>>)
    requires Numbered(start, |pieces|)
    ensures DataFrom(ChunkRecs(ns, key, start, pieces)) == Joined(pieces)
  {
    hide RecOf, BytesIn;
    if pieces != [] {
      var front, last := pieces[..|pieces| - 1], pieces[|pieces| - 1];
      ChunksHold(ns, key, start, front);
      OneMorePiece(ns, key, start, front, last);
      assert front + [last] == pieces;
      ChunkHolds(ns, key, last, start + |front|);
      var recs := ChunkRecs(ns, key, start, pieces);
      assert recs[..|recs| - 1] == ChunkRecs(ns, key, start, front);
    }
  }

  // A blob that was written can be read.
  lemma BlobIsReadable(live: multiset<Rec>, ns: byte, key: string, b: Blob)
    requires HasBlob(live, ns, key, b)
    ensures BlobOk(b) && Readable(live, ns, key, IndexOf(ns, key, b), ChunksOf(ns, key, b))
      && DataFrom(ChunksOf(ns, key, b)) == b.data
  {
    hide OnlyAsked, WholeRec, ChunkRecs, IndexRec, RecOf, DataFrom;
    BlobMeans(live, ns, key, b);
    IndexMeans(ns, key, b);
    BlobIsAsked(live, ns, key, Some(b));
    ChunkCount(ns, Truncated(key), b.start, b.pieces);
    ChunksHold(ns, Truncated(key), b.start, b.pieces);
    forall k | 0 <= k < |b.pieces| ensures PieceAt(live, ns, key, b.start + k, ChunksOf(ns, key, b)[k]) {
      ChunkIsAsked(live, ns, key, b, k);
      ChunkData(ns, key, b, k);
      ChunkIn(ns, Truncated(key), b.start, b.pieces, k);
    }
  }

  lemma NoPieces(cs: Option<seq<Rec>>)
    ensures cs.Some? ==> DataFrom(cs.value[..0]) == []
  {
  }

  ghost function PiecesOf(live: multiset<Rec>, ns: byte, key: string, b: Option<Blob>): (cs: Option<seq<Rec>>)
    requires FindsIndex(live, ns, key, b)
    ensures cs.Some? <==> b.Some?
    ensures b.Some? ==> BlobOk(b.value) && DataFrom(cs.value) == b.value.data
    ensures b.Some? ==> Readable(live, ns, key, IndexOf(ns, key, b.value), cs.value)
  {
    if b.Some? then
      BlobIsReadable(live, ns, key, b.value);
      Some(ChunksOf(ns, key, b.value))
    else None
  }

  lemma NothingReadable(live: multiset<Rec>, ns: byte, key: string)
    requires FindsIndex(live, ns, key, None)
    ensures forall i: Rec, ds: seq<Rec> :: !Readable(live, ns, key, i, ds)
  {
  }

  // If these can be read, nothing else is what a reader of this name gets.
  lemma OnePieces(live: multiset<Rec>, ns: byte, key: string, r: Option<Rec>, cs: Option<seq<Rec>>)
    requires cs.Some? ==> r.Some? && Readable(live, ns, key, r.value, cs.value)
    requires cs.None? ==> forall i: Rec, ds: seq<Rec> :: !Readable(live, ns, key, i, ds)
    ensures forall i: Rec, ds: seq<Rec> :: Readable(live, ns, key, i, ds) ==> cs.Some? && i == r.value && ds == cs.value
    ensures cs.Some? ==> r.value.item.val.BlobIndex? && |cs.value| == r.value.item.val.chunkCount
    ensures cs.Some? ==> HasPieces(live, ns, key, r.value.item.val.chunkStart, cs.value)
    ensures cs.Some? ==> |DataFrom(cs.value)| == r.value.item.val.totalSize
  {
    forall i: Rec, ds: seq<Rec> | Readable(live, ns, key, i, ds) ensures i == r.value && ds == cs.value {
      ReadableOnce(live, ns, key, r.value, cs.value, i, ds);
    }
  }

  // The index r counts a chunk, its k-th, that is missing.
  ghost predicate Misses(live: multiset<Rec>, ns: byte, key: string, r: Rec, k: nat) {
    && OnlyAsked(live, IndexQuery(ns, key, VER_ANY), Some(r)) && r.item.val.BlobIndex?
    && k < r.item.val.chunkCount && Lacks(live, ns, key, r.item.val.chunkStart, k)
  }

  lemma MissesOne(live: multiset<Rec>, ns: byte, key: string, r: Rec, k: nat)
    requires Misses(live, ns, key, r, k)
    ensures OnlyAsked(live, IndexQuery(ns, key, VER_ANY), Some(r))
      && forall i: Rec, j: nat :: Misses(live, ns, key, i, j) ==> i == r
    ensures r.item.val.BlobIndex? && k < r.item.val.chunkCount && Lacks(live, ns, key, r.item.val.chunkStart, k)
  {
    hide Judge;
  }

  lemma WholeMissesNone(live: multiset<Rec>, ns: byte, key: string, b: Option<Blob>)
    requires FindsIndex(live, ns, key, b)
    ensures forall i: Rec, j: nat :: !Misses(live, ns, key, i, j)
  {
    hide Judge, BlobOk, ChunkOfBlob, IndexOf;
    forall i: Rec, j: nat ensures !Misses(live, ns, key, i, j) {
      BlobIsAsked(live, ns, key, b);
      if b.Some? && Misses(live, ns, key, i, j) {
        IndexMeans(ns, key, b.value);
        ChunkIsAsked(live, ns, key, b.value, j);
      }
    }
  }

  ghost predicate Lacks(live: multiset<Rec>, ns: byte, key: string, start: byte, k: nat) {
    start + k < CHUNK_ANY && OnlyAsked(live, ChunkQuery(ns, key, start + k), None)
  }

  // The index of a blob is at entry `index` of page x.
  ghost predicate IsIndexAt(rams: seq<Ram>, img: seq<FPage>, x: nat, index: nat, val: Val) {
    && x < |rams| == |img| && LiveState(rams[x].state) && |img[x].slots| == ENTRY_COUNT && index < ENTRY_COUNT
    && Whole(img[x].slots, index) && val == img[x].slots[index].body.item.val && val.BlobIndex?
  }

  lemma HitOfType(rams: seq<Ram>, img: seq<FPage>, list: seq<nat>, free: seq<nat>, next: nat, hashOf: Id -> nat,
                  q: Query, at: nat, index: nat)
    requires InOrder(rams, img, list, free, next, hashOf) && !q.typ.ANY?
      && Locates(rams, img, list, q, hashOf, at, index)
    ensures |rams| == |img| && list[at] < |img| && index < ENTRY_COUNT == |img[list[at]].slots|
      && Whole(img[list[at]].slots, index)
    ensures img[list[at]].slots[index].body.item.typ == q.typ
    ensures q.typ.BLOB_IDX? ==> img[list[at]].slots[index].body.item.val.BlobIndex?
    ensures q.typ.BLOB_DATA? ==> img[list[at]].slots[index].body.item.val.VarLength?
    ensures q.typ.BLOB_DATA? && q.chunk != CHUNK_ANY ==> img[list[at]].slots[index].body.item.chunk == q.chunk
  {
    hide RamOk, Quiet, Whole;
    var p := list[at];
    RamsOkAt(rams, img, hashOf, p);
    RamIsLoadable(rams[p], img[p], hashOf);
    PageHitType(img[p].slots, rams[p].top, hashOf, q);
  }

  // What a search under a type finds is a record of the name with this type.
  lemma HitIsNamed(rams: seq<Ram>, img: seq<FPage>, list: seq<nat>, free: seq<nat>, next: nat, hashOf: Id -> nat,
                   ns: byte, typ: ItemType, key: string, at: nat, index: nat) returns (r: Rec)
    requires InOrder(rams, img, list, free, next, hashOf) && ns != NS_ANY && PlainType(typ) && !typ.ANY?
    requires Locates(rams, img, list, KeyQuery(ns, typ, key), hashOf, at, index)
    ensures r in Live(img) && OfName(r, ns, Truncated(key)) && r.item.typ == typ && IsAt(rams, img, list[at], index, r)
  {
    hide RamOk, Quiet, Whole, Live, InOrder, IsAt;
    var q, s := KeyQuery(ns, typ, key), img[list[at]].slots;
    HitOfType(rams, img, list, free, next, hashOf, q, at, index);
    FindMeans(s, q, FirstHash(s, hashOf, hashOf(QueryId(q)), 0));
    FoundIsAt(rams, img, list, free, next, hashOf, list[at], index);
    r := RecAt(s, index);
  }

  ghost predicate NoneOfType(live: multiset<Rec>, ns: byte, typ: ItemType, key: string) {
    forall r :: r in live && OfName(r, ns, key) ==> r.item.typ != typ
  }

  lemma PageHitType(s: seq<Slot>, nf: nat, hashOf: Id -> nat, q: Query)
    requires Quiet(s, nf) && !q.typ.ANY? && FindVia(s, q, hashOf, 0).Hit?
    ensures var i := FindVia(s, q, hashOf, 0).index;
      i < |s| && Whole(s, i) && s[i].body.item.typ == q.typ && (q.typ.BLOB_IDX? ==> s[i].body.item.val.BlobIndex?)
      && (q.typ.BLOB_DATA? ==> s[i].body.item.val.VarLength?)
      && (q.typ.BLOB_DATA? && q.chunk != CHUNK_ANY ==> s[i].body.item.chunk == q.chunk)
  {
    FindMeans(s, q, if UsesHash(q) then FirstHash(s, hashOf, hashOf(QueryId(q)), 0) else 0);
    var i := FindVia(s, q, hashOf, 0).index;
    HeadOfWhole(s, nf, i);
    assert HeadFits(s, i, nf);
  }

  lemma AskedIsChunk(live: multiset<Rec>, ns: byte, key: string, chunk: byte, r: Rec)
    requires OnlyAsked(live, ChunkQuery(ns, key, chunk), Some(r)) && chunk != CHUNK_ANY && ns != NS_ANY
    ensures r.item.typ.BLOB_DATA? && OfName(r, ns, Truncated(key)) && r.item.chunk == chunk
  {
  }

  // The value of a chunk.
  lemma ChunkData(ns: byte, key: string, b: Blob, i: nat)
    requires BlobOk(b) && i < |b.pieces|
    ensures var r := ChunkOfBlob(ns, key, b, i);
      WholeRec(r) && DataOf(r) == b.pieces[i] && r.item.val == VarLength(|b.pieces[i]|) && r.item.typ.BLOB_DATA?
  {
    ReadsBack(ns, BLOB_DATA, Truncated(key), b.pieces[i], b.start + i);
  }

  lemma JoinedMore(b: Blob, i: nat)
    requires BlobOk(b) && i < |b.pieces|
    ensures Joined(b.pieces[..i + 1]) == Joined(b.pieces[..i]) + b.pieces[i]
    ensures |Joined(b.pieces[..i])| + |b.pieces[i]| <= |b.data|
  {
    assert b.pieces[..i + 1][..i] == b.pieces[..i];
    JoinedPrefix(b.pieces, i + 1);
  }

  lemma {:induction false} JoinedPrefix(pieces: seq<seq<byte>>, i: nat)
    requires i <= |pieces|
    ensures Joined(pieces[..i]) <= Joined(pieces)
    decreases |pieces|
  {
    if i < |pieces| {
      JoinedPrefix(pieces[..|pieces| - 1], i);
      assert pieces[..|pieces| - 1][..i] == pieces[..i];
    } else {
      assert pieces[..i] == pieces;
    }
  }

  // ---------------------------------------------------------------- parts of a blob being erased

  // All that is left of a blob are its chunks from this one on.
  lemma ChunksWithoutIndex(live: multiset<Rec>, ns: byte, key: string, b: Blob)
    requires BlobOk(b) && HasChunks(live, ns, key, b)
    ensures HasChunksFrom(live - multiset{IndexOf(ns, key, b)}, ns, key, b, 0)
  {
    var idx := IndexOf(ns, key, b);
    forall i | 0 <= i < |b.pieces|
      ensures OnlyAsked(live - multiset{idx}, ChunkQuery(ns, key, b.start + i), Some(ChunkOfBlob(ns, key, b, i)))
    {
      assert ChunkOfBlob(ns, key, b, i) != idx;
      StillAsked(live, ChunkQuery(ns, key, b.start + i), ChunkOfBlob(ns, key, b, i), idx);
    }
  }

  lemma StillAsked(live: multiset<Rec>, q: Query, r: Rec, x: Rec)
    requires OnlyAsked(live, q, Some(r)) && r != x
    ensures OnlyAsked(live - multiset{x}, q, Some(r))
  {
  }

  lemma ChunksLess(live: multiset<Rec>, ns: byte, key: string, b: Blob, k: nat)
    requires BlobOk(b) && k < |b.pieces| && HasChunksFrom(live, ns, key, b, k)
    ensures HasChunksFrom(live - multiset{ChunkOfBlob(ns, key, b, k)}, ns, key, b, k + 1)
  {
    var x := ChunkOfBlob(ns, key, b, k);
    forall i | k + 1 <= i < |b.pieces|
      ensures OnlyAsked(live - multiset{x}, ChunkQuery(ns, key, b.start + i), Some(ChunkOfBlob(ns, key, b, i)))
    {
      assert ChunkOfBlob(ns, key, b, i).item.chunk == b.start + i;
      StillAsked(live, ChunkQuery(ns, key, b.start + i), ChunkOfBlob(ns, key, b, i), x);
    }
  }

  lemma FirstChunkAsked(live: multiset<Rec>, ns: byte, key: string, b: Blob, k: nat)
    requires BlobOk(b) && k < |b.pieces| && HasChunksFrom(live, ns, key, b, k)
    ensures b.start + k < CHUNK_ANY
      && OnlyAsked(live, ChunkQuery(ns, key, b.start + k), Some(ChunkOfBlob(ns, key, b, k)))
    ensures |ChunksOf(ns, key, b)| == |b.pieces| && ChunksOf(ns, key, b)[k] == ChunkOfBlob(ns, key, b, k)
  {
    ChunkIn(ns, Truncated(key), b.start, b.pieces, k);
  }

  // The first few of these records are gone.
  ghost predicate PartErased(c: seq<FPage>, before: multiset<Rec>, recs: seq<Rec>) {
    exists i :: 0 <= i <= |recs| && Recoverable(c, before - multiset(recs[..i]))
  }

  lemma NoneErased(c: seq<FPage>, before: multiset<Rec>, recs: seq<Rec>)
    requires Recoverable(c, before)
    ensures PartErased(c, before, recs)
  {
    hide Recoverable;
    assert before - multiset(recs[..0]) == before;
  }

  lemma OneMoreErased(cuts: iset<seq<FPage>>, mid: iset<seq<FPage>>, before: multiset<Rec>, recs: seq<Rec>, k: nat)
    requires k < |recs|
    requires forall c :: c in cuts && c !in mid ==> AllOrAllBut(c, before - multiset(recs[..k]), recs[k])
    ensures before - multiset(recs[..k]) - multiset{recs[k]} == before - multiset(recs[..k + 1])
    ensures forall c :: c in cuts && c !in mid ==> PartErased(c, before, recs)
  {
    hide Recoverable;
    assert recs[..k + 1] == recs[..k] + [recs[k]];
    assert before - multiset(recs[..k]) - multiset{recs[k]} == before - multiset(recs[..k + 1]);
  }

  // Both parts of a blob of this version can be told from everything else.
  ghost predicate Erasable(live: multiset<Rec>, ns: byte, key: string, ver: byte, b: Blob) {
    && BlobOk(b) && b.start == ver && OnlyAsked(live, IndexQuery(ns, key, ver), Some(IndexOf(ns, key, b)))
    && HasChunks(live, ns, key, b)
  }

  // What erasing a blob of this version relies on.
  ghost predicate InReach(rams: seq<Ram>, img: seq<FPage>, list: seq<nat>, hashOf: Id -> nat, ns: byte, key: string,
                          ver: byte, b: Blob) {
    BlobOk(b) && b.start == ver && Finds(rams, img, list, IndexQuery(ns, key, ver), hashOf, IndexOf(ns, key, b))
      && HasChunks(Live(img), ns, key, b)
  }

  lemma ErasableIsInReach(rams: seq<Ram>, img: seq<FPage>, list: seq<nat>, free: seq<nat>, next: nat, hashOf: Id -> nat,
                          ns: byte, key: string, ver: byte, b: Blob)
    requires InOrder(rams, img, list, free, next, hashOf) && Erasable(Live(img), ns, key, ver, b) && ns != NS_ANY
    ensures InReach(rams, img, list, hashOf, ns, key, ver, b)
  {
    hide InOrder, Live, OnlyAsked, HasChunks, BlobOk, IndexOf;
    AskedIsFound(rams, img, list, free, next, hashOf, Live(img), IndexQuery(ns, key, ver), IndexOf(ns, key, b));
  }

  lemma ReachMeans(rams: seq<Ram>, img: seq<FPage>, list: seq<nat>, hashOf: Id -> nat, ns: byte, key: string, ver: byte,
                   b: Blob)
    requires InReach(rams, img, list, hashOf, ns, key, ver, b)
    ensures BlobOk(b) && b.start == ver
      && Finds(rams, img, list, IndexQuery(ns, key, ver), hashOf, IndexOf(ns, key, b))
      && HasChunks(Live(img), ns, key, b)
  {
    hide Live, BlobOk, Finds, HasChunks;
  }

  ghost function WithoutBlob(live: multiset<Rec>, ns: byte, key: string, b: Blob): multiset<Rec>
    requires BlobOk(b)
  {
    live - multiset{IndexOf(ns, key, b)} - multiset(ChunksOf(ns, key, b))
  }

  // Losing power while a blob is erased leaves all of it, or no index and some of its chunks.
  ghost predicate ErasingBlob(c: seq<FPage>, live: multiset<Rec>, ns: byte, key: string, b: Blob, replaced: bool)
    requires BlobOk(b)
  {
    (!replaced && Recoverable(c, live)) || PartErased(c, live - multiset{IndexOf(ns, key, b)}, ChunksOf(ns, key, b))
  }

  lemma ErasingCuts(cuts: iset<seq<FPage>>, mid: iset<seq<FPage>>, cuts0: iset<seq<FPage>>, live: multiset<Rec>,
                    now: multiset<Rec>, ns: byte, key: string, b: Blob, replaced: bool)
    requires BlobOk(b) && now == live - multiset{IndexOf(ns, key, b)}
    requires forall c :: c in mid && c !in cuts0 ==>
      AllOrAllBut(c, live, IndexOf(ns, key, b)) && (replaced ==> Recoverable(c, now))
    requires forall c :: c in cuts && c !in mid ==> PartErased(c, now, ChunksOf(ns, key, b))
    ensures forall c :: c in cuts && c !in cuts0 ==> ErasingBlob(c, live, ns, key, b, replaced)
  {
    hide Recoverable, PartErased, IndexOf, ChunksOf, BlobOk;
    forall c: seq<FPage> | c in cuts && c !in cuts0 ensures ErasingBlob(c, live, ns, key, b, replaced) {
      if c in mid && Recoverable(c, now) {
        NoneErased(c, now, ChunksOf(ns, key, b));
      }
    }
  }

  // ---------------------------------------------------------------- parts of a name being erased

  ghost predicate GoneAre(before: multiset<Rec>, now: multiset<Rec>, ns: byte, key: string) {
    now <= before && forall r :: r in before && now[r] < before[r] ==> PartOf(r, ns, key)
  }

  lemma NoneGone(before: multiset<Rec>, ns: byte, key: string)
    ensures GoneAre(before, before, ns, key)
  {
  }

  lemma OneMoreGone(before: multiset<Rec>, live: multiset<Rec>, now: multiset<Rec>, o: Rec, ns: byte, key: string)
    requires GoneAre(before, live, ns, key) && now == live - multiset{o} && PartOf(o, ns, key)
    ensures GoneAre(before, now, ns, key)
  {
  }

  lemma FirstBoundary(r: Ram, fp: FPage)
    ensures CursorOn(r, fp, 0)
  {
  }

  lemma AnyBoundary(r: Ram, fp: FPage, index: nat)
    requires CursorOn(r, fp, index)
    ensures LiveState(r.state) ==> Boundary(fp.slots, index)
  {
  }

  // A chunk of the name that was found on a page.
  lemma ChunkHit(rams: seq<Ram>, img: seq<FPage>, list: seq<nat>, free: seq<nat>, next: nat, hashOf: Id -> nat,
                 p: nat, ns: byte, key: string, from: nat, index: nat) returns (o: Rec)
    requires InOrder(rams, img, list, free, next, hashOf) && p < |img| && p < |rams| && LiveState(rams[p].state)
      && ns != NS_ANY
    requires FindVia(img[p].slots, ChunkQuery(ns, key, CHUNK_ANY), hashOf, from) == Hit(index)
    ensures IsAt(rams, img, p, index, o) && o in Live(img) && PartOf(o, ns, Truncated(key)) && index < |img[p].slots|
    ensures o.item == img[p].slots[index].body.item && o.item.span >= 1 && index >= from
  {
    hide RamOk, Quiet, Recs, InOrder, Live;
    LiveHeader(rams, img, list, free, next, hashOf, p);
    RecordPage(rams, img, list, free, next, hashOf, p);
    FindMeans(img[p].slots, ChunkQuery(ns, key, CHUNK_ANY), from);
    HeadOfWhole(img[p].slots, rams[p].top, index);
    RecIsInRecs(img[p].slots, index);
    o := RecAt(img[p].slots, index);
    OnPageIsLive(img, p, o);
  }

  // A part of the name that was found.
  lemma PartHit(rams: seq<Ram>, img: seq<FPage>, list: seq<nat>, free: seq<nat>, next: nat, hashOf: Id -> nat,
                q: Query, at: nat, index: nat) returns (o: Rec)
    requires InOrder(rams, img, list, free, next, hashOf) && BlobQuery(q)
    requires Locates(rams, img, list, q, hashOf, at, index)
    ensures at < |list| && IsAt(rams, img, list[at], index, o) && o in Live(img)
      && PartOf(o, q.ns, Truncated(q.key.value))
  {
    hide RamOk, Quiet, Recs, InOrder, Live, Judge, FindVia;
    var p := list[at];
    LiveHeader(rams, img, list, free, next, hashOf, p);
    RecordPage(rams, img, list, free, next, hashOf, p);
    PageHit(img[p].slots, rams[p].top, hashOf, q);
    o := RecAt(img[p].slots, index);
    OnPageIsLive(img, p, o);
    AskedIsPart(o, q);
  }

  lemma AskedIsPart(r: Rec, q: Query)
    requires Judge(r.item, q).Take? && BlobQuery(q)
    ensures PartOf(r, q.ns, Truncated(q.key.value))
  {
  }

  // Behind an item that has been erased a search can go on.
  lemma StillBoundary(s: seq<Slot>, t: seq<Slot>, r: Ram, fp: FPage, a: nat)
    requires Removed(s, t, r.top, a) && fp.slots == t
    ensures a < |s| && IsHead(s[a]) && CursorOn(r, fp, a + s[a].body.item.span)
  {
    HeadReaches(s, r.top, a);
    HeadIsBoundary(s, r.top, a);
    BoundaryAfter(s, r.top, a);
    RemovedSpans(s, t, r.top, a);
    assert SpanAt(t, a) == 0;
  }
}
