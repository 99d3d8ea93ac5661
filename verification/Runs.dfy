// Runs of the engine, from an erased chip on, that lose a value: to power, or to a write that fails.
module Runs {
  import opened NvsTypes
  import opened PageImage
  import opened PageRam
  import opened PageLoad
  import opened PageSearch
  import opened PageScan
  import opened PageValues
  import opened FlashDevice
  import opened ItemHashList
  import opened StoreImage
  import opened PageLists
  import opened PageManagers
  import opened StoreAccounts
  import opened StoreSearch
  import opened StoreWrites
  import opened BlobWrites
  import opened BlobRooms
  import opened BlobSearch
  import opened BlobUpdates
  import opened BlobPurge
  import opened BlobCrash
  import opened BlobStore
  import opened Storages
  import opened StorageInits
  import opened Layouts
  import opened Startup
  import opened PartErases
  import opened BlobNames
  import opened Trails

  const KEY := "k"

  // ---------------------------------------------------------------- blobs of one and of two chunks

  function Chunk(data: seq<byte>, number: byte): Rec {
    RecOf(1, BLOB_DATA, KEY, Variable(data), number)
  }

  function IndexFor(size: nat, count: byte, start: byte): Rec {
    IndexRec(1, KEY, size, count, start)
  }

  function OneChunk(data: seq<byte>, start: byte): Blob {
    Blob(data, start, [data])
  }

  function TwoChunks(a: seq<byte>, b: seq<byte>): Blob {
    Blob(a + b, VER_0_OFFSET, [a, b])
  }

  lemma {:induction false} NoPiece(ns: byte, key: string, start: byte)
    ensures Joined([]) == [] && ChunkRecs(ns, key, start, []) == []
  {
  }

  lemma {:induction false} OnePiece(ns: byte, key: string, data: seq<byte>, start: byte)
    requires start <= VER_1_OFFSET
    ensures Joined([data]) == data
      && ChunkRecs(ns, key, start, [data]) == [RecOf(ns, BLOB_DATA, key, Variable(data), start)]
  {
    hide RecOf, Joined, ChunkRecs;
    NoPiece(ns, key, start);
    OneMorePiece(ns, key, start, [], data);
    assert [] + [data] == [data];
  }

  lemma OneChunkIs(data: seq<byte>, start: byte)
    requires (start == VER_0_OFFSET || start == VER_1_OFFSET) && |data| <= CHUNK_MAX_SIZE
    ensures BlobOk(OneChunk(data, start)) && ChunksOf(1, KEY, OneChunk(data, start)) == [Chunk(data, start)]
    ensures IndexOf(1, KEY, OneChunk(data, start)) == IndexFor(|data|, 1, start)
    ensures PartsOf(1, KEY, OneChunk(data, start)) == multiset{Chunk(data, start), IndexFor(|data|, 1, start)}
  {
    hide RecOf, IndexRec, ChunkRecs, Joined;
    OnePiece(1, KEY, data, start);
    assert Truncated(KEY) == KEY;
  }

  lemma TwoChunksIs(a: seq<byte>, b: seq<byte>)
    requires |a| <= CHUNK_MAX_SIZE && |b| <= CHUNK_MAX_SIZE
    ensures BlobOk(TwoChunks(a, b)) && ChunksOf(1, KEY, TwoChunks(a, b)) == [Chunk(a, 0), Chunk(b, 1)]
    ensures IndexOf(1, KEY, TwoChunks(a, b)) == IndexFor(|a| + |b|, 2, VER_0_OFFSET)
    ensures PartsOf(1, KEY, TwoChunks(a, b)) == multiset{Chunk(a, 0), Chunk(b, 1), IndexFor(|a| + |b|, 2, VER_0_OFFSET)}
  {
    hide RecOf, IndexRec, ChunkRecs, Joined;
    OnePiece(1, KEY, a, VER_0_OFFSET);
    OneMorePiece(1, KEY, VER_0_OFFSET, [a], b);
    assert [a] + [b] == [a, b] && Truncated(KEY) == KEY;
    assert [Chunk(a, 0)] + [Chunk(b, 1)] == [Chunk(a, 0), Chunk(b, 1)];
  }

  // A store of a blob and records of other names, none of them chunks or indices.
  lemma BlobInShape(others: multiset<Rec>, b: Blob, live: multiset<Rec>)
    requires BlobOk(b) && live == others + PartsOf(1, KEY, b) && Unique(others)
      && (forall r :: r in others ==> WritableId(r.item))
    requires forall r :: r in others ==> !OfName(r, 1, KEY) && !r.item.typ.BLOB_DATA? && !r.item.typ.BLOB_IDX?
    ensures InShape(live, 1, KEY, Some(b)) && Unique(live) && forall r :: r in live ==> WritableId(r.item)
  {
    hide Identified, Tidy, PartsOf, BlobOk, Unique, WritableId, InShape, RecOf, IndexRec, Replaced, OnlyBlob;
    assert Truncated(KEY) == KEY;
    OthersInShape(others);
    IsReplaced(others, 1, KEY, None, b);
    assert Without(others, 1, KEY, None) + PartsOf(1, KEY, b) == live;
    AfterSet(others, live, 1, KEY, None, b);
    InShapeMeans(live, 1, KEY, Some(b));
    NewWritable(others, live, 1, KEY, None, b);
  }

  lemma OthersInShape(others: multiset<Rec>)
    requires Unique(others)
      && forall r :: r in others ==> !OfName(r, 1, KEY) && !r.item.typ.BLOB_DATA? && !r.item.typ.BLOB_IDX?
    ensures InShape(others, 1, KEY, None) && OnlyBlob(others, 1, KEY, None)
  {
    assert Truncated(KEY) == KEY;
  }

  lemma InShapeMeans(live: multiset<Rec>, ns: byte, key: string, was: Option<Blob>)
    requires InShape(live, ns, key, was)
    ensures Identified(live) && Tidy(live) && OnlyBlob(live, ns, key, was) && Unique(live)
  {
  }

  // ---------------------------------------------------------------- power lost behind a chunk

  // Power fails when the last page ends in a chunk.
  method BootLaid(s: Storage, ghost sheets: seq<seq<Rec>>, ghost host: seq<Rec>, ghost n: Rec, ghost next: nat,
                  ghost spare: nat, ghost x: multiset<Rec>, ghost live: multiset<Rec>, ghost b: Blob)
    returns (again: Storage)
    requires Laid(s, sheets, next, spare) && s.Records() == x && sheets[|sheets| - 1] == host + [n] && EndsWhole(s)
    requires |n.item.key| <= MAX_KEY_LENGTH && n.item.typ.BLOB_DATA? && GoesOn(x, live, s.pm.hashOf) && Tidy(live)
    requires OnlyBlob(live, n.item.ns, n.item.key, Some(b)) && FirstIsIn(host, n.item, live)
    ensures s.Records() == x && s.pm.dev.pages in s.pm.dev.cuts && again.Valid()
      && OnlyBlob(again.Records(), n.item.ns, n.item.key, None)
  {
    hide HashList.Valid, InOrder, RamsOk, PageManager.Wired, PageManager.HashListsOk, Live, RecsOf, OnlyBlob,
      EndsInItem, Stable, Recoverable, GoesOn, Tidy, FirstIsIn;
    WrittenStable(s.pm.Rams(), s.pm.dev.pages, s.pm.pageList, s.pm.freeList, s.pm.seqNumber, s.pm.hashOf);
    again := BootWritten(s.pm.dev.pages, s.pm.hashOf, s.crcOf, x, live, s.Current(), host, n, b);
  }

  lemma SmallItems(data: seq<byte>, number: byte)
    requires number != CHUNK_ANY && |data| <= CHUNK_MAX_SIZE
    ensures WellFormed(BLOB_DATA, Variable(data), number) && SizeOk(BLOB_DATA, KEY, Variable(data))
      && SpanFor(BLOB_DATA, Variable(data)) == 1 + EntriesFor(|data|)
    ensures Chunk(data, number).item.typ.BLOB_DATA? && Chunk(data, number).item.ns == 1
      && Chunk(data, number).item.key == KEY
    ensures OfName(Chunk(data, number), 1, KEY) && Chunk(data, number).item.span == 1 + EntriesFor(|data|)
  {
  }

  lemma IndexItem(size: nat, count: byte, start: byte)
    requires size <= 127 * 125 * 32
    ensures WellFormed(BLOB_IDX, Index(size, count, start), CHUNK_ANY)
      && SizeOk(BLOB_IDX, KEY, Index(size, count, start)) && SpanFor(BLOB_IDX, Index(size, count, start)) == 1
    ensures IndexFor(size, count, start).item.span == 1
  {
  }

  // Stores a blob of one byte on an erased chip: its chunk, then its index.
  method StoreOneByte(s: Storage, ghost spare: nat) returns (ghost host: seq<Rec>)
    requires Laid(s, [[]], 0, spare)
    modifies s.pm.dev, s.pm.Objects()
    ensures s.pm.pages == old(s.pm.pages) && host == [Chunk([7], VER_0_OFFSET), IndexFor(1, 1, VER_0_OFFSET)]
      && Laid(s, [host], 3, spare)
    ensures SpanSum(host) == 3
  {
    hide Laid, RecOf, EndsInItem, SizeOk, WellFormed, SpanFor, SpanSum, Storage.Valid, EndsWhole;
    SmallItems([7], VER_0_OFFSET);
    IndexItem(1, 1, VER_0_OFFSET);
    SpanNone();
    PutFirst(s, BLOB_DATA, KEY, Variable([7]), VER_0_OFFSET, [], 0, spare);
    PutFirst(s, BLOB_IDX, KEY, Index(1, 1, VER_0_OFFSET), CHUNK_ANY, [] + [Chunk([7], VER_0_OFFSET)], 2, spare);
    host := [] + [Chunk([7], VER_0_OFFSET)] + [IndexFor(1, 1, VER_0_OFFSET)];
  }

  // On an erased chip a blob of one byte is stored, and then the first chunk of its next value. If
  // power fails now, there is no blob when the store comes up: neither the old value nor the new one.
  method LostUpdate(hashOf: Id -> nat, crcOf: seq<byte> -> nat)
    returns (s: Storage, again: Storage, ghost before: multiset<Rec>)
    requires HashesDiffer(multiset{}, 1, KEY, hashOf)
    ensures InShape(before, 1, KEY, Some(OneChunk([7], VER_0_OFFSET))) && s.pm.dev.pages in s.pm.dev.cuts
    ensures s.Records() == before + multiset{Chunk([8], VER_1_OFFSET)}
    ensures again.Valid() && OnlyBlob(again.Records(), 1, KEY, None)
  {
    hide Laid, RecOf, EndsInItem, SizeOk, WellFormed, SpanFor, SpanSum, Storage.Valid, HashesDiffer, InShape, OnlyBlob,
      GoesOn, Tidy, FirstIsIn, IndexRec, EndsWhole, Total;
    s := StartErased(2, hashOf, crcOf);
    ghost var host := StoreOneByte(s, 1);
    before := multiset(host);
    SmallItems([8], VER_1_OFFSET);
    PutFirst(s, BLOB_DATA, KEY, Variable([8]), VER_1_OFFSET, host, 3, 1);
    ghost var n := Chunk([8], VER_1_OFFSET);
    LaidRecords(s, [host + [n]], 5, 1);
    TotalOfTwo(host + [n], []);
    ReadyToLose(before, host, hashOf);
    again := BootLaid(s, [host + [n]], host, n, 5, 1, before + multiset{n}, before, OneChunk([7], VER_0_OFFSET));
  }

  lemma ReadyToLose(before: multiset<Rec>, host: seq<Rec>, hashOf: Id -> nat)
    requires HashesDiffer(multiset{}, 1, KEY, hashOf) && before == multiset(host)
    requires host == [Chunk([7], VER_0_OFFSET), IndexFor(1, 1, VER_0_OFFSET)]
    ensures var b := Some(OneChunk([7], VER_0_OFFSET));
      InShape(before, 1, KEY, b) && Tidy(before) && OnlyBlob(before, 1, KEY, b)
    ensures var n := Chunk([8], VER_1_OFFSET);
      GoesOn(before + multiset{n}, before, hashOf) && FirstIsIn(host, n.item, before)
  {
    hide Identified, Tidy, OnlyBlob, HashesDiffer, InShape, Extended, Unique, Sparse, WritableId, BlobOk, ChunkRecs,
      PartsOf, IndexRec;
    var b, n, c := OneChunk([7], VER_0_OFFSET), OneChunk([8], VER_1_OFFSET), Chunk([8], VER_1_OFFSET);
    OneByteBefore(before);
    InShapeMeans(before, 1, KEY, Some(b));
    OneChunkIs([8], VER_1_OFFSET);
    OldSideSurvives(before + multiset{c}, before, 1, KEY, Some(b), n);
    IsUnique(before + multiset{c});
    SmallItems([7], VER_0_OFFSET);
    SmallItems([8], VER_1_OFFSET);
    IndexNamed(1, 1, VER_0_OFFSET);
    StaysSparse(multiset{}, before + multiset{c}, 1, KEY, hashOf);
    assert host[0] in before && ChunkOf(host[0], c.item);
  }

  lemma IndexNamed(size: nat, count: byte, start: byte)
    ensures OfName(IndexFor(size, count, start), 1, Truncated(KEY)) && Truncated(KEY) == KEY
  {
  }

  lemma OneByteBefore(before: multiset<Rec>)
    requires before == multiset{Chunk([7], VER_0_OFFSET), IndexFor(1, 1, VER_0_OFFSET)}
    ensures InShape(before, 1, KEY, Some(OneChunk([7], VER_0_OFFSET))) && Unique(before)
      && forall r :: r in before ==> WritableId(r.item)
  {
    hide InShape, BlobOk, RecOf, IndexRec, PartsOf, WritableId;
    OneChunkIs([7], VER_0_OFFSET);
    BlobInShape(multiset{}, OneChunk([7], VER_0_OFFSET), before);
  }

  // ---------------------------------------------------------------- how long a blob may be

  // On an erased chip of n pages a blob is set, and read back. It may be 32 bytes shorter than what
  // the check of its length lets through: a longer one is let through and then finds no place for its
  // index.
  method LongestBlob(n: nat, data: seq<byte>, hashOf: Id -> nat, crcOf: seq<byte> -> nat)
    returns (s: Storage, err: Error, readErr: Error, back: seq<byte>)
    requires 2 <= n <= 127
    ensures s.Valid() && (err == OK ==> readErr == OK && back == data)
    ensures err == OK <==> |data| <= 4000 * (n - 1) - 32
    ensures err == NOT_ENOUGH_SPACE <==> 4000 * (n - 1) - 32 < |data| <= 4000 * (n - 1)
    ensures err == VALUE_TOO_LONG <==> |data| > 4000 * (n - 1)
  {
    hide HashList.Valid, InOrder, RamsOk, PageManager.Wired, PageManager.HashListsOk, OnlyBlob, Unique, Live, RecsOf,
      BlobRoom, BlobAnswer, SameBlob;
    s := StartErased(n, hashOf, crcOf);
    ErasedRoom(s, n, |data|);
    NothingStored(s, n);
    ghost var rams, list, free := s.pm.Rams(), s.pm.pageList, s.pm.freeList;
    err, readErr, back := SetThenRead(s, 1, KEY, data, None, None);
    ErasedAnswer(err, n, rams, list, free, |data|);
  }

  lemma ErasedAnswer(err: Error, n: nat, rams: seq<Ram>, list: seq<nat>, free: seq<nat>, size: nat)
    requires 2 <= n <= 127 && BlobAnswer(err, n, rams, list, free, KEY, size)
      && (BlobRoom(rams, list, free, size) <==> size <= 4000 * (n - 1) - 32)
    ensures err == OK <==> size <= 4000 * (n - 1) - 32
    ensures err == NOT_ENOUGH_SPACE <==> 4000 * (n - 1) - 32 < size <= 4000 * (n - 1)
    ensures err == VALUE_TOO_LONG <==> size > 4000 * (n - 1)
  {
    hide BlobRoom;
    assert |KEY| == 1;
  }

  lemma ErasedRoom(s: Storage, n: nat, size: nat)
    requires n >= 2 && Laid(s, [[]], 0, n - 1)
    ensures |s.pm.pages| == n && (BlobRoom(s.pm.Rams(), s.pm.pageList, s.pm.freeList, size) <==>
      size <= 4000 * (n - 1) - 32)
  {
    hide HashList.Valid, InOrder, RamsOk, PageManager.Wired, PageManager.HashListsOk, BlobRoom, RecsOf, Partition;
    ghost var rams, img, list, free := s.pm.Rams(), s.pm.dev.pages, s.pm.pageList, s.pm.freeList;
    ListPartition(rams, img, list, free, s.pm.seqNumber, s.pm.hashOf);
    UsedInRange(rams, img, list, free, s.pm.seqNumber, s.pm.hashOf);
    UnusedYet(rams, img, list, free, s.pm.seqNumber, s.pm.hashOf);
    RoomWhenErased(rams, list, free, size);
  }

  lemma UnusedYet(rams: seq<Ram>, img: seq<FPage>, list: seq<nat>, free: seq<nat>, next: nat, hashOf: Id -> nat)
    requires InOrder(rams, img, list, free, next, hashOf)
    requires |list| == 1 && list[0] < |rams| && FirstFree(rams[list[0]]) == 0
    requires rams[list[0]].state.UNINITIALIZED? || rams[list[0]].state.ACTIVE?
    ensures rams[list[0]].used == 0
  {
    hide RamOk, Partition;
    UsedBelow(rams, img, hashOf, list[0]);
    UsedInRange(rams, img, list, free, next, hashOf);
  }

  lemma NothingStored(s: Storage, n: nat)
    requires n >= 2 && Laid(s, [[]], 0, n - 1)
    ensures Unique(s.Records()) && OnlyBlob(s.Records(), 1, KEY, None)
  {
    hide Laid, Storage.Valid;
    LaidRecords(s, [[]], 0, n - 1);
    var sheets: seq<seq<Rec>> := [[]];
    assert Total(sheets[1..]) == multiset{};
    OthersInShape(multiset{});
  }

  // ---------------------------------------------------------------- erasing a chunk for a blob

  // The first record of a page is a chunk, and it has the hash of the index of its name.
  lemma ChunkComesFirst(rams: seq<Ram>, img: seq<FPage>, list: seq<nat>, free: seq<nat>, next: nat, hashOf: Id -> nat,
                        c: Rec, rest: seq<Rec>)
    requires InOrder(rams, img, list, free, next, hashOf) && |list| > 0 && list[0] < |img| == |rams|
      && RecsOf(img[list[0]]) == [c] + rest
    requires ChunkNamed(c.item, 1, KEY) && hashOf(IdOf(c.item)) == hashOf(Id(1, KEY, CHUNK_ANY))
    ensures TakesChunk(img, list, hashOf, 1, KEY)
  {
    hide RamOk, Quiet;
    InRange(rams, img, list, free, next, hashOf);
    var s := img[list[0]].slots;
    HeadersAre(rams, img, hashOf);
    RecordPage(rams, img, list, free, next, hashOf, list[0]);
    var h := PlaceOfIndex(s, |s|, 0);
    forall j: nat | j < h && j < |s| && IsHead(s[j]) ensures Whole(s, j) && RecAt(s, j) in RecsIn(s, 0, h) {
      HeadOfWhole(s, rams[list[0]].top, j);
      InPrefix(s, j, h);
    }
    WholeIsHead(s, h);
    assert Lures(s, hashOf, 1, KEY, h, h);
  }

  // On an erased chip a blob of one byte is stored, whose chunk has the hash that its index has. Erased
  // by its name alone, it loses the chunk, and the index stays.
  method ErasedInPart(hashOf: Id -> nat, crcOf: seq<byte> -> nat)
    returns (s: Storage, err: Error, ghost before: multiset<Rec>)
    requires hashOf(Id(1, KEY, VER_0_OFFSET)) == hashOf(Id(1, KEY, CHUNK_ANY))
    ensures InShape(before, 1, KEY, Some(OneChunk([7], VER_0_OFFSET))) && s.Valid() && err == OK
    ensures s.Records() == multiset{IndexFor(1, 1, VER_0_OFFSET)}
  {
    hide Laid, RecOf, SizeOk, WellFormed, SpanFor, SpanSum, InShape, OnlyBlob, IndexRec, ChunksOf, EndsInItem,
      EndsWhole, BlobOk, Storage.Valid;
    s := StartErased(2, hashOf, crcOf);
    ghost var host := StoreOneByte(s, 1);
    before := multiset(host);
    OneByteBefore(before);
    err := EraseByName(s, host, before);
  }

  method EraseByName(s: Storage, ghost host: seq<Rec>, ghost before: multiset<Rec>) returns (err: Error)
    requires Laid(s, [host], 3, 1) && host == [Chunk([7], VER_0_OFFSET), IndexFor(1, 1, VER_0_OFFSET)]
      && before == multiset(host)
    requires s.pm.hashOf(Id(1, KEY, VER_0_OFFSET)) == s.pm.hashOf(Id(1, KEY, CHUNK_ANY))
      && InShape(before, 1, KEY, Some(OneChunk([7], VER_0_OFFSET)))
    modifies s.pm.dev, s.pm.Objects()
    ensures s.Valid() && err == OK && s.Records() == multiset{IndexFor(1, 1, VER_0_OFFSET)}
  {
    hide HashList.Valid, InOrder, RamsOk, PageManager.Wired, PageManager.HashListsOk, Live, RecsOf, RecOf, InShape,
      OnlyBlob, IndexRec, TakesChunk, ChunksOf, BlobOk, ByName, ErasingBlob, ChunksApart, Unique;
    ghost var c, i, b := Chunk([7], VER_0_OFFSET), IndexFor(1, 1, VER_0_OFFSET), OneChunk([7], VER_0_OFFSET);
    InShapeMeans(before, 1, KEY, Some(b));
    LaidRecords(s, [host], 3, 1);
    TotalOfTwo(host, []);
    FirstNumber();
    assert [c] + [i] == host && RecsOf(s.pm.dev.pages[s.pm.pageList[0]]) == host;
    ChunkComesFirst(s.pm.Rams(), s.pm.dev.pages, s.pm.pageList, s.pm.freeList, s.pm.seqNumber, s.pm.hashOf, c, [i]);
    ghost var was;
    err, was := s.EraseItem(1, ANY, KEY, Some(b));
    OnlyChunkGone(before, s.Records(), was);
  }

  lemma OnlyChunkGone(before: multiset<Rec>, now: multiset<Rec>, was: Option<Rec>)
    requires BlobOk(OneChunk([7], VER_0_OFFSET)) && ByName(before, now, 1, KEY, OneChunk([7], VER_0_OFFSET), was, true)
    requires before == multiset([Chunk([7], VER_0_OFFSET), IndexFor(1, 1, VER_0_OFFSET)])
    ensures now == multiset{IndexFor(1, 1, VER_0_OFFSET)}
  {
    hide RecOf, IndexRec, ChunkRecs, BlobOk;
    OneChunkIs([7], VER_0_OFFSET);
  }

  lemma FirstNumber()
    ensures var c := Chunk([7], VER_0_OFFSET);
      ChunkNamed(c.item, 1, KEY) && IdOf(c.item) == Id(1, KEY, VER_0_OFFSET) && Truncated(KEY) == KEY
  {
  }

  // ---------------------------------------------------------------- an update that fails

  // On an erased chip of two pages a blob of one byte is stored, and then a value too big for the
  // rest of the page is set: its first chunk fills the page, and there is no other. The write fails,
  // and what is cleaned up is the chunk of the old value. No power has been lost.
  method FailedSet(hashOf: Id -> nat, crcOf: seq<byte> -> nat)
    returns (s: Storage, err: Error, ghost before: multiset<Rec>)
    ensures InShape(before, 1, KEY, Some(OneChunk([7], VER_0_OFFSET))) && s.Valid() && err == NOT_ENOUGH_SPACE
    ensures Chunk([7], VER_0_OFFSET) in before && Chunk([7], VER_0_OFFSET) !in s.Records()
    ensures forall r :: r in s.Records() <==>
      r == IndexFor(1, 1, VER_0_OFFSET) || r == Chunk(seq(3904, _ => 8), VER_1_OFFSET)
  {
    hide HashList.Valid, InOrder, RamsOk, PageManager.Wired, PageManager.HashListsOk, Live, RecsOf, RecOf, EndsInItem,
      SizeOk, WellFormed, SpanFor, InShape, OnlyBlob, IndexRec, Unique, SpanSum, WritableId, Laid, Storage.Valid,
      EndsWhole;
    s := StartErased(2, hashOf, crcOf);
    ghost var host := StoreOneByte(s, 1);
    before := multiset(host);
    OneByteBefore(before);
    var data: seq<byte> := seq(3904, _ => 8);
    SmallItems(data, VER_1_OFFSET);
    PutFirst(s, BLOB_DATA, KEY, Variable(data), VER_1_OFFSET, host, 3, 1);
    OldAndNew();
    err := GiveUp(s, host, data, before);
  }

  // There is no other page for the rest of the value.
  method GiveUp(s: Storage, ghost host: seq<Rec>, ghost data: seq<byte>, ghost before: multiset<Rec>)
    returns (err: Error)
    requires Laid(s, [host + [Chunk(data, VER_1_OFFSET)]], 126, 1)
    requires before == multiset(host) && Unique(before)
      && host == [Chunk([7], VER_0_OFFSET), IndexFor(1, 1, VER_0_OFFSET)]
    requires SpanSum(host + [Chunk(data, VER_1_OFFSET)]) == ENTRY_COUNT
    modifies s.pm, s.pm.dev, s.pm.Objects()
    ensures s.Valid() && err == NOT_ENOUGH_SPACE
      && forall r :: r in s.Records() <==> r == host[1] || r == Chunk(data, VER_1_OFFSET)
  {
    hide HashList.Valid, InOrder, RamsOk, PageManager.Wired, PageManager.HashListsOk, Live, RecsOf, RecOf, Unique,
      Unwritten, VersionFree, ChunkRecs, ChunksApart, SpanSum, IndexRec;
    ghost var n := Chunk(data, VER_1_OFFSET);
    LaidRecords(s, [host + [n]], 126, 1);
    TotalOfTwo(host + [n], []);
    err := NoRoom(s, [host + [n]], 126);
    var p := s.pm.pageList[0];
    ghost var t := Attempt([data], [], [p], s.pm.dev.pages);
    TriedOnce(before, data, t);
    err := s.UndoWrite(1, KEY, err, [p], before, VER_1_OFFSET, t, true);
    OldChunkGone(before, s.Records(), host, n, p, t, data);
  }

  lemma OldAndNew()
    ensures Chunk([7], VER_0_OFFSET) != IndexFor(1, 1, VER_0_OFFSET)
      && Chunk([7], VER_0_OFFSET) != Chunk(seq(3904, _ => 8), VER_1_OFFSET)
  {
  }

  lemma TriedOnce(before: multiset<Rec>, data: seq<byte>, t: Attempt)
    requires before == multiset{Chunk([7], VER_0_OFFSET), IndexFor(1, 1, VER_0_OFFSET)} && t.tried == [data]
    ensures Numbered(VER_1_OFFSET, |t.tried|) && |ChunkRecs(1, KEY, VER_1_OFFSET, t.tried)| == 1
      && VersionFree(before, 1, KEY, VER_1_OFFSET)
    ensures multiset(ChunkRecs(1, KEY, VER_1_OFFSET, t.tried)[..1]) == multiset{Chunk(data, VER_1_OFFSET)}
  {
    hide ChunkRecs;
    OnePiece(1, KEY, data, VER_1_OFFSET);
    assert [Chunk(data, VER_1_OFFSET)][..1] == [Chunk(data, VER_1_OFFSET)];
  }

  lemma OldChunkGone(before: multiset<Rec>, now: multiset<Rec>, host: seq<Rec>, n: Rec, p: nat, t: Attempt,
                     data: seq<byte>)
    requires host == [Chunk([7], VER_0_OFFSET), IndexFor(1, 1, VER_0_OFFSET)] && n == Chunk(data, VER_1_OFFSET)
      && before == multiset(host)
    requires t.used == [p] && p < |t.img| && RecsOf(t.img[p]) == host + [n] && t.tried == [data]
      && Unwritten(before, now, 1, KEY, VER_1_OFFSET, t)
    ensures forall r :: r in now <==> r == host[1] || r == n
  {
    hide RecsOf, Live, ChunkRecs;
    TriedOnce(before, data, t);
    forall r ensures r in now <==> r == host[1] || r == n {
      assert r in Live(t.img) <==> r in host || r == n;
      assert Condemned(t.img, t.used, 1, 1, KEY, r) <==> (r in RecsOf(t.img[p]) && IsChunkNo(r, 1, KEY, 0)) by {
        assert t.used[0] == p;
      }
    }
  }

  // ---------------------------------------------------------------- power lost while a scalar is set

  // A string that leaves one entry of a page, and one that takes two.
  function Long(): Rec {
    RecOf(1, SZ, "x", Variable(seq(3968, _ => 1)), CHUNK_ANY)
  }

  function Short(): Rec {
    RecOf(1, SZ, "t", Variable([0]), CHUNK_ANY)
  }

  function Flag(key: string): Rec {
    RecOf(1, U8, key, Primitive([1]), CHUNK_ANY)
  }

  // The value of the blob: the first chunk fills what four entries leave of a page, the second two entries.
  function PieceA(): seq<byte> {
    seq(3904, _ => 7)
  }

  function PieceB(): seq<byte> {
    seq(32, _ => 8)
  }

  lemma Spans()
    ensures Long().item.span == SpanFor(SZ, Variable(seq(3968, _ => 1))) == 125
      && Short().item.span == SpanFor(SZ, Variable([0])) == 2
    ensures Flag("a").item.span == Flag("b").item.span == SpanFor(U8, Primitive([1])) == 1
    ensures Chunk(PieceA(), 0).item.span == SpanFor(BLOB_DATA, Variable(PieceA())) == 123
    ensures Chunk(PieceB(), 1).item.span == SpanFor(BLOB_DATA, Variable(PieceB())) == 2
    ensures IndexFor(3936, 2, VER_0_OFFSET).item.span == SpanFor(BLOB_IDX, Index(3936, 2, VER_0_OFFSET)) == 1
  {
  }

  lemma AllFit()
    ensures WellFormed(SZ, Variable(seq(3968, _ => 1)), CHUNK_ANY) && SizeOk(SZ, "x", Variable(seq(3968, _ => 1)))
    ensures WellFormed(SZ, Variable([0]), CHUNK_ANY) && SizeOk(SZ, "t", Variable([0]))
    ensures WellFormed(U8, Primitive([1]), CHUNK_ANY) && SizeOk(U8, "a", Primitive([1]))
      && SizeOk(U8, "b", Primitive([1]))
    ensures WellFormed(BLOB_DATA, Variable(PieceA()), 0) && SizeOk(BLOB_DATA, KEY, Variable(PieceA()))
    ensures WellFormed(BLOB_DATA, Variable(PieceB()), 1) && SizeOk(BLOB_DATA, KEY, Variable(PieceB()))
    ensures WellFormed(BLOB_IDX, Index(3936, 2, VER_0_OFFSET), CHUNK_ANY)
      && SizeOk(BLOB_IDX, KEY, Index(3936, 2, VER_0_OFFSET))
  {
  }

  lemma Named()
    ensures Long().item.key == "x" && Short().item.key == "t" && Flag("a").item.key == "a" && Flag("b").item.key == "b"
    ensures Chunk(PieceA(), 0).item.key == KEY && Chunk(PieceB(), 1).item.key == KEY
      && IndexFor(3936, 2, VER_0_OFFSET).item.key == KEY
    ensures forall key: string :: |key| == 1 ==> Truncated(key) == key
    ensures Short().item.typ == SZ && Flag("a").item.typ == Flag("b").item.typ == U8
      && Short().item.ns == Flag("a").item.ns == Flag("b").item.ns == 1
  {
  }

  // Two pages are filled: one with a string and a flag, the other so far with a string and a flag.
  method FillPages(s: Storage)
    requires Laid(s, [[]], 0, 2)
    modifies s.pm, s.pm.dev, s.pm.Objects()
    ensures s.pm.pages == old(s.pm.pages)
    ensures Laid(s, [[Long(), Flag("b")], [Short(), Flag("a")]], 3, 1)
  {
    hide Laid, RecOf, SizeOk, WellFormed, SpanFor, SpanSum, Storage.Valid, EndsInItem, EndsWhole;
    Spans();
    AllFit();
    PutFirst(s, SZ, "x", Variable(seq(3968, _ => 1)), CHUNK_ANY, [], 0, 2);
    PutFirst(s, U8, "b", Primitive([1]), CHUNK_ANY, [] + [Long()], 125, 2);
    ghost var p := [] + [Long()] + [Flag("b")];
    NextIsSecond(s, p, 126, 2);
    PutSecond(s, SZ, "t", Variable([0]), CHUNK_ANY, p, [], 0, 1);
    PutSecond(s, U8, "a", Primitive([1]), CHUNK_ANY, p, [] + [Short()], 2, 1);
    assert p == [Long(), Flag("b")] && [] + [Short()] + [Flag("a")] == [Short(), Flag("a")];
  }

  // The string of the second page and the flag of the first are erased.
  method MakeGaps(s: Storage)
    requires Laid(s, [[Long(), Flag("b")], [Short(), Flag("a")]], 3, 1)
    modifies s.pm.dev, s.pm.Objects()
    ensures s.pm.pages == old(s.pm.pages) && Laid(s, [[Long()], [Flag("a")]], 3, 1)
  {
    hide Laid, RecOf, Storage.Valid;
    Named();
    ghost var x, b, t, a := Long(), Flag("b"), Short(), Flag("a");
    assert [] + [t] + [a] == [t, a] && [] + [a] == [a];
    EraseSecond(s, SZ, "t", [], t, [a], [x, b], 3, 1);
    assert [x] + [b] + [] == [x, b] && [x] + [] == [x];
    EraseFirst(s, U8, "b", [x], b, [], [a], 3, 1);
  }

  // A blob of two chunks is set. Its first chunk fills the page, which then moves; its second fills
  // the page it moved to; its index goes to the next.
  method SetAcross(s: Storage)
    requires Laid(s, [[Long()], [Flag("a")]], 3, 1)
    modifies s.pm, s.pm.dev, s.pm.Objects()
    ensures s.pm.pages == old(s.pm.pages)
    ensures Laid(s, [[Flag("a")] + Chunks(), [Long()] + [IndexFor(3936, 2, VER_0_OFFSET)]], 126, 1)
    ensures SpanSum([Long()] + [IndexFor(3936, 2, VER_0_OFFSET)]) == 126
  {
    hide Laid, RecOf, SizeOk, WellFormed, SpanFor, Storage.Valid, EndsInItem, SpanSum, PieceA, PieceB, EndsWhole;
    Spans();
    AllFit();
    SpanOne(Long());
    SpanOne(Flag("a"));
    PutSecond(s, BLOB_DATA, KEY, Variable(PieceA()), 0, [Long()], [Flag("a")], 3, 1);
    ghost var q := [Flag("a")] + [Chunk(PieceA(), 0)];
    CollectSecond(s, [Long()], q, 126);
    PutSecond(s, BLOB_DATA, KEY, Variable(PieceB()), 1, [Long()], q, 124, 1);
    CollectFirst(s, [Long()], q + [Chunk(PieceB(), 1)], 126);
    PutSecond(s, BLOB_IDX, KEY, Index(3936, 2, VER_0_OFFSET), CHUNK_ANY, q + [Chunk(PieceB(), 1)], [Long()], 125, 1);
    assert q + [Chunk(PieceB(), 1)] == [Flag("a")] + Chunks();
  }

  function Chunks(): seq<Rec> {
    [Chunk(PieceA(), 0), Chunk(PieceB(), 1)]
  }

  // On an erased chip of three pages: two strings and two flags are set; a string and a flag are
  // erased; a blob of two chunks is set, and is complete; the other flag is erased. Now anything is
  // set: the page with the chunks is the one to move. If power fails when it has moved, the blob is
  // gone when the store comes up, though nobody was writing it.
  method LostByCollection(hashOf: Id -> nat, crcOf: seq<byte> -> nat)
    returns (s: Storage, again: Storage, ghost before: multiset<Rec>)
    requires HashesDiffer(multiset{Long()}, 1, KEY, hashOf)
    ensures InShape(before, 1, KEY, Some(TwoChunks(PieceA(), PieceB()))) && s.Records() == before
      && s.pm.dev.pages in s.pm.dev.cuts
    ensures again.Valid() && OnlyBlob(again.Records(), 1, KEY, None)
  {
    hide Laid, RecOf, IndexRec, SizeOk, WellFormed, SpanFor, Storage.Valid, EndsInItem, SpanSum, PieceA, PieceB,
      HashesDiffer, InShape, OnlyBlob, GoesOn, Tidy, FirstIsIn, EndsWhole, Total, Long;
    s := StartErased(3, hashOf, crcOf);
    FillPages(s);
    MakeGaps(s);
    SetAcross(s);
    ghost var q := [Long()] + [IndexFor(3936, 2, VER_0_OFFSET)];
    DropFlag(s, q);
    CollectFirst(s, Chunks(), q, 126);
    before := Total([q, Chunks()]);
    LaidRecords(s, [q, Chunks()], 125, 1);
    TotalOfTwo(q, Chunks());
    ReadyToLoseTwo(before, q, hashOf);
    assert [q, Chunks()][1] == [Chunk(PieceA(), 0)] + [Chunk(PieceB(), 1)];
    again := BootLaid(s, [q, Chunks()], [Chunk(PieceA(), 0)], Chunk(PieceB(), 1), 125, 1, before, before,
      TwoChunks(PieceA(), PieceB()));
  }

  method DropFlag(s: Storage, ghost q: seq<Rec>)
    requires Laid(s, [[Flag("a")] + Chunks(), q], 126, 1)
    modifies s.pm.dev, s.pm.Objects()
    ensures s.pm.pages == old(s.pm.pages) && Laid(s, [Chunks(), q], 126, 1) && SpanSum(Chunks()) == 125
  {
    hide Laid, RecOf, Storage.Valid, SpanSum, SpanFor, PieceA, PieceB;
    Named();
    Spans();
    assert [] + [Flag("a")] + Chunks() == [Flag("a")] + Chunks() && [] + Chunks() == Chunks();
    EraseFirst(s, U8, "a", [], Flag("a"), Chunks(), q, 126, 1);
    SpanOne(Chunk(PieceA(), 0));
    SpanMore([Chunk(PieceA(), 0)], Chunk(PieceB(), 1));
    assert [Chunk(PieceA(), 0)] + [Chunk(PieceB(), 1)] == Chunks();
  }

  lemma ReadyToLoseTwo(before: multiset<Rec>, q: seq<Rec>, hashOf: Id -> nat)
    requires HashesDiffer(multiset{Long()}, 1, KEY, hashOf) && q == [Long()] + [IndexFor(3936, 2, VER_0_OFFSET)]
    requires before == multiset(q) + multiset(Chunks())
    ensures var b := Some(TwoChunks(PieceA(), PieceB()));
      InShape(before, 1, KEY, b) && Tidy(before) && OnlyBlob(before, 1, KEY, b)
    ensures var n := Chunk(PieceB(), 1);
      GoesOn(before, before, hashOf) && FirstIsIn([Chunk(PieceA(), 0)], n.item, before) && n.item.typ.BLOB_DATA?
        && n.item.ns == 1 && n.item.key == KEY
  {
    hide Identified, Tidy, OnlyBlob, HashesDiffer, InShape, Extended, Unique, Sparse, WritableId, BlobOk, ChunkRecs,
      PartsOf, IndexRec, PieceA, PieceB, Uncounted;
    Pieces();
    var b := TwoChunks(PieceA(), PieceB());
    TwoChunksIs(PieceA(), PieceB());
    LongIsOther();
    assert before == multiset{Long()} + PartsOf(1, KEY, b);
    BlobInShape(multiset{Long()}, b, before);
    InShapeMeans(before, 1, KEY, Some(b));
    SelfExtended(before);
    SmallItems(PieceA(), 0);
    SmallItems(PieceB(), 1);
    IndexNamed(3936, 2, VER_0_OFFSET);
    StaysSparse(multiset{Long()}, before, 1, KEY, hashOf);
    assert Chunk(PieceA(), 0) in before && ChunkOf(Chunk(PieceA(), 0), Chunk(PieceB(), 1).item);
  }

  lemma Pieces()
    ensures |PieceA()| == 3904 && |PieceB()| == 32
  {
  }

  lemma LongIsOther()
    ensures !OfName(Long(), 1, KEY) && Long().item.typ.SZ? && WritableId(Long().item) && Unique(multiset{Long()})
  {
  }

  // ---------------------------------------------------------------- a comparison that fails

  // Compared with itself, a value of two chunks counts as changed.
  lemma NotTheSame(crcOf: seq<byte> -> nat)
    requires crcOf([7]) != crcOf([8])
    ensures BlobOk(TwoChunks([7], [8])) && !SameBlob(TwoChunks([7], [8]), TwoChunks([7], [8]).data, crcOf)
  {
    var b := TwoChunks([7], [8]);
    TwoChunksIs([7], [8]);
    assert b.data[..1] == [7] && b.pieces[1] == [8];
  }
}
