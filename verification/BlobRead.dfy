// What the clean-up at the start is for: each blob that it leaves can be read, to the last byte.
module BlobReads {
  import opened NvsTypes
  import opened PageImage
  import opened PageRam
  import opened PageValues
  import opened FlashDevice
  import opened ItemHashList
  import opened StoreImage
  import opened PageLists
  import opened PageManagers
  import opened StoreSearch
  import opened BlobWrites
  import opened BlobSearch
  import opened BlobUpdates
  import opened PartErases
  import opened Startup
  import opened BlobPurge
  import opened Listings
  import opened Storages

  // ---------------------------------------------------------------- every number is there

  ghost function Numbers(s: set<Rec>): set<nat> {
    set c | c in s :: c.item.chunk as nat
  }

  lemma {:induction false} AsManyNumbers(s: set<Rec>)
    requires forall c, d :: c in s && d in s && c.item.chunk == d.item.chunk ==> c == d
    ensures |Numbers(s)| == |s|
  {
    if s != {} {
      var x :| x in s;
      AsManyNumbers(s - {x});
      assert Numbers(s) == Numbers(s - {x}) + {x.item.chunk as nat};
    }
  }

  function Range(lo: nat, n: nat): (s: set<nat>)
    ensures |s| == n && forall x: nat :: x in s <==> lo <= x < lo + n
  {
    if n == 0 then {} else Range(lo, n - 1) + {lo + n - 1}
  }

  // So many chunks of different numbers, all of them among so many: each number is there.
  lemma EachNumber(s: set<Rec>, lo: nat, n: nat, k: nat)
    requires |s| == n && k < n && forall c :: c in s ==> lo <= c.item.chunk < lo + n
    requires forall c, d :: c in s && d in s && c.item.chunk == d.item.chunk ==> c == d
    ensures exists c :: c in s && c.item.chunk == lo + k
  {
    AsManyNumbers(s);
    if lo + k !in Numbers(s) {
      assert Numbers(s) <= Range(lo, n) - {lo + k};
      Subset(Numbers(s), Range(lo, n) - {lo + k});
    }
  }

  // ---------------------------------------------------------------- complete blobs are readable

  ghost predicate SoundRec(r: Rec) {
    WholeRec(r) && (r.item.typ.BLOB_IDX? ==> r.item.val.BlobIndex?)
  }

  // What a store holds between two operations when all its blobs are complete.
  ghost predicate AllComplete(live: multiset<Rec>) {
    WellKept(live) && forall r :: r in live ==> SoundRec(r)
  }

  // Chunks of the family of an index are counted by it, and there are as many as it says.
  lemma FamilyCounted(live: multiset<Rec>, i: Rec)
    requires AllComplete(live) && i in live && i.item.typ.BLOB_IDX?
    ensures Matched(live, i) && IsIndex(i)
    ensures forall c :: c in Family(live, i) ==> c in live && Counts(i, c) && c.item.chunk < 255
    ensures forall c, d :: c in Family(live, i) && d in Family(live, i) && c.item.chunk == d.item.chunk ==> c == d
  {
    hide TotalSize, SoundRec, Matched;
    IndexIsMatched(live, i);
    forall c | c in Family(live, i) ensures Counts(i, c) {
      var j := IndexOfChunk(live, c);
      SameUnlessChunk(live, j, i);
    }
    forall c, d | c in Family(live, i) && d in Family(live, i) && c.item.chunk == d.item.chunk ensures c == d {
      assert IdOf(c.item) == IdOf(d.item);
    }
  }

  lemma IndexIsMatched(live: multiset<Rec>, i: Rec)
    requires AllComplete(live) && i in live && i.item.typ.BLOB_IDX?
    ensures Matched(live, i) && IsIndex(i)
  {
    hide Matched, WholeRec;
    assert SoundRec(i) && Stays(live, i);
  }

  // The chunks in the order of their numbers.
  lemma {:induction false} FamilyInOrder(live: multiset<Rec>, i: Rec, n: nat) returns (cs: seq<Rec>)
    requires AllComplete(live) && i in live && i.item.typ.BLOB_IDX? && IsIndex(i) && n <= i.item.val.chunkCount
    ensures |cs| == n
      && forall k :: 0 <= k < n ==> cs[k] in Family(live, i) && cs[k].item.chunk == i.item.val.chunkStart + k
  {
    hide AllComplete, Family, Matched, TotalSize;
    cs := [];
    if n > 0 {
      cs := FamilyInOrder(live, i, n - 1);
      FamilyCounted(live, i);
      MatchedSize(live, i);
      EachNumber(Family(live, i), i.item.val.chunkStart, i.item.val.chunkCount, n - 1);
      var c :| c in Family(live, i) && c.item.chunk == i.item.val.chunkStart + (n - 1);
      cs := cs + [c];
    }
  }

  lemma MatchedSize(live: multiset<Rec>, i: Rec)
    requires Matched(live, i)
    ensures |Family(live, i)| == i.item.val.chunkCount && TotalSize(Family(live, i)) == i.item.val.totalSize
  {
  }

  lemma {:induction false} DataIsSized(cs: seq<Rec>)
    requires forall k :: 0 <= k < |cs| ==> WholeRec(cs[k]) && cs[k].item.typ.BLOB_DATA?
    ensures |DataFrom(cs)| == SizeSum(cs)
  {
    if cs != [] {
      DataIsSized(cs[..|cs| - 1]);
      assert WholeRec(cs[|cs| - 1]);
    }
  }

  // The chunk with this number is the only one, and a search finds it.
  lemma ChunkIsPiece(live: multiset<Rec>, i: Rec, c: Rec)
    requires AllComplete(live) && c in live && Counts(i, c) && i.item.ns != NS_ANY
    ensures PieceAt(live, i.item.ns, i.item.key, c.item.chunk, c)
  {
    hide WholeRec, Tidy;
    assert SoundRec(c);
    var q := ChunkQuery(i.item.ns, i.item.key, c.item.chunk);
    assert WritableId(c.item);
    forall x | x in live && Asked(x, q) ensures x == c {
      assert IdOf(x.item) == IdOf(c.item);
    }
  }

  lemma IndexIsAsked(live: multiset<Rec>, i: Rec)
    requires AllComplete(live) && i in live && i.item.typ.BLOB_IDX? && i.item.ns != NS_ANY
    ensures OnlyAsked(live, IndexQuery(i.item.ns, i.item.key, VER_ANY), Some(i))
  {
    hide SoundRec, Tidy;
    assert WritableId(i.item);
    forall x | x in live && Asked(x, IndexQuery(i.item.ns, i.item.key, VER_ANY)) ensures x == i {
      assert IdOf(x.item) == IdOf(i.item);
    }
  }

  // Of a store with complete blobs only, every blob can be read.
  lemma CompleteIsReadable(live: multiset<Rec>, i: Rec) returns (cs: seq<Rec>)
    requires AllComplete(live) && i in live && i.item.typ.BLOB_IDX?
    ensures Readable(live, i.item.ns, i.item.key, i, cs)
  {
    hide AllComplete, Matched, Family, TotalSize, OnlyAsked, WholeRec, Counts, PieceAt, DataFrom;
    IndexIsMatched(live, i);
    FamilyCounted(live, i);
    MatchedSize(live, i);
    InNamespace(live, i);
    cs := FamilyInOrder(live, i, i.item.val.chunkCount);
    IndexIsAsked(live, i);
    forall k | 0 <= k < |cs| ensures PieceAt(live, i.item.ns, i.item.key, i.item.val.chunkStart + k, cs[k]) {
      ChunkIsPiece(live, i, cs[k]);
    }
    AllOfFamily(live, i, cs);
  }

  lemma InNamespace(live: multiset<Rec>, i: Rec)
    requires AllComplete(live) && i in live
    ensures i.item.ns != NS_ANY
  {
    hide SoundRec, Tidy, Unique;
  }

  lemma {:induction false} AllOfFamily(live: multiset<Rec>, i: Rec, cs: seq<Rec>)
    requires AllComplete(live) && i in live && i.item.typ.BLOB_IDX? && IsIndex(i)
      && |cs| == i.item.val.chunkCount
    requires forall k :: 0 <= k < |cs| ==>
      cs[k] in Family(live, i) && cs[k].item.chunk == i.item.val.chunkStart + k
    ensures |DataFrom(cs)| == i.item.val.totalSize
  {
    hide AllComplete, Matched, Family, TotalSize, WholeRec, DataFrom, SizeSum;
    FamilyCounted(live, i);
    MatchedSize(live, i);
    assert Distinct(cs);
    CountedOnce(cs);
    forall c | c in Family(live, i) ensures c in Elements(cs) {
      var k := c.item.chunk - i.item.val.chunkStart;
      assert Counts(i, c) && cs[k].item.chunk == c.item.chunk;
    }
    assert Elements(cs) == Family(live, i);
    forall k | 0 <= k < |cs| ensures WholeRec(cs[k]) && cs[k].item.typ.BLOB_DATA? {
      IsWholeChunk(live, i, cs[k]);
    }
    DataIsSized(cs);
  }

  lemma IsWholeChunk(live: multiset<Rec>, i: Rec, c: Rec)
    requires AllComplete(live) && c in Family(live, i)
    ensures WholeRec(c) && c.item.typ.BLOB_DATA?
  {
    hide WholeRec, WellKept;
    assert SoundRec(c);
  }

  // ---------------------------------------------------------------- reading them

  lemma LiveIsSound(rams: seq<Ram>, img: seq<FPage>, list: seq<nat>, free: seq<nat>, next: nat, hashOf: Id -> nat)
    requires InOrder(rams, img, list, free, next, hashOf)
    ensures forall r :: r in Live(img) ==> SoundRec(r)
  {
    hide RamOk, Live, Recs, Quiet, InOrder, SoundRec;
    forall r | r in Live(img) ensures SoundRec(r) {
      var p := PageOf(img, r);
      RecordPage(rams, img, list, free, next, hashOf, p);
      RecIsSound(img[p].slots, rams[p].top, r);
    }
  }

  lemma RecIsSound(s: seq<Slot>, nf: nat, r: Rec)
    requires Quiet(s, nf) && r in Recs(s)
    ensures SoundRec(r)
  {
    hide WholeRec;
    var k := PlaceOfRec(s, |s|, r);
    ItemIsWhole(s, nf, k);
    assert HeadFits(s, k, nf);
  }

  // Reads a blob by the size its index says: in a store with complete blobs only, as starting it leaves
  // it, that succeeds for every index there is, and nothing is changed.
  method ReadComplete(s: Storage, ns: byte, key: string, size: nat, ghost i: Rec)
    returns (err: Error, data: seq<byte>, ghost cs: seq<Rec>)
    requires s.Valid() && Unique(s.Records()) && Tidy(s.Records()) && i in s.Records() && i.item.typ.BLOB_IDX?
    requires ns == i.item.ns && key == i.item.key && i.item.val.BlobIndex? && size == i.item.val.totalSize
    modifies s.pm, s.pm.dev, s.pm.Objects()
    ensures s.Valid() && err == OK && |data| == size && data == DataFrom(cs)
    ensures Readable(old(s.Records()), ns, key, i, cs)
    ensures s.pm.dev.pages == old(s.pm.dev.pages) && s.pm.dev.cuts == old(s.pm.dev.cuts)
  {
    hide HashList.Valid, InOrder, RamsOk, PageManager.Wired, PageManager.HashListsOk, Live, Unique, Tidy, SoundRec,
      WritableId, Readable, DataFrom, FindsIndex, Misses, NameGone;
    ghost var live := s.Records();
    LiveWritable(s.pm.Rams(), s.pm.dev.pages, s.pm.pageList, s.pm.freeList, s.pm.seqNumber, s.pm.hashOf);
    LiveIsSound(s.pm.Rams(), s.pm.dev.pages, s.pm.pageList, s.pm.freeList, s.pm.seqNumber, s.pm.hashOf);
    cs := CompleteIsReadable(live, i);
    ReadableMeans(live, ns, key, i, cs);
    InNamespace(live, i);
    err, data := s.ReadMultiPageBlob(ns, key, size, false, None);
  }
}
