// Blobs as a user of the store sees them: what was set is read back, byte for byte, and an update that
// loses power or runs out of space leaves the old value or the new one, with the exact exceptions.
module BlobStore {
  import opened NvsTypes
  import opened PageImage
  import opened PageLoad
  import opened PageSearch
  import opened FlashDevice
  import opened ItemHashList
  import opened StoreImage
  import opened Recovery
  import opened PageLists
  import opened PageManagers
  import opened StoreSearch
  import opened BlobWrites
  import opened BlobRooms
  import opened BlobSearch
  import opened BlobUpdates
  import opened BlobPurge
  import opened Storages
  import opened StorageInits
  import opened BlobCrash
  import opened Overwrites

  // ---------------------------------------------------------------- hashes

  // Records and chunks to come have hashes of their own.
  ghost predicate HashesDiffer(live: multiset<Rec>, ns: byte, key: string, hashOf: Id -> nat) {
    forall a, b :: HasId(live, ns, key, a) && HasId(live, ns, key, b) && hashOf(a) == hashOf(b) ==> a == b
  }

  ghost predicate HasId(live: multiset<Rec>, ns: byte, key: string, a: Id) {
    (a.ns == ns && a.key == Truncated(key)) || exists r :: r in live && IdOf(r.item) == a
  }

  lemma StaysSparse(live: multiset<Rec>, x: multiset<Rec>, ns: byte, key: string, hashOf: Id -> nat)
    requires HashesDiffer(live, ns, key, hashOf) && Unique(x)
      && forall r :: r in x ==> r in live || OfName(r, ns, Truncated(key))
    ensures Sparse(x, hashOf)
  {
    forall r, q | r in x && q in x && HashOfRec(r, hashOf) == HashOfRec(q, hashOf) ensures r == q {
      assert HasId(live, ns, key, IdOf(r.item)) && HasId(live, ns, key, IdOf(q.item));
    }
  }

  // ---------------------------------------------------------------- setting and reading

  // The image is one that an update of the name from `was` to n can leave.
  ghost predicate Torn(c: seq<FPage>, live: multiset<Rec>, now: multiset<Rec>, ns: byte, key: string, was: Option<Blob>,
                       n: Blob) {
    && InShape(live, ns, key, was) && (forall r :: r in live ==> WritableId(r.item)) && ns != NS_ANY
    && BlobOk(n) && (was.Some? ==> BlobOk(was.value)) && n.start == Toggled(was) && Replaced(live, now, ns, key, was, n)
    && UpdateCut(c, live, ns, key, was, n)
  }

  // What is on flash: the records of one side, and maybe chunks of the other.
  lemma TornSurvives(c: seq<FPage>, live: multiset<Rec>, now: multiset<Rec>, ns: byte, key: string, was: Option<Blob>,
                     n: Blob, hashOf: Id -> nat) returns (x: multiset<Rec>, base: multiset<Rec>)
    requires Torn(c, live, now, ns, key, was, n)
    ensures BlobOk(n) && (was.Some? ==> BlobOk(was.value)) && Survives(c, x, base)
    ensures HashesDiffer(live, ns, key, hashOf) ==> Sparse(x, hashOf)
    ensures (base == live && OldSide(x, live, ns, key, n)) || (base == now && NewSide(x, live, ns, key, was, n))
  {
    hide Recoverable, Identified, Tidy, Extended, BlobOk, OnlyBlob, Replaced, ChunksOf, PartsOf, WritableId, UpdateCut,
      HashesDiffer, Sparse, Unique, OldSide, NewSide;
    x, base := UpdateSurvives(c, live, now, ns, key, was, n);
    IsUnique(x);
    if base == live && OldSide(x, live, ns, key, n) {
      OldSideNames(x, live, ns, key, n);
    } else {
      NewSideNames(x, live, now, ns, key, was, n);
    }
    if HashesDiffer(live, ns, key, hashOf) {
      StaysSparse(live, x, ns, key, hashOf);
    }
  }

  lemma ApartTornIsKept(c: seq<FPage>, live: multiset<Rec>, now: multiset<Rec>, ns: byte, key: string,
                        was: Option<Blob>, n: Blob, hashOf: Id -> nat)
    requires Torn(c, live, now, ns, key, was, n) && ChunksApart(c) && HashesDiffer(live, ns, key, hashOf)
    ensures Kept(c, hashOf)
  {
    hide Recoverable, Identified, Tidy, Extended, BlobOk, Torn, OldSide, NewSide, Sparse, Kept, ChunksApart,
      HashesDiffer;
    var x, base := TornSurvives(c, live, now, ns, key, was, n, hashOf);
    ApartIsKept(c, x, hashOf);
  }

  lemma OldSideNames(x: multiset<Rec>, live: multiset<Rec>, ns: byte, key: string, n: Blob)
    requires BlobOk(n) && OldSide(x, live, ns, key, n)
    ensures forall r :: r in x ==> r in live || OfName(r, ns, Truncated(key))
  {
    hide ChunkRecs, BlobOk;
    forall r | r in x && r !in live ensures OfName(r, ns, Truncated(key)) {
      assert r in multiset(ChunksOf(ns, key, n));
      ChunkIsPartOf(ns, key, n, r);
      var i := PartIs(ns, key, n, r);
    }
  }

  lemma NewSideNames(x: multiset<Rec>, live: multiset<Rec>, now: multiset<Rec>, ns: byte, key: string, b: Option<Blob>,
                     n: Blob)
    requires BlobOk(n) && (b.Some? ==> BlobOk(b.value)) && NewSide(x, live, ns, key, b, n)
      && Replaced(live, now, ns, key, b, n)
    ensures forall r :: r in x ==> r in live || OfName(r, ns, Truncated(key))
  {
    hide ChunkRecs, BlobOk, PartsOf, Without, Unique, OnlyBlob;
    forall r | r in x && !OfName(r, ns, Truncated(key)) ensures r in live {
      if r !in now {
        assert r in multiset(ChunksOf(ns, key, b.value));
        ChunkIsPartOf(ns, key, b.value, r);
        var i := PartIs(ns, key, b.value, r);
      }
    }
  }

  // What holds of a store between two updates, when the name stands for `was`.
  ghost predicate InShape(live: multiset<Rec>, ns: byte, key: string, was: Option<Blob>) {
    Identified(live) && Tidy(live) && OnlyBlob(live, ns, key, was)
  }

  // Sets a blob. If that succeeds the name stands for exactly this value, and whenever power fails
  // meanwhile the image is one of the update; if no page held two chunks of a name before, no page that
  // took a chunk held one of this name, and no hashes collide, it comes through being loaded. If it
  // fails, exactly which chunks are gone and which are left, and what the images hold. It succeeds
  // exactly if the value compares as equal or there is room.
  method Set(s: Storage, ns: byte, key: string, data: seq<byte>, ghost was: Option<Blob>)
    returns (err: Error, ghost now: Blob, ghost t: Attempt)
    requires s.Valid() && ns != NS_ANY && InShape(s.Records(), ns, key, was)
    modifies s.pm, s.pm.dev, s.pm.Objects()
    ensures s.Valid() && s.pm.pages == old(s.pm.pages)
    ensures SameAsBefore(was, data, s.crcOf) ==> err == OK
    ensures !SameAsBefore(was, data, s.crcOf) && (err == FAIL ==> |s.pm.pages| <= 127) ==>
      old(BlobAnswer(err, |s.pm.pages|, s.pm.Rams(), s.pm.pageList, s.pm.freeList, key, |data|))
    ensures err == OK ==> InShape(s.Records(), ns, key, Some(now)) && now.data == data
    ensures err == OK ==> forall r :: !OfName(r, ns, Truncated(key)) ==> s.Records()[r] == old(s.Records())[r]
    ensures err == OK ==>
      forall c :: c in s.pm.dev.cuts && c !in old(s.pm.dev.cuts) ==>
        Torn(c, old(s.Records()), s.Records(), ns, key, was, now)
    ensures AllClear(t.hosts, ns, key) && ChunksApart(old(s.pm.dev.pages)) ==> ChunksApart(s.pm.dev.pages)
    ensures err == OK && AllClear(t.hosts, ns, key) && ChunksApart(old(s.pm.dev.pages)) ==>
      HashesDiffer(old(s.Records()), ns, key, s.pm.hashOf) ==>
        forall c :: c in s.pm.dev.cuts && c !in old(s.pm.dev.cuts) ==> Kept(c, s.pm.hashOf)
    ensures err != OK ==> Unwritten(old(s.Records()), s.Records(), ns, key, Toggled(was), t)
    ensures err != OK ==>
      forall c :: c in s.pm.dev.cuts && c !in old(s.pm.dev.cuts) ==>
        Between(c, old(s.Records()) * s.Records(),
          old(s.Records()) + multiset(ChunkRecs(ns, key, Toggled(was), t.tried)))
  {
    hide HashList.Valid, InOrder, RamsOk, PageManager.Wired, Live, Identified, Tidy, OnlyBlob, BlobOk, Unwritten,
      Replaced, UpdateCut, SameBlob, Between, ChunksApart, AllClear, HashesDiffer, WritableId, ChunkRecs,
      PageManager.HashListsOk, Kept, Unique, BlobAnswer;
    ghost var live, cuts0, img0 := s.Records(), s.pm.dev.cuts, s.pm.dev.pages;
    IsUnique(live);
    LiveWritable(s.pm.Rams(), s.pm.dev.pages, s.pm.pageList, s.pm.freeList, s.pm.seqNumber, s.pm.hashOf);
    ghost var same := SameAsBefore(was, data, s.crcOf);
    var wrapped;
    err, wrapped, now, t := s.SetBlob(ns, key, data, was, None);
    if err == OK {
      if same {
        now := was.value;
        SameHasData(was.value, data, s.crcOf);
      } else {
        AfterSet(live, s.Records(), ns, key, was, now);
        if AllClear(t.hosts, ns, key) && ChunksApart(img0) && HashesDiffer(live, ns, key, s.pm.hashOf) {
          forall c: seq<FPage> | c in s.pm.dev.cuts && c !in cuts0 ensures Kept(c, s.pm.hashOf) {
            ApartTornIsKept(c, live, s.Records(), ns, key, was, now, s.pm.hashOf);
          }
        }
      }
    }
  }

  lemma SameHasData(b: Blob, data: seq<byte>, crcOf: seq<byte> -> nat)
    requires SameBlob(b, data, crcOf)
    ensures b.data == data
  {
  }

  lemma AfterSet(live: multiset<Rec>, now: multiset<Rec>, ns: byte, key: string, b: Option<Blob>, n: Blob)
    requires InShape(live, ns, key, b) && BlobOk(n) && (b.Some? ==> BlobOk(b.value))
      && Replaced(live, now, ns, key, b, n)
    ensures InShape(now, ns, key, Some(n)) && forall r :: !OfName(r, ns, Truncated(key)) ==> now[r] == live[r]
  {
    hide BlobOk, Identified, Tidy, PartsOf, Without, Unique, OnlyBlob;
    TidyAfter(live, now, ns, key, b, n);
    NewIdentified(live, now, ns, key, b, n);
  }

  // Sets a blob and reads it back, byte for byte, whatever the hashes, and whatever the name stood for
  // before: a blob, a single record, or nothing.
  method SetThenRead(s: Storage, ns: byte, key: string, data: seq<byte>, ghost was: Option<Blob>, ghost o: Option<Rec>)
    returns (err: Error, readErr: Error, back: seq<byte>)
    requires s.Valid() && ns != NS_ANY && Unique(s.Records())
    requires if o.Some? then was.None? && Single(s.Records(), ns, key, o.value) else OnlyBlob(s.Records(), ns, key, was)
    modifies s.pm, s.pm.dev, s.pm.Objects()
    ensures s.Valid() && s.pm.pages == old(s.pm.pages) && (err == OK ==> readErr == OK && back == data)
    ensures SameAsBefore(was, data, s.crcOf) ==> err == OK
    ensures !SameAsBefore(was, data, s.crcOf) && (err == FAIL ==> |s.pm.pages| <= 127) ==>
      old(BlobAnswer(err, |s.pm.pages|, s.pm.Rams(), s.pm.pageList, s.pm.freeList, key, |data|))
    ensures err == OK ==> forall r :: !OfName(r, ns, Truncated(key)) ==> s.Records()[r] == old(s.Records())[r]
  {
    hide HashList.Valid, InOrder, RamsOk, PageManager.Wired, Live, OnlyBlob, Unwritten, ChunksApart, AllClear,
      FindsIndex, Unique, SameBlob, UpdateCut, Between, BlobOk, PartsOf, Without, ChunkRecs, PageManager.HashListsOk,
      Single, BlobAnswer;
    ghost var same, live := SameAsBefore(was, data, s.crcOf), s.Records();
    ghost var now, t;
    var wrapped;
    err, wrapped, now, t := s.SetBlob(ns, key, data, was, o);
    BesidesOthers(live, ns, key, o);
    ghost var known, b := err == OK, None;
    if known {
      b := if same then was else Some(now);
      if same {
        SameHasData(was.value, data, s.crcOf);
      }
      OnlyBlobIsFound(s.Records(), ns, key, b);
    }
    readErr, back := s.ReadMultiPageBlob(ns, key, |data|, known, b);
  }

  lemma BesidesOthers(live: multiset<Rec>, ns: byte, key: string, o: Option<Rec>)
    requires o.Some? ==> Single(live, ns, key, o.value)
    ensures forall r :: !OfName(r, ns, Truncated(key)) ==> Besides(live, o)[r] == live[r]
  {
  }

  // ---------------------------------------------------------------- power lost

  // An image of the store for these records once more.
  ghost predicate Again(d: seq<FPage>, base: multiset<Rec>, hashOf: Id -> nat, distinct: bool) {
    exists y :: Survives(d, y, base) && (distinct ==> Sparse(y, hashOf))
  }

  // Which records must not be shadowed. Where there was no value before, losing chunks of the new one
  // is losing the new one, and leaves the store as it was.
  function Precious(live: multiset<Rec>, base: multiset<Rec>, was: Option<Blob>): multiset<Rec> {
    if was.None? then live else base
  }

  // Brings up a store that lost power during an update. If loading keeps what is there, it comes up with
  // exactly the old records or exactly the new ones, and if power fails again on the way, it was for the
  // same records. Without colliding hashes it comes up with either if and only if no record that must
  // not be is shadowed.
  method BootUpdate(c: seq<FPage>, crcOf: seq<byte> -> nat, ghost live: multiset<Rec>, ghost now: multiset<Rec>,
                    ns: byte, key: string, ghost was: Option<Blob>, ghost n: Blob, hashOf: Id -> nat)
    returns (again: Storage, ghost base: multiset<Rec>)
    requires Torn(c, live, now, ns, key, was, n)
    ensures again.Valid() && (base == live || base == now)
    ensures HashesDiffer(live, ns, key, hashOf) ==>
      (again.Records() == live || again.Records() == now <==> !Shadows(c, Precious(live, base, was)))
    ensures HashesDiffer(live, ns, key, hashOf) ==> (again.Records() == base <==> !Shadows(c, base))
    ensures Kept(c, hashOf) ==> again.Records() == base
    ensures Kept(c, hashOf) ==>
      forall d :: d in again.pm.dev.cuts ==> Again(d, base, hashOf, HashesDiffer(live, ns, key, hashOf))
    ensures Kept(c, hashOf) && ChunksApart(c) ==>
      ChunksApart(again.pm.dev.pages) && forall d :: d in again.pm.dev.cuts ==> ChunksApart(d)
  {
    hide Storage.Valid, PageManager.Valid, Survives, Sparse, Shadows, Kept, Live, Purged, LeftBy, Between, Torn,
      OldSide, NewSide, BlobOk, ChunksApart, HashesDiffer, Again;
    ghost var x;
    ghost var distinct := HashesDiffer(live, ns, key, hashOf);
    x, base := TornSurvives(c, live, now, ns, key, was, n, hashOf);
    SurvivesMeans(c, x, base);
    TornMeans(c, live, now, ns, key, was, n);
    ghost var loaded;
    again, loaded := Boot(c, hashOf, crcOf, x, base);
    if distinct {
      EitherSide(c, x, base, loaded, again.Records(), live, now, ns, key, was, n, hashOf);
    }
    if Kept(c, hashOf) {
      forall d: seq<FPage> | d in again.pm.dev.cuts ensures Again(d, base, hashOf, distinct) {
        AgainOn(d, x, base, hashOf, distinct);
      }
    }
  }

  lemma SurvivesMeans(c: seq<FPage>, x: multiset<Rec>, base: multiset<Rec>)
    requires Survives(c, x, base)
    ensures Recoverable(c, x) && Identified(x) && Tidy(base) && Extended(x, base)
  {
  }

  lemma AgainOn(d: seq<FPage>, x: multiset<Rec>, base: multiset<Rec>, hashOf: Id -> nat, distinct: bool)
    requires Between(d, base, x) && Identified(x) && Tidy(base) && Extended(x, base)
    requires distinct ==> Sparse(x, hashOf)
    ensures Again(d, base, hashOf, distinct)
  {
    hide Recoverable, Identified, Tidy, Extended, Sparse;
    var y :| base <= y <= x && Recoverable(d, y);
    IdentifiedWithin(x, y);
    ExtendedWithin(x, base, y);
    if distinct {
      SparseWithin(x, y, hashOf);
    }
    assert Survives(d, y, base);
  }

  lemma SparseWithin(x: multiset<Rec>, y: multiset<Rec>, hashOf: Id -> nat)
    requires Sparse(x, hashOf) && y <= x
    ensures Sparse(y, hashOf)
  {
    assert forall r :: r in y ==> r in x && y[r] <= x[r];
  }

  // The side that is there, or if it is broken neither, unless it was a first value.
  lemma EitherSide(c: seq<FPage>, x: multiset<Rec>, base: multiset<Rec>, loaded: multiset<Rec>, got: multiset<Rec>,
                   live: multiset<Rec>, now: multiset<Rec>, ns: byte, key: string, was: Option<Blob>, n: Blob,
                   hashOf: Id -> nat)
    requires BlobOk(n) && (was.Some? ==> BlobOk(was.value) && was.value.start != n.start)
    requires Tidy(live) && OnlyBlob(live, ns, key, was) && Replaced(live, now, ns, key, was, n)
    requires (base == live && OldSide(x, live, ns, key, n)) || (base == now && NewSide(x, live, ns, key, was, n))
    requires Recoverable(c, x) && Sparse(x, hashOf) && Extended(x, base) && loaded <= x && Purged(loaded, got)
    requires (loaded == x <==> Kept(c, hashOf)) && LeftBy(c, x, loaded, hashOf) && (got == base <==> !Shadows(c, base))
    ensures got == live || got == now <==> !Shadows(c, Precious(live, base, was))
  {
    hide Recoverable, Sparse, Kept, LeftBy, Shadows, Replaced, OnlyBlob, OldSide, NewSide, BlobOk, Purged, Extended,
      Tidy;
    if base == live && OldSide(x, live, ns, key, n) {
      OldSideLacks(x, live, now, ns, key, was, n);
      NotReached(x, loaded, got, now);
    } else if was.Some? {
      NewSideLacks(x, live, now, ns, key, was.value, n);
      NotReached(x, loaded, got, live);
    } else {
      FirstValue(c, x, loaded, got, live, now, ns, key, n, hashOf);
    }
  }

  lemma TornMeans(c: seq<FPage>, live: multiset<Rec>, now: multiset<Rec>, ns: byte, key: string, was: Option<Blob>,
                  n: Blob)
    requires Torn(c, live, now, ns, key, was, n) && BlobOk(n) && (was.Some? ==> BlobOk(was.value))
    ensures Tidy(live) && OnlyBlob(live, ns, key, was) && n.start == Toggled(was)
      && Replaced(live, now, ns, key, was, n)
    ensures was.Some? ==> was.value.start != n.start
  {
    hide UpdateCut, Identified, Tidy, WritableId, Replaced;
    TogglesApart(was, n);
  }

  lemma NotReached(x: multiset<Rec>, loaded: multiset<Rec>, got: multiset<Rec>, side: multiset<Rec>)
    requires loaded <= x && Purged(loaded, got) && !(side <= x)
    ensures got != side
  {
  }

  // The index of a blob is not among the chunks.
  lemma NotAChunk(ns: byte, key: string, n: Blob)
    requires BlobOk(n)
    ensures IndexOf(ns, key, n) in PartsOf(ns, key, n) && OfName(IndexOf(ns, key, n), ns, Truncated(key))
      && IndexOf(ns, key, n).item.typ.BLOB_IDX?
    ensures IndexOf(ns, key, n) !in multiset(ChunksOf(ns, key, n))
  {
    hide ChunkRecs, BlobOk;
    if IndexOf(ns, key, n) in ChunksOf(ns, key, n) {
      NotIndex(ns, key, n, IndexOf(ns, key, n));
    }
  }

  // Nor among the parts of the other version.
  lemma OtherIndex(ns: byte, key: string, a: Blob, b: Blob)
    requires BlobOk(a) && BlobOk(b) && a.start != b.start
    ensures IndexOf(ns, key, a) !in PartsOf(ns, key, b)
  {
    hide ChunkRecs, PartsOf, IndexOf, BlobOk;
    NotAChunk(ns, key, a);
    if IndexOf(ns, key, a) in PartsOf(ns, key, b) {
      var k := PartIs(ns, key, b, IndexOf(ns, key, a));
      IndexMeans(ns, key, a);
      IndexMeans(ns, key, b);
    }
  }

  lemma OldSideLacks(x: multiset<Rec>, live: multiset<Rec>, now: multiset<Rec>, ns: byte, key: string,
                     was: Option<Blob>, n: Blob)
    requires BlobOk(n) && (was.Some? ==> BlobOk(was.value) && was.value.start != n.start)
    requires OnlyBlob(live, ns, key, was) && Replaced(live, now, ns, key, was, n) && OldSide(x, live, ns, key, n)
    ensures !(now <= x)
  {
    hide ChunkRecs, BlobOk, IndexOf, Without, PartsOf, Unique;
    var i := IndexOf(ns, key, n);
    NotAChunk(ns, key, n);
    if was.Some? {
      OtherIndex(ns, key, n, was.value);
    }
    assert i !in live && i !in multiset(ChunksOf(ns, key, n));
    assert i in now && x[i] <= live[i] + multiset(ChunksOf(ns, key, n))[i];
  }

  lemma NewSideLacks(x: multiset<Rec>, live: multiset<Rec>, now: multiset<Rec>, ns: byte, key: string, b: Blob, n: Blob)
    requires BlobOk(n) && BlobOk(b) && b.start != n.start
    requires OnlyBlob(live, ns, key, Some(b)) && Replaced(live, now, ns, key, Some(b), n)
      && NewSide(x, live, ns, key, Some(b), n)
    ensures !(live <= x)
  {
    hide ChunkRecs, BlobOk, IndexOf, Without, PartsOf, Unique;
    var i := IndexOf(ns, key, b);
    NotAChunk(ns, key, b);
    OtherIndex(ns, key, b, n);
    assert i !in now && i !in multiset(ChunksOf(ns, key, b));
    assert i in live && x[i] <= now[i] + multiset(ChunksOf(ns, key, b))[i];
  }

  // A name that stood for nothing stands for nothing again if a chunk of its first value is lost.
  lemma FirstValue(c: seq<FPage>, x: multiset<Rec>, loaded: multiset<Rec>, got: multiset<Rec>, live: multiset<Rec>,
                   now: multiset<Rec>, ns: byte, key: string, n: Blob, hashOf: Id -> nat)
    requires BlobOk(n) && Tidy(live) && OnlyBlob(live, ns, key, None) && Replaced(live, now, ns, key, None, n)
      && NewSide(x, live, ns, key, None, n)
    requires Recoverable(c, x) && Sparse(x, hashOf) && Extended(x, now) && loaded <= x && Purged(loaded, got)
    requires (loaded == x <==> Kept(c, hashOf)) && LeftBy(c, x, loaded, hashOf) && (got == now <==> !Shadows(c, now))
    ensures got == live || got == now <==> !Shadows(c, live)
  {
    hide Recoverable, Sparse, Kept, LeftBy, Shadows, Tidy, Unique, ChunkRecs, BlobOk, IndexOf, PartsOf, OnlyBlob,
      Extended, Purged;
    assert x == now && live <= now;
    LoadedIff(c, x, live, loaded, hashOf);
    LoadedIff(c, x, now, loaded, hashOf);
    PurgedWithin(loaded, got);
    if Shadows(c, now) && !Shadows(c, live) {
      var d := ShadowedIsMissing(c, x, loaded, hashOf);
      BackToOld(live, now, loaded, got, ns, key, n, d);
    }
  }

  lemma PurgedWithin(loaded: multiset<Rec>, got: multiset<Rec>)
    requires Purged(loaded, got)
    ensures got <= loaded
  {
  }

  lemma BackToOld(live: multiset<Rec>, now: multiset<Rec>, loaded: multiset<Rec>, got: multiset<Rec>, ns: byte,
                  key: string, n: Blob, d: Rec)
    requires Tidy(live) && OnlyBlob(live, ns, key, None) && BlobOk(n) && Replaced(live, now, ns, key, None, n)
      && Extended(now, now)
    requires live <= loaded <= now && Purged(loaded, got) && d in now && d.item.typ.BLOB_DATA? && d !in loaded
    ensures got == live
  {
    hide Tidy, BlobOk, PartsOf, Stays, Extended, Unique;
    FirstChunkIs(live, now, ns, key, n, d);
    BrokenIsGone(now, now, loaded, got, ns, key, n, d);
    forall r ensures got[r] == live[r] {
      if OfName(r, ns, Truncated(key)) {
        assert r !in got && r !in live;
      } else {
        assert now[r] == live[r] && loaded[r] == live[r];
        if r in loaded {
          forall y | !OfName(y, ns, Truncated(key)) ensures loaded[y] == live[y] {
            assert now[y] == live[y];
          }
          OthersStay(live, loaded, ns, key, r);
        }
      }
    }
  }

  lemma FirstChunkIs(live: multiset<Rec>, now: multiset<Rec>, ns: byte, key: string, n: Blob, d: Rec)
    requires BlobOk(n) && Replaced(live, now, ns, key, None, n) && d in now && d !in live && d.item.typ.BLOB_DATA?
    ensures d in ChunksOf(ns, key, n)
  {
    hide BlobOk, Unique, OnlyBlob, ChunkRecs;
    assert d in PartsOf(ns, key, n);
    NotAChunk(ns, key, n);
  }

  // ---------------------------------------------------------------- power lost while erasing

  // Erasing a blob is setting a first value backwards: what is left is the blob, or not its index and
  // maybe chunks of it.
  lemma EraseSurvives(c: seq<FPage>, live: multiset<Rec>, ns: byte, key: string, b: Blob)
    returns (x: multiset<Rec>, base: multiset<Rec>)
    requires Identified(live) && Tidy(live) && OnlyBlob(live, ns, key, Some(b)) && BlobOk(b)
      && ErasingBlob(c, live, ns, key, b, false)
    ensures Survives(c, x, base) && x <= live && Gone(live, ns, key, b)
    ensures var rest := WithoutBlob(live, ns, key, b);
      (base == live && NewSide(x, rest, ns, key, None, b)) || (base == rest && OldSide(x, rest, ns, key, b))
  {
    hide Recoverable, Identified, Tidy, Extended, BlobOk, OnlyBlob, ChunksOf, IndexOf, Unique, Replaced, NoStrays;
    var rest, recs := WithoutBlob(live, ns, key, b), ChunksOf(ns, key, b);
    IsUnique(live);
    IsGone(live, ns, key, b);
    if Recoverable(c, live) {
      x, base := live, live;
      SelfExtended(live);
      ReplacedIs(rest, live, ns, key, b);
    } else {
      var i :| 0 <= i <= |recs| && Recoverable(c, live - multiset{IndexOf(ns, key, b)} - multiset(recs[..i]));
      x, base := live - multiset{IndexOf(ns, key, b)} - multiset(recs[..i]), rest;
      PartsLeave(live, ns, key, b);
      PartLeft(live, multiset{IndexOf(ns, key, b)}, recs, i);
      IdentifiedWithin(live, x);
      AddedIsExtended(x, rest, ns, key, None, b);
    }
  }

  // Without the blob everything else is as it was.
  ghost predicate Gone(live: multiset<Rec>, ns: byte, key: string, b: Blob) {
    && BlobOk(b) && Tidy(WithoutBlob(live, ns, key, b)) && OnlyBlob(WithoutBlob(live, ns, key, b), ns, key, None)
    && Replaced(WithoutBlob(live, ns, key, b), live, ns, key, None, b)
  }

  lemma IsGone(live: multiset<Rec>, ns: byte, key: string, b: Blob)
    requires Unique(live) && Tidy(live) && OnlyBlob(live, ns, key, Some(b)) && BlobOk(b)
    ensures Gone(live, ns, key, b)
  {
    hide BlobOk, ChunksOf, IndexOf, Unique, Stays, OnlyBlob;
    var rest := WithoutBlob(live, ns, key, b);
    NoneNamedWithout(live, ns, key, Some(b));
    PartsLeave(live, ns, key, b);
    forall r | r in rest ensures Stays(rest, r) {
      OnlyBlobMeans(rest, ns, key);
      OthersStay(live, rest, ns, key, r);
    }
  }

  lemma PartsLeave(live: multiset<Rec>, ns: byte, key: string, b: Blob)
    requires OnlyBlob(live, ns, key, Some(b)) && BlobOk(b)
    ensures WithoutBlob(live, ns, key, b) == Without(live, ns, key, Some(b))
      && live == WithoutBlob(live, ns, key, b) + PartsOf(ns, key, b)
    ensures multiset{IndexOf(ns, key, b)} + multiset(ChunksOf(ns, key, b)) <= live
  {
    hide BlobOk, ChunksOf, IndexOf;
  }

  lemma ReplacedIs(rest: multiset<Rec>, live: multiset<Rec>, ns: byte, key: string, b: Blob)
    requires BlobOk(b) && Replaced(rest, live, ns, key, None, b)
    ensures NewSide(live, rest, ns, key, None, b)
  {
    hide BlobOk, PartsOf, OnlyBlob, Unique;
  }

  lemma PartLeft(live: multiset<Rec>, i: multiset<Rec>, recs: seq<Rec>, k: nat)
    requires k <= |recs| && i + multiset(recs) <= live
    ensures var x, rest := live - i - multiset(recs[..k]), live - i - multiset(recs);
      rest <= x <= rest + multiset(recs) && x <= live
  {
    assert recs == recs[..k] + recs[k..];
    assert multiset(recs) == multiset(recs[..k]) + multiset(recs[k..]);
  }

  // Brings up a store that lost power while a blob was erased. If loading keeps what is there, the blob
  // is there or nothing of it, and everything else; without colliding hashes, if and only if no other
  // chunk is shadowed.
  method BootErase(c: seq<FPage>, crcOf: seq<byte> -> nat, ghost live: multiset<Rec>, ns: byte, key: string,
                   ghost b: Blob, hashOf: Id -> nat) returns (again: Storage)
    requires Identified(live) && Tidy(live) && OnlyBlob(live, ns, key, Some(b)) && BlobOk(b)
    requires ErasingBlob(c, live, ns, key, b, false)
    ensures again.Valid()
    ensures Kept(c, hashOf) ==> again.Records() == live || again.Records() == WithoutBlob(live, ns, key, b)
    ensures Sparse(live, hashOf) ==>
      (again.Records() == live || again.Records() == WithoutBlob(live, ns, key, b) <==>
        !Shadows(c, WithoutBlob(live, ns, key, b)))
  {
    hide Storage.Valid, PageManager.Valid, Survives, Sparse, Shadows, Kept, Live, Purged, LeftBy, Between, OldSide,
      NewSide, BlobOk, ChunksApart, ErasingBlob, Identified, Tidy, OnlyBlob, Replaced, WithoutBlob;
    ghost var x, base := EraseSurvives(c, live, ns, key, b);
    SurvivesMeans(c, x, base);
    ghost var loaded;
    again, loaded := Boot(c, hashOf, crcOf, x, base);
    if Sparse(live, hashOf) {
      SparseWithin(live, x, hashOf);
      EitherSide(c, x, base, loaded, again.Records(), WithoutBlob(live, ns, key, b), live, ns, key, None, b, hashOf);
    }
  }
}
