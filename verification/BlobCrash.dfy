// A blob update that loses power: what the store comes up with, and exactly when that is the complete
// old or the complete new value.
module BlobCrash {
  import opened NvsTypes
  import opened PageImage
  import opened PageRam
  import opened PageSearch
  import opened PageLoad
  import opened PageTail
  import opened PageTwins
  import opened PageScan
  import opened PageValues
  import opened FlashDevice
  import opened ItemHashList
  import opened PageCuts
  import opened StoreImage
  import opened Recovery
  import opened PageLists
  import opened Startup
  import opened PageManagers
  import opened StoreSearch
  import opened StoreWrites
  import opened BlobWrites
  import opened BlobSearch
  import opened BlobUpdates
  import opened BlobPurge
  import opened Storages
  import opened StorageInits

  // ---------------------------------------------------------------- chunks that do not count

  // No blob of the store has this for a chunk.
  ghost predicate Uncounted(base: multiset<Rec>, e: Rec) {
    e.item.typ.BLOB_DATA? && forall i :: i in base && IsIndex(i) ==> !InFamily(e, i) && !Counts(i, e)
  }

  // Besides these records there are chunks at most that no blob counts.
  ghost predicate Extended(x: multiset<Rec>, base: multiset<Rec>) {
    base <= x && forall e :: e in x && e !in base ==> Uncounted(base, e)
  }

  lemma FamilyStays(x: multiset<Rec>, base: multiset<Rec>, i: Rec)
    requires Extended(x, base) && i in base && IsIndex(i)
    ensures Family(x, i) == Family(base, i) && (Matched(x, i) <==> Matched(base, i))
  {
  }

  // Chunks that do not count are all that is cleared away.
  lemma ExtendedIsPurged(x: multiset<Rec>, base: multiset<Rec>)
    requires Unique(x) && Tidy(base) && Extended(x, base)
    ensures Purged(x, base)
  {
    hide Matched, Counts, InFamily;
    forall r | r in x ensures base[r] == if Stays(x, r) then x[r] else 0 {
      OnceIn(x, r);
      if r in base {
        StaysStill(x, base, r);
      } else if Stays(x, r) {
        var i :| i in x && Matched(x, i) && Counts(i, r);
        MatchedIsIndex(x, i);
      }
    }
  }

  lemma MatchedIsIndex(x: multiset<Rec>, i: Rec)
    requires Matched(x, i)
    ensures IsIndex(i) && !i.item.typ.BLOB_DATA?
  {
  }

  lemma StaysStill(x: multiset<Rec>, base: multiset<Rec>, r: Rec)
    requires Extended(x, base) && r in base && Stays(base, r)
    ensures Stays(x, r)
  {
    hide Matched, Counts, Extended;
    if IsIndex(r) {
      FamilyStays(x, base, r);
    } else if r.item.typ.BLOB_DATA? {
      var i :| i in base && Matched(base, i) && Counts(i, r);
      MatchedIsIndex(base, i);
      FamilyStays(x, base, i);
      ExtendedHas(x, base, i);
    }
  }

  lemma ExtendedHas(x: multiset<Rec>, base: multiset<Rec>, i: Rec)
    requires Extended(x, base) && i in base
    ensures i in x
  {
  }

  // ---------------------------------------------------------------- the chunks of the other version

  // The index of a name is that of its blob.
  lemma OnlyIndex(live: multiset<Rec>, ns: byte, key: string, b: Option<Blob>, i: Rec)
    requires OnlyBlob(live, ns, key, b) && i in live && IsIndex(i) && OfName(i, ns, Truncated(key))
    ensures b.Some? && BlobOk(b.value) && i == IndexOf(ns, key, b.value)
      && i.item.val == BlobIndex(|b.value.data|, |b.value.pieces|, b.value.start)
  {
    hide IndexOf, ChunkOfBlob, PartsOf;
    var k := PartIs(ns, key, b.value, i);
    IndexMeans(ns, key, b.value);
  }

  // Chunks of one version are no chunks of the other.
  lemma OtherVersionUncounted(live: multiset<Rec>, ns: byte, key: string, b: Option<Blob>, n: Blob, e: Rec)
    requires OnlyBlob(live, ns, key, b) && BlobOk(n) && e in ChunksOf(ns, key, n)
    requires b.Some? ==> BlobOk(b.value) && b.value.start != n.start
    ensures Uncounted(live, e)
  {
    hide IndexOf, ChunkOfBlob, PartsOf, ChunkRecs, OnlyBlob;
    ChunkIsPartOf(ns, key, n, e);
    var k := PartIs(ns, key, n, e);
    NotIndex(ns, key, n, e);
    forall i | i in live && IsIndex(i) ensures !InFamily(e, i) && !Counts(i, e) {
      if OfName(i, ns, Truncated(key)) {
        OnlyIndex(live, ns, key, b, i);
      }
    }
  }

  lemma AddedIsExtended(x: multiset<Rec>, base: multiset<Rec>, ns: byte, key: string, b: Option<Blob>, n: Blob)
    requires OnlyBlob(base, ns, key, b) && BlobOk(n) && (b.Some? ==> BlobOk(b.value) && b.value.start != n.start)
    requires base <= x <= base + multiset(ChunksOf(ns, key, n))
    ensures Extended(x, base)
  {
    hide Uncounted, ChunkRecs, OnlyBlob, BlobOk;
    forall e | e in x && e !in base ensures Uncounted(base, e) {
      assert e in multiset(ChunksOf(ns, key, n));
      OtherVersionUncounted(base, ns, key, b, n, e);
    }
  }

  // ---------------------------------------------------------------- a new blob is complete

  lemma {:induction false} SizesAdd(ns: byte, key: string, start: byte, pieces: seq<seq<byte>>)
    requires Numbered(start, |pieces|)
    ensures SizeSum(ChunkRecs(ns, key, start, pieces)) == |Joined(pieces)|
  {
    hide RecOf;
    if pieces != [] {
      var front, last := pieces[..|pieces| - 1], pieces[|pieces| - 1];
      SizesAdd(ns, key, start, front);
      SizeMore(ChunkRecs(ns, key, start, front), RecOf(ns, BLOB_DATA, key, Variable(last), start + |pieces| - 1));
      PieceSize(ns, key, last, start + |pieces| - 1);
    }
  }

  lemma PieceSize(ns: byte, key: string, piece: seq<byte>, chunk: byte)
    ensures DataSize(RecOf(ns, BLOB_DATA, key, Variable(piece), chunk)) == |piece|
  {
  }

  lemma ChunksDistinct(ns: byte, key: string, n: Blob)
    requires BlobOk(n)
    ensures Distinct(ChunksOf(ns, key, n)) && |ChunksOf(ns, key, n)| == |n.pieces|
  {
    hide ChunkRecs;
    ChunkCount(ns, Truncated(key), n.start, n.pieces);
    var recs := ChunksOf(ns, key, n);
    forall i, j | 0 <= i < j < |recs| ensures recs[i] != recs[j] {
      ChunkIn(ns, Truncated(key), n.start, n.pieces, i);
      ChunkIn(ns, Truncated(key), n.start, n.pieces, j);
    }
  }

  lemma PartInFamily(ns: byte, key: string, n: Blob, r: Rec)
    requires BlobOk(n) && r in PartsOf(ns, key, n)
    ensures IsIndex(IndexOf(ns, key, n)) && (InFamily(r, IndexOf(ns, key, n)) <==> r in ChunksOf(ns, key, n))
    ensures r in ChunksOf(ns, key, n) ==> Counts(IndexOf(ns, key, n), r)
    ensures r !in ChunksOf(ns, key, n) ==> r == IndexOf(ns, key, n)
  {
    hide ChunkRecs, Joined;
    var i := PartIs(ns, key, n, r);
    IndexMeans(ns, key, n);
    if i < |n.pieces| {
      ChunkIsPart(ns, key, n, i);
    } else if r in ChunksOf(ns, key, n) {
      NotIndex(ns, key, n, r);
    }
  }

  // The index of a blob that a name stands for matches.
  lemma BlobMatches(live: multiset<Rec>, ns: byte, key: string, n: Blob)
    requires OnlyBlob(live, ns, key, Some(n))
    ensures BlobOk(n) && IndexOf(ns, key, n) in live && Matched(live, IndexOf(ns, key, n))
    ensures forall r :: r in ChunksOf(ns, key, n) ==> Counts(IndexOf(ns, key, n), r)
  {
    hide ChunkRecs, IndexOf, Joined, InFamily, Counts, ChunkOfBlob;
    var idx, recs := IndexOf(ns, key, n), ChunksOf(ns, key, n);
    IndexThere(live, ns, key, n);
    IndexMeans(ns, key, n);
    PartInFamily(ns, key, n, idx);
    forall c ensures c in Family(live, idx) <==> c in recs {
      if c in PartsOf(ns, key, n) {
        PartInFamily(ns, key, n, c);
        assert c in live;
      } else if InFamily(c, idx) {
        FamilyNamed(c, idx, ns, key, n);
      }
    }
    assert Family(live, idx) == Elements(recs);
    ChunksDistinct(ns, key, n);
    CountedOnce(recs);
    SizesAdd(ns, Truncated(key), n.start, n.pieces);
    forall r | r in recs ensures Counts(idx, r) {
      ChunkIsPartOf(ns, key, n, r);
      PartInFamily(ns, key, n, r);
    }
  }

  lemma FamilyNamed(c: Rec, i: Rec, ns: byte, key: string, n: Blob)
    requires BlobOk(n) && i == IndexOf(ns, key, n) && InFamily(c, i)
    ensures OfName(c, ns, Truncated(key))
  {
  }

  // After an update every blob is complete, if it was before.
  lemma TidyAfter(live: multiset<Rec>, now: multiset<Rec>, ns: byte, key: string, b: Option<Blob>, n: Blob)
    requires Tidy(live) && BlobOk(n) && (b.Some? ==> BlobOk(b.value)) && Replaced(live, now, ns, key, b, n)
    ensures Tidy(now)
  {
    hide Matched, Counts, IndexOf, ChunkRecs, PartsOf, Without, BlobOk, OnlyBlob, Unique;
    BlobMatches(now, ns, key, n);
    forall r | r in now ensures Stays(now, r) {
      if OfName(r, ns, Truncated(key)) {
        OnlyBlobHas(now, ns, key, n, r);
        PartInFamily(ns, key, n, r);
      } else {
        OthersStay(live, now, ns, key, r);
      }
    }
  }

  lemma OnlyBlobHas(live: multiset<Rec>, ns: byte, key: string, n: Blob, r: Rec)
    requires OnlyBlob(live, ns, key, Some(n)) && r in live && OfName(r, ns, Truncated(key))
    ensures BlobOk(n) && r in PartsOf(ns, key, n)
  {
  }

  lemma OthersStay(live: multiset<Rec>, now: multiset<Rec>, ns: byte, key: string, r: Rec)
    requires Tidy(live) && (forall x :: !OfName(x, ns, Truncated(key)) ==> now[x] == live[x]) && r in now
      && !OfName(r, ns, Truncated(key))
    ensures Stays(now, r)
  {
    hide Matched, TotalSize;
    assert Stays(live, r);
    if IsIndex(r) {
      OthersFamily(live, now, ns, key, r);
    } else if r.item.typ.BLOB_DATA? {
      var i :| i in live && Matched(live, i) && Counts(i, r);
      OthersFamily(live, now, ns, key, i);
    }
  }

  lemma OthersFamily(live: multiset<Rec>, now: multiset<Rec>, ns: byte, key: string, i: Rec)
    requires (forall x :: !OfName(x, ns, Truncated(key)) ==> now[x] == live[x]) && IsIndex(i)
      && !OfName(i, ns, Truncated(key))
    ensures Matched(live, i) <==> Matched(now, i)
  {
    hide TotalSize;
    forall c | InFamily(c, i) ensures c in now <==> c in live {
      assert !OfName(c, ns, Truncated(key));
    }
    assert Family(now, i) == Family(live, i);
  }

  // ---------------------------------------------------------------- what loading drops

  // The page ends in a chunk that displaces an earlier chunk of its key, and that is one of these.
  ghost predicate DropsFrom(fp: FPage, base: multiset<Rec>) {
    var w := WithoutTwin(RecsOf(fp));
    EndsInItem(fp.slots) && ChunkShadowed(w) && w[FirstChunk(w, w[|w| - 1].item)] in base
  }

  // No move is to be finished, and the page in use ends in a chunk behind a chunk of these records.
  ghost predicate Shadows(c: seq<FPage>, base: multiset<Rec>) {
    NoneFreeing(c) && exists p :: 0 <= p < |c| && InState(c[p], ACTIVE) && DropsFrom(c[p], base)
  }

  lemma DistinctIsLoaded(recs: seq<Rec>, tail: bool, hashOf: Id -> nat)
    requires DistinctHashes(WithoutTwin(recs), hashOf)
    ensures LoadedRecs(recs, tail, hashOf) == if tail then ChunkDropped(WithoutTwin(recs)) else WithoutTwin(recs)
  {
    hide Deduped, DistinctHashes, ChunkDropped;
    DedupedLength(recs, hashOf);
    if TwinPlace(recs, 0) < |recs| {
      var a, o, b, n := TwinSplit(recs);
      DedupedTwin(a, o, b, n, hashOf);
      SwapDistinct(a, o, b, n, hashOf);
    }
  }

  lemma {:induction false} DroppedIs(w: seq<Rec>)
    requires ChunkShadowed(w) && w != []
    ensures FirstChunk(w, w[|w| - 1].item) < |w|
      && multiset(w) == multiset(ChunkDropped(w)) + multiset{w[FirstChunk(w, w[|w| - 1].item)]}
  {
    hide ChunkDropped, FirstChunk, ChunkShadowed;
    ShadowedMeans(w);
    ShadowedDrop(w, FirstChunk(w, w[|w| - 1].item));
    OneOut(w, FirstChunk(w, w[|w| - 1].item));
  }

  lemma OneOut(w: seq<Rec>, k: nat)
    requires k < |w|
    ensures multiset(w) == multiset(w[..k] + w[k + 1..]) + multiset{w[k]}
  {
    assert w == w[..k] + [w[k]] + w[k + 1..];
  }

  // On a page whose hashes differ, loading leaves these records exactly if it does not drop one of them.
  lemma LeftIff(x: multiset<Rec>, base: multiset<Rec>, fp: FPage, hashOf: Id -> nat)
    requires fp.hdr.Header? && fp.hdr.st.ACTIVE? && base <= x && (forall r :: r in x ==> x[r] == 1)
    requires multiset(WithoutTwin(RecsOf(fp))) <= x && DistinctHashes(WithoutTwin(RecsOf(fp)), hashOf)
    ensures base <= LeftOf(x, fp, hashOf) <==> !DropsFrom(fp, base)
  {
    hide Recs, EndsInItem, WithoutTwin, TwinPlace, DistinctHashes, LoadedRecs, ChunkDropped, ChunkShadowed;
    var w, tail := WithoutTwin(RecsOf(fp)), EndsInItem(fp.slots);
    DistinctIsLoaded(RecsOf(fp), tail, hashOf);
    if tail && ChunkShadowed(w) {
      ShadowedMeans(w);
      DroppedIs(w);
      var d := w[FirstChunk(w, w[|w| - 1].item)];
      OneLess(x, multiset(w), multiset(ChunkDropped(w)), d);
    } else {
      if tail {
        NotDropped(w);
      }
      assert x - multiset(w) + multiset(w) == x;
    }
  }

  lemma {:induction false} ShadowedMeans(w: seq<Rec>)
    requires ChunkShadowed(w)
    ensures w != [] && FirstChunk(w, w[|w| - 1].item) < |w|
  {
  }

  lemma OneLess(x: multiset<Rec>, w: multiset<Rec>, l: multiset<Rec>, d: Rec)
    requires w <= x && w == l + multiset{d} && x[d] == 1
    ensures x - w + l == x - multiset{d} && (x - w + l)[d] == 0
  {
  }

  // What loading leaves of a store without colliding hashes contains these records exactly if the
  // page in use does not shadow one of them.
  lemma LoadedIff(c: seq<FPage>, x: multiset<Rec>, base: multiset<Rec>, loaded: multiset<Rec>, hashOf: Id -> nat)
    requires Recoverable(c, x) && Sparse(x, hashOf) && base <= x && loaded <= x && (loaded == x <==> Kept(c, hashOf))
      && LeftBy(c, x, loaded, hashOf)
    ensures base <= loaded <==> !Shadows(c, base)
  {
    hide Recoverable, KeptRecs, LeftOf, DropsFrom, RecsOf, EndsInItem, WithoutTwin, TwinPlace;
    if NoneFreeing(c) {
      SparseIsUnique(x, hashOf);
      RecoverableIsSound(c, x);
      if p :| 0 <= p < |c| && InState(c[p], ACTIVE) {
        var rest := ActiveShare(c, x, p);
        SparseIsDistinct(WithoutTwin(RecsOf(c[p])), x, hashOf);
        LeftIff(x, base, c[p], hashOf);
        forall q | 0 <= q < |c| && InState(c[q], ACTIVE) ensures q == p {
          OneActive(c, p, q);
        }
      }
    }
  }

  lemma ShadowedIsMissing(c: seq<FPage>, x: multiset<Rec>, loaded: multiset<Rec>, hashOf: Id -> nat) returns (d: Rec)
    requires Recoverable(c, x) && Sparse(x, hashOf) && loaded <= x && (loaded == x <==> Kept(c, hashOf))
      && LeftBy(c, x, loaded, hashOf) && Shadows(c, x)
    ensures d in x && d.item.typ.BLOB_DATA? && d !in loaded
  {
    hide Recoverable, Sparse, Kept, LeftBy, RecsOf, EndsInItem, WithoutTwin;
    var p :| 0 <= p < |c| && InState(c[p], ACTIVE) && DropsFrom(c[p], x);
    var w := WithoutTwin(RecsOf(c[p]));
    d := w[FirstChunk(w, w[|w| - 1].item)];
    assert DropsFrom(c[p], multiset{d});
    assert multiset{d} <= x;
    LoadedIff(c, x, multiset{d}, loaded, hashOf);
    assert d in loaded ==> multiset{d} <= loaded;
  }

  // ---------------------------------------------------------------- bringing the store up

  // Of a store that lost power exactly these records come back if and only if loading leaves them;
  // without colliding hashes, if and only if the page in use does not shadow one of them.
  method Boot(c: seq<FPage>, hashOf: Id -> nat, crcOf: seq<byte> -> nat, ghost x: multiset<Rec>,
              ghost base: multiset<Rec>) returns (s: Storage, ghost loaded: multiset<Rec>)
    requires Recoverable(c, x) && Identified(x) && Tidy(base) && Extended(x, base)
    ensures s.Valid() && s.pm.hashOf == hashOf && fresh(s.pm) && fresh(s.pm.dev) && fresh(s.pm.Objects())
    ensures Purged(loaded, s.Records()) && loaded <= x && (s.Records() == base <==> base <= loaded)
    ensures (loaded == x <==> Kept(c, hashOf)) && LeftBy(c, x, loaded, hashOf)
    ensures Sparse(x, hashOf) ==> (s.Records() == base <==> !Shadows(c, base))
    ensures Kept(c, hashOf) ==> s.Records() == base && forall d :: d in s.pm.dev.cuts ==> Between(d, base, x)
    ensures Kept(c, hashOf) && ChunksApart(c) ==>
      ChunksApart(s.pm.dev.pages) && forall d :: d in s.pm.dev.cuts ==> ChunksApart(d)
  {
    hide Recoverable, Identified, Tidy, Extended, Purged, Live, Kept, LeftBy, Between, Sparse, Shadows, ChunksApart,
      Storage.Valid, PageManager.Valid;
    var dev := new Flash(c);
    var pm := new PageManager(dev, hashOf);
    s := new Storage(pm, crcOf);
    var err;
    err, loaded := Init(s, x);
    CameUp(c, x, base, loaded, s.Records(), hashOf);
  }

  lemma CameUp(c: seq<FPage>, x: multiset<Rec>, base: multiset<Rec>, loaded: multiset<Rec>, now: multiset<Rec>,
               hashOf: Id -> nat)
    requires Recoverable(c, x) && Identified(x) && Tidy(base) && Extended(x, base) && Purged(loaded, now)
    requires loaded <= x && (loaded == x <==> Kept(c, hashOf)) && LeftBy(c, x, loaded, hashOf)
    ensures now == base <==> base <= loaded
    ensures Kept(c, hashOf) ==> now == base
    ensures Sparse(x, hashOf) ==> (now == base <==> !Shadows(c, base))
  {
    hide Recoverable, Tidy, Stays, Kept, LeftBy, Sparse, Shadows, Uncounted, NoStrays;
    ExtendedBase(x, base);
    IdentifiedWithin(x, loaded);
    if base <= loaded {
      ExtendedWithin(x, base, loaded);
      ExtendedIsPurged(loaded, base);
      PurgedOnce(loaded, base, now);
    }
    if Sparse(x, hashOf) {
      LoadedIff(c, x, base, loaded, hashOf);
    }
  }

  lemma ExtendedBase(x: multiset<Rec>, base: multiset<Rec>)
    requires Extended(x, base)
    ensures base <= x
  {
  }

  lemma ExtendedWithin(x: multiset<Rec>, base: multiset<Rec>, loaded: multiset<Rec>)
    requires Extended(x, base) && base <= loaded <= x
    ensures Extended(loaded, base)
  {
    hide Uncounted;
  }

  // ---------------------------------------------------------------- updates cut short

  // Losing power at any flash step of an update leaves an image that Boot brings up to exactly the
  // old records or exactly the new ones, but for the shadowing of a chunk.
  ghost predicate Survives(c: seq<FPage>, x: multiset<Rec>, base: multiset<Rec>) {
    Recoverable(c, x) && Identified(x) && Tidy(base) && Extended(x, base)
  }

  lemma UpdateSurvives(c: seq<FPage>, live: multiset<Rec>, now: multiset<Rec>, ns: byte, key: string, b: Option<Blob>,
                       n: Blob) returns (x: multiset<Rec>, base: multiset<Rec>)
    requires Identified(live) && Tidy(live) && OnlyBlob(live, ns, key, b)
      && (forall r :: r in live ==> WritableId(r.item)) && ns != NS_ANY
    requires BlobOk(n) && (b.Some? ==> BlobOk(b.value)) && n.start == Toggled(b) && Replaced(live, now, ns, key, b, n)
    requires UpdateCut(c, live, ns, key, b, n)
    ensures Survives(c, x, base)
    ensures (base == live && OldSide(x, live, ns, key, n)) || (base == now && NewSide(x, live, ns, key, b, n))
  {
    hide Recoverable, Identified, Tidy, Extended, BlobOk, OnlyBlob, Replaced, ChunksOf, PartsOf, WritableId, OldSide,
      NewSide;
    x :| Recoverable(c, x) && (OldSide(x, live, ns, key, n) || NewSide(x, live, ns, key, b, n));
    if OldSide(x, live, ns, key, n) {
      base := live;
      OldSideSurvives(x, live, ns, key, b, n);
    } else {
      base := now;
      NewSideSurvives(x, live, now, ns, key, b, n);
    }
  }

  lemma TogglesApart(b: Option<Blob>, n: Blob)
    requires BlobOk(n) && (b.Some? ==> BlobOk(b.value)) && n.start == Toggled(b)
    ensures b.Some? ==> b.value.start != n.start
  {
  }

  lemma OldSideSurvives(x: multiset<Rec>, live: multiset<Rec>, ns: byte, key: string, b: Option<Blob>, n: Blob)
    requires Identified(live) && OnlyBlob(live, ns, key, b) && BlobOk(n) && n.start == Toggled(b)
      && (forall r :: r in live ==> WritableId(r.item))
    requires OldSide(x, live, ns, key, n) && ns != NS_ANY
    ensures Identified(x) && Extended(x, live)
  {
    hide Identified, Extended, BlobOk, OnlyBlob, ChunkRecs, WritableId, Unique, NoStrays;
    OldBlobOk(live, ns, key, b);
    TogglesApart(b, n);
    AddedIsExtended(x, live, ns, key, b, n);
    IsUnique(live);
    ToggledIsFree(live, ns, key, b);
    ChunksUnique(live, ns, key, n);
    WithChunks(live, ns, key, b, n);
    IdentifiedWithin(live + multiset(ChunksOf(ns, key, n)), x);
  }

  // Chunks of a name that stands for a blob, or for nothing, do not mix with anything else.
  lemma WithChunks(live: multiset<Rec>, ns: byte, key: string, b: Option<Blob>, n: Blob)
    requires Identified(live) && OnlyBlob(live, ns, key, b) && BlobOk(n)
      && Unique(live + multiset(ChunksOf(ns, key, n)))
    ensures Identified(live + multiset(ChunksOf(ns, key, n)))
  {
    hide ChunkRecs, IndexOf, ChunkOfBlob, BlobOk, Unique, PartsOf;
    var all := live + multiset(ChunksOf(ns, key, n));
    forall r, c | r in all && c in all && ChunkOf(c, r.item) ensures r.item.typ.BLOB_DATA? || r.item.typ.BLOB_IDX? {
      if c in ChunksOf(ns, key, n) {
        ChunkIsPartOf(ns, key, n, c);
        var i := PartIs(ns, key, n, c);
      }
      if r in ChunksOf(ns, key, n) {
        NotIndex(ns, key, n, r);
      } else if OfName(r, ns, Truncated(key)) {
        var i := PartIs(ns, key, b.value, r);
      }
    }
  }

  lemma NewSideSurvives(x: multiset<Rec>, live: multiset<Rec>, now: multiset<Rec>, ns: byte, key: string,
                        b: Option<Blob>, n: Blob)
    requires Identified(live) && Tidy(live) && OnlyBlob(live, ns, key, b) && BlobOk(n) && (b.Some? ==> BlobOk(b.value))
      && n.start == Toggled(b)
    requires Replaced(live, now, ns, key, b, n) && NewSide(x, live, ns, key, b, n) && ns != NS_ANY
      && (forall r :: r in live ==> WritableId(r.item))
    ensures Identified(x) && Tidy(now) && Extended(x, now)
  {
    hide Identified, Tidy, Extended, BlobOk, OnlyBlob, ChunkRecs, WritableId, Unique, PartsOf, Without, NoStrays;
    TogglesApart(b, n);
    TidyAfter(live, now, ns, key, b, n);
    NewIdentified(live, now, ns, key, b, n);
    if b.Some? {
      AddedIsExtended(x, now, ns, key, Some(n), b.value);
      NewWritable(live, now, ns, key, b, n);
      IsUnique(now);
      OtherFree(now, ns, key, n, b.value);
      ChunksUnique(now, ns, key, b.value);
      WithChunks(now, ns, key, Some(n), b.value);
      IdentifiedWithin(now + multiset(ChunksOf(ns, key, b.value)), x);
    } else {
      assert x == now;
      SelfExtended(now);
    }
  }

  lemma SelfExtended(x: multiset<Rec>)
    ensures Extended(x, x)
  {
  }

  lemma OtherFree(live: multiset<Rec>, ns: byte, key: string, n: Blob, b: Blob)
    requires OnlyBlob(live, ns, key, Some(n)) && BlobOk(b) && b.start != n.start
    ensures VersionFree(live, ns, Truncated(key), b.start)
  {
    hide PartsOf, IndexOf, ChunkOfBlob, ChunkRecs;
    forall r | r in live && r.item.typ.BLOB_DATA? && OfName(r, ns, Truncated(key))
      ensures !(b.start <= r.item.chunk < b.start + 127) {
      var i := PartIs(ns, key, n, r);
    }
  }

  lemma NewIdentified(live: multiset<Rec>, now: multiset<Rec>, ns: byte, key: string, b: Option<Blob>, n: Blob)
    requires Identified(live) && BlobOk(n) && (b.Some? ==> BlobOk(b.value)) && Replaced(live, now, ns, key, b, n)
    ensures Identified(now)
  {
    hide PartsOf, Without, BlobOk, Unique, IndexOf, ChunkOfBlob;
    forall r, c | r in now && c in now && ChunkOf(c, r.item) ensures r.item.typ.BLOB_DATA? || r.item.typ.BLOB_IDX? {
      if OfName(r, ns, Truncated(key)) {
        var i := PartIs(ns, key, n, r);
      } else {
        assert now[r] == live[r] && now[c] == live[c];
      }
    }
  }

  lemma NewWritable(live: multiset<Rec>, now: multiset<Rec>, ns: byte, key: string, b: Option<Blob>, n: Blob)
    requires BlobOk(n) && (b.Some? ==> BlobOk(b.value)) && Replaced(live, now, ns, key, b, n) && ns != NS_ANY
      && forall r :: r in live ==> WritableId(r.item)
    ensures forall r :: r in now ==> WritableId(r.item)
  {
    hide PartsOf, Without, BlobOk, Unique, IndexOf, ChunkOfBlob;
    forall r | r in now ensures WritableId(r.item) {
      if OfName(r, ns, Truncated(key)) {
        var i := PartIs(ns, key, n, r);
      } else {
        assert now[r] == live[r];
      }
    }
  }

  // ---------------------------------------------------------------- when a chunk shadows another

  // The search for any chunk of a name on a page finds the first.
  lemma {:induction false} FindsFirstChunk(s: seq<Slot>, nf: nat, hashOf: Id -> nat, ns: byte, key: string, it: Item)
    requires Quiet(s, nf) && ns != NS_ANY && it.ns == ns && it.key == Truncated(key)
    ensures var f := FindVia(s, ChunkQuery(ns, key, CHUNK_ANY), hashOf, 0);
      if f.Hit? then
        && Whole(s, f.index) && FirstChunk(Recs(s), it) < |Recs(s)|
        && Recs(s)[FirstChunk(Recs(s), it)] == RecAt(s, f.index)
      else f.Nothing? && FirstChunk(Recs(s), it) == |Recs(s)|
  {
    hide Quiet, Recs, Judge, FindFrom;
    var q := ChunkQuery(ns, key, CHUNK_ANY);
    var f := FindVia(s, q, hashOf, 0);
    ScanFinds(s, q);
    AnyChunk(s, q, f, it);
    if f.Hit? {
      HeadOfWhole(s, nf, f.index);
      RecsAround(s, f.index);
      FirstChunkAt(RecsIn(s, 0, f.index), RecAt(s, f.index), RecsIn(s, f.index + 1, |s|), it);
      assert (RecsIn(s, 0, f.index) + [RecAt(s, f.index)] + RecsIn(s, f.index + 1, |s|))[|RecsIn(s, 0, f.index)|] ==
        RecAt(s, f.index);
    } else {
      NoneIsFirst(Recs(s), it);
    }
  }

  ghost predicate Finds(s: seq<Slot>, q: Query, f: Found) {
    match f
    case Nothing => SkippedIn(s, q, 0, |s|)
    case Hit(h) => h < |s| && IsHead(s[h]) && Judge(s[h].body.item, q).Take? && SkippedIn(s, q, 0, h)
    case WrongType(h) => h < |s| && IsHead(s[h]) && Judge(s[h].body.item, q).Mismatch?
  }

  lemma {:induction false} ScanFinds(s: seq<Slot>, q: Query)
    ensures Finds(s, q, FindFrom(s, q, 0))
  {
    FindMeans(s, q, 0);
  }

  lemma {:induction false} AnyChunk(s: seq<Slot>, q: Query, f: Found, it: Item)
    requires q.key.Some? && q == ChunkQuery(q.ns, q.key.value, CHUNK_ANY) && q.ns != NS_ANY && it.ns == q.ns
      && it.key == Truncated(q.key.value)
    requires Finds(s, q, f)
    ensures !f.WrongType? && (f.Nothing? ==> forall r :: r in Recs(s) ==> !ChunkOf(r, it))
    ensures f.Hit? ==>
      (forall r :: r in RecsIn(s, 0, f.index) ==> !ChunkOf(r, it))
        && (Whole(s, f.index) ==> ChunkOf(RecAt(s, f.index), it))
  {
    hide RecsIn;
    var end := if f.Hit? then f.index else |s|;
    forall r | r in RecsIn(s, 0, end) && !f.WrongType? ensures !ChunkOf(r, it) {
      var k := PlaceOfRec(s, end, r);
    }
  }

  lemma {:induction false} NoneIsFirst(w: seq<Rec>, it: Item)
    requires forall x :: x in w ==> !ChunkOf(x, it)
    ensures FirstChunk(w, it) == |w|
  {
  }

  // A chunk behind others is shadowing the first of them.
  lemma {:induction false} BehindIsShadowed(host: seq<Rec>, n: Rec)
    requires n.item.typ.BLOB_DATA?
    ensures var k := FirstChunk(host, n.item);
      (ChunkShadowed(host + [n]) <==> k < |host|)
        && (k < |host| ==> FirstChunk(host + [n], n.item) == k && (host + [n])[k] == host[k])
  {
    var w := host + [n];
    var k, j := FirstChunk(host, n.item), FirstChunk(w, n.item);
    assert w[|host|] == n && ChunkOf(n, n.item);
    assert forall i :: 0 <= i < |host| ==> w[i] == host[i];
  }

  // The first chunk of its name on this page is one of these records.
  ghost predicate FirstIsIn(host: seq<Rec>, it: Item, live: multiset<Rec>) {
    FirstChunk(host, it) < |host| && host[FirstChunk(host, it)] in live
  }

  // Right after a chunk has been written, flash shadows one of these records exactly if the first
  // chunk of the name on the page that took it is one of them.
  lemma WrittenShadows(c: seq<FPage>, x: multiset<Rec>, live: multiset<Rec>, p: nat, host: seq<Rec>, n: Rec)
    requires Stable(c, x) && Unique(x) && p < |c| && InState(c[p], ACTIVE) && RecsOf(c[p]) == host + [n]
      && n.item.typ.BLOB_DATA?
    requires EndsInItem(c[p].slots)
    ensures Shadows(c, live) <==> FirstIsIn(host, n.item, live)
  {
    hide RecsOf, EndsInItem, Live, Rest, ChunkShadowed, Loadable, WithoutTwin, Unique;
    LiveAround(c, p);
    NoTwinHere(RecsOf(c[p]), x);
    BehindIsShadowed(host, n);
    forall q | 0 <= q < |c| && InState(c[q], ACTIVE) ensures q == p {
      OneActive(c, p, q);
    }
  }

  // A blob that a chunk is missing of is cleared away, with all that has its name.
  lemma BrokenIsGone(live: multiset<Rec>, x: multiset<Rec>, loaded: multiset<Rec>, now: multiset<Rec>, ns: byte,
                     key: string, b: Blob, d: Rec)
    requires OnlyBlob(live, ns, key, Some(b)) && Extended(x, live) && loaded <= x && Purged(loaded, now) && BlobOk(b)
    requires d in ChunksOf(ns, key, b) && d !in loaded
    ensures OnlyBlob(now, ns, key, None)
  {
    hide ChunkRecs, Uncounted, PartsOf, IndexOf, BlobOk, Joined;
    forall r | r in now ensures !OfName(r, ns, Truncated(key)) {
      assert r in loaded && Stays(loaded, r);
      NoneStays(live, x, loaded, ns, key, b, d, r);
    }
  }

  lemma NoneStays(live: multiset<Rec>, x: multiset<Rec>, loaded: multiset<Rec>, ns: byte, key: string, b: Blob, d: Rec,
                  r: Rec)
    requires OnlyBlob(live, ns, key, Some(b)) && Extended(x, live) && loaded <= x && BlobOk(b)
      && d in ChunksOf(ns, key, b) && d !in loaded
    requires r in loaded && Stays(loaded, r)
    ensures !OfName(r, ns, Truncated(key))
  {
    hide ChunkRecs, PartsOf, IndexOf, Joined, OnlyBlob, Matched, Counts, Uncounted;
    if OfName(r, ns, Truncated(key)) {
      if !r.item.typ.BLOB_DATA? {
        NamedIsIndex(live, x, ns, key, b, r);
        NotMatched(live, x, loaded, ns, key, b, d);
      } else if !IsIndex(r) {
        var i :| i in loaded && Matched(loaded, i) && Counts(i, r);
        CountsNamed(i, r);
        NamedIsIndex(live, x, ns, key, b, i);
        NotMatched(live, x, loaded, ns, key, b, d);
      }
    }
  }

  lemma CountsNamed(i: Rec, r: Rec)
    requires Counts(i, r)
    ensures IsIndex(i) && SameName(i, r) && !i.item.typ.BLOB_DATA?
  {
  }

  lemma NamedIsIndex(live: multiset<Rec>, x: multiset<Rec>, ns: byte, key: string, b: Blob, r: Rec)
    requires OnlyBlob(live, ns, key, Some(b)) && Extended(x, live) && r in x && OfName(r, ns, Truncated(key))
      && !r.item.typ.BLOB_DATA?
    ensures BlobOk(b) && r == IndexOf(ns, key, b) && IsIndex(r)
  {
    hide ChunkRecs, IndexOf, Joined, PartsOf;
    assert r in live;
    var i := PartIs(ns, key, b, r);
    IndexMeans(ns, key, b);
  }

  lemma NotMatched(live: multiset<Rec>, x: multiset<Rec>, loaded: multiset<Rec>, ns: byte, key: string, b: Blob, d: Rec)
    requires OnlyBlob(live, ns, key, Some(b)) && Extended(x, live) && loaded <= x && BlobOk(b)
      && d in ChunksOf(ns, key, b) && d !in loaded
    ensures !Matched(loaded, IndexOf(ns, key, b))
  {
    hide ChunkRecs, IndexOf, Joined, PartsOf, TotalSize, InFamily, OnlyBlob;
    var idx := IndexOf(ns, key, b);
    BlobMatches(live, ns, key, b);
    FamilyStays(x, live, idx);
    ChunkIsPartOf(ns, key, b, d);
    PartInFamily(ns, key, b, d);
    PartIsThere(live, ns, key, b, d);
    assert d in Family(live, idx);
    assert Family(loaded, idx) <= Family(x, idx) - {d};
    Subset(Family(loaded, idx), Family(live, idx) - {d});
  }

  lemma PartIsThere(live: multiset<Rec>, ns: byte, key: string, b: Blob, d: Rec)
    requires OnlyBlob(live, ns, key, Some(b)) && BlobOk(b) && d in PartsOf(ns, key, b)
    ensures d in live
  {
  }

  // Brings up a store that lost power right after the chunk n was written behind these records.
  method BootWritten(c: seq<FPage>, hashOf: Id -> nat, crcOf: seq<byte> -> nat, ghost x: multiset<Rec>,
                     ghost live: multiset<Rec>, ghost p: nat, ghost host: seq<Rec>, ghost n: Rec, ghost b: Blob)
    returns (again: Storage)
    requires Stable(c, x) && Recoverable(c, x) && GoesOn(x, live, hashOf) && Tidy(live)
      && OnlyBlob(live, n.item.ns, n.item.key, Some(b))
    requires p < |c| && InState(c[p], ACTIVE) && RecsOf(c[p]) == host + [n] && n.item.typ.BLOB_DATA?
      && EndsInItem(c[p].slots) && |n.item.key| <= MAX_KEY_LENGTH
    ensures again.Valid() && (again.Records() == live <==> !FirstIsIn(host, n.item, live))
    ensures FirstIsIn(host, n.item, live) ==> OnlyBlob(again.Records(), n.item.ns, n.item.key, None)
  {
    hide Storage.Valid, Live, Tidy, OnlyBlob, Extended, Identified, Sparse, Recoverable, Stable, Kept, LeftBy, Shadows,
      EndsInItem, RecsOf, GoesOn, Purged, Between, FirstIsIn;
    GoesOnMeans(x, live, hashOf);
    ghost var loaded;
    again, loaded := Boot(c, hashOf, crcOf, x, live);
    WrittenShadows(c, x, live, p, host, n);
    if FirstIsIn(host, n.item, live) {
      ShadowedIsGone(c, x, live, loaded, again.Records(), p, host, n, n.item.ns, n.item.key, b, hashOf);
    }
  }

  // A chunk goes to the current page, and then power fails. The store comes back with all records
  // there were if and only if the search for any chunk of the name on that page, before the write,
  // does not find one of them; if it does, the blob is gone.
  method WriteThenBoot(s: Storage, ns: byte, key: string, piece: seq<byte>, chunk: byte, ghost live: multiset<Rec>,
                       ghost b: Blob) returns (err: Error, first: Option<Item>, again: Storage, ghost r: Rec)
    requires s.Valid() && ns != NS_ANY && chunk != CHUNK_ANY && Tidy(live) && OnlyBlob(live, ns, key, Some(b))
    requires GoesOn(s.Records() + multiset{RecOf(ns, BLOB_DATA, key, Variable(piece), chunk)}, live, s.pm.hashOf)
    modifies s.pm.dev, s.pm.Objects()
    ensures s.Valid() && again.Valid() && (err == OK ==> s.pm.dev.pages in s.pm.dev.cuts)
    ensures err == OK && first.Some? ==>
      first.value == r.item && ChunkOf(r, RecOf(ns, BLOB_DATA, key, Variable(piece), chunk).item)
    ensures err == OK ==> (again.Records() == live <==> !(first.Some? && r in live))
    ensures err == OK && first.Some? && r in live ==> OnlyBlob(again.Records(), ns, key, None)
  {
    hide HashList.Valid, InOrder, RamsOk, PageManager.Wired, Live, Tidy, OnlyBlob, EndsInItem, RecsOf, NoPairWith,
      WriteVerdict, ItemsKept, AppendCut, ChunksApart, GoesOn, RecOf, Recoverable, Stable, Storage.CutsAppend,
      PageManager.HashListsOk;
    ghost var n := RecOf(ns, BLOB_DATA, key, Variable(piece), chunk);
    CurrentIs(s.pm.Rams(), s.pm.dev.pages, s.pm.pageList, s.pm.freeList, s.pm.seqNumber, s.pm.hashOf);
    ChunkType(ns, key, piece, chunk);
    var page := s.pm.pageList[|s.pm.pageList| - 1];
    ghost var host, x, st, nextFree :=
      RecsOf(s.pm.dev.pages[page]), s.Records() + multiset{n}, s.pm.Rams()[page].state, s.pm.Rams()[page].nextFree;
    first, r := SearchHost(s, page, ns, key, n.item.(key := Truncated(key)));
    again := s;
    err := s.WriteCurrent(ns, BLOB_DATA, key, Variable(piece), chunk, false);
    if err == OK {
      WrittenStable(s.pm.Rams(), s.pm.dev.pages, s.pm.pageList, s.pm.freeList, s.pm.seqNumber, s.pm.hashOf);
      VerdictFits(st, nextFree, key, piece);
      FitsKey(host, n.item, key);
      again := BootWritten(s.pm.dev.pages, s.pm.hashOf, s.crcOf, x, live, page, host, n, b);
    }
  }

  // What a store may hold when power fails and still be brought up.
  ghost predicate GoesOn(x: multiset<Rec>, live: multiset<Rec>, hashOf: Id -> nat) {
    Extended(x, live) && Identified(x) && Sparse(x, hashOf)
  }

  lemma GoesOnMeans(x: multiset<Rec>, live: multiset<Rec>, hashOf: Id -> nat)
    requires GoesOn(x, live, hashOf)
    ensures Extended(x, live) && Identified(x) && Sparse(x, hashOf) && Unique(x)
  {
  }

  lemma VerdictFits(st: PageState, nextFree: nat, key: string, piece: seq<byte>)
    requires WriteVerdict(st, nextFree, BLOB_DATA, key, Variable(piece)) == OK
    ensures |key| <= MAX_KEY_LENGTH && !st.FULL?
  {
  }

  lemma FitsKey(host: seq<Rec>, it: Item, key: string)
    requires |key| <= MAX_KEY_LENGTH && it.key == key
    ensures it.(key := Truncated(key)) == it
  {
  }

  lemma ChunkType(ns: byte, key: string, piece: seq<byte>, chunk: byte)
    ensures var it := RecOf(ns, BLOB_DATA, key, Variable(piece), chunk).item;
      it.typ.BLOB_DATA? && it.ns == ns && it.key == key
  {
  }

  lemma WrittenStable(rams: seq<Ram>, img: seq<FPage>, list: seq<nat>, free: seq<nat>, next: nat, hashOf: Id -> nat)
    requires InOrder(rams, img, list, free, next, hashOf)
    ensures Stable(img, Live(img)) && Recoverable(img, Live(img)) && list != [] && list[|list| - 1] < |img| == |rams|
    ensures rams[list[|list| - 1]].state.ACTIVE? ==> InState(img[list[|list| - 1]], ACTIVE)
  {
    hide RamOk, Live;
    InOrderIsStable(rams, img, list, free, next, hashOf);
    HeadersAre(rams, img, hashOf);
  }

  // The record that was shadowed is lost, and with it the blob.
  lemma ShadowedIsGone(c: seq<FPage>, x: multiset<Rec>, live: multiset<Rec>, loaded: multiset<Rec>, now: multiset<Rec>,
                       p: nat, host: seq<Rec>, n: Rec, ns: byte, key: string, b: Blob, hashOf: Id -> nat)
    requires Stable(c, x) && Recoverable(c, x) && GoesOn(x, live, hashOf) && OnlyBlob(live, ns, key, Some(b))
      && Purged(loaded, now) && loaded <= x
    requires (loaded == x <==> Kept(c, hashOf)) && LeftBy(c, x, loaded, hashOf)
    requires p < |c| && InState(c[p], ACTIVE) && RecsOf(c[p]) == host + [n] && n.item.typ.BLOB_DATA?
      && EndsInItem(c[p].slots)
    requires FirstIsIn(host, n.item, live) && n.item.ns == ns && n.item.key == key && |key| <= MAX_KEY_LENGTH
    ensures OnlyBlob(now, ns, key, None)
  {
    hide Stable, Recoverable, Kept, LeftBy, RecsOf, EndsInItem, Shadows, OnlyBlob, Purged, Extended, Identified, Sparse,
      Live;
    GoesOnMeans(x, live, hashOf);
    var d := host[FirstChunk(host, n.item)];
    ExtendedBase(x, live);
    assert multiset{d} <= x by {
      assert d in live && d in x;
    }
    LoadedIff(c, x, multiset{d}, loaded, hashOf);
    WrittenShadows(c, x, multiset{d}, p, host, n);
    NamedIsChunk(live, ns, key, b, d);
    BrokenIsGone(live, x, loaded, now, ns, key, b, d);
  }

  lemma NamedIsChunk(live: multiset<Rec>, ns: byte, key: string, b: Blob, d: Rec)
    requires OnlyBlob(live, ns, key, Some(b)) && d in live && OfName(d, ns, Truncated(key)) && d.item.typ.BLOB_DATA?
    ensures BlobOk(b) && d in ChunksOf(ns, key, b)
  {
  }

  // The search for any chunk of a name on one page.
  method SearchHost(s: Storage, page: nat, ns: byte, key: string, ghost it: Item)
    returns (first: Option<Item>, ghost r: Rec)
    requires s.Valid() && page < |s.pm.pages| && ns != NS_ANY && it.ns == ns && it.key == Truncated(key)
    ensures s.Valid() && s.pm.Rams() == old(s.pm.Rams()) && page < |s.pm.dev.pages|
    ensures var host := RecsOf(s.pm.dev.pages[page]);
      var k := FirstChunk(host, it);
      (first.Some? <==> k < |host|) && (k < |host| ==> r == host[k] && first == Some(r.item))
  {
    hide HashList.Valid, InOrder, RamsOk, PageManager.Wired, Live, RecsOf, FindVia, Quiet, RamOk, Whole, Boundary, Recs,
      PageManager.HashListsOk;
    ghost var rams, img := s.pm.Rams(), s.pm.dev.pages;
    InRange(rams, img, s.pm.pageList, s.pm.freeList, s.pm.seqNumber, s.pm.hashOf);
    ghost var host := RecsOf(img[page]);
    StartIsBoundary(img[page].slots);
    var err, index, item := s.pm.FindItemAt(page, ChunkQuery(ns, key, CHUNK_ANY), 0);
    first := if err == OK then item else None;
    r := HostSearched(rams, img, s.pm.pageList, s.pm.freeList, s.pm.seqNumber, s.pm.hashOf, page, ns, key, it, err,
      index, item);
  }

  lemma StartIsBoundary(s: seq<Slot>)
    ensures Boundary(s, 0)
  {
  }

  lemma HostSearched(rams: seq<Ram>, img: seq<FPage>, list: seq<nat>, free: seq<nat>, next: nat, hashOf: Id -> nat,
                     p: nat, ns: byte, key: string, it: Item, err: Error, index: nat, item: Option<Item>)
    returns (r: Rec)
    requires InOrder(rams, img, list, free, next, hashOf) && p < |img| && p < |rams| && ns != NS_ANY && it.ns == ns
      && it.key == Truncated(key)
    requires LiveState(rams[p].state) ==>
      Answers(err, index, item, img[p].slots, FindVia(img[p].slots, ChunkQuery(ns, key, CHUNK_ANY), hashOf, 0))
    requires !LiveState(rams[p].state) ==> err == NOT_FOUND
    ensures var host := RecsOf(img[p]);
      var k := FirstChunk(host, it);
      (err == OK <==> k < |host|) && (k < |host| ==> r == host[k] && item == Some(r.item))
  {
    hide RamOk, InOrder, Quiet, Recs, Whole, FindVia;
    r := Rec(it, []);
    if LiveState(rams[p].state) {
      LiveHeader(rams, img, list, free, next, hashOf, p);
      RecordPage(rams, img, list, free, next, hashOf, p);
      FindsFirstChunk(img[p].slots, rams[p].top, hashOf, ns, key, it);
      if err == OK {
        HeadOfWhole(img[p].slots, rams[p].top, index);
        r := RecAt(img[p].slots, index);
      }
    } else {
      NoHeaderNoRecs(rams, img, list, free, next, hashOf, p);
    }
  }
}
