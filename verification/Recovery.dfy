// Why bringing the store up loses no record: each step of loading, and each place where power can
// fail again while loading, leads from a recoverable image to a recoverable image.
module Recovery {
  import opened NvsTypes
  import opened PageImage
  import opened PageRam
  import opened PageErases
  import opened PageLoad
  import opened PageTwins
  import opened PageScan
  import opened FlashDevice
  import opened PageCuts
  import opened StoreImage
  import opened PageLists

  // ---------------------------------------------------------------- records of a page among all

  lemma Cancel(a: multiset<Rec>, b: multiset<Rec>, r: Rec)
    requires a + multiset{r} == b + multiset{r}
    ensures a == b
  {
    forall x ensures a[x] == b[x] {
      assert (a + multiset{r})[x] == (b + multiset{r})[x];
    }
  }

  // What is left of `live` and the old record once the page of one of them is set aside.
  lemma OutsideOld(rest: multiset<Rec>, q: multiset<Rec>, live: multiset<Rec>, o: Rec, p: multiset<Rec>)
    requires rest + q == live + multiset{o} && o in q && p <= rest
    ensures p <= live
  {
    Cancel(rest + (q - multiset{o}), live, o);
  }

  lemma NoTwinHere(recs: seq<Rec>, live: multiset<Rec>)
    requires Unique(live) && multiset(recs) <= live
    ensures WithoutTwin(recs) == recs
  {
    var k := TwinPlace(recs, 0);
    if k < |recs| {
      assert recs[k] in multiset(recs) && recs[|recs| - 1] in multiset(recs);
      TwiceCounted(recs, k, |recs| - 1);
    }
  }

  // The record that the last one replaces is the only one that does not count.
  lemma {:induction false} TwinIs(recs: seq<Rec>, rest: multiset<Rec>, live: multiset<Rec>, o: Rec)
    requires Unique(live) && rest + multiset(recs) == live + multiset{o} && recs != [] && Twins(recs[|recs| - 1], o)
    requires recs[|recs| - 1] in live && o in recs[..|recs| - 1]
    ensures TwinPlace(recs, 0) < |recs| && recs[TwinPlace(recs, 0)] == o && rest + multiset(WithoutTwin(recs)) == live
  {
    hide TwinPlace, WithoutTwin, Unique, Twins;
    var n := recs[|recs| - 1];
    TwinThere(recs, o);
    var a, x, b, m := TwinSplit(recs);
    assert recs[|recs| - 1] == m;
    assert multiset(recs) == multiset(a + b + [n]) + multiset{x};
    OldIs(rest + multiset(a + b + [n]), live, o, n, x);
    Cancel(rest + multiset(a + b + [n]), live, o);
  }

  lemma {:induction false} TwinThere(recs: seq<Rec>, o: Rec)
    requires recs != [] && Twins(recs[|recs| - 1], o) && o in recs[..|recs| - 1]
    ensures TwinPlace(recs, 0) < |recs|
  {
    var i :| 0 <= i < |recs| - 1 && recs[i] == o;
  }

  lemma OldIs(others: multiset<Rec>, live: multiset<Rec>, o: Rec, n: Rec, x: Rec)
    requires Unique(live) && others + multiset{x} == live + multiset{o} && n in others && n in live && Twins(n, x)
    ensures x == o
  {
    assert (others + multiset{x})[x] == (live + multiset{o})[x];
    if x in live {
      assert x == n && live[n] == 1;
      assert (others + multiset{x})[n] == others[n] + 1;
    }
  }

  lemma {:induction false} SubSameSize(a: multiset<Rec>, b: multiset<Rec>)
    requires a <= b && |a| == |b|
    ensures a == b
  {
    assert b == a + (b - a);
    assert |b - a| == 0;
  }

  // ---------------------------------------------------------------- loading one page

  lemma OnePageSameView(img: seq<FPage>, c: seq<FPage>, p: nat)
    requires Sound(img) && OnlyPage(img, c, p) && SameHeader(c[p].hdr, img[p].hdr) && RecsOf(c[p]) == RecsOf(img[p])
      && Loadable(c[p])
    ensures SameView(img, c)
  {
  }

  lemma SameRecsKeep(img: seq<FPage>, c: seq<FPage>, p: nat, live: multiset<Rec>)
    requires Recoverable(img, live) && OnlyPage(img, c, p) && c[p].hdr == img[p].hdr && RecsOf(c[p]) == RecsOf(img[p])
      && Loadable(c[p])
    ensures Recoverable(c, live) && (ChunksApart(img) ==> ChunksApart(c))
  {
    hide Recoverable, RecsOf, Loadable, Sound, ChunksApart, SameView;
    RecoverableIsSound(img, live);
    OnePageSameView(img, c, p);
    SameViewRecoverable(img, c, live);
    SameViewSound(img, c);
  }

  // Copies may go: they are made anew.
  lemma CopyLoaded(img: seq<FPage>, c: seq<FPage>, e: nat, t: nat, live: multiset<Rec>)
    requires Copying(img, live, e, t) && OnlyPage(img, c, t) && c[t].hdr == img[t].hdr && Loadable(c[t])
    requires Within(RecsOf(c[t]), RecsOf(img[t]))
    ensures Copying(c, live, e, t)
  {
    hide RecsOf, Loadable, Within, Live;
    OnePageSound(img, c, t);
    WithinLess(RecsOf(c[t]), RecsOf(img[t]));
    assert c[t := ErasedPage()] == img[t := ErasedPage()];
    forall x | x in RecsOf(c[t]) ensures x in RecsOf(c[e]) {
      assert x in multiset(RecsOf(c[t]));
      assert x in multiset(RecsOf(img[t]));
    }
  }

  lemma {:induction false} WithinPairs(r: seq<Rec>, recs: seq<Rec>)
    requires Within(r, recs) && NoChunkPairs(recs)
    ensures NoChunkPairs(r)
    decreases |recs|
  {
    if recs != [] {
      var front := recs[..|recs| - 1];
      assert forall i :: 0 <= i < |front| ==> front[i] == recs[i];
      if r != [] && r[|r| - 1] == recs[|recs| - 1] && Within(r[..|r| - 1], front) {
        var less := r[..|r| - 1];
        WithinPairs(less, front);
        WithinLess(less, front);
        forall i, j | 0 <= i < j < |r| ensures !ChunkPair(r[j], r[i]) {
          if j < |less| {
            assert r[i] == less[i] && r[j] == less[j];
          } else {
            assert less[i] in multiset(less);
            assert less[i] in multiset(front);
            var k :| 0 <= k < |front| && front[k] == less[i];
            assert !ChunkPair(recs[|recs| - 1], recs[k]);
          }
        }
      } else {
        WithinPairs(r, front);
      }
    }
  }

  lemma FewerApart(img: seq<FPage>, c: seq<FPage>, p: nat)
    requires OnlyPage(img, c, p) && Within(RecsOf(c[p]), RecsOf(img[p])) && ChunksApart(img)
    ensures ChunksApart(c)
  {
    hide RecsOf, Within, NoChunkPairs;
    WithinPairs(RecsOf(c[p]), RecsOf(img[p]));
    assert forall q :: 0 <= q < |c| && q != p ==> c[q] == img[q];
  }

  // What a page that is loaded holds of the records.
  lemma PageShare(img: seq<FPage>, live: multiset<Rec>, p: nat, q: nat, o: Rec)
    requires p < |img| && q < |img| && p != q && o in RecsOf(img[q]) && Live(img) == live + multiset{o}
    ensures multiset(RecsOf(img[p])) <= live
  {
    hide RecsOf, Live, Rest;
    LiveAround(img, q);
    RestAround(img, q, p);
    OutsideOld(Rest(img, q), multiset(RecsOf(img[q])), live, o, multiset(RecsOf(img[p])));
  }

  // ---------------------------------------------------------------- what loading leaves of all records

  // Loading left these of the records of page p: what the store held, less what was dropped.
  lemma LoadedStable(img: seq<FPage>, c: seq<FPage>, p: nat, live: multiset<Rec>, w: seq<Rec>)
    requires Sound(img) && NoneFreeing(img) && Spare(img) && OnlyPage(img, c, p) && c[p].hdr == img[p].hdr
      && Loadable(c[p])
    requires Rest(img, p) + multiset(w) == live && multiset(RecsOf(c[p])) <= multiset(w)
    ensures Stable(c, Live(c)) && Live(c) <= live && (Live(c) == live <==> |RecsOf(c[p])| == |w|)
    ensures Live(c) == live - multiset(w) + multiset(RecsOf(c[p]))
  {
    hide RecsOf, Live, Rest, Sound, Loadable, NoneFreeing, Spare;
    OnePageSound(img, c, p);
    LiveChange(img, c, p);
    Shrunk(Rest(img, p), multiset(RecsOf(c[p])), multiset(w));
    assert |multiset(RecsOf(c[p]))| == |RecsOf(c[p])| && |multiset(w)| == |w|;
  }

  lemma Shrunk(rest: multiset<Rec>, l: multiset<Rec>, w: multiset<Rec>)
    requires l <= w
    ensures rest + l <= rest + w && (rest + l == rest + w <==> |l| == |w|)
  {
    if |l| == |w| {
      SubSameSize(l, w);
    }
    if rest + l == rest + w {
      assert |rest + l| == |rest| + |l| && |rest + w| == |rest| + |w|;
    }
  }

  lemma LoadedDoubled(img: seq<FPage>, c: seq<FPage>, p: nat, q: nat, o: Rec, live: multiset<Rec>)
    returns (kept: multiset<Rec>)
    requires p < |img| && q < |img| && p != q && Doubled(img, live, p, q, o)
    requires OnlyPage(img, c, p) && c[p].hdr == img[p].hdr && Loadable(c[p])
      && multiset(RecsOf(c[p])) <= multiset(RecsOf(img[p]))
    requires RecsOf(c[p]) != [] && RecsOf(c[p])[|RecsOf(c[p])| - 1] == RecsOf(img[p])[|RecsOf(img[p])| - 1]
    ensures Doubled(c, kept, p, q, o) && kept <= live && (kept == live <==> |RecsOf(c[p])| == |RecsOf(img[p])|)
    ensures kept == live - multiset(RecsOf(img[p])) + multiset(RecsOf(c[p]))
  {
    hide RecsOf, Live, Rest, Sound, Loadable, NoneFreeing, Spare;
    var l, w := multiset(RecsOf(c[p])), multiset(RecsOf(img[p]));
    PageShare(img, live, p, q, o);
    kept := live - w + l;
    OnePageSound(img, c, p);
    LiveChange(img, c, p);
    assert live == (live - w) + w;
    Shrunk(live - w, l, w);
    assert |l| == |RecsOf(c[p])| && |w| == |RecsOf(img[p])|;
    assert Rest(img, p) + w == (live - w) + multiset{o} + w;
    CancelAll(Rest(img, p), (live - w) + multiset{o}, w);
    var n := RecsOf(c[p])[|RecsOf(c[p])| - 1];
    assert n in l;
    assert c[q] == img[q];
  }

  // The records once the page in use has been loaded.
  ghost function LeftOf(live: multiset<Rec>, fp: FPage, hashOf: Id -> nat): multiset<Rec>
    requires fp.hdr.Header?
  {
    live - multiset(WithoutTwin(RecsOf(fp))) + multiset(LoadedRecsOf(fp, hashOf))
  }

  // Without a move to be finished, loading leaves exactly what it leaves of the page in use.
  ghost predicate LeftBy(img: seq<FPage>, live: multiset<Rec>, kept: multiset<Rec>, hashOf: Id -> nat) {
    NoneFreeing(img) ==> forall p :: 0 <= p < |img| && InState(img[p], ACTIVE) ==> kept == LeftOf(live, img[p], hashOf)
  }

  // The page in use has been loaded: what is recoverable now are the records less those dropped,
  // and none was dropped exactly if the page comes through.
  lemma ActiveLoaded(img: seq<FPage>, c: seq<FPage>, p: nat, live: multiset<Rec>, hashOf: Id -> nat)
    returns (kept: multiset<Rec>)
    requires Recoverable(img, live) && Identified(live) && p < |img| && InState(img[p], ACTIVE)
    requires OnlyPage(img, c, p) && c[p].hdr == img[p].hdr && Loadable(c[p])
      && RecsOf(c[p]) == LoadedRecsOf(img[p], hashOf)
    ensures Recoverable(c, kept) && kept <= live && (kept == live <==> PageKept(img, p, hashOf))
    ensures NoneFreeing(img) ==> kept == LeftOf(live, img[p], hashOf)
  {
    hide Recs, EndsInItem, Live, Rest, Sound, Loadable, Spare, LoadedRecs, KeptRecs, Within, Part, Identified, Unique,
      NoStrays, WithoutTwin, TwinPlace;
    var recs, tail := RecsOf(img[p]), EndsInItem(img[p].slots);
    LoadedWithoutTwinIff(recs, tail, hashOf);
    LoadedWithin(recs, tail, hashOf);
    WithinLess(RecsOf(c[p]), recs);
    if e, t :| 0 <= e < |img| && 0 <= t < |img| && Copying(img, live, e, t) {
      CopyingOn(img, live, e, t, p);
      CopyLoaded(img, c, e, t, live);
      kept := live;
    } else if q, o :| 0 <= q < |img| && Doubled(img, live, p, q, o) {
      kept := ActiveDoubled(img, c, p, q, o, live, hashOf);
    } else {
      StableActive(img, live, p);
      LiveAround(img, p);
      IdentifiedIsUnique(live);
      NoTwinHere(recs, live);
      LoadedStable(img, c, p, live, recs);
      kept := Live(c);
    }
  }

  lemma IdentifiedIsUnique(live: multiset<Rec>)
    requires Identified(live)
    ensures Unique(live)
  {
  }

  // A page in use without a move or a doubled record: nothing is going on.
  lemma StableActive(img: seq<FPage>, live: multiset<Rec>, p: nat)
    requires Recoverable(img, live) && p < |img| && InState(img[p], ACTIVE)
    requires !exists e, t :: 0 <= e < |img| && 0 <= t < |img| && Copying(img, live, e, t)
    requires !exists q, o :: 0 <= q < |img| && Doubled(img, live, p, q, o)
    ensures Stable(img, live)
  {
    hide RecsOf, Loadable, Live, Rest, Spare, Part, Doubled;
    forall a: nat, q: nat, o | a < |img| && q < |img| && Doubled(img, live, a, q, o) ensures a == p {
      DoubledOn(img, live, a, q, o, p);
    }
  }

  lemma DoubledOn(img: seq<FPage>, live: multiset<Rec>, a: nat, q: nat, o: Rec, p: nat)
    requires Doubled(img, live, a, q, o) && p < |img| && InState(img[p], ACTIVE)
    ensures a == p
  {
    hide RecsOf, Loadable, Live, Replaces;
  }

  // Both records are on one page.
  lemma TwinHere(img: seq<FPage>, p: nat, o: Rec, live: multiset<Rec>)
    requires p < |img| && Doubled(img, live, p, p, o) && Unique(live)
    ensures var recs := RecsOf(img[p]);
      TwinPlace(recs, 0) < |recs| && recs[TwinPlace(recs, 0)] == o && Rest(img, p) + multiset(WithoutTwin(recs)) == live
  {
    hide Recs, Live, Rest, Sound, Spare, Unique, TwinPlace, WithoutTwin, Twins, NoneFreeing;
    LiveAround(img, p);
    TwinIs(RecsOf(img[p]), Rest(img, p), live, o);
  }


  lemma ActiveDoubled(img: seq<FPage>, c: seq<FPage>, p: nat, q: nat, o: Rec, live: multiset<Rec>, hashOf: Id -> nat)
    returns (kept: multiset<Rec>)
    requires p < |img| && q < |img| && Doubled(img, live, p, q, o) && Identified(live)
    requires OnlyPage(img, c, p) && c[p].hdr == img[p].hdr && Loadable(c[p])
      && RecsOf(c[p]) == LoadedRecsOf(img[p], hashOf)
    ensures Recoverable(c, kept) && kept <= live
      && (kept == live <==> KeptRecs(RecsOf(img[p]), EndsInItem(img[p].slots), hashOf))
    ensures NoneFreeing(img) && kept == LeftOf(live, img[p], hashOf)
  {
    hide Recs, EndsInItem, Live, Rest, Sound, Loadable, Spare, LoadedRecs, KeptRecs, NoStrays, Unique, TwinPlace,
      WithoutTwin, Twins, NoneFreeing;
    var recs, tail := RecsOf(img[p]), EndsInItem(img[p].slots);
    LoadedWithoutTwinIff(recs, tail, hashOf);
    LoadedEnd(recs, tail, hashOf);
    if p == q {
      TwinHere(img, p, o, live);
      LoadedStable(img, c, p, live, WithoutTwin(recs));
      kept := Live(c);
    } else {
      PageShare(img, live, p, q, o);
      NoTwinHere(recs, live);
      kept := LoadedDoubled(img, c, p, q, o, live);
    }
  }

  // Loading a page, or losing power while it is loaded, keeps the store recoverable if it keeps the
  // page in use.
  lemma LoadKeeps(img: seq<FPage>, c: seq<FPage>, p: nat, live: multiset<Rec>, hashOf: Id -> nat)
    requires Recoverable(img, live) && Identified(live) && LoadCut(img, c, p, hashOf)
    requires InState(img[p], ACTIVE) ==> PageKept(img, p, hashOf)
    ensures Recoverable(c, live) && (ChunksApart(img) ==> ChunksApart(c))
  {
    hide Recs, EndsInItem, Live, Rest, Sound, Loadable, Spare, LoadedRecs, KeptRecs, StageOf, Identified, Recoverable,
      ChunksApart;
    var recs, tail := RecsOf(img[p]), EndsInItem(img[p].slots);
    if !InState(img[p], ACTIVE) {
      StageIsWhole(recs, RecsOf(c[p]), hashOf);
      SameRecsKeep(img, c, p, live);
    } else if e, t :| 0 <= e < |img| && 0 <= t < |img| && Copying(img, live, e, t) {
      CutWithin(img, c, p, hashOf);
      CopyingOn(img, live, e, t, p);
      CopyLoaded(img, c, e, t, live);
      CopyingIsRecoverable(c, live, e, t);
      if ChunksApart(img) {
        FewerApart(img, c, p);
      }
    } else {
      NoMoveHere(img, live, p, hashOf);
      LoadedWithoutTwinIff(recs, tail, hashOf);
      if RecsOf(c[p]) != LoadedRecs(recs, tail, hashOf) {
        StageWithoutTwin(recs, RecsOf(c[p]), tail, true, hashOf);
      }
      if RecsOf(c[p]) == recs {
        SameRecsKeep(img, c, p, live);
      } else {
        TwinDropped(img, c, p, live);
      }
    }
  }

  lemma StageIsWhole(recs: seq<Rec>, r: seq<Rec>, hashOf: Id -> nat)
    ensures StageOf(recs, r, false, hashOf) ==> r == recs
  {
    assert forall k: nat :: k <= |recs| ==> recs[..k] + recs[k..] == recs;
  }

  lemma {:induction false} StageWithin(recs: seq<Rec>, r: seq<Rec>, hashOf: Id -> nat)
    requires StageOf(recs, r, true, hashOf)
    ensures Within(r, recs)
  {
    hide Deduped, Within;
    var k: nat :| k <= |recs| && r == Checked(recs[..k], true, hashOf) + recs[k..];
    var front, back := recs[..k], recs[k..];
    DedupedWithin(front, hashOf);
    WithinMore(Deduped(front, hashOf), front, back);
    assert recs == front + back;
  }

  lemma CutWithin(img: seq<FPage>, c: seq<FPage>, p: nat, hashOf: Id -> nat)
    requires LoadCut(img, c, p, hashOf) && InState(img[p], ACTIVE)
    ensures Within(RecsOf(c[p]), RecsOf(img[p]))
  {
    hide Recs, EndsInItem, LoadedRecs, StageOf, Within, Loadable;
    LoadedWithin(RecsOf(img[p]), EndsInItem(img[p].slots), hashOf);
    if RecsOf(c[p]) != LoadedRecsOf(img[p], hashOf) {
      StageWithin(RecsOf(img[p]), RecsOf(c[p]), hashOf);
    }
  }

  lemma CopyingOn(img: seq<FPage>, live: multiset<Rec>, e: nat, t: nat, p: nat)
    requires Copying(img, live, e, t) && p < |img| && InState(img[p], ACTIVE)
    ensures t == p
  {
    hide Recs, Loadable, Live, Part;
  }

  lemma CopyingIsRecoverable(img: seq<FPage>, live: multiset<Rec>, e: nat, t: nat)
    requires e < |img| && t < |img| && Copying(img, live, e, t)
    ensures Recoverable(img, live)
  {
  }

  lemma NoMoveHere(img: seq<FPage>, live: multiset<Rec>, p: nat, hashOf: Id -> nat)
    requires Recoverable(img, live) && p < |img| && InState(img[p], ACTIVE) && PageKept(img, p, hashOf)
    requires !exists e, t :: 0 <= e < |img| && 0 <= t < |img| && Copying(img, live, e, t)
    ensures KeptRecs(RecsOf(img[p]), EndsInItem(img[p].slots), hashOf)
    ensures Stable(img, live) || exists q, o :: 0 <= q < |img| && Doubled(img, live, p, q, o)
  {
    hide RecsOf, Loadable, Live, Rest, Spare, Part, Replaces, KeptRecs, EndsInItem;
    if !exists q, o :: 0 <= q < |img| && Doubled(img, live, p, q, o) {
      StableActive(img, live, p);
    }
  }

  // All that was dropped is the old record.
  lemma TwinDropped(img: seq<FPage>, c: seq<FPage>, p: nat, live: multiset<Rec>)
    requires Identified(live) && p < |img| && OnlyPage(img, c, p) && c[p].hdr == img[p].hdr && Loadable(c[p])
    requires Stable(img, live) || exists q, o :: 0 <= q < |img| && Doubled(img, live, p, q, o)
    requires RecsOf(c[p]) == WithoutTwin(RecsOf(img[p])) != RecsOf(img[p])
    ensures Recoverable(c, live) && (ChunksApart(img) ==> ChunksApart(c))
  {
    hide RecsOf, Live, Rest, Sound, Loadable, Spare, NoStrays, Unique, NoneFreeing, ChunksApart, TwinPlace, WithoutTwin;
    var recs := RecsOf(img[p]);
    LiveAround(img, p);
    if Stable(img, live) {
      NoTwinHere(recs, live);
    } else {
      var q, o :| 0 <= q < |img| && Doubled(img, live, p, q, o);
      if q != p {
        PageShare(img, live, p, q, o);
        NoTwinHere(recs, live);
      } else {
        OldDroppedHere(img, c, p, live, o);
      }
    }
  }

  lemma OldDroppedHere(img: seq<FPage>, c: seq<FPage>, p: nat, live: multiset<Rec>, o: Rec)
    requires Unique(live) && p < |img| && OnlyPage(img, c, p) && c[p].hdr == img[p].hdr && Loadable(c[p])
    requires Doubled(img, live, p, p, o) && RecsOf(c[p]) == WithoutTwin(RecsOf(img[p]))
    ensures Stable(c, live) && (ChunksApart(img) ==> ChunksApart(c))
  {
    hide RecsOf, Live, Rest, Sound, Loadable, Spare, Unique, NoneFreeing, ChunksApart, TwinPlace;
    var recs := RecsOf(img[p]);
    LiveAround(img, p);
    TwinIs(recs, Rest(img, p), live, o);
    var k := TwinPlace(recs, 0);
    assert recs == recs[..k] + [o] + recs[k + 1..];
    OldDropped(img, c, p, live, p, o, recs[..k], recs[k + 1..]);
  }

  // ---------------------------------------------------------------- a simple condition under which nothing is lost

  lemma NoPairsNoShadow(recs: seq<Rec>)
    requires NoChunkPairs(recs)
    ensures !ChunkShadowed(recs)
  {
    if recs != [] && recs[|recs| - 1].item.typ.BLOB_DATA? {
      var k := FirstChunk(recs, recs[|recs| - 1].item);
      assert k < |recs| - 1 ==> ChunkPair(recs[|recs| - 1], recs[k]);
    }
  }

  lemma {:induction false} WithoutTwinWithin(recs: seq<Rec>)
    ensures Within(WithoutTwin(recs), recs)
  {
    hide Within;
    WithinSelf(recs);
    var k := TwinPlace(recs, 0);
    if k < |recs| {
      WithoutIsWithin(recs[..k], recs[k], recs[k + 1..]);
      assert recs == recs[..k] + [recs[k]] + recs[k + 1..];
    }
  }

  lemma SparseRecsKept(recs: seq<Rec>, rest: multiset<Rec>, live: multiset<Rec>, tail: bool, hashOf: Id -> nat)
    requires Sparse(live, hashOf) && NoChunkPairs(recs) && rest + multiset(WithoutTwin(recs)) <= live
    ensures KeptRecs(recs, tail, hashOf)
  {
    hide Within, NoChunkPairs, ChunkShadowed, TwinPlace;
    WithoutTwinWithin(recs);
    WithinPairs(WithoutTwin(recs), recs);
    NoPairsNoShadow(WithoutTwin(recs));
    SparseIsDistinct(WithoutTwin(recs), live, hashOf);
  }

  lemma SparseIsUnique(live: multiset<Rec>, hashOf: Id -> nat)
    requires Sparse(live, hashOf)
    ensures Unique(live)
  {
    forall r, q | r in live && q in live && IdOf(r.item) == IdOf(q.item) ensures r == q {
      assert HashOfRec(r, hashOf) == HashOfRec(q, hashOf);
    }
  }

  // If no two records share a hash and no page holds two chunks of a blob, loading loses nothing.
  lemma ApartIsKept(img: seq<FPage>, live: multiset<Rec>, hashOf: Id -> nat)
    requires Recoverable(img, live) && Sparse(live, hashOf) && ChunksApart(img)
    ensures Kept(img, hashOf)
  {
    hide RecsOf, EndsInItem, Live, Rest, Sound, Loadable, Spare, KeptRecs, Sparse, NoChunkPairs, WithoutTwin, TwinPlace;
    SparseIsUnique(live, hashOf);
    forall p | 0 <= p < |img| && InState(img[p], ACTIVE) ensures PageKept(img, p, hashOf) {
      if !exists e :: 0 <= e < |img| && InState(img[e], FREEING) {
        var rest := ActiveShare(img, live, p);
        SparseRecsKept(RecsOf(img[p]), rest, live, EndsInItem(img[p].slots), hashOf);
      }
    }
  }

  // Without a move going on the page in use holds only live records, but for the one replaced.
  lemma ActiveShare(img: seq<FPage>, live: multiset<Rec>, p: nat) returns (rest: multiset<Rec>)
    requires Recoverable(img, live) && Unique(live) && p < |img| && InState(img[p], ACTIVE)
    requires !exists e :: 0 <= e < |img| && InState(img[e], FREEING)
    ensures rest + multiset(WithoutTwin(RecsOf(img[p]))) <= live
  {
    hide RecsOf, Live, Rest, Loadable, Spare, Unique, TwinPlace;
    var recs := RecsOf(img[p]);
    LiveAround(img, p);
    rest := multiset{};
    if q, o :| 0 <= q < |img| && Doubled(img, live, p, q, o) {
      if q != p {
        PageShare(img, live, p, q, o);
        NoTwinHere(recs, live);
      } else {
        TwinIs(recs, Rest(img, p), live, o);
        rest := Rest(img, p);
      }
    } else {
      StableActive(img, live, p);
      NoTwinHere(recs, live);
    }
  }

  // Once the old record is gone the store is stable again.
  lemma OldDropped(img: seq<FPage>, c: seq<FPage>, a: nat, live: multiset<Rec>, q: nat, o: Rec, before: seq<Rec>,
                   after: seq<Rec>)
    requires a < |img| && q < |img| && Doubled(img, live, a, q, o)
    requires OnlyPage(img, c, q) && c[q].hdr == img[q].hdr && Loadable(c[q])
    requires RecsOf(img[q]) == before + [o] + after && RecsOf(c[q]) == before + after
    ensures Stable(c, live) && (ChunksApart(img) ==> ChunksApart(c))
  {
    hide RecsOf, Sound, Live, Rest, NoneFreeing, Spare, Loadable, NoChunkPairs;
    LiveChange(img, c, q);
    assert multiset(before + [o] + after) == multiset(before + after) + multiset{o};
    Cancel(Live(c), live, o);
    OnePageSound(img, c, q);
    if ChunksApart(img) {
      PairsWithout(before, o, after);
    }
  }

  lemma PairsWithout(a: seq<Rec>, o: Rec, b: seq<Rec>)
    requires NoChunkPairs(a + [o] + b)
    ensures NoChunkPairs(a + b)
  {
    var r, s := a + b, a + [o] + b;
    assert forall i :: 0 <= i < |r| ==> r[i] == s[if i < |a| then i else i + 1];
  }

  // A page with other records but the same header.
  lemma OnePageSound(img: seq<FPage>, c: seq<FPage>, p: nat)
    requires Sound(img) && OnlyPage(img, c, p) && c[p].hdr == img[p].hdr && Loadable(c[p])
    ensures Sound(c)
    ensures NoneFreeing(img) ==> NoneFreeing(c)
    ensures Spare(img) ==> Spare(c)
    ensures ChunksApart(img) && NoChunkPairs(RecsOf(c[p])) ==> ChunksApart(c)
  {
    hide Loadable, RecsOf, NoChunkPairs;
    assert forall q :: 0 <= q < |img| ==> c[q].hdr == img[q].hdr;
    if Spare(img) {
      var q :| 0 <= q < |img| && !img[q].hdr.Header?;
      assert !c[q].hdr.Header?;
    }
  }

  // ---------------------------------------------------------------- the steps of recovery after loading

  // Erasing a page that has no records.
  lemma EraseFree(img: seq<FPage>, c: seq<FPage>, p: nat, live: multiset<Rec>)
    requires Recoverable(img, live) && p < |img| && !img[p].hdr.Header? && c == img[p := ErasedPage()]
    ensures Recoverable(c, live) && (ChunksApart(img) ==> ChunksApart(c))
  {
    RecoverableIsSound(img, live);
    hide Recoverable, Sound, Ordered, ChunksApart, NoChunkPairs;
    assert Loadable(c[p]);
    OnePageSameView(img, c, p);
    SameViewRecoverable(img, c, live);
    SameViewSound(img, c);
  }

  lemma {:induction false} EraseCutRecs(st: PageState, s: seq<Slot>, c: seq<Slot>, nf: nat, i: nat)
    requires SoundAt(st, s, nf) && EraseCut(s, c, nf, i) && i < |s| && Whole(s, i)
    ensures SoundAt(st, c, nf)
    ensures Recs(c) == Recs(s) || Recs(c) == RecsIn(s, 0, i) + RecsIn(s, i + 1, |s|)
    ensures Recs(s) == RecsIn(s, 0, i) + [RecAt(s, i)] + RecsIn(s, i + 1, |s|)
  {
    EraseCutIsLoose(s, c, nf, i);
    RecsAround(s, i);
  }

  // Erasing the old record on a page of its own.
  lemma EraseOld(img: seq<FPage>, c: seq<FPage>, q: nat, nf: nat, i: nat, a: nat, live: multiset<Rec>)
    requires a < |img| && q < |img| && |img[q].slots| == ENTRY_COUNT && i < ENTRY_COUNT && Whole(img[q].slots, i)
    requires img[q].hdr.Header? && SoundAt(img[q].hdr.st, img[q].slots, nf)
    requires Doubled(img, live, a, q, RecAt(img[q].slots, i))
    requires ItemEraseCut(img, c, q, nf, i)
    ensures Recoverable(c, live) && (ChunksApart(img) ==> ChunksApart(c))
  {
    hide Recs, RecsIn, Sound, ChunksApart, NoChunkPairs, SoundAt, EraseCut, Loadable, Live, Rest, Whole;
    EraseCutRecs(img[q].hdr.st, img[q].slots, c[q].slots, nf, i);
    SoundIsLoadable(img, c, q, nf);
    if Recs(c[q].slots) == Recs(img[q].slots) {
      OnePageSameView(img, c, q);
      SameViewRecoverable(img, c, live);
      SameViewSound(img, c);
    } else {
      OldDropped(img, c, a, live, q, RecAt(img[q].slots, i), RecsIn(img[q].slots, 0, i),
        RecsIn(img[q].slots, i + 1, |img[q].slots|));
    }
  }

  lemma SoundIsLoadable(img: seq<FPage>, c: seq<FPage>, q: nat, nf: nat)
    requires Sound(img) && OnlyPage(img, c, q) && c[q].hdr == img[q].hdr && c[q].hdr.Header?
      && SoundAt(c[q].hdr.st, c[q].slots, nf)
    ensures Loadable(c[q])
  {
    assert Loadable(img[q]);
  }

  // Giving up a half-filled copy.
  lemma EraseTarget(img: seq<FPage>, c: seq<FPage>, e: nat, t: nat, live: multiset<Rec>)
    requires Copying(img, live, e, t) && c == img[t := ErasedPage()]
    ensures Freeing(c, live, e) && (ChunksApart(img) ==> ChunksApart(c))
  {
    hide RecsOf, Loadable, NoChunkPairs, Live;
    ErasedHasNone();
    assert Loadable(ErasedPage()) && NoChunkPairs([]) by {
      ErasedIsFine();
    }
    assert !c[t].hdr.Header?;
  }

  lemma ErasedIsFine()
    ensures Loadable(ErasedPage()) && NoChunkPairs([])
  {
  }

  // Copying, cut short or not.
  lemma CopyKeeps(img: seq<FPage>, c: seq<FPage>, e: nat, t: nat, n: nat, live: multiset<Rec>)
    requires Freeing(img, live, e) && t < |img| && img[t].hdr.NoHeader?
    requires forall q :: 0 <= q < |img| && img[q].hdr.Header? ==> img[q].hdr.seqNo < n
    requires CopyCut(img, c, t, n, RecsOf(img[e]))
    ensures c[t].hdr.Header? ==> Copying(c, live, e, t)
    ensures Recoverable(c, live) && (ChunksApart(img) ==> ChunksApart(c))
  {
    hide Recs, NoChunkPairs, Loose, Live;
    CutIsLoadable(img, c, t, n, RecsOf(img[e]));
    if c[t].hdr.Header? {
      LiveChange(img, c, t);
      TargetSound(img, c, t, n);
      assert c[t := ErasedPage()] == img[t := ErasedPage()];
      assert c[e] == img[e];
      PrefixPairs(RecsOf(c[t]), RecsOf(c[e]));
      PrefixIsPart(RecsOf(c[t]), RecsOf(c[e]));
      assert Copying(c, live, e, t);
    } else {
      OnePageSameView(img, c, t);
      SameViewRecoverable(img, c, live);
      SameViewSound(img, c);
    }
  }

  lemma PrefixIsPart(r: seq<Rec>, e: seq<Rec>)
    requires r <= e
    ensures Part(r, e)
  {
  }

  lemma PrefixPairs(r: seq<Rec>, e: seq<Rec>)
    requires r <= e
    ensures NoChunkPairs(e) ==> NoChunkPairs(r)
  {
  }

  lemma CutIsLoadable(img: seq<FPage>, c: seq<FPage>, t: nat, n: nat, recs: seq<Rec>)
    requires CopyCut(img, c, t, n, recs)
    ensures Loadable(c[t])
  {
    if c[t].hdr.Header? {
      var nf: nat :| Loose(c[t].slots, nf);
      assert SoundAt(c[t].hdr.st, c[t].slots, nf);
    }
  }

  lemma TargetSound(img: seq<FPage>, c: seq<FPage>, t: nat, n: nat)
    requires Sound(img) && NoneActive(img) && OnlyPage(img, c, t) && !img[t].hdr.Header?
      && c[t].hdr == Header(ACTIVE, n) && Loadable(c[t])
    requires forall q :: 0 <= q < |img| && img[q].hdr.Header? ==> img[q].hdr.seqNo < n
    ensures Sound(c)
  {
    hide Loadable;
    assert forall q :: 0 <= q < |img| && q != t ==> c[q] == img[q];
  }

  // Once everything has been copied, the page that was being freed can go.
  lemma EraseSource(img: seq<FPage>, c: seq<FPage>, e: nat, live: multiset<Rec>)
    requires (exists t :: 0 <= t < |img| && Copying(img, live, e, t) && RecsOf(img[t]) == RecsOf(img[e])) ||
      (Freeing(img, live, e) && RecsOf(img[e]) == [])
    requires e < |img| && c == img[e := ErasedPage()]
    ensures Stable(c, live) && (ChunksApart(img) ==> ChunksApart(c))
  {
    hide RecsOf, Loadable, NoChunkPairs, Live;
    ErasedHasNone();
    ErasedIsFine();
    LiveAround(img, e);
    if t :| 0 <= t < |img| && Copying(img, live, e, t) && RecsOf(img[t]) == RecsOf(img[e]) {
      LiveAround(img, t);
      CancelAll(Rest(img, e), Rest(img, t), multiset(RecsOf(img[e])));
    }
    assert !c[e].hdr.Header?;
  }

  lemma CancelAll(a: multiset<Rec>, b: multiset<Rec>, m: multiset<Rec>)
    requires a + m == b + m
    ensures a == b
  {
    forall x ensures a[x] == b[x] {
      assert (a + m)[x] == (b + m)[x];
    }
  }

  // ---------------------------------------------------------------- the steps of moving a page

  // Marking a page as being freed.
  lemma MarkFreeingKeeps(img: seq<FPage>, c: seq<FPage>, e: nat, live: multiset<Rec>)
    requires Stable(img, live) && NoneActive(img) && e < |img| && img[e].hdr.Header?
    requires c == img[e := img[e].(hdr := img[e].hdr.(st := FREEING))]
    requires exists nf: nat :: Quiet(img[e].slots, nf)
    ensures Freeing(c, live, e) && (ChunksApart(img) ==> ChunksApart(c))
  {
    hide Recs, NoChunkPairs, Live, Rest, Quiet;
    QuietIsLoadable(c[e]);
    LiveChange(img, c, e);
    if Spare(img) {
      var p :| 0 <= p < |img| && !img[p].hdr.Header?;
      assert !c[p].hdr.Header?;
    }
  }

  lemma QuietIsLoadable(fp: FPage)
    requires fp.hdr.Header? && LiveState(fp.hdr.st) && exists nf: nat :: Quiet(fp.slots, nf)
    ensures Loadable(fp)
  {
    var nf: nat :| Quiet(fp.slots, nf);
    assert SoundAt(fp.hdr.st, fp.slots, nf);
  }

  // While page e is being freed and nothing is active, nothing else can be going on.
  lemma FreeingIs(img: seq<FPage>, live: multiset<Rec>, e: nat)
    requires Recoverable(img, live) && e < |img| && InState(img[e], FREEING) && NoneActive(img)
    ensures Freeing(img, live, e)
  {
    hide RecsOf, Loadable, Live, Rest, Spare, Replaces;
    if f :| 0 <= f < |img| && Freeing(img, live, f) {
      assert f == e;
    }
  }

  lemma FullCopyIsCut(img: seq<FPage>, c: seq<FPage>, t: nat, n: nat, recs: seq<Rec>)
    requires OnlyPage(img, c, t) && c[t].hdr == Header(ACTIVE, n) && Loadable(c[t]) && RecsOf(c[t]) == recs
    ensures CopyCut(img, c, t, n, recs)
  {
    var nf: nat :| SoundAt(c[t].hdr.st, c[t].slots, nf);
    assert Loose(c[t].slots, nf);
  }

  lemma FreeingIsSafe(img: seq<FPage>, c: seq<FPage>, live: multiset<Rec>, e: nat)
    requires Freeing(c, live, e) && (ChunksApart(img) ==> ChunksApart(c))
    ensures Safe(img, c, live)
  {
  }

  // The page in reserve has been erased, if that was needed.
  lemma FreshIsSafe(img: seq<FPage>, mid: seq<FPage>, c: seq<FPage>, e: nat, p: nat, live: multiset<Rec>)
    requires Freeing(mid, live, e) && (ChunksApart(img) ==> ChunksApart(mid))
    requires p < |mid| && p != e && !mid[p].hdr.Header? && (c == mid || c == mid[p := ErasedPage()])
    ensures Freeing(c, live, e) && (ChunksApart(img) ==> ChunksApart(c)) && Safe(img, c, live)
  {
    hide Loadable, Live, Sound, Spare;
    if c != mid {
      EraseFree(mid, c, p, live);
      FreeingIs(c, live, e);
    }
  }

  lemma StableIsSafe(img: seq<FPage>, c: seq<FPage>, live: multiset<Rec>)
    requires Stable(c, live) && (ChunksApart(img) ==> ChunksApart(c))
    ensures Safe(img, c, live)
  {
  }

  // After copying, page t holds everything page e holds, and every cut on the way was safe.
  lemma CopiedIsSafe(img: seq<FPage>, img1: seq<FPage>, img2: seq<FPage>, cuts: iset<seq<FPage>>,
                     cuts0: iset<seq<FPage>>, e: nat, t: nat, n: nat, live: multiset<Rec>)
    requires e < |img1| && Freeing(img1, live, e) && t < |img1| && img1[t] == ErasedPage()
    requires ChunksApart(img) ==> ChunksApart(img1)
    requires forall q :: 0 <= q < |img1| && img1[q].hdr.Header? ==> img1[q].hdr.seqNo < n
    requires forall c :: c in cuts && c !in cuts0 ==> CopyCut(img1, c, t, n, RecsOf(img1[e]))
    requires if RecsOf(img1[e]) == [] && img2 == img1 then true
      else CopyCut(img1, img2, t, n, RecsOf(img1[e])) && img2[t].hdr.Header? && RecsOf(img2[t]) == RecsOf(img1[e])
    ensures forall c :: c in cuts && c !in cuts0 ==> Safe(img, c, live)
    ensures ChunksApart(img) ==> ChunksApart(img2)
    ensures (exists x :: 0 <= x < |img2| && Copying(img2, live, e, x) && RecsOf(img2[x]) == RecsOf(img2[e])) ||
      (Freeing(img2, live, e) && RecsOf(img2[e]) == [])
  {
    hide RecsOf, CopyCut, Freeing, Copying, ChunksApart;
    forall c: seq<FPage> | c in cuts && c !in cuts0 ensures Safe(img, c, live) {
      CopyKeeps(img1, c, e, t, n, live);
    }
    if !(RecsOf(img1[e]) == [] && img2 == img1) {
      CopyKeeps(img1, img2, e, t, n, live);
      FreeingNotErased(img1, img2, e, t, n, live, RecsOf(img1[e]));
      assert Copying(img2, live, e, t) && RecsOf(img2[t]) == RecsOf(img2[e]);
    }
  }

  lemma FreeingNotErased(img: seq<FPage>, c: seq<FPage>, e: nat, t: nat, n: nat, live: multiset<Rec>, recs: seq<Rec>)
    requires Freeing(img, live, e) && t < |img| && img[t] == ErasedPage() && CopyCut(img, c, t, n, recs)
    ensures e < |c| && t < |c| && c[e] == img[e]
  {
  }

  lemma HeadersBelow(rams: seq<Ram>, img: seq<FPage>, rams': seq<Ram>, c: seq<FPage>, e: nat, p: nat, n: nat)
    requires e < |img| && p < |img| && |c| == |img| && img[e].hdr.Header?
    requires forall q :: 0 <= q < |img| && img[q].hdr.Header? ==> img[q].hdr.seqNo < n
    requires Elsewhere(rams, img, rams', c, e, p)
    requires c[e].hdr == Header(FREEING, img[e].hdr.seqNo) && !c[p].hdr.Header?
    ensures forall q :: 0 <= q < |c| && c[q].hdr.Header? ==> c[q].hdr.seqNo < n
  {
  }

  lemma StableLive(img: seq<FPage>, live: multiset<Rec>)
    requires Stable(img, live)
    ensures Live(img) == live
  {
  }

  lemma SameRecs(fp: FPage, fp': FPage)
    requires fp.slots == fp'.slots && fp.hdr.Header? && fp'.hdr.Header?
    ensures RecsOf(fp) == RecsOf(fp')
  {
  }

  lemma ClearedIsSafe(img: seq<FPage>, c: seq<FPage>, p: nat, live: multiset<Rec>)
    requires Stable(img, live) && p < |img| && !img[p].hdr.Header? && (c == img || c == img[p := ErasedPage()])
    ensures Safe(img, c, live) && Live(c) == live && (ChunksApart(img) ==> ChunksApart(c))
  {
    hide Sound, Live, ChunksApart, RecsOf;
    if c != img {
      EraseFree(img, c, p, live);
      LiveChange(img, c, p);
      FreeHasNone(img[p]);
      ErasedHasNone();
    }
  }

  lemma FreeHasNone(fp: FPage)
    requires !fp.hdr.Header?
    ensures RecsOf(fp) == []
  {
  }
}
