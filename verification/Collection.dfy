// What collecting a page does to the blobs on it: when the page it leaves comes through being loaded.
module Collections {
  import opened NvsTypes
  import opened PageImage
  import opened PageRam
  import opened PageLoad
  import opened PageTwins
  import opened PageScan
  import opened FlashDevice
  import opened PageCuts
  import opened StoreImage
  import opened Recovery
  import opened PageLists
  import opened StoreWrites

  // ---------------------------------------------------------------- pages without gaps

  lemma {:induction false} CountFull(s: seq<Slot>, n: nat, i: nat)
    requires i < n <= |s| && CountIn(s, 0, n) == n
    ensures s[i].st.WRITTEN?
  {
    CountBelow(s, n - 1);
    if i < n - 1 {
      CountFull(s, n - 1, i);
    }
  }

  // Where all entries in use are written, the last of them ends an item.
  lemma {:induction false} CompactEnds(s: seq<Slot>, top: nat)
    requires Quiet(s, top) && CountIn(s, 0, |s|) == top && top > 0
    ensures EndsInItem(s)
  {
    CountSplit(s, 0, top, |s|);
    CountAll(s, top, |s|, false);
    CountFull(s, top, top - 1);
    var a: nat := top - 1;
    if s[top - 1].body.Data? {
      assert Covered(s, top - 1);
      a :| Covers(s, a, top - 1);
    }
    assert HeadFits(s, a, top) && Whole(s, a);
    assert EndsAt(s, a, |s|);
  }

  lemma NothingOn(s: seq<Slot>)
    requires Quiet(s, 0)
    ensures Recs(s) == []
  {
    RecsNone(s, 0, |s|);
  }

  // A page whose entries in use are all written ends in its last record.
  lemma CompactPage(r: Ram, fp: FPage, hashOf: Id -> nat)
    requires RamOk(r, fp, hashOf) && |fp.slots| == ENTRY_COUNT && r.state.ACTIVE? && r.nextFree == r.used <= ENTRY_COUNT
    ensures if r.used == 0 then RecsOf(fp) == [] else EndsInItem(fp.slots)
  {
    hide Quiet, Recs, EndsInItem, Working;
    TopIsNextFree(r, fp, hashOf);
    WorkingCounts(r, fp.slots, hashOf);
    if r.used == 0 {
      NothingOn(fp.slots);
    } else {
      CompactEnds(fp.slots, r.top);
    }
  }

  lemma {:induction false} WorkingCounts(r: Ram, s: seq<Slot>, hashOf: Id -> nat)
    requires Working(r, s, hashOf, ENTRY_COUNT)
    ensures r.used == CountIn(s, 0, |s|)
  {
  }

  // ---------------------------------------------------------------- what is left to load

  // While a page is being freed, what is on the page in use are copies.
  ghost predicate SomeFreeing(c: seq<FPage>) {
    exists e :: 0 <= e < |c| && InState(c[e], FREEING)
  }

  lemma FreeingIsKept(c: seq<FPage>, hashOf: Id -> nat)
    requires SomeFreeing(c)
    ensures Kept(c, hashOf)
  {
    hide KeptRecs, RecsOf, EndsInItem;
  }

  lemma CopiedWhileFreeing(img: seq<FPage>, live: multiset<Rec>, c: seq<FPage>, e: nat, p: nat)
    requires Freeing(img, live, e) && OnlyPage(img, c, p) && p != e
    ensures SomeFreeing(c)
  {
    hide Sound, NoneActive, Spare, Live;
    assert InState(c[e], FREEING);
  }

  // Loading these records behind one another loses none of them.
  ghost predicate MoveKeeps(recs: seq<Rec>, hashOf: Id -> nat) {
    DistinctHashes(recs, hashOf) && !ChunkShadowed(recs)
  }

  lemma NothingToLose(hashOf: Id -> nat)
    ensures MoveKeeps([], hashOf) && KeptRecs([], false, hashOf) && KeptRecs([], true, hashOf)
  {
  }

  ghost predicate MoveKeepsOn(img: seq<FPage>, p: nat, hashOf: Id -> nat) {
    p < |img| && MoveKeeps(RecsOf(img[p]), hashOf)
  }

  // Of a store in order at most the last page is in use, and none is being freed.
  lemma OnlyLastActive(rams: seq<Ram>, img: seq<FPage>, list: seq<nat>, free: seq<nat>, next: nat, hashOf: Id -> nat)
    requires InOrder(rams, img, list, free, next, hashOf)
    ensures NoneFreeing(img) && list != [] && list[|list| - 1] < |img| == |rams|
    ensures forall p :: 0 <= p < |img| && InState(img[p], ACTIVE) ==> p == list[|list| - 1]
    ensures InState(img[list[|list| - 1]], ACTIVE) <==> rams[list[|list| - 1]].state.ACTIVE?
  {
    hide RamOk, Loadable;
    HeadersAre(rams, img, hashOf);
    forall p | 0 <= p < |img| && img[p].hdr.Header? ensures p in list {
      assert p in list || p in free;
    }
  }

  lemma KeptIsLast(rams: seq<Ram>, img: seq<FPage>, list: seq<nat>, free: seq<nat>, next: nat, hashOf: Id -> nat)
    requires InOrder(rams, img, list, free, next, hashOf)
    ensures list != [] && list[|list| - 1] < |img| == |rams|
    ensures var p := list[|list| - 1];
      Kept(img, hashOf) <==> (rams[p].state.ACTIVE? ==> KeptRecs(RecsOf(img[p]), EndsInItem(img[p].slots), hashOf))
  {
    hide InOrder, RecsOf, EndsInItem, KeptRecs;
    OnlyLastActive(rams, img, list, free, next, hashOf);
  }

  // After room has been made, the page in use comes through being loaded if and only if nothing had
  // to move, or the page that was moved does not end, once its gaps are gone, in a chunk with an
  // earlier chunk of its key (nor do two of its records share a hash).
  lemma MovedKeptIff(rams: seq<Ram>, img: seq<FPage>, list: seq<nat>, free: seq<nat>, rams': seq<Ram>, img': seq<FPage>,
                     list': seq<nat>, free': seq<nat>, next: nat, freed: nat, hashOf: Id -> nat)
    requires Relocated(rams, img, list, free, rams', img', list', free', freed)
      && InOrder(rams', img', list', free', next, hashOf)
    requires Unique(Live(img'))
    ensures Kept(img', hashOf) <==> |free| >= 2 || MoveKeepsOn(img, freed, hashOf)
  {
    hide Live, Unique, MoveKeeps, KeptRecs, EndsInItem, RecsOf, InOrder, Kept, RamOk, Elsewhere;
    KeptIsLast(rams', img', list', free', next, hashOf);
    NewPageIs(rams, img, list, free, rams', img', list', free', freed);
    NewPageKeeps(rams', img', list', free', next, hashOf, free[0]);
  }

  lemma NewPageIs(rams: seq<Ram>, img: seq<FPage>, list: seq<nat>, free: seq<nat>,
                  rams': seq<Ram>, img': seq<FPage>, list': seq<nat>, free': seq<nat>, freed: nat)
    requires Relocated(rams, img, list, free, rams', img', list', free', freed)
    ensures free != [] && list' != [] && list'[|list'| - 1] == free[0] < |rams'| && Fresh(rams'[free[0]])
      && |img'| == |img| == |rams'| && freed < |img|
    ensures |free| >= 2 ==> rams'[free[0]].used == 0
    ensures |free| == 1 ==> RecsOf(img'[free[0]]) == RecsOf(img[freed])
  {
    hide RecsOf, Fresh;
  }

  // A page that has just been taken into use.
  lemma NewPageKeeps(rams: seq<Ram>, img: seq<FPage>, list: seq<nat>, free: seq<nat>, next: nat, hashOf: Id -> nat,
                     p: nat)
    requires InOrder(rams, img, list, free, next, hashOf) && p < |img| && p < |rams| && Fresh(rams[p])
      && Unique(Live(img))
    ensures (rams[p].state.ACTIVE? ==> KeptRecs(RecsOf(img[p]), EndsInItem(img[p].slots), hashOf)) <==>
      MoveKeeps(RecsOf(img[p]), hashOf)
    ensures rams[p].used == 0 ==> MoveKeeps(RecsOf(img[p]), hashOf)
  {
    hide Live, Unique, EndsInItem, Recs, RamOk, ChunkShadowed, DistinctHashes, WithoutTwin, Quiet;
    RamsOkAt(rams, img, hashOf, p);
    NothingToLose(hashOf);
    var recs := RecsOf(img[p]);
    LiveAround(img, p);
    NoTwinHere(recs, Live(img));
    FreshUse(rams[p], img[p], hashOf);
  }

  lemma FreshUse(r: Ram, fp: FPage, hashOf: Id -> nat)
    requires RamOk(r, fp, hashOf) && Fresh(r) && |fp.slots| == ENTRY_COUNT
    ensures if r.state.ACTIVE? && r.used > 0 then EndsInItem(fp.slots) else RecsOf(fp) == []
  {
    hide Working, Quiet, EndsInItem, Recs;
    if r.state.ACTIVE? {
      UsedFits(r, fp, hashOf);
      CompactPage(r, fp, hashOf);
    } else {
      ErasedHasNone();
    }
  }

  lemma UsedFits(r: Ram, fp: FPage, hashOf: Id -> nat)
    requires RamOk(r, fp, hashOf) && r.state.ACTIVE? && |fp.slots| == ENTRY_COUNT
    ensures r.used <= ENTRY_COUNT
  {
    CountBelow(fp.slots, |fp.slots|);
  }

  // All copies were cut short while the page was being freed.
  lemma CopiesStillFreeing(img: seq<FPage>, live: multiset<Rec>, cuts: iset<seq<FPage>>, cuts0: iset<seq<FPage>>,
                           e: nat, p: nat, n: nat)
    requires Freeing(img, live, e) && p != e
    requires forall c :: c in cuts && c !in cuts0 ==> CopyCut(img, c, p, n, RecsOf(img[e]))
    ensures forall c :: c in cuts && c !in cuts0 ==> SomeFreeing(c)
  {
    hide Freeing, SomeFreeing, RecsOf, LooseImage, Recs;
    forall c: seq<FPage> | c in cuts && c !in cuts0 ensures SomeFreeing(c) {
      CopiedWhileFreeing(img, live, c, e, p);
    }
  }

  lemma KeptNow(rams: seq<Ram>, img: seq<FPage>, list: seq<nat>, free: seq<nat>, rams': seq<Ram>, img': seq<FPage>,
                list': seq<nat>, free': seq<nat>, next: nat, freed: nat, hashOf: Id -> nat, cuts: iset<seq<FPage>>,
                cuts0: iset<seq<FPage>>)
    requires Relocated(rams, img, list, free, rams', img', list', free', freed)
      && InOrder(rams', img', list', free', next, hashOf)
    requires forall c :: c in cuts && c !in cuts0 ==> SomeFreeing(c) || c == img'
    ensures Unique(Live(img')) ==> (Kept(img', hashOf) <==> |free| >= 2 || MoveKeepsOn(img, freed, hashOf))
    ensures forall c :: c in cuts && c !in cuts0 ==> Kept(c, hashOf) || c == img'
  {
    hide Relocated, InOrder, Unique, Live, Kept, MoveKeepsOn, SomeFreeing;
    if Unique(Live(img')) {
      MovedKeptIff(rams, img, list, free, rams', img', list', free', next, freed, hashOf);
    }
    forall c: seq<FPage> | c in cuts && c !in cuts0 && c != img' ensures Kept(c, hashOf) {
      FreeingIsKept(c, hashOf);
    }
  }
}
