// The page list and the free list over all pages: which page is where, and in which state.
module PageLists {
  import opened NvsTypes
  import opened PageImage
  import opened PageRam
  import opened PageScan
  import opened FlashDevice
  import opened StoreImage

  // Every page object agrees with its sector.
  ghost predicate RamsOk(rams: seq<Ram>, img: seq<FPage>, hashOf: Id -> nat) {
    && |rams| == |img|
    && forall i :: 0 <= i < |img| ==> |img[i].slots| == ENTRY_COUNT && RamOk(rams[i], img[i], hashOf)
  }

  // Only page i has changed.
  ghost predicate OnlyAt(was: seq<Ram>, now: seq<Ram>, i: nat) {
    i < |was| && |now| == |was| && now == was[i := now[i]]
  }

  lemma OnlyAtTwice(r0: seq<Ram>, r1: seq<Ram>, r2: seq<Ram>, i: nat)
    requires OnlyAt(r0, r1, i) && i < |r1| && |r2| == |r1| && r2 == r1[i := r2[i]]
    ensures OnlyAt(r0, r2, i)
  {
  }

  // Pages other than e and p are as they were, in RAM and on flash.
  ghost predicate Elsewhere(was: seq<Ram>, img: seq<FPage>, now: seq<Ram>, c: seq<FPage>, e: nat, p: nat) {
    && |now| == |was| && |c| == |img|
    && (forall j :: 0 <= j < |was| && j != e && j != p ==> now[j] == was[j])
    && (forall j :: 0 <= j < |img| && j != e && j != p ==> c[j] == img[j])
  }

  lemma ElsewhereTwice(r0: seq<Ram>, c0: seq<FPage>, r1: seq<Ram>, c1: seq<FPage>, r2: seq<Ram>, c2: seq<FPage>, e: nat,
                       p: nat)
    requires Elsewhere(r0, c0, r1, c1, e, p) && Elsewhere(r1, c1, r2, c2, e, p)
    ensures Elsewhere(r0, c0, r2, c2, e, p)
  {
  }

  // First page e was changed, then page p.
  lemma ElsewhereTwo(r0: seq<Ram>, c0: seq<FPage>, r1: seq<Ram>, c1: seq<FPage>, r2: seq<Ram>, c2: seq<FPage>, e: nat,
                     p: nat)
    requires OnlyAt(r0, r1, e) && OnlyAt(r1, r2, p) && e < |c0| && |c1| == |c0|
    requires p < |c1| && p != e && c1 == c0[e := c1[e]] && (c2 == c1 || c2 == c1[p := ErasedPage()])
    ensures Elsewhere(r0, c0, r2, c2, e, p) && r2[e] == r1[e] && c2[e] == c1[e]
  {
  }

  // What the lists see of a page is the same.
  predicate SameFace(r: Ram, r': Ram) {
    r'.state == r.state && r'.seqNo == r.seqNo && r'.top == r.top && r'.nextFree == r.nextFree
  }

  // Each of the first n pages is in exactly one of the lists, once.
  ghost predicate Partition(n: nat, list: seq<nat>, free: seq<nat>) {
    && (forall k :: 0 <= k < |list| ==> list[k] < n)
    && (forall k :: 0 <= k < |free| ==> free[k] < n)
    && (forall k, l :: 0 <= k < l < |list| ==> list[k] != list[l])
    && (forall k, l :: 0 <= k < l < |free| ==> free[k] != free[l])
    && (forall k, l :: 0 <= k < |list| && 0 <= l < |free| ==> list[k] != free[l])
    && (forall i: nat :: i < n ==> i in list || i in free)
  }

  ghost predicate Ascending(rams: seq<Ram>, list: seq<nat>) {
    && (forall k :: 0 <= k < |list| ==> list[k] < |rams|)
    && forall k, l :: 0 <= k < l < |list| ==> rams[list[k]].seqNo < rams[list[l]].seqNo
  }

  ghost predicate Below(rams: seq<Ram>, list: seq<nat>, next: nat) {
    && (forall k :: 0 <= k < |list| ==> list[k] < |rams|)
    && forall k :: 0 <= k < |list| ==> rams[list[k]].seqNo < next
  }

  predicate FreeState(st: PageState) {
    st.UNINITIALIZED? || st.CORRUPT?
  }

  ghost predicate AllFree(rams: seq<Ram>, free: seq<nat>) {
    && (forall k :: 0 <= k < |free| ==> free[k] < |rams|)
    && forall k :: 0 <= k < |free| ==> FreeState(rams[free[k]].state)
  }

  lemma FrontIsFree(rams: seq<Ram>, free: seq<nat>)
    requires AllFree(rams, free) && free != []
    ensures free[0] < |rams| && FreeState(rams[free[0]].state)
  {
  }

  // All pages but the last of the list are full; the last may also be in use or fresh.
  ghost predicate States(rams: seq<Ram>, list: seq<nat>) {
    && (forall k :: 0 <= k < |list| ==> list[k] < |rams|)
    && (forall k :: 0 <= k < |list| - 1 ==> rams[list[k]].state == FULL)
    && (list != [] ==> var st := rams[list[|list| - 1]].state; st.FULL? || st.ACTIVE? || st.UNINITIALIZED?)
  }

  // The store between two operations: ascending sequence numbers, no active page but the last,
  // and a page in reserve.
  ghost predicate InOrder(rams: seq<Ram>, img: seq<FPage>, list: seq<nat>, free: seq<nat>, next: nat,
                          hashOf: Id -> nat) {
    && RamsOk(rams, img, hashOf) && Partition(|img|, list, free) && Ascending(rams, list) && Below(rams, list, next)
    && AllFree(rams, free) && States(rams, list) && list != [] && free != []
  }

  lemma RamIsLoadable(r: Ram, fp: FPage, hashOf: Id -> nat)
    requires RamOk(r, fp, hashOf) && |fp.slots| == ENTRY_COUNT
    ensures Loadable(fp)
    ensures fp.hdr.Header? <==> LiveState(r.state)
    ensures fp.hdr.Header? ==> fp.hdr == Header(r.state, r.seqNo) && Quiet(fp.slots, r.top)
  {
    if LiveState(r.state) {
      assert SoundAt(fp.hdr.st, fp.slots, r.top);
    }
  }

  lemma RamsOkAt(rams: seq<Ram>, img: seq<FPage>, hashOf: Id -> nat, i: nat)
    requires RamsOk(rams, img, hashOf) && i < |img|
    ensures |rams| == |img| && |img[i].slots| == ENTRY_COUNT && RamOk(rams[i], img[i], hashOf)
  {
  }

  lemma CorruptIsNotErased(r: Ram, fp: FPage, hashOf: Id -> nat)
    requires RamOk(r, fp, hashOf) && r.state.CORRUPT?
    ensures fp != ErasedPage() && !fp.hdr.Header?
  {
  }

  lemma HeadersAre(rams: seq<Ram>, img: seq<FPage>, hashOf: Id -> nat)
    requires RamsOk(rams, img, hashOf)
    ensures forall p :: 0 <= p < |img| ==> Loadable(img[p]) && (img[p].hdr.Header? <==> LiveState(rams[p].state))
    ensures forall p :: 0 <= p < |img| && img[p].hdr.Header? ==> img[p].hdr == Header(rams[p].state, rams[p].seqNo)
  {
    hide RamOk, Loadable;
    forall p | 0 <= p < |img|
      ensures Loadable(img[p]) && (img[p].hdr.Header? <==> LiveState(rams[p].state))
      ensures img[p].hdr.Header? ==> img[p].hdr == Header(rams[p].state, rams[p].seqNo)
    {
      RamIsLoadable(rams[p], img[p], hashOf);
    }
  }

  // Headers of pages that are all listed, in ascending order, with an active page only at the end.
  lemma ListedOrdered(rams: seq<Ram>, img: seq<FPage>, list: seq<nat>, free: seq<nat>)
    requires |rams| == |img| && Partition(|img|, list, free) && Ascending(rams, list) && AllFree(rams, free)
      && States(rams, list)
    requires forall p :: 0 <= p < |img| ==> (img[p].hdr.Header? <==> LiveState(rams[p].state))
    requires forall p :: 0 <= p < |img| && img[p].hdr.Header? ==> img[p].hdr == Header(rams[p].state, rams[p].seqNo)
    ensures Ordered(img) && NoneFreeing(img)
    ensures free != [] ==> Spare(img)
  {
    forall p: nat, q: nat | p < |img| && q < |img| && p != q && img[p].hdr.Header? && img[q].hdr.Header?
      ensures img[p].hdr.seqNo != img[q].hdr.seqNo
      ensures img[p].hdr.st.ACTIVE? ==> img[q].hdr.seqNo < img[p].hdr.seqNo
    {
      var k, l := Place(rams, list, free, p), Place(rams, list, free, q);
      PairOrdered(rams, list, k, l);
    }
    forall p: nat | p < |img| && img[p].hdr.Header? ensures !img[p].hdr.st.FREEING? {
      var k := Place(rams, list, free, p);
    }
    if free != [] {
      assert !img[free[0]].hdr.Header?;
    }
  }

  // Where a page with records is in the list.
  ghost function Place(rams: seq<Ram>, list: seq<nat>, free: seq<nat>, p: nat): (k: nat)
    requires p < |rams| && Partition(|rams|, list, free) && AllFree(rams, free) && LiveState(rams[p].state)
    ensures k < |list| && list[k] == p
  {
    assert p in list || p in free;
    var k :| 0 <= k < |list| && list[k] == p;
    k
  }

  lemma PairOrdered(rams: seq<Ram>, list: seq<nat>, k: nat, l: nat)
    requires Ascending(rams, list) && States(rams, list) && k < |list| && l < |list| && k != l
    ensures rams[list[k]].seqNo != rams[list[l]].seqNo
    ensures rams[list[k]].state.ACTIVE? ==> rams[list[l]].seqNo < rams[list[k]].seqNo
  {
  }

  // Between two operations the flash image is one that holds exactly its records and can be brought up.
  lemma InOrderIsStable(rams: seq<Ram>, img: seq<FPage>, list: seq<nat>, free: seq<nat>, next: nat, hashOf: Id -> nat)
    requires InOrder(rams, img, list, free, next, hashOf)
    ensures Stable(img, Live(img))
  {
    hide RamOk, Loadable, Live;
    HeadersAre(rams, img, hashOf);
    ListedOrdered(rams, img, list, free);
    assert |img| >= 2 by {
      assert list[0] != free[0];
    }
  }

  // ---------------------------------------------------------------- moves between the lists

  // A fresh page goes to the end of the list.
  lemma ActivatedInOrder(rams: seq<Ram>, img: seq<FPage>, list: seq<nat>, free: seq<nat>, next: nat, hashOf: Id -> nat,
                         rams': seq<Ram>, img': seq<FPage>)
    requires InOrder(rams, img, list, free, next, hashOf) && |free| >= 2 && rams[list[|list| - 1]].state.FULL?
    requires OnlyAt(rams, rams', free[0]) && rams'[free[0]].state.UNINITIALIZED? && rams'[free[0]].seqNo == next
    requires RamsOk(rams', img', hashOf)
    ensures InOrder(rams', img', list + [free[0]], free[1..], next + 1, hashOf)
  {
    hide RamsOk;
    RamsOkLengths(rams, img, hashOf);
    RamsOkLengths(rams', img', hashOf);
    forall i: nat | i < |img| ensures i in list + [free[0]] || i in free[1..] {
      if i in free {
        var k :| 0 <= k < |free| && free[k] == i;
        assert k > 0 ==> free[1..][k - 1] == i;
      }
    }
  }

  // The fresh page takes over from page list[at], which becomes the page in reserve.
  lemma CollectedInOrder(rams: seq<Ram>, img: seq<FPage>, list: seq<nat>, free: seq<nat>, next: nat, hashOf: Id -> nat,
                         at: nat, rams': seq<Ram>, img': seq<FPage>)
    requires InOrder(rams, img, list, free, next, hashOf) && |free| == 1 && rams[list[|list| - 1]].state.FULL?
    requires at < |list| && Elsewhere(rams, img, rams', img', list[at], free[0])
    requires rams'[list[at]].state.UNINITIALIZED? && rams'[free[0]].seqNo == next
    requires rams'[free[0]].state.UNINITIALIZED? || rams'[free[0]].state.ACTIVE?
    requires RamsOk(rams', img', hashOf)
    ensures InOrder(rams', img', Collected(list, at, free[0]), [list[at]], next + 1, hashOf)
  {
    hide RamsOk, Partition, Ascending, States;
    RamsOkLengths(rams, img, hashOf);
    RamsOkLengths(rams', img', hashOf);
    CollectedPartition(|img|, list, free, at);
    CollectedAscending(rams, rams', list, free, at, next);
    CollectedStates(rams, rams', list, free, at);
  }

  function Collected(list: seq<nat>, at: nat, newest: nat): (r: seq<nat>)
    requires at < |list|
    ensures |r| == |list| && r[|list| - 1] == newest
    ensures forall k :: 0 <= k < |list| - 1 ==> r[k] == list[if k < at then k else k + 1]
  {
    list[..at] + list[at + 1..] + [newest]
  }

  lemma CollectedPartition(n: nat, list: seq<nat>, free: seq<nat>, at: nat)
    requires Partition(n, list, free) && |free| == 1 && at < |list|
    ensures Partition(n, Collected(list, at, free[0]), [list[at]])
  {
    var list' := Collected(list, at, free[0]);
    forall i: nat | i < n ensures i in list' || i in [list[at]] {
      if i in list && i != list[at] {
        var k :| 0 <= k < |list| && list[k] == i;
        assert list'[if k < at then k else k - 1] == i;
      } else if i in free {
        assert list'[|list| - 1] == i;
      }
    }
  }

  lemma CollectedAscending(rams: seq<Ram>, rams': seq<Ram>, list: seq<nat>, free: seq<nat>, at: nat, next: nat)
    requires Ascending(rams, list) && Below(rams, list, next) && |rams'| == |rams| && Partition(|rams|, list, free)
    requires |free| == 1 && at < |list| && rams'[free[0]].seqNo == next
    requires forall j :: 0 <= j < |rams| && j != list[at] && j != free[0] ==> rams'[j] == rams[j]
    ensures Ascending(rams', Collected(list, at, free[0])) && Below(rams', Collected(list, at, free[0]), next + 1)
  {
  }

  lemma CollectedStates(rams: seq<Ram>, rams': seq<Ram>, list: seq<nat>, free: seq<nat>, at: nat)
    requires |free| == 1 && at < |list| && States(rams, list) && rams[list[|list| - 1]].state.FULL?
    requires |rams'| == |rams| && Partition(|rams|, list, free)
      && (rams'[free[0]].state.UNINITIALIZED? || rams'[free[0]].state.ACTIVE?)
    requires forall j :: 0 <= j < |rams| && j != list[at] && j != free[0] ==> rams'[j] == rams[j]
    ensures States(rams', Collected(list, at, free[0]))
  {
  }

  lemma RamsOkLengths(rams: seq<Ram>, img: seq<FPage>, hashOf: Id -> nat)
    requires RamsOk(rams, img, hashOf)
    ensures |rams| == |img|
  {
  }

  // Before a page is moved nothing is active, and no sequence number on flash is as great as the
  // next one.
  lemma BeforeMove(rams: seq<Ram>, img: seq<FPage>, list: seq<nat>, free: seq<nat>, next: nat, hashOf: Id -> nat,
                   at: nat)
    requires InOrder(rams, img, list, free, next, hashOf) && rams[list[|list| - 1]].state.FULL? && at < |list|
    requires LiveState(rams[list[at]].state)
    ensures |rams| == |img| && list[at] < |img| && free[0] < |img| && list[at] !in free
    ensures Partition(|rams|, list, free) && AllFree(rams, free)
    ensures Stable(img, Live(img)) && NoneActive(img)
    ensures forall q :: 0 <= q < |img| && img[q].hdr.Header? ==> img[q].hdr.seqNo < next
    ensures var e := list[at];
      img[e].hdr == Header(FULL, rams[e].seqNo) && rams[e].state == FULL && exists nf: nat :: Quiet(img[e].slots, nf)
    ensures !img[free[0]].hdr.Header? && FreeState(rams[free[0]].state)
  {
    hide RamOk, Loadable, Live, Stable;
    InOrderIsStable(rams, img, list, free, next, hashOf);
    HeadersAre(rams, img, hashOf);
    RamIsLoadable(rams[list[at]], img[list[at]], hashOf);
    forall q: nat | q < |img| && img[q].hdr.Header? ensures img[q].hdr.seqNo < next && !img[q].hdr.st.ACTIVE? {
      var k := Place(rams, list, free, q);
    }
  }

  lemma AllFreeStill(rams: seq<Ram>, rams': seq<Ram>, free: seq<nat>, e: nat)
    requires AllFree(rams, free) && OnlyAt(rams, rams', e) && e !in free
    ensures AllFree(rams', free)
  {
  }

  // A page that items are still to be appended to, without a gap before its next free entry.
  predicate Fresh(r: Ram) {
    if r.state.UNINITIALIZED? then r.used == 0 else r.state.ACTIVE? && r.nextFree == r.used
  }

  lemma ReservedIsErased(rams: seq<Ram>, img: seq<FPage>, hashOf: Id -> nat, p: nat)
    requires RamsOk(rams, img, hashOf) && p < |img| && rams[p].state.UNINITIALIZED?
    ensures img[p] == ErasedPage() && rams[p].used == 0
  {
  }

  // The current page is a new one: a second free page, or the reserve after page `freed`, one of
  // those with the most room, has moved to it. Nothing else has changed.
  ghost predicate Relocated(rams: seq<Ram>, img: seq<FPage>, list: seq<nat>, free: seq<nat>,
                            rams': seq<Ram>, img': seq<FPage>, list': seq<nat>, free': seq<nat>, freed: nat) {
    && free != [] && Elsewhere(rams, img, rams', img', freed, free[0]) && free[0] < |rams| == |img| && freed < |rams|
    && (forall k :: 0 <= k < |list| ==> list[k] < |rams|) && Fresh(rams'[free[0]])
    && (|free| >= 2 ==> freed == free[0] && list' == list + [free[0]] && free' == free[1..])
    && (|free| >= 2 ==> rams'[free[0]].used == 0 && rams'[free[0]].state.UNINITIALIZED?)
    && (|free| == 1 ==>
      (exists at :: 0 <= at < |list| && list[at] == freed && list' == Collected(list, at, free[0])) && free' == [freed]
      && rams'[freed].state.UNINITIALIZED? && rams'[free[0]].used == rams[freed].used
      && RecsOf(img'[free[0]]) == RecsOf(img[freed])
      && forall k :: 0 <= k < |list| ==> rams[freed].used <= rams[list[k]].used)
  }

  // Of the listed pages with the fewest entries in use this one comes first.
  ghost predicate FirstOfLeast(rams: seq<Ram>, list: seq<nat>, p: nat) {
    && p < |rams| && (forall k :: 0 <= k < |list| ==> list[k] < |rams| && rams[list[k]].used >= rams[p].used)
    && exists at :: 0 <= at < |list| && list[at] == p && forall k :: 0 <= k < at ==> rams[list[k]].used > rams[p].used
  }

  lemma IsFirstOfLeast(rams: seq<Ram>, list: seq<nat>, at: nat)
    requires at < |list| && forall k :: 0 <= k < |list| ==> list[k] < |rams|
    requires forall k :: 0 <= k < |list| ==> rams[list[k]].used >= rams[list[at]].used
    requires forall k :: 0 <= k < at ==> rams[list[k]].used > rams[list[at]].used
    ensures FirstOfLeast(rams, list, list[at])
  {
  }

  lemma TakenIsRelocated(rams: seq<Ram>, img: seq<FPage>, list: seq<nat>, free: seq<nat>, next: nat, hashOf: Id -> nat,
                         rams': seq<Ram>, img': seq<FPage>)
    requires InOrder(rams, img, list, free, next, hashOf) && |free| >= 2
      && Elsewhere(rams, img, rams', img', free[0], free[0])
    requires rams'[free[0]].state.UNINITIALIZED? && rams'[free[0]].used == 0
    ensures Relocated(rams, img, list, free, rams', img', list + [free[0]], free[1..], free[0])
  {
    InRange(rams, img, list, free, next, hashOf);
  }

  lemma MovedIsRelocated(rams: seq<Ram>, img: seq<FPage>, list: seq<nat>, free: seq<nat>, next: nat, hashOf: Id -> nat,
                         rams': seq<Ram>, img': seq<FPage>, at: nat)
    requires InOrder(rams, img, list, free, next, hashOf) && |free| == 1 && at < |list|
    requires Elsewhere(rams, img, rams', img', list[at], free[0])
    requires rams'[list[at]].state.UNINITIALIZED? && Fresh(rams'[free[0]]) && rams'[free[0]].used == rams[list[at]].used
    requires RecsOf(img'[free[0]]) == RecsOf(img[list[at]])
    requires forall k :: 0 <= k < |list| ==> rams[list[at]].used <= rams[list[k]].used
    ensures Relocated(rams, img, list, free, rams', img', Collected(list, at, free[0]), [list[at]], list[at])
  {
    InRange(rams, img, list, free, next, hashOf);
  }

  lemma InRange(rams: seq<Ram>, img: seq<FPage>, list: seq<nat>, free: seq<nat>, next: nat, hashOf: Id -> nat)
    requires InOrder(rams, img, list, free, next, hashOf)
    ensures |rams| == |img| && (forall k :: 0 <= k < |list| ==> list[k] < |rams|)
      && (forall k :: 0 <= k < |free| ==> free[k] < |rams|)
  {
  }

  lemma ElsewhereOne(r0: seq<Ram>, c0: seq<FPage>, r1: seq<Ram>, c1: seq<FPage>, p: nat)
    requires OnlyAt(r0, r1, p) && p < |c0| && (c1 == c0 || c1 == c0[p := ErasedPage()])
    ensures Elsewhere(r0, c0, r1, c1, p, p)
  {
  }

  lemma ListedStates(rams: seq<Ram>, list: seq<nat>, at: nat)
    requires States(rams, list) && at < |list| && rams[list[|list| - 1]].state.FULL?
    ensures rams[list[at]].state.FULL?
  {
  }

  lemma ReserveIsFree(rams: seq<Ram>, img: seq<FPage>, list: seq<nat>, free: seq<nat>, next: nat, hashOf: Id -> nat)
    requires InOrder(rams, img, list, free, next, hashOf)
    ensures |rams| == |img| && free[0] < |img| && !img[free[0]].hdr.Header? && FreeState(rams[free[0]].state)
    ensures Stable(img, Live(img)) && Partition(|rams|, list, free) && AllFree(rams, free)
  {
    hide RamOk, Loadable, Live, Stable;
    InOrderIsStable(rams, img, list, free, next, hashOf);
    HeadersAre(rams, img, hashOf);
  }

  ghost predicate SameFaces(was: seq<Ram>, now: seq<Ram>) {
    |now| == |was| && forall j :: 0 <= j < |was| ==> SameFace(was[j], now[j])
  }

  lemma OneFace(was: seq<Ram>, now: seq<Ram>, x: nat)
    requires OnlyAt(was, now, x) && SameFace(was[x], now[x])
    ensures SameFaces(was, now)
  {
  }

  lemma ElsewhereFirst(r0: seq<Ram>, c0: seq<FPage>, r1: seq<Ram>, c1: seq<FPage>, e: nat, p: nat)
    requires OnlyAt(r0, r1, p) && p < |c0| && (c1 == c0 || c1 == c0[p := ErasedPage()])
    ensures Elsewhere(r0, c0, r1, c1, e, p)
  {
  }
}
