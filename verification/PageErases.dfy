// An item being taken off a page: its states go to ERASED from the last entry down, so the head
// goes in the last step and never leaves payload behind that belongs to nothing.
module PageErases {
  import opened NvsTypes
  import opened PageImage
  import opened PageSteps
  import opened PageRam
  import opened ItemHashList

  // A page that lost power while the item at a was being erased.
  ghost predicate EraseCut(s0: seq<Slot>, s: seq<Slot>, nf: nat, a: nat) {
    Eroding(s0, s, nf, a) || Removed(s0, s, nf, a)
  }

  lemma {:induction false} EraseCutIsLoose(s0: seq<Slot>, s: seq<Slot>, nf: nat, a: nat)
    requires EraseCut(s0, s, nf, a)
    ensures Loose(s, nf)
    ensures Recs(s) == Recs(s0) || Recs(s) == RecsIn(s0, 0, a) + RecsIn(s0, a + 1, |s0|)
  {
    if Eroding(s0, s, nf, a) {
      ErodingIsLoose(s0, s, nf, a);
      ErodingRecs(s0, s, nf, a);
      RecsAround(s0, a);
    } else {
      RemovedIsLoose(s0, s, nf, a);
      RemovedRecs(s0, s, nf, a);
    }
  }

  lemma RemovedCount(s0: seq<Slot>, s: seq<Slot>, nf: nat, a: nat, span: nat)
    requires Removed(s0, s, nf, a) && span == SpanAt(s0, a) && a + span <= ENTRY_COUNT
    ensures CountIn(s, 0, |s|) == CountIn(s0, 0, |s0|) - CountIn(s0, a, a + span)
  {
    CountSplit(s, 0, a, |s|);
    CountSplit(s, a, a + span, |s|);
    CountSplit(s0, 0, a, |s0|);
    CountSplit(s0, a, a + span, |s0|);
    CountSame(s0, s, 0, a);
    CountAll(s, a, a + span, false);
    CountSame(s0, s, a + span, |s|);
  }

  // Beyond the next free entry nothing is written that does not belong to an item before it.
  lemma NoneWrittenBeyond(s: seq<Slot>, nf: nat, from: nat, nextFree: nat)
    requires Loose(s, nf)
    requires forall i: nat :: i < |s| && IsHead(s[i]) ==> i < nextFree
    requires forall k: nat :: k < |s| && s[k].st.WRITTEN? && k < nextFree ==> k < from
    requires forall k: nat :: k < from && k < |s| ==> !s[k].st.WRITTEN?
    ensures forall k: nat :: k < |s| ==> !s[k].st.WRITTEN?
  {
    assert forall h: nat :: h < |s| ==> !IsHead(s[h]);
    assert forall k: nat :: k < |s| ==> !Covered(s, k);
  }

  // The least written entry of [from, end), or none.
  ghost predicate NextWritten(s: seq<Slot>, from: nat, end: nat, i: nat) {
    if i == INVALID_ENTRY then forall k :: from <= k < end && k < |s| ==> !s[k].st.WRITTEN?
    else from <= i < |s| && s[i].st.WRITTEN? && forall k :: from <= k < i ==> !s[k].st.WRITTEN?
  }

  lemma RemovedFirstUsed(s0: seq<Slot>, s: seq<Slot>, nf: nat, a: nat, nextFree: nat, firstUsed: nat)
    requires Removed(s0, s, nf, a) && Loose(s, nf) && a + SpanAt(s0, a) <= |s0|
    requires LeastWritten(s0, 0, a)
    requires forall i: nat :: i < |s| && IsHead(s[i]) ==> i < nextFree
    requires NextWritten(s, a + SpanAt(s0, a), nextFree, firstUsed)
    ensures LeastWritten(s, 0, firstUsed)
  {
    assert forall k :: 0 <= k < a + SpanAt(s0, a) ==> !s[k].st.WRITTEN?;
    if firstUsed == INVALID_ENTRY {
      NoneWrittenBeyond(s, nf, a + SpanAt(s0, a), nextFree);
    }
  }

  lemma RemovedNodes(n0: set<Node>, s0: seq<Slot>, n: set<Node>, s: seq<Slot>, nf: nat, a: nat, hashOf: Id -> nat,
                     upto: nat)
    requires Removed(s0, s, nf, a) && Indexes(n0, s0, hashOf, upto)
    requires n == set x | x in n0 && x.index != a
    ensures Indexes(n, s, hashOf, upto)
    ensures forall i: nat :: i < |s| && IsHead(s[i]) ==> IsHead(s0[i]) && i != a
  {
    forall i: nat | i < |s| && IsHead(s[i])
      ensures IsHead(s0[i]) && i != a && s[i] == s0[i]
    {
      assert !(a <= i < a + SpanAt(s0, a));
    }
    forall x | x in n ensures x.index < upto && x.index < |s| && IsHead(s[x.index]) && x == NodeAt(s, x.index, hashOf) {
      assert x in n0 && IsHead(s0[x.index]);
      if a < x.index < a + SpanAt(s0, a) {
        assert Covers(s0, a, x.index);
      }
    }
    forall i: nat | i < upto && i < |s| && IsHead(s[i]) ensures NodeAt(s, i, hashOf) in n {
      assert NodeAt(s0, i, hashOf) in n0;
    }
  }

  // The counters and the hash list follow an erase.
  lemma EraseKeepsRam(r0: Ram, s0: seq<Slot>, r: Ram, s: seq<Slot>, hashOf: Id -> nat, upto: nat, a: nat, span: nat)
    requires Working(r0, s0, hashOf, upto) && Removed(s0, s, r0.top, a) && span == SpanAt(s0, a)
      && a + span <= ENTRY_COUNT
    requires r.top == r0.top && Synced(r.table, s)
    requires r.used == r0.used - CountIn(s0, a, a + span)
    requires r.nodes == set x | x in r0.nodes && x.index != a
    requires r.nextFree == if a + span > r0.nextFree then a + span else r0.nextFree
    requires if a == r0.firstUsed then NextWritten(s, a + span, r0.nextFree, r.firstUsed)
      else r.firstUsed == r0.firstUsed
    ensures Working(r, s, hashOf, upto)
  {
    RemovedIsLoose(s0, s, r0.top, a);
    RemovedCount(s0, s, r0.top, a, span);
    RemovedNodes(r0.nodes, s0, r.nodes, s, r0.top, a, hashOf, upto);
    if a == r0.firstUsed {
      RemovedFirstUsed(s0, s, r0.top, a, r0.nextFree, r.firstUsed);
    } else {
      RemovedOtherFirstUsed(s0, s, r0.top, a, r.firstUsed);
    }
  }

  lemma RemovedOtherFirstUsed(s0: seq<Slot>, s: seq<Slot>, nf: nat, a: nat, firstUsed: nat)
    requires Removed(s0, s, nf, a) && LeastWritten(s0, 0, firstUsed) && firstUsed != a
    ensures LeastWritten(s, 0, firstUsed)
  {
    assert s0[a].st.WRITTEN?;
    assert firstUsed < a;
  }

  // Between two operations an erase leaves the page in order again.
  lemma {:induction false} EraseKeepsOrder(r0: Ram, s0: seq<Slot>, r: Ram, s: seq<Slot>, hashOf: Id -> nat, a: nat)
    requires InUse(r0, s0, hashOf) && Removed(s0, s, r0.top, a) && Working(r, s, hashOf, ENTRY_COUNT)
    requires r.top == r0.top && r.state == r0.state
    requires r.nextFree == if a + SpanAt(s0, a) > r0.nextFree then a + SpanAt(s0, a) else r0.nextFree
    ensures InUse(r, s, hashOf) && r.nextFree == r0.nextFree
    ensures Recs(s) == RecsIn(s0, 0, a) + RecsIn(s0, a + 1, |s0|)
  {
    hide RecsIn;
    RemovedIsLoose(s0, s, r0.top, a);
    RemovedRecs(s0, s, r0.top, a);
    assert HeadFits(s0, a, r0.top);
  }
}
