// Walking a page from item to item, as searching, copying and loading do.
module PageWalk {
  import opened NvsTypes
  import opened PageImage
  import opened PageRam

  // Scanning item by item, a written entry is always the head of an item that passes its checks.
  lemma WrittenAtBoundary(s: seq<Slot>, nf: nat, i: nat)
    requires Loose(s, nf) && Boundary(s, i) && i < |s| && s[i].st.WRITTEN?
    ensures IsHead(s[i]) && HeadFits(s, i, nf)
  {
    assert !Covered(s, i);
  }

  lemma HeadReaches(s: seq<Slot>, nf: nat, a: nat)
    requires Loose(s, nf) && a < |s| && IsHead(s[a])
    ensures a < nf && 1 <= SpanAt(s, a) && a + SpanAt(s, a) <= nf <= |s| == ENTRY_COUNT
  {
    assert HeadFits(s, a, nf);
  }

  lemma BoundaryAfter(s: seq<Slot>, nf: nat, i: nat)
    requires Loose(s, nf) && Boundary(s, i) && i < |s| && IsHead(s[i])
    ensures Boundary(s, i + SpanAt(s, i)) && (!IsVariableLengthType(s[i].body.item.typ) ==> SpanAt(s, i) == 1)
    ensures forall k: nat :: i < k < i + SpanAt(s, i) && k < |s| ==> !IsHead(s[k])
    ensures i < i + SpanAt(s, i) <= |s|
  {
    assert HeadFits(s, i, nf);
    forall k: nat | i < k < i + SpanAt(s, i) && k < |s| ensures !IsHead(s[k]) {
      assert Covers(s, i, k);
    }
  }

  lemma BoundaryOver(s: seq<Slot>, i: nat)
    requires Boundary(s, i) && i < |s| && !IsHead(s[i])
    ensures Boundary(s, i + 1)
  {
    assert SpanAt(s, i) == 0;
  }

  lemma HeadIsBoundary(s: seq<Slot>, nf: nat, i: nat)
    requires Loose(s, nf) && i < |s| && IsHead(s[i])
    ensures Boundary(s, i)
  {
    forall h: nat | h < i ensures h + SpanAt(s, h) <= i {
      assert !Covers(s, h, i);
    }
  }

  lemma {:induction false} BeforeFirstUsed(s: seq<Slot>, i: nat)
    requires LeastWritten(s, 0, i) && i != INVALID_ENTRY
    ensures Boundary(s, i) && RecsIn(s, 0, i) == [] && CountIn(s, 0, i) == 0
  {
    RecsNone(s, 0, i);
    CountAll(s, 0, i, false);
    assert forall h: nat :: h < i ==> SpanAt(s, h) == 0;
  }

  lemma SkippedEntry(s: seq<Slot>, i: nat)
    requires Boundary(s, i) && i < |s| && !s[i].st.WRITTEN?
    ensures Boundary(s, i + 1) && RecsIn(s, 0, i + 1) == RecsIn(s, 0, i) && CountIn(s, 0, i + 1) == CountIn(s, 0, i)
  {
    assert SpanAt(s, i) == 0;
  }

  // Copying moves on from one item to the next.
  lemma {:induction false} NextItem(s: seq<Slot>, nf: nat, i: nat, j: nat)
    requires Loose(s, nf) && Boundary(s, i) && i < |s| && Whole(s, i) && j == i + SpanAt(s, i)
    ensures i < j <= |s| && Boundary(s, j)
    ensures RecsIn(s, 0, j) == RecsIn(s, 0, i) + [RecAt(s, i)]
    ensures CountIn(s, 0, j) == CountIn(s, 0, i) + SpanAt(s, i)
  {
    BoundaryAfter(s, nf, i);
    hide Loose, Boundary;
    NextRecs(s, i, j);
    NextCount(s, i, j);
  }

  lemma {:induction false} NextRecs(s: seq<Slot>, i: nat, j: nat)
    requires i < j <= |s| && Whole(s, i) && forall k: nat :: i < k < j && k < |s| ==> !IsHead(s[k])
    ensures RecsIn(s, 0, j) == RecsIn(s, 0, i) + [RecAt(s, i)]
  {
    RecsNone(s, i + 1, j);
    hide Whole, RecsIn;
    RecsSplit(s, 0, i, j);
    RecsSplit(s, i, i + 1, j);
    RecsOne(s, i);
  }

  lemma {:induction false} NextCount(s: seq<Slot>, i: nat, j: nat)
    requires i < j <= |s| && Whole(s, i) && j == i + SpanAt(s, i)
    ensures CountIn(s, 0, j) == CountIn(s, 0, i) + SpanAt(s, i)
  {
    forall k | i < k < j ensures s[k].st.WRITTEN? {
      assert Payload(s[k]);
    }
    CountSplit(s, 0, i, j);
    CountAll(s, i, j, true);
  }
}
