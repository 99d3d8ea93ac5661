// What single flash steps do to a page image: every one of them leaves the page loose, and the
// records on it change only at the step that completes an item or starts to take one away.
module PageSteps {
  import opened NvsTypes
  import opened PageImage

  // The next free entry is programmed but still counts as EMPTY.
  lemma BodyProgrammed(s: seq<Slot>, f: nat, b: Body)
    requires Quiet(s, f) && f < ENTRY_COUNT
    requires b.Blank? || !FirstWordBlank(b)
    ensures Loose(s[f := Slot(EMPTY, b)], if b.Blank? then f else f + 1)
    ensures Recs(s[f := Slot(EMPTY, b)]) == Recs(s)
  {
    var t := s[f := Slot(EMPTY, b)];
    if b.Blank? {
      assert t == s;
    } else {
      assert forall h: nat :: SpanAt(t, h) == SpanAt(s, h);
      forall i: nat | i < f + 1 && IsHead(t[i]) ensures HeadFits(t, i, f + 1) {
        assert HeadFits(s, i, f);
      }
      forall h: nat, j: nat | h < |t| && j < |t| && Covers(t, h, j) ensures !IsHead(t[j]) {
        assert Covers(s, h, j);
      }
      forall j: nat | j < f + 1 && Payload(t[j]) ensures Covered(t, j) {
        assert Covered(s, j);
        var h: nat :| Covers(s, h, j);
        assert Covers(t, h, j);
      }
      assert Dirty(t, f, f + 1);
      BeyondItems(s, t, f);
    }
  }

  // Changing what no item reaches changes no record.
  lemma BeyondItems(s: seq<Slot>, t: seq<Slot>, f: nat)
    requires Loose(s, f) && |t| == |s|
    requires forall i :: 0 <= i < f ==> t[i] == s[i]
    requires forall i :: f <= i < |t| ==> !IsHead(t[i])
    ensures Recs(t) == Recs(s)
  {
    forall i: nat | i < ENTRY_COUNT
      ensures Whole(s, i) == Whole(t, i)
      ensures Whole(s, i) ==> RecAt(s, i) == RecAt(t, i)
    {
      if i < f && IsHead(s[i]) {
        assert HeadFits(s, i, f);
      }
    }
    RecsSame(s, t, 0, |s|);
  }

  // An item is being written at the end of a quiet page; its payload may be in any state.
  ghost predicate Growing(s0: seq<Slot>, s: seq<Slot>, f: nat, it: Item) {
    && Quiet(s0, f) && |s| == ENTRY_COUNT && f < ENTRY_COUNT
    && Consistent(it, f) && f + it.span <= ENTRY_COUNT && WritableId(it)
    && (forall i :: 0 <= i < f ==> s[i] == s0[i])
    && s[f] == Slot(WRITTEN, Head(it))
    && (forall j :: f < j < f + it.span ==> !s[j].st.ILLEGAL? && (s[j].st.WRITTEN? ==> s[j].body.Data?))
    && (forall j :: f + it.span <= j < ENTRY_COUNT ==> s[j] == BLANK_SLOT)
  }

  lemma GrowingIsLoose(s0: seq<Slot>, s: seq<Slot>, f: nat, it: Item)
    requires Growing(s0, s, f, it)
    ensures Loose(s, f + it.span)
    ensures Whole(s, f) ==> Quiet(s, f + it.span)
  {
    GrowingSpans(s0, s, f, it);
    GrowingCovers(s0, s, f, it);
    forall i: nat | i < f && IsHead(s[i])
      ensures HeadFits(s, i, f + it.span)
      ensures Whole(s0, i) ==> Whole(s, i)
    {
      assert HeadFits(s0, i, f);
    }
  }

  lemma GrowingSpans(s0: seq<Slot>, s: seq<Slot>, f: nat, it: Item)
    requires Growing(s0, s, f, it)
    ensures SpanAt(s, f) == it.span
    ensures forall h: nat :: h < f ==> SpanAt(s, h) == SpanAt(s0, h) && h + SpanAt(s0, h) <= f
    ensures forall h: nat :: h > f ==> SpanAt(s, h) == 0
  {
    forall h: nat | h < f ensures SpanAt(s, h) == SpanAt(s0, h) && h + SpanAt(s0, h) <= f {
      assert IsHead(s0[h]) ==> HeadFits(s0, h, f);
    }
  }

  lemma GrowingCovers(s0: seq<Slot>, s: seq<Slot>, f: nat, it: Item)
    requires Growing(s0, s, f, it)
    ensures forall j: nat :: j < f + it.span && Payload(s[j]) ==> Covered(s, j)
    ensures forall j: nat :: j < f + it.span && s[j].st.EMPTY? ==> Open(s, j, f + it.span)
  {
    GrowingSpans(s0, s, f, it);
    forall j: nat | f < j < f + it.span ensures Covered(s, j) && Open(s, j, f + it.span) {
      assert Covers(s, f, j) && f + SpanAt(s, f) == f + it.span;
    }
    forall j: nat | j < f && Payload(s[j]) ensures Covered(s, j) {
      assert Covered(s0, j);
      var h: nat :| Covers(s0, h, j);
      assert Covers(s, h, j);
    }
  }

  lemma GrowingRecs(s0: seq<Slot>, s: seq<Slot>, f: nat, it: Item)
    requires Growing(s0, s, f, it)
    ensures Recs(s) == Recs(s0) + (if Whole(s, f) then [RecAt(s, f)] else [])
  {
    hide Quiet, Loose, RecsIn, Whole;
    GrowingSame(s0, s, f, it);
    RecsSame(s0, s, 0, f);
    RecsAround(s, f);
    RecsNone(s, f + 1, |s|);
    RecsSplit(s0, 0, f, |s0|);
    RecsNone(s0, f, |s0|);
  }

  lemma GrowingSame(s0: seq<Slot>, s: seq<Slot>, f: nat, it: Item)
    requires Growing(s0, s, f, it)
    ensures |s0| == ENTRY_COUNT && SameItems(s0, s, 0, f)
    ensures forall i: nat :: f < i < |s| ==> !Whole(s, i)
    ensures forall i: nat :: f <= i < |s0| ==> !Whole(s0, i)
  {
    forall i: nat | i < f
      ensures Whole(s0, i) == Whole(s, i)
      ensures Whole(s0, i) ==> RecAt(s0, i) == RecAt(s, i)
    {
      if IsHead(s0[i]) {
        assert HeadFits(s0, i, f);
      }
    }
  }

  // Items of a loose page do not overlap.
  lemma Disjoint(s: seq<Slot>, nf: nat, a: nat, h: nat)
    requires Loose(s, nf) && a < |s| && h < |s| && IsHead(s[a]) && IsHead(s[h]) && a != h
    ensures h < a ==> h + SpanAt(s, h) <= a
    ensures a < h ==> a + SpanAt(s, a) <= h
  {
    if h < a { assert !Covers(s, h, a); } else { assert !Covers(s, a, h); }
  }

  // Some payload entries of the item at a have been set to ERASED.
  ghost predicate Eroding(s0: seq<Slot>, s: seq<Slot>, nf: nat, a: nat) {
    && Loose(s0, nf) && |s| == ENTRY_COUNT && a < nf && IsHead(s0[a])
    && s[a] == s0[a]
    && (forall j :: 0 <= j < ENTRY_COUNT && !(a < j < a + SpanAt(s0, a)) ==> s[j] == s0[j])
    && (forall j :: a < j < a + SpanAt(s0, a) && j < ENTRY_COUNT ==> s[j] == s0[j] || s[j] == Slot(ERASED, s0[j].body))
  }

  lemma ErodingIsLoose(s0: seq<Slot>, s: seq<Slot>, nf: nat, a: nat)
    requires Eroding(s0, s, nf, a)
    ensures Loose(s, nf)
  {
    assert HeadFits(s0, a, nf);
    forall h: nat ensures SpanAt(s, h) == SpanAt(s0, h) {
      assert a < h < a + SpanAt(s0, a) ==> Covers(s0, a, h);
    }
    assert forall h: nat, j: nat :: Covers(s, h, j) == Covers(s0, h, j);
    assert forall j: nat :: Covered(s0, j) ==> Covered(s, j);
    forall i: nat | i < nf && IsHead(s[i]) ensures HeadFits(s, i, nf) {
      assert HeadFits(s0, i, nf);
    }
  }

  lemma {:induction false} OtherItemsKept(s0: seq<Slot>, s: seq<Slot>, nf: nat, a: nat)
    requires Loose(s0, nf) && |s| == ENTRY_COUNT && a < nf && IsHead(s0[a])
    requires forall j :: 0 <= j < ENTRY_COUNT && !(a <= j < a + SpanAt(s0, a)) ==> s[j] == s0[j]
    requires forall j :: a < j < a + SpanAt(s0, a) && j < ENTRY_COUNT ==> !IsHead(s[j])
    ensures SameItems(s0, s, 0, a) && SameItems(s0, s, a + 1, |s0|)
    ensures RecsIn(s, 0, a) == RecsIn(s0, 0, a) && RecsIn(s, a + 1, |s|) == RecsIn(s0, a + 1, |s0|)
  {
    assert HeadFits(s0, a, nf);
    forall h: nat | h < ENTRY_COUNT && h != a
      ensures Whole(s0, h) == Whole(s, h)
      ensures Whole(s0, h) ==> RecAt(s0, h) == RecAt(s, h)
    {
      if a < h < a + SpanAt(s0, a) {
        assert Covers(s0, a, h);
      } else if IsHead(s0[h]) {
        Disjoint(s0, nf, a, h);
      }
    }
    RecsSame(s0, s, 0, a);
    RecsSame(s0, s, a + 1, |s0|);
  }

  lemma {:induction false} ErodingRecs(s0: seq<Slot>, s: seq<Slot>, nf: nat, a: nat)
    requires Eroding(s0, s, nf, a)
    ensures Whole(s, a) ==> Whole(s0, a) && ItemAt(s, a) == ItemAt(s0, a)
    ensures Recs(s) == RecsIn(s0, 0, a) + ItemAt(s, a) + RecsIn(s0, a + 1, |s0|)
  {
    assert HeadFits(s0, a, nf);
    forall j: nat | a < j < a + SpanAt(s0, a) ensures !IsHead(s[j]) {
      assert Covers(s0, a, j);
    }
    hide Loose, RecsIn;
    OtherItemsKept(s0, s, nf, a);
    RecsAround(s, a);
    if Whole(s, a) {
      forall j | a < j < a + SpanAt(s0, a) ensures s[j] == s0[j] {
        assert Payload(s[j]);
      }
      assert RecAt(s, a) == RecAt(s0, a);
    }
  }

  // The item at a is gone: its head and all its payload are ERASED.
  ghost predicate Removed(s0: seq<Slot>, s: seq<Slot>, nf: nat, a: nat) {
    && Loose(s0, nf) && |s| == ENTRY_COUNT && a < nf && IsHead(s0[a])
    && (forall j :: 0 <= j < ENTRY_COUNT && !(a <= j < a + SpanAt(s0, a)) ==> s[j] == s0[j])
    && (forall j :: a <= j < a + SpanAt(s0, a) && j < ENTRY_COUNT ==> s[j] == Slot(ERASED, s0[j].body))
  }

  lemma RemovedSpans(s0: seq<Slot>, s: seq<Slot>, nf: nat, a: nat)
    requires Removed(s0, s, nf, a)
    ensures forall h: nat :: h != a ==> SpanAt(s, h) == SpanAt(s0, h)
    ensures SpanAt(s, a) == 0
  {
    forall h: nat | a < h < a + SpanAt(s0, a) ensures SpanAt(s0, h) == 0 { assert Covers(s0, a, h); }
  }

  lemma RemovedCovers(s0: seq<Slot>, s: seq<Slot>, nf: nat, a: nat)
    requires Removed(s0, s, nf, a)
    ensures forall j: nat :: j < nf && (Payload(s[j]) || s[j].st.EMPTY?) ==> s[j] == s0[j]
    ensures forall j: nat :: j < nf && Payload(s[j]) && Covered(s0, j) ==> Covered(s, j)
    ensures forall j: nat :: j < nf && s[j].st.EMPTY? && Open(s0, j, nf) ==> Open(s, j, nf)
  {
    RemovedSpans(s0, s, nf, a);
    hide Loose;
    forall j: nat | j < nf && Payload(s[j]) && Covered(s0, j) ensures Covered(s, j) {
      var h: nat :| Covers(s0, h, j);
      assert Covers(s, h, j);
    }
    forall j: nat | j < nf && s[j].st.EMPTY? && Open(s0, j, nf) ensures Open(s, j, nf) {
      var h: nat :| Covers(s0, h, j) && h + SpanAt(s0, h) == nf;
      assert Covers(s, h, j) && h + SpanAt(s, h) == nf;
    }
  }

  lemma RemovedIsLoose(s0: seq<Slot>, s: seq<Slot>, nf: nat, a: nat)
    requires Removed(s0, s, nf, a)
    ensures Loose(s, nf)
    ensures Quiet(s0, nf) ==> Quiet(s, nf)
  {
    assert HeadFits(s0, a, nf);
    RemovedSpans(s0, s, nf, a);
    RemovedCovers(s0, s, nf, a);
    forall i: nat | i < nf && IsHead(s[i]) ensures HeadFits(s, i, nf) {
      assert HeadFits(s0, i, nf);
    }
    forall h: nat, j: nat | h < |s| && j < |s| && Covers(s, h, j) ensures !IsHead(s[j]) {
      assert Covers(s0, h, j);
    }
    if Quiet(s0, nf) {
      OtherItemsKept(s0, s, nf, a);
    }
  }

  lemma {:induction false} RemovedRecs(s0: seq<Slot>, s: seq<Slot>, nf: nat, a: nat)
    requires Removed(s0, s, nf, a)
    ensures Recs(s) == RecsIn(s0, 0, a) + RecsIn(s0, a + 1, |s0|)
    ensures !Whole(s0, a) ==> Recs(s) == Recs(s0)
  {
    assert HeadFits(s0, a, nf);
    hide Loose, RecsIn;
    OtherItemsKept(s0, s, nf, a);
    RecsAround(s, a);
    RecsAround(s0, a);
  }

  // One entry that starts no item and belongs to no whole item is set to ERASED.
  ghost predicate Scrubbed(s0: seq<Slot>, s: seq<Slot>, nf: nat, e: nat) {
    && Loose(s0, nf) && e < nf && !IsHead(s0[e])
    && s == s0[e := Slot(ERASED, s0[e].body)]
    && (forall h: nat :: Whole(s0, h) ==> !Covers(s0, h, e))
  }

  lemma ScrubbedIsLoose(s0: seq<Slot>, s: seq<Slot>, nf: nat, e: nat)
    requires Scrubbed(s0, s, nf, e)
    ensures Loose(s, nf)
  {
    assert forall h: nat :: SpanAt(s, h) == SpanAt(s0, h);
    assert forall h: nat, j: nat :: Covers(s, h, j) == Covers(s0, h, j);
    assert forall j: nat :: Covered(s0, j) ==> Covered(s, j);
    forall i: nat | i < nf && IsHead(s[i]) ensures HeadFits(s, i, nf) {
      assert HeadFits(s0, i, nf);
    }
  }

  lemma ScrubbedRecs(s0: seq<Slot>, s: seq<Slot>, e: nat)
    requires e < |s0| && !IsHead(s0[e]) && s == s0[e := Slot(ERASED, s0[e].body)]
    requires forall h: nat :: Whole(s0, h) ==> !Covers(s0, h, e)
    ensures Recs(s) == Recs(s0)
  {
    forall h: nat | h < |s|
      ensures Whole(s0, h) == Whole(s, h)
      ensures Whole(s0, h) ==> RecAt(s0, h) == RecAt(s, h)
    {
      if Whole(s0, h) {
        assert !Covers(s0, h, e);
      }
      if Whole(s, h) {
        assert h != e && SpanAt(s, h) == SpanAt(s0, h);
        forall j: nat | h < j < h + SpanAt(s0, h) ensures Payload(s0[j]) {
          assert Payload(s[j]) && j != e;
        }
      }
    }
    RecsSame(s0, s, 0, |s|);
  }
}
