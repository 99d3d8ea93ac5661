// The passes of loading, seen on the page image: the probe that looks for half-written entries
// past the first empty one, and the scan that checks item after item.
module PageScan {
  import opened NvsTypes
  import opened PageImage
  import opened PageSteps
  import opened PageRam
  import opened PageWalk
  import opened PageErases
  import opened FlashDevice
  import opened PageSearch
  import opened PageLoad
  import opened ItemHashList

  // ---------------------------------------------------------------- the probe

  // From the first empty entry e of s0 on, entries up to g have been marked ERASED.
  ghost predicate Probing(s0: seq<Slot>, s: seq<Slot>, nf: nat, e: nat, g: nat) {
    && Loose(s0, nf) && Loose(s, nf) && e <= g <= nf
    && (forall k: nat :: k < e ==> !s0[k].st.EMPTY?)
    && (e < ENTRY_COUNT ==> s0[e].st.EMPTY?)
    && (forall k: nat :: k < ENTRY_COUNT && !(e <= k < g) ==> s[k] == s0[k])
    && (forall k: nat :: e <= k < g ==> s[k] == Slot(ERASED, s0[k].body))
    && Recs(s) == Recs(s0)
  }

  // The last item of the page is not all there.
  ghost predicate OpenItem(s: seq<Slot>, h: nat, nf: nat) {
    h < |s| && IsHead(s[h]) && h + SpanAt(s, h) == nf && !Whole(s, h)
  }

  // An entry inside the last item, some payload of which is missing, is part of no whole item.
  lemma InsideOpen(s: seq<Slot>, nf: nat, h: nat, e: nat, g: nat)
    requires Loose(s, nf) && Covers(s, h, e) && Covers(s, h, g) && h < |s| && e < |s| && g < |s| && !Payload(s[e])
    ensures !IsHead(s[g]) && !Whole(s, h)
    ensures forall x: nat :: Whole(s, x) ==> !Covers(s, x, g)
  {
    forall x: nat | Whole(s, x) ensures !Covers(s, x, g) {
      if x != h && Covers(s, x, g) {
        Disjoint(s, nf, x, h);
      }
    }
  }

  lemma ProbeTarget(s0: seq<Slot>, s: seq<Slot>, nf: nat, e: nat, g: nat)
    requires Probing(s0, s, nf, e, g) && g < ENTRY_COUNT && !FirstWordBlank(s[g].body)
    ensures g < nf && Scrubbed(s, s[g := Slot(ERASED, s[g].body)], nf, g)
  {
    assert g < nf;
    assert s0[e].st.EMPTY?;
    if Open(s0, e, nf) {
      var h: nat :| Covers(s0, h, e) && h + SpanAt(s0, h) == nf;
      assert SpanAt(s, h) == SpanAt(s0, h);
      assert Covers(s, h, e) && Covers(s, h, g);
      InsideOpen(s, nf, h, e, g);
    } else {
      assert Dirty(s0, e, nf) && g == e;
      forall x: nat | Whole(s, x) ensures !Covers(s, x, g) {
        assert !Payload(s[g]);
      }
    }
  }

  lemma ProbeStep(s0: seq<Slot>, s: seq<Slot>, nf: nat, e: nat, g: nat)
    requires Probing(s0, s, nf, e, g) && g < ENTRY_COUNT && !FirstWordBlank(s[g].body)
    ensures g < nf && Probing(s0, s[g := Slot(ERASED, s[g].body)], nf, e, g + 1)
    ensures !IsHead(s[g])
  {
    ProbeTarget(s0, s, nf, e, g);
    var t := s[g := Slot(ERASED, s[g].body)];
    ScrubbedIsLoose(s, t, nf, g);
    ScrubbedRecs(s, t, g);
  }

  // After the probe every entry below g is accounted for, unless the last item is incomplete.
  ghost predicate Probed(s: seq<Slot>, nf: nat, g: nat) {
    && Loose(s, nf) && g <= nf
    && (forall k: nat :: k < g ==> !s[k].st.EMPTY?)
    && (forall k: nat :: g <= k < |s| ==> !IsHead(s[k]))
    && (g < nf ==> exists h: nat :: h < g && OpenItem(s, h, nf))
  }

  lemma ProbeStarts(s0: seq<Slot>, nf: nat, e: nat)
    requires Loose(s0, nf) && e <= ENTRY_COUNT && (e < ENTRY_COUNT ==> s0[e].st.EMPTY?)
    requires forall k: nat :: k < e ==> !s0[k].st.EMPTY?
    ensures Probing(s0, s0, nf, e, e)
    ensures forall i: nat :: i < |s0| && IsHead(s0[i]) ==> i < e
  {
    HeadsBeforeEmpty(s0, nf, e);
  }

  lemma ProbeEnd(s0: seq<Slot>, s: seq<Slot>, nf: nat, e: nat, g: nat)
    requires Probing(s0, s, nf, e, g) && (g == ENTRY_COUNT || FirstWordBlank(s[g].body))
    ensures Probed(s, nf, g) && e <= g <= nf && Recs(s) == Recs(s0)
    ensures EndsInItem(s) <==> EndsInItem(s0)
  {
    HeadsBeforeEmpty(s0, nf, e);
    EndsKept(s0, s, nf, e, g);
    if g < nf {
      assert s0[e].st.EMPTY?;
      assert !Dirty(s0, e, nf) by {
        assert g == e ==> s[e] == s0[e];
      }
      assert Open(s0, e, nf);
      var h: nat :| Covers(s0, h, e) && h + SpanAt(s0, h) == nf;
      assert SpanAt(s, h) == SpanAt(s0, h);
      assert Covers(s, h, e) && Covers(s, h, g);
      assert !Payload(s[e]);
      InsideOpen(s, nf, h, e, g);
      assert h < g && OpenItem(s, h, nf);
    }
  }

  // Items all start before the first empty entry.
  lemma HeadsBeforeEmpty(s: seq<Slot>, nf: nat, e: nat)
    requires Loose(s, nf) && e <= ENTRY_COUNT && (e < ENTRY_COUNT ==> s[e].st.EMPTY?)
    requires forall k: nat :: k < e ==> !s[k].st.EMPTY?
    ensures e <= nf
    ensures forall i: nat :: i < |s| && IsHead(s[i]) ==> i < e
  {
    if nf < ENTRY_COUNT {
      assert s[nf] == BLANK_SLOT;
    }
    forall i: nat | i < |s| && IsHead(s[i]) ensures i < e {
      assert i < nf;
      if e < nf && Open(s, e, nf) {
        var h: nat :| Covers(s, h, e) && h + SpanAt(s, h) == nf;
        if h < i {
          assert Covers(s, h, i);
        }
      }
    }
  }

  // Marking one more entry ERASED, the counters stay right.
  lemma ProbeRam(r: Ram, s0: seq<Slot>, s: seq<Slot>, e: nat, g: nat, hashOf: Id -> nat, r': Ram)
    requires Working(r, s, hashOf, 0) && Probing(s0, s, r.top, e, g) && g < ENTRY_COUNT && !FirstWordBlank(s[g].body)
    requires r.nextFree == g && Synced(r'.table, s[g := Slot(ERASED, s[g].body)])
    requires r' == r.(table := r'.table, nextFree := g + 1, used := r.used - if s[g].st.WRITTEN? then 1 else 0)
    ensures Working(r', s[g := Slot(ERASED, s[g].body)], hashOf, 0)
    ensures Probing(s0, s[g := Slot(ERASED, s[g].body)], r.top, e, g + 1)
  {
    ProbeStep(s0, s, r.top, e, g);
    var t := s[g := Slot(ERASED, s[g].body)];
    CountAround(s, g);
    CountAround(t, g);
    CountSame(s, t, 0, g);
    CountSame(s, t, g + 1, |s|);
    ProbedIsNotFirst(s0, s, r.top, e, g, r.firstUsed);
  }

  lemma {:induction false} CountAround(s: seq<Slot>, g: nat)
    requires g < |s|
    ensures CountIn(s, 0, |s|) == CountIn(s, 0, g) + (if s[g].st.WRITTEN? then 1 else 0) + CountIn(s, g + 1, |s|)
  {
    CountSplit(s, 0, g + 1, |s|);
    assert CountIn(s, 0, g + 1) == CountIn(s, 0, g) + if s[g].st.WRITTEN? then 1 else 0;
  }

  // If anything was left for the probe to mark, the page did not end in an item, and still does not.
  lemma EndsKept(s0: seq<Slot>, s: seq<Slot>, nf: nat, e: nat, g: nat)
    requires Probing(s0, s, nf, e, g)
    ensures EndsInItem(s) <==> EndsInItem(s0)
  {
    if g == e {
      assert s == s0;
    } else {
      HeadsBeforeEmpty(s0, nf, e);
      forall a: nat ensures !EndsAt(s0, a, |s0|) {
        EmptyIsNotEnd(s0, nf, e, a);
      }
      forall a: nat | Whole(s, a) ensures !EndsAt(s, a, |s|) {
        assert a < e;
        assert !Payload(s[e]) && s[e] != BLANK_SLOT;
      }
    }
  }

  lemma EmptyIsNotEnd(s: seq<Slot>, nf: nat, e: nat, a: nat)
    requires Loose(s, nf) && e < nf && s[e].st.EMPTY?
    requires forall i: nat :: i < |s| && IsHead(s[i]) ==> i < e
    ensures !EndsAt(s, a, |s|)
  {
    if Whole(s, a) && a + SpanAt(s, a) <= e && Open(s, e, nf) {
      var h: nat :| Covers(s, h, e) && h + SpanAt(s, h) == nf;
      if h != a {
        Disjoint(s, nf, a, h);
      }
      assert h < e && s[h] != BLANK_SLOT;
    } else if Whole(s, a) {
      assert !Payload(s[e]);
    }
  }

  // What the probe marks is never the first written entry.
  lemma ProbedIsNotFirst(s0: seq<Slot>, s: seq<Slot>, nf: nat, e: nat, g: nat, firstUsed: nat)
    requires Probing(s0, s, nf, e, g) && g < ENTRY_COUNT && !FirstWordBlank(s[g].body)
    requires LeastWritten(s, 0, firstUsed)
    ensures LeastWritten(s[g := Slot(ERASED, s[g].body)], 0, firstUsed)
  {
    if s[g].st.WRITTEN? {
      assert s0[e].st.EMPTY?;
      assert g != e;
      var h: nat :| Covers(s0, h, e) && h + SpanAt(s0, h) == nf;
      assert SpanAt(s, h) == SpanAt(s0, h) && IsHead(s[h]);
    }
  }

  // ---------------------------------------------------------------- the scan

  // The last entry in use ends an item.
  ghost predicate EndsInItem(s: seq<Slot>) {
    exists a: nat :: EndsAt(s, a, |s|)
  }

  ghost predicate EndsAt(s: seq<Slot>, a: nat, end: nat) {
    Whole(s, a) && forall k: nat :: a + SpanAt(s, a) <= k < end && k < |s| ==> s[k] == BLANK_SLOT
  }

  // An item that turned out incomplete is gone with all its entries.
  ghost predicate BrokenGone(s1: seq<Slot>, s: seq<Slot>, i: nat) {
    forall h: nat, k: nat :: h < i && h < |s1| && k < |s| && Covers(s1, h, k) && !Whole(s1, h) ==> s[k].st.ERASED?
  }

  // Items below entry i are whole; from i on the page is as it was before.
  ghost predicate Tidied(s1: seq<Slot>, s: seq<Slot>, nf: nat, i: nat) {
    && Loose(s1, nf) && Loose(s, nf) && i <= ENTRY_COUNT
    && Boundary(s, i) && Boundary(s1, i)
    && (forall k: nat :: i <= k < ENTRY_COUNT ==> s[k] == s1[k])
    && (forall k: nat :: k < i && k < ENTRY_COUNT ==> s[k] == s1[k] || s[k] == Slot(ERASED, s1[k].body))
    && (forall k: nat :: k < i && IsHead(s[k]) ==> Whole(s, k))
    && BrokenGone(s1, s, i)
  }

  // Items below entry i have been checked: on an active page (`dedup`) an item displaces an
  // earlier one with the same hash.
  ghost predicate Scanned(s1: seq<Slot>, s: seq<Slot>, nf: nat, i: nat, dedup: bool, hashOf: Id -> nat) {
    && Tidied(s1, s, nf, i)
    && (dedup ==> HashesApart(s, i, hashOf))
    && RecsIn(s, 0, i) == Checked(RecsIn(s1, 0, i), dedup, hashOf)
  }

  // No two items below i share a hash.
  ghost predicate HashesApart(s: seq<Slot>, i: nat, hashOf: Id -> nat) {
    forall h: nat, k: nat, hash: nat :: h < k < i && HasHash(s, k, hashOf, hash) ==> !HasHash(s, h, hashOf, hash)
  }

  lemma HashesApartMore(s: seq<Slot>, nf: nat, i: nat, hashOf: Id -> nat)
    requires Loose(s, nf) && Boundary(s, i) && i < |s| && IsHead(s[i]) && HashesApart(s, i, hashOf)
    requires forall k: nat :: k < i ==> !HasHash(s, k, hashOf, NodeAt(s, i, hashOf).hash)
    ensures HashesApart(s, i + SpanAt(s, i), hashOf)
  {
    BoundaryAfter(s, nf, i);
    forall h: nat, k: nat, hash: nat | h < k < i + SpanAt(s, i) && HasHash(s, k, hashOf, hash)
      ensures !HasHash(s, h, hashOf, hash)
    {
      assert k <= i;
      assert k == i ==> hash == NodeAt(s, i, hashOf).hash;
    }
  }

  ghost function Checked(recs: seq<Rec>, dedup: bool, hashOf: Id -> nat): seq<Rec> {
    if dedup then Deduped(recs, hashOf) else recs
  }

  lemma ScanStarts(s: seq<Slot>, nf: nat, dedup: bool, hashOf: Id -> nat)
    requires Loose(s, nf)
    ensures Scanned(s, s, nf, 0, dedup, hashOf)
  {
  }

  lemma ScanOver(s1: seq<Slot>, s: seq<Slot>, nf: nat, i: nat, dedup: bool, hashOf: Id -> nat, nodes: set<Node>)
    requires Scanned(s1, s, nf, i, dedup, hashOf) && i < ENTRY_COUNT && !s[i].st.WRITTEN?
    requires Indexes(nodes, s, hashOf, i)
    ensures Scanned(s1, s, nf, i + 1, dedup, hashOf) && Indexes(nodes, s, hashOf, i + 1)
  {
    SkippedEntry(s, i);
    SkippedEntry(s1, i);
  }

  // The item at i is whole and displaces nothing.
  lemma ScanWhole(s1: seq<Slot>, s: seq<Slot>, nf: nat, i: nat, dedup: bool, hashOf: Id -> nat)
    requires Scanned(s1, s, nf, i, dedup, hashOf) && i < ENTRY_COUNT && Whole(s, i)
    requires dedup ==> forall k: nat :: k < i ==> !HasHash(s, k, hashOf, HashOfRec(RecAt(s, i), hashOf))
    ensures Whole(s1, i) && RecAt(s1, i) == RecAt(s, i) && SpanAt(s1, i) == SpanAt(s, i)
    ensures Scanned(s1, s, nf, i + SpanAt(s, i), dedup, hashOf)
  {
    hide Loose, Boundary, BrokenGone, Deduped, DropHash, HashesApart, RecsIn;
    var j := i + SpanAt(s, i);
    TidyMore(s1, s, nf, i);
    if dedup {
      assert NodeAt(s, i, hashOf).hash == HashOfRec(RecAt(s, i), hashOf);
      HashesApartMore(s, nf, i, hashOf);
    }
    NextItem(s, nf, i, j);
    NextItem(s1, nf, i, j);
    if dedup {
      NoHashBelow(s, i, hashOf, HashOfRec(RecAt(s, i), hashOf));
      DropHashNone(RecsIn(s, 0, i), hashOf, HashOfRec(RecAt(s, i), hashOf));
      DedupedMore(RecsIn(s1, 0, i), RecAt(s, i), hashOf);
    }
  }

  lemma WholeSame(s1: seq<Slot>, s: seq<Slot>, i: nat)
    requires |s1| == |s| && i < |s| && forall k: nat :: i <= k < |s| ==> s[k] == s1[k]
    ensures Whole(s1, i) == Whole(s, i) && SpanAt(s1, i) == SpanAt(s, i)
    ensures Whole(s, i) ==> RecAt(s1, i) == RecAt(s, i)
  {
  }

  lemma BrokenGoneMore(s1: seq<Slot>, s: seq<Slot>, nf: nat, i: nat, j: nat)
    requires BrokenGone(s1, s, i) && Loose(s1, nf) && Boundary(s1, i) && i < |s1| && IsHead(s1[i])
      && j == i + SpanAt(s1, i)
    requires Whole(s1, i) || forall k: nat :: k < |s| && Covers(s1, i, k) ==> s[k].st.ERASED?
    ensures BrokenGone(s1, s, j)
  {
    BoundaryAfter(s1, nf, i);
  }

  // The item at i is not all there and has been erased.
  lemma ScanBroken(s1: seq<Slot>, s: seq<Slot>, t: seq<Slot>, nf: nat, i: nat, dedup: bool, hashOf: Id -> nat)
    requires Scanned(s1, s, nf, i, dedup, hashOf) && i < ENTRY_COUNT && IsHead(s[i]) && !Whole(s, i)
    requires Removed(s, t, nf, i)
    ensures !Whole(s1, i) && IsHead(s1[i]) && SpanAt(s1, i) == SpanAt(s, i)
    ensures Scanned(s1, t, nf, i + SpanAt(s, i), dedup, hashOf)
    ensures Recs(t) == Recs(s)
  {
    var j := i + SpanAt(s, i);
    BrokenTidied(s1, s, t, nf, i);
    BoundaryAfter(s1, nf, i);
    RemovedSpans(s, t, nf, i);
    if dedup {
      BrokenApart(s, t, nf, i, hashOf);
    }
    OtherItemsKept(s, t, nf, i);
    RemovedRecs(s, t, nf, i);
    hide Loose, HashesApart, Removed, Tidied, Deduped;
    NoRecs(s1, i, j);
    NoRecs(t, i, j);
  }

  lemma BrokenTidied(s1: seq<Slot>, s: seq<Slot>, t: seq<Slot>, nf: nat, i: nat)
    requires Tidied(s1, s, nf, i) && i < ENTRY_COUNT && IsHead(s[i]) && !Whole(s, i) && Removed(s, t, nf, i)
    ensures !Whole(s1, i) && IsHead(s1[i]) && SpanAt(s1, i) == SpanAt(s, i)
    ensures Tidied(s1, t, nf, i + SpanAt(s, i))
    ensures forall k: nat :: i <= k < i + SpanAt(s, i) && k < |t| ==> !IsHead(t[k])
    ensures i + SpanAt(s, i) <= |s|
  {
    var j := i + SpanAt(s, i);
    WholeSame(s1, s, i);
    RemovedIsLoose(s, t, nf, i);
    BoundaryAfter(s, nf, i);
    BoundaryAfter(s1, nf, i);
    OtherItemsKept(s, t, nf, i);
    RemovedSpans(s, t, nf, i);
    forall k: nat | k < j && IsHead(t[k]) ensures Whole(t, k) {
      assert k < i;
      assert Whole(s, k);
    }
    BrokenGoneMore(s1, t, nf, i, j);
  }

  lemma BrokenApart(s: seq<Slot>, t: seq<Slot>, nf: nat, i: nat, hashOf: Id -> nat)
    requires Removed(s, t, nf, i) && HashesApart(s, i, hashOf)
    requires forall k: nat :: i <= k < i + SpanAt(s, i) && k < |t| ==> !IsHead(t[k])
    ensures HashesApart(t, i + SpanAt(s, i), hashOf)
  {
    assert forall k: nat, h: nat :: HasHash(t, k, hashOf, h) ==> HasHash(s, k, hashOf, h) && k != i;
  }

  lemma {:induction false} NoRecs(s: seq<Slot>, i: nat, j: nat)
    requires i <= j <= |s| && forall k: nat :: i <= k < j ==> !Whole(s, k)
    ensures RecsIn(s, 0, j) == RecsIn(s, 0, i)
  {
    RecsSplit(s, 0, i, j);
    RecsNone(s, i, j);
  }

  // The item at i is whole; the item at d with the same hash has been erased.
  lemma ScanDuplicate(s1: seq<Slot>, s: seq<Slot>, t: seq<Slot>, nf: nat, i: nat, d: nat, hashOf: Id -> nat)
    requires Scanned(s1, s, nf, i, true, hashOf) && d < i < ENTRY_COUNT && Whole(s, i)
    requires HasHash(s, d, hashOf, HashOfRec(RecAt(s, i), hashOf))
    requires forall k: nat :: k < d ==> !HasHash(s, k, hashOf, HashOfRec(RecAt(s, i), hashOf))
    requires Removed(s, t, nf, d) && |s| == ENTRY_COUNT == |s1| && |t| == ENTRY_COUNT
    ensures Whole(s1, i) && RecAt(s1, i) == RecAt(s, i) && SpanAt(s1, i) == SpanAt(s, i)
    ensures t[i] == s[i] && SpanAt(t, i) == SpanAt(s, i)
    ensures Scanned(s1, t, nf, i + SpanAt(s, i), true, hashOf)
  {
    hide Loose, Removed, Boundary, BrokenGone, Deduped, DropHash, HashesApart, RecsIn;
    var j := i + SpanAt(s, i);
    WholeSame(s1, s, i);
    DuplicateGone(s1, s, t, nf, i, d);
    DuplicateRecs(s, t, nf, i, d, hashOf, HashOfRec(RecAt(s, i), hashOf));
    TidyMore(s1, t, nf, i);
    HashesApartRemoved(s, t, nf, i, d, hashOf, HashOfRec(RecAt(s, i), hashOf));
    HashesApartMore(t, nf, i, hashOf);
    NextItem(t, nf, i, j);
    NextItem(s1, nf, i, j);
    DedupedMore(RecsIn(s1, 0, i), RecAt(s, i), hashOf);
  }

  lemma HashesApartRemoved(s: seq<Slot>, t: seq<Slot>, nf: nat, i: nat, d: nat, hashOf: Id -> nat, hash: nat)
    requires Removed(s, t, nf, d) && HashesApart(s, i, hashOf) && d < i <= |s| && HasHash(s, d, hashOf, hash)
    ensures HashesApart(t, i, hashOf)
    ensures forall k: nat :: k < i ==> !HasHash(t, k, hashOf, hash)
  {
    RemovedSpans(s, t, nf, d);
    assert forall k: nat, h: nat :: HasHash(t, k, hashOf, h) ==> k != d && HasHash(s, k, hashOf, h);
  }

  lemma TidyMore(s1: seq<Slot>, t: seq<Slot>, nf: nat, i: nat)
    requires Tidied(s1, t, nf, i) && i < ENTRY_COUNT && Whole(t, i)
    ensures Tidied(s1, t, nf, i + SpanAt(t, i))
    ensures SpanAt(s1, i) == SpanAt(t, i) && Whole(s1, i) && RecAt(s1, i) == RecAt(t, i)
  {
    WholeSame(s1, t, i);
    BoundaryAfter(t, nf, i);
    BoundaryAfter(s1, nf, i);
    BrokenGoneMore(s1, t, nf, i, i + SpanAt(t, i));
  }

  lemma DuplicateGone(s1: seq<Slot>, s: seq<Slot>, t: seq<Slot>, nf: nat, i: nat, d: nat)
    requires Tidied(s1, s, nf, i) && d < i < ENTRY_COUNT && Whole(s, i) && IsHead(s[d]) && Removed(s, t, nf, d)
    ensures Tidied(s1, t, nf, i) && Whole(t, i) && RecAt(t, i) == RecAt(s, i) && t[i] == s[i]
  {
    Disjoint(s, nf, d, i);
    RemovedIsLoose(s, t, nf, d);
    RemovedSpans(s, t, nf, d);
    OtherItemsKept(s, t, nf, d);
    forall k: nat | k < i && IsHead(t[k]) ensures Whole(t, k) {
      assert Whole(s, k);
    }
  }

  lemma {:induction false} DuplicateRecs(s: seq<Slot>, t: seq<Slot>, nf: nat, i: nat, d: nat, hashOf: Id -> nat,
                                         hash: nat)
    requires d < i <= |s| && Removed(s, t, nf, d) && Whole(s, d) && HasHash(s, d, hashOf, hash)
    requires forall k: nat :: k < d ==> !HasHash(s, k, hashOf, hash)
    ensures RecsIn(t, 0, i) == DropHash(RecsIn(s, 0, i), hashOf, hash)
  {
    hide Loose, Whole, RecsIn, DropHash, HasHash;
    HasHashIsHead(s, d, hashOf, hash);
    HeadReaches(s, nf, d);
    OtherItemsKept(s, t, nf, d);
    NotWhole(t, d);
    RecsApart(s, d, i);
    RecsApart(t, d, i);
    assert SameItems(s, t, d + 1, i);
    RecsSame(s, t, d + 1, i);
    NoHashBelow(s, d, hashOf, hash);
    DropHashAt(RecsIn(s, 0, d), RecAt(s, d), RecsIn(s, d + 1, i), hashOf, hash);
  }

  lemma HasHashIsHead(s: seq<Slot>, d: nat, hashOf: Id -> nat, hash: nat)
    requires HasHash(s, d, hashOf, hash)
    ensures d < |s| && IsHead(s[d]) && NodeAt(s, d, hashOf).hash == hash
  {
  }

  lemma {:induction false} RecsApart(s: seq<Slot>, d: nat, i: nat)
    requires d < i <= |s|
    ensures RecsIn(s, 0, i) == RecsIn(s, 0, d) + ItemAt(s, d) + RecsIn(s, d + 1, i)
  {
    RecsSplit(s, 0, d + 1, i);
    assert RecsIn(s, 0, d + 1) == RecsIn(s, 0, d) + ItemAt(s, d);
    hide RecsIn, Whole;
  }

  lemma NotWhole(t: seq<Slot>, d: nat)
    requires d < |t| && !IsHead(t[d])
    ensures !Whole(t, d)
  {
  }

  // Records of items below i that have no node of this hash.
  lemma {:induction false} NoHashBelow(s: seq<Slot>, i: nat, hashOf: Id -> nat, hash: nat)
    requires i <= |s| && forall k: nat :: k < i ==> !HasHash(s, k, hashOf, hash)
    ensures forall r :: r in RecsIn(s, 0, i) ==> HashOfRec(r, hashOf) != hash
  {
    if i > 0 {
      NoHashBelow(s, i - 1, hashOf, hash);
      assert !HasHash(s, i - 1, hashOf, hash);
    }
  }

  // What the scan knows about the item that ends where it stands.
  ghost predicate LastAt(s1: seq<Slot>, s: seq<Slot>, i: nat, last: nat) {
    if last == INVALID_ENTRY then forall a: nat :: Whole(s1, a) ==> a + SpanAt(s1, a) != i
    else last < i && Whole(s1, last) && last + SpanAt(s1, last) == i && last < |s| && IsHead(s[last])
  }

  lemma NoLast(s1: seq<Slot>, s: seq<Slot>, nf: nat, i: nat)
    requires Loose(s1, nf) && Boundary(s1, i) && i < |s1| && !Whole(s1, i)
    ensures LastAt(s1, s, i + if IsHead(s1[i]) then SpanAt(s1, i) else 1, INVALID_ENTRY)
  {
    if IsHead(s1[i]) {
      BoundaryAfter(s1, nf, i);
    }
  }

  // The scan is over: every item is whole, and it is known whether the last entry in use ends one.
  lemma ScanEnds(s1: seq<Slot>, s: seq<Slot>, nf: nat, g: nat, i: nat, dedup: bool, hashOf: Id -> nat)
    requires Probed(s1, nf, g) && Scanned(s1, s, nf, i, dedup, hashOf) && g <= i
    ensures Quiet(s, nf) && Recs(s) == Checked(Recs(s1), dedup, hashOf)
  {
    ScanIsQuiet(s1, s, nf, g, i);
    hide Loose, HashesApart, Deduped, Quiet;
    NoRecs(s, i, |s|);
    NoRecs(s1, i, |s1|);
    assert Recs(s1) == RecsIn(s1, 0, i);
  }

  lemma ScanIsQuiet(s1: seq<Slot>, s: seq<Slot>, nf: nat, g: nat, i: nat)
    requires Probed(s1, nf, g) && Tidied(s1, s, nf, i) && g <= i
    ensures Quiet(s, nf)
  {
    forall k: nat | k < nf ensures !s[k].st.EMPTY? {
      if g <= k {
        var h: nat :| h < g && OpenItem(s1, h, nf);
        assert Covers(s1, h, k);
      }
    }
  }

  lemma LastIsEnd(s1: seq<Slot>, s: seq<Slot>, nf: nat, g: nat, i: nat, last: nat)
    requires Probed(s1, nf, g) && g <= i <= nf && LastAt(s1, s, i, last)
    ensures last != INVALID_ENTRY <==> EndsInItem(s1)
    ensures last != INVALID_ENTRY ==> i == nf
  {
    if g < nf {
      var h: nat :| h < g && OpenItem(s1, h, nf);
      if last != INVALID_ENTRY {
        Disjoint(s1, nf, h, last);
      }
      forall a: nat | Whole(s1, a) ensures !EndsAt(s1, a, |s1|) {
        Disjoint(s1, nf, a, h);
        assert s1[h] != BLANK_SLOT;
      }
    } else if last != INVALID_ENTRY {
      assert EndsAt(s1, last, |s1|);
    } else {
      forall a: nat | Whole(s1, a) ensures !EndsAt(s1, a, |s1|) {
        assert HeadFits(s1, a, nf);
        assert a + SpanAt(s1, a) < nf && s1[a + SpanAt(s1, a)] != BLANK_SLOT;
      }
    }
  }

  // ---------------------------------------------------------------- power cuts while a page is loaded

  // Slots a page in this state can hold on flash: a page that is no longer written to has no
  // EMPTY entry before its blank tail.
  ghost predicate SoundAt(st: PageState, s: seq<Slot>, nf: nat) {
    Loose(s, nf) && (!st.ACTIVE? ==> forall i: nat :: i < nf ==> !s[i].st.EMPTY?)
  }

  ghost predicate Loadable(fp: FPage) {
    && |fp.slots| == ENTRY_COUNT
    && (fp.hdr.Header? ==> LiveState(fp.hdr.st) && exists nf: nat :: SoundAt(fp.hdr.st, fp.slots, nf))
  }

  // The first k records have been checked, the rest not yet.
  ghost predicate StageOf(recs: seq<Rec>, r: seq<Rec>, dedup: bool, hashOf: Id -> nat) {
    exists k: nat :: k <= |recs| && r == Checked(recs[..k], dedup, hashOf) + recs[k..]
  }

  lemma ScanStage(s1: seq<Slot>, s: seq<Slot>, nf: nat, i: nat, dedup: bool, hashOf: Id -> nat)
    requires Scanned(s1, s, nf, i, dedup, hashOf)
    ensures StageOf(Recs(s1), Recs(s), dedup, hashOf)
  {
    assert forall k: nat :: i <= k < |s| ==> Whole(s1, k) == Whole(s, k);
    RecsSame(s1, s, i, |s|);
    hide Loose, Tidied, RecsIn, Deduped, HashesApart;
    RecsSplit(s1, 0, i, |s1|);
    RecsSplit(s, 0, i, |s|);
    var k := |RecsIn(s1, 0, i)|;
    assert Recs(s1)[..k] == RecsIn(s1, 0, i) && Recs(s1)[k..] == RecsIn(s1, i, |s1|);
  }

  lemma EraseStage(st: PageState, s: seq<Slot>, t: seq<Slot>, c: seq<Slot>, nf: nat, a: nat,
                   recs: seq<Rec>, dedup: bool, hashOf: Id -> nat)
    requires SoundAt(st, s, nf) && Removed(s, t, nf, a) && EraseCut(s, c, nf, a)
    requires StageOf(recs, Recs(s), dedup, hashOf) && StageOf(recs, Recs(t), dedup, hashOf)
    ensures SoundAt(st, c, nf) && StageOf(recs, Recs(c), dedup, hashOf)
  {
    EraseCutIsLoose(s, c, nf, a);
    RemovedRecs(s, t, nf, a);
  }

  // ---------------------------------------------------------------- one item of the scan

  // No item below i has the hash of item i.
  ghost predicate Alone(s: seq<Slot>, i: nat, hashOf: Id -> nat) {
    i < |s| && IsHead(s[i]) && forall k: nat :: k < i ==> !HasHash(s, k, hashOf, NodeAt(s, i, hashOf).hash)
  }

  // Item a is the first with the hash of item i.
  ghost predicate FirstWithHash(s: seq<Slot>, hashOf: Id -> nat, a: nat, i: nat) {
    && a <= i < |s| && IsHead(s[i]) && HasHash(s, a, hashOf, NodeAt(s, i, hashOf).hash)
    && forall k: nat :: k < a ==> !HasHash(s, k, hashOf, NodeAt(s, i, hashOf).hash)
  }

  lemma FirstDuplicate(nodes: set<Node>, s: seq<Slot>, hashOf: Id -> nat, i: nat, dup: nat)
    requires i < |s| <= ENTRY_COUNT && IsHead(s[i]) && Indexes(nodes, s, hashOf, i + SpanAt(s, i)) && SpanAt(s, i) >= 1
    requires dup == NO_ENTRY ==> forall n :: n in nodes ==> !Matches(n, 0, NodeAt(s, i, hashOf).hash)
    requires dup != NO_ENTRY ==> Node(dup, NodeAt(s, i, hashOf).hash) in nodes
    requires dup != NO_ENTRY ==> forall n :: n in nodes && Matches(n, 0, NodeAt(s, i, hashOf).hash) ==> dup <= n.index
    ensures FirstWithHash(s, hashOf, dup, i)
    ensures Alone(s, i, hashOf) <==> dup == i
  {
    assert NodeAt(s, i, hashOf) in nodes && Matches(NodeAt(s, i, hashOf), 0, NodeAt(s, i, hashOf).hash);
    forall k: nat | k < dup ensures !HasHash(s, k, hashOf, NodeAt(s, i, hashOf).hash) {
      if HasHash(s, k, hashOf, NodeAt(s, i, hashOf).hash) {
        assert NodeAt(s, k, hashOf) in nodes && Matches(NodeAt(s, k, hashOf), 0, NodeAt(s, i, hashOf).hash);
      }
    }
  }

  lemma WorkingMore(r: Ram, r': Ram, s: seq<Slot>, hashOf: Id -> nat, i: nat)
    requires Working(r, s, hashOf, i) && Boundary(s, i) && i < |s| && IsHead(s[i])
    requires r' == r.(nodes := r.nodes + {NodeAt(s, i, hashOf)})
    ensures Working(r', s, hashOf, i + SpanAt(s, i))
  {
    BoundaryAfter(s, r.top, i);
  }

  lemma FixedIsWhole(s: seq<Slot>, i: nat, nf: nat)
    requires HeadFits(s, i, nf)
    ensures SpanAt(s, i) >= 1
    ensures !IsVariableLengthType(s[i].body.item.typ) ==> SpanAt(s, i) == 1 && Whole(s, i)
  {
  }

  // The item at i is kept.
  lemma ScanKeeps(s1: seq<Slot>, s: seq<Slot>, nf: nat, i: nat, dedup: bool, hashOf: Id -> nat)
    requires Scanned(s1, s, nf, i, dedup, hashOf) && i < ENTRY_COUNT && Whole(s, i) && (dedup ==> Alone(s, i, hashOf))
    ensures Scanned(s1, s, nf, i + SpanAt(s, i), dedup, hashOf)
  {
    assert dedup ==> NodeAt(s, i, hashOf).hash == HashOfRec(RecAt(s, i), hashOf);
    ScanWhole(s1, s, nf, i, dedup, hashOf);
  }

  lemma LastKnown(s1: seq<Slot>, s: seq<Slot>, t: seq<Slot>, nf: nat, i: nat, dedup: bool, hashOf: Id -> nat)
    requires Scanned(s1, s, nf, i, dedup, hashOf) && i < ENTRY_COUNT && IsHead(s[i]) && |t| == ENTRY_COUNT
    ensures Whole(s, i) && IsHead(t[i]) ==> LastAt(s1, t, i + SpanAt(s, i), i)
    ensures !Whole(s, i) ==> LastAt(s1, t, i + SpanAt(s, i), INVALID_ENTRY)
    ensures i + SpanAt(s, i) <= nf && s[i] == s1[i]
  {
    WholeSame(s1, s, i);
    assert HeadFits(s, i, nf);
    if !Whole(s, i) {
      NoLast(s1, t, nf, i);
    }
  }

  // Dropping item i because it is incomplete, or item a because item i displaces it.
  lemma ScanDrops(s1: seq<Slot>, s: seq<Slot>, t: seq<Slot>, nf: nat, i: nat, a: nat, dedup: bool, hashOf: Id -> nat)
    requires Scanned(s1, s, nf, i, dedup, hashOf) && |s| == ENTRY_COUNT == |s1|
    requires a <= i < ENTRY_COUNT && IsHead(s[i]) && Removed(s, t, nf, a)
    requires if a == i then !Whole(s, i) else dedup && Whole(s, i) && FirstWithHash(s, hashOf, a, i)
    ensures Scanned(s1, t, nf, i + SpanAt(s, i), dedup, hashOf)
    ensures StageOf(Recs(s1), Recs(s), dedup, hashOf) && StageOf(Recs(s1), Recs(t), dedup, hashOf)
    ensures IsHead(s1[i]) && SpanAt(s1, i) == SpanAt(s, i) && Whole(s1, i) == Whole(s, i)
    ensures a < i ==> IsHead(t[i])
    ensures a + SpanAt(s, a) <= nf
  {
    hide Loose, Boundary, BrokenGone, Deduped, HashesApart, RecsIn, Whole;
    HeadReaches(s, nf, a);
    ScanStage(s1, s, nf, i, dedup, hashOf);
    if a == i {
      ScanBroken(s1, s, t, nf, i, dedup, hashOf);
    } else {
      ScanDuplicate(s1, s, t, nf, i, a, hashOf);
    }
    ScanStage(s1, t, nf, i + SpanAt(s, i), dedup, hashOf);
  }

  // ---------------------------------------------------------------- the scan of an active page

  // An incomplete item starts before entry i.
  ghost predicate OpenBelow(s1: seq<Slot>, nf: nat, i: nat) {
    exists h: nat :: h < i && OpenItem(s1, h, nf)
  }

  lemma NoLastYet(s1: seq<Slot>, s: seq<Slot>)
    ensures LastAt(s1, s, 0, INVALID_ENTRY)
  {
  }

  lemma ScanState(s1: seq<Slot>, s: seq<Slot>, nf: nat, g: nat, i: nat, dedup: bool, hashOf: Id -> nat)
    requires Probed(s1, nf, g) && Scanned(s1, s, nf, i, dedup, hashOf) && i < g
    ensures i < ENTRY_COUNT && s[i] == s1[i] && (s[i].st.WRITTEN? || s[i].st.ERASED?)
    ensures s[i].st.WRITTEN? ==> IsHead(s1[i])
    ensures s[i].st.WRITTEN? && Quiet(s1, nf) ==> Whole(s1, i)
    ensures s[i].st.WRITTEN? && HashesApart(s1, ENTRY_COUNT, hashOf) ==> Alone(s1, i, hashOf)
  {
    if s[i].st.WRITTEN? {
      WrittenAtBoundary(s1, nf, i);
      if HashesApart(s1, ENTRY_COUNT, hashOf) {
        assert HasHash(s1, i, hashOf, NodeAt(s1, i, hashOf).hash);
      }
    }
  }

  lemma ErasedStep(s1: seq<Slot>, s: seq<Slot>, nf: nat, i: nat, dedup: bool, hashOf: Id -> nat, r: Ram)
    requires Scanned(s1, s, nf, i, dedup, hashOf) && i < ENTRY_COUNT && s[i].st.ERASED?
    requires Working(r, s, hashOf, i)
    ensures Scanned(s1, s, nf, i + 1, dedup, hashOf) && Working(r, s, hashOf, i + 1)
    ensures LastAt(s1, s, i + 1, INVALID_ENTRY)
    ensures OpenBelow(s1, nf, i + 1) ==> OpenBelow(s1, nf, i)
  {
    ScanOver(s1, s, nf, i, dedup, hashOf, r.nodes);
    NoLast(s1, s, nf, i);
  }

  // Between the start of an item and its end no other item starts.
  lemma OnlyStartsAt(s1: seq<Slot>, s: seq<Slot>, nf: nat, i: nat, j: nat, dedup: bool, hashOf: Id -> nat)
    requires Scanned(s1, s, nf, j, dedup, hashOf) && i < |s1| && IsHead(s1[i]) && j == i + SpanAt(s1, i)
    ensures OpenBelow(s1, nf, j) ==> OpenBelow(s1, nf, i) || OpenItem(s1, i, nf)
  {
    if OpenBelow(s1, nf, j) {
      var h: nat :| h < j && OpenItem(s1, h, nf);
      assert i < h ==> Covers(s1, i, h);
    }
  }

  lemma ScanFinished(s1: seq<Slot>, s: seq<Slot>, g: nat, i: nat, last: nat, r: Ram, hashOf: Id -> nat)
    requires Scanned(s1, s, r.top, i, true, hashOf) && Working(r, s, hashOf, i) && Probed(s1, r.top, g)
      && g <= i <= r.top
    requires LastAt(s1, s, i, last) && (OpenBelow(s1, r.top, i) ==> r.nextFree >= r.top)
    requires (r.nextFree == INVALID_ENTRY && r.top == ENTRY_COUNT) || g <= r.nextFree <= r.top
    requires r.state.ACTIVE?
    ensures InUse(r, s, hashOf) && HashesApart(s, ENTRY_COUNT, hashOf) && Recs(s) == Deduped(Recs(s1), hashOf)
    ensures last != INVALID_ENTRY <==> EndsInItem(s1)
    ensures last != INVALID_ENTRY ==>
      last < r.top && IsHead(s[last]) && last + SpanAt(s, last) == r.top && s[last] == s1[last]
  {
    ScanEnds(s1, s, r.top, g, i, true, hashOf);
    LastIsEnd(s1, s, r.top, g, i, last);
    AllIndexed(s1, s, g, i, r, hashOf);
  }

  lemma AllIndexed(s1: seq<Slot>, s: seq<Slot>, g: nat, i: nat, r: Ram, hashOf: Id -> nat)
    requires Scanned(s1, s, r.top, i, true, hashOf) && Working(r, s, hashOf, i) && Probed(s1, r.top, g) && g <= i
    ensures Working(r, s, hashOf, ENTRY_COUNT) && HashesApart(s, ENTRY_COUNT, hashOf)
  {
    assert forall k: nat :: i <= k < |s| ==> !IsHead(s[k]);
    forall h: nat, k: nat, hash: nat | h < k < ENTRY_COUNT && HasHash(s, k, hashOf, hash)
      ensures !HasHash(s, h, hashOf, hash) {
      assert k < i;
    }
  }

  // ---------------------------------------------------------------- the scan of other pages

  // It starts at the first written entry.
  lemma FullScanStarts(s: seq<Slot>, i: nat, r: Ram, hashOf: Id -> nat)
    requires Loose(s, r.top) && i <= |s| && Working(r, s, hashOf, 0)
    requires forall k: nat :: k < i ==> !s[k].st.WRITTEN?
    ensures Scanned(s, s, r.top, i, false, hashOf) && Working(r, s, hashOf, i)
  {
    assert forall h: nat :: h < i ==> SpanAt(s, h) == 0;
  }

  lemma FullScanOver(s1: seq<Slot>, s: seq<Slot>, nf: nat, i: nat, hashOf: Id -> nat, r: Ram)
    requires Scanned(s1, s, nf, i, false, hashOf) && i < ENTRY_COUNT && !s[i].st.WRITTEN? && Working(r, s, hashOf, i)
    ensures Scanned(s1, s, nf, i + 1, false, hashOf) && Working(r, s, hashOf, i + 1)
  {
    ScanOver(s1, s, nf, i, false, hashOf, r.nodes);
  }

  lemma FullScanEnds(s1: seq<Slot>, s: seq<Slot>, st: PageState, r: Ram, hashOf: Id -> nat)
    requires Scanned(s1, s, r.top, ENTRY_COUNT, false, hashOf) && Working(r, s, hashOf, ENTRY_COUNT)
    requires SoundAt(st, s1, r.top) && !st.ACTIVE? && r.state == st && r.nextFree == INVALID_ENTRY
    ensures InUse(r, s, hashOf) && Recs(s) == Recs(s1)
  {
    assert Probed(s1, r.top, r.top);
    ScanEnds(s1, s, r.top, r.top, ENTRY_COUNT, false, hashOf);
  }

  lemma FullScanState(s1: seq<Slot>, s: seq<Slot>, nf: nat, i: nat, hashOf: Id -> nat)
    requires Scanned(s1, s, nf, i, false, hashOf) && i < ENTRY_COUNT && s[i].st.WRITTEN? && Quiet(s1, nf)
    ensures Whole(s, i)
  {
    WrittenAtBoundary(s, nf, i);
    WholeSame(s1, s, i);
  }

  lemma RemovedKeepsApart(s: seq<Slot>, t: seq<Slot>, nf: nat, d: nat, hashOf: Id -> nat)
    requires Removed(s, t, nf, d) && HashesApart(s, ENTRY_COUNT, hashOf)
    ensures HashesApart(t, ENTRY_COUNT, hashOf)
  {
    RemovedSpans(s, t, nf, d);
    assert forall k: nat, h: nat :: HasHash(t, k, hashOf, h) ==> HasHash(s, k, hashOf, h);
  }

  // Where a page is in use up to can be read off its slots.
  lemma EndIsUnique(s: seq<Slot>, m: nat, n: nat)
    requires Loose(s, m) && Loose(s, n)
    ensures m == n
  {
    if m < n {
      EndNotLater(s, m, n);
    } else if n < m {
      EndNotLater(s, n, m);
    }
  }

  lemma EndNotLater(s: seq<Slot>, m: nat, n: nat)
    requires Loose(s, m) && m < n
    ensures !Loose(s, n)
  {
    if n <= ENTRY_COUNT {
      assert s[n - 1] == BLANK_SLOT && !Dirty(s, n - 1, n);
      assert !Covered(s, n - 1) by {
        assert forall h: nat :: h < |s| && IsHead(s[h]) ==> HeadFits(s, h, m);
      }
      assert !Open(s, n - 1, n);
    }
  }

  lemma {:induction false} FreshlyCounted(r: Ram, s: seq<Slot>, hashOf: Id -> nat)
    requires Loose(s, r.top) && Synced(r.table, s) && r.nodes == {} && r.nextFree == INVALID_ENTRY
    requires r.used == CountIn(s, 0, |s|) && LeastWritten(s, 0, r.firstUsed)
    ensures Working(r, s, hashOf, 0)
  {
  }
}
