// Loading a page whose last record may replace an earlier one: exactly when the old record is all
// that goes.
module PageTwins {
  import opened NvsTypes
  import opened PageImage
  import opened PageLoad
  import opened PageScan

  predicate Twins(n: Rec, o: Rec) {
    IdOf(n.item) == IdOf(o.item) && n.item.typ == o.item.typ
  }

  // The first record that the last one replaces, or the number of records.
  function TwinPlace(recs: seq<Rec>, k: nat): (i: nat)
    requires k <= |recs|
    ensures k <= i <= |recs| && (forall j :: k <= j < i && j < |recs| - 1 ==> !Twins(recs[|recs| - 1], recs[j]))
    ensures i < |recs| ==> i < |recs| - 1 && Twins(recs[|recs| - 1], recs[i])
    decreases |recs| - k
  {
    if k >= |recs| - 1 then |recs| else if Twins(recs[|recs| - 1], recs[k]) then k else TwinPlace(recs, k + 1)
  }

  function WithoutTwin(recs: seq<Rec>): seq<Rec> {
    var k := TwinPlace(recs, 0);
    if k < |recs| then recs[..k] + recs[k + 1..] else recs
  }

  // Apart from a record and its replacement at the end all hashes differ, and the page does not end
  // in a chunk of a blob that has an earlier chunk there.
  ghost predicate KeptRecs(recs: seq<Rec>, tail: bool, hashOf: Id -> nat) {
    DistinctHashes(WithoutTwin(recs), hashOf) && !(tail && ChunkShadowed(WithoutTwin(recs)))
  }

  lemma TwinSplit(recs: seq<Rec>) returns (a: seq<Rec>, o: Rec, b: seq<Rec>, n: Rec)
    requires TwinPlace(recs, 0) < |recs|
    ensures recs == a + [o] + b + [n] && Twins(n, o) && WithoutTwin(recs) == a + b + [n]
    ensures recs[TwinPlace(recs, 0)] == o && |a| == TwinPlace(recs, 0)
  {
    var k := TwinPlace(recs, 0);
    a, o, b, n := recs[..k], recs[k], recs[k + 1..|recs| - 1], recs[|recs| - 1];
    assert recs[k + 1..] == b + [n];
  }

  lemma {:induction false} HashSurvives(recs: seq<Rec>, hashOf: Id -> nat, i: nat)
    requires i < |recs|
    ensures exists r :: r in Deduped(recs, hashOf) && HashOfRec(r, hashOf) == HashOfRec(recs[i], hashOf)
  {
    var front, last := recs[..|recs| - 1], recs[|recs| - 1];
    var d := Deduped(recs, hashOf);
    assert d[|d| - 1] == last;
    if HashOfRec(recs[i], hashOf) != HashOfRec(last, hashOf) {
      HashSurvives(front, hashOf, i);
      var r :| r in Deduped(front, hashOf) && HashOfRec(r, hashOf) == HashOfRec(front[i], hashOf);
      OthersSurvive(Deduped(front, hashOf), r, hashOf, HashOfRec(last, hashOf));
      assert r in d;
    }
  }

  lemma {:induction false} OthersSurvive(recs: seq<Rec>, r: Rec, hashOf: Id -> nat, hash: nat)
    requires r in recs && HashOfRec(r, hashOf) != hash
    ensures r in DropHash(recs, hashOf, hash)
  {
    if HashOfRec(recs[0], hashOf) != hash && r != recs[0] {
      OthersSurvive(recs[1..], r, hashOf, hash);
    }
  }

  // A record and its replacement on one page: the old one goes in any case.
  lemma {:induction false} DedupedTwin(a: seq<Rec>, o: Rec, b: seq<Rec>, n: Rec, hashOf: Id -> nat)
    requires HashOfRec(o, hashOf) == HashOfRec(n, hashOf)
    ensures var d := Deduped(a + [o] + b + [n], hashOf);
      |d| <= |a| + |b| + 1 && (|d| == |a| + |b| + 1 <==> DistinctHashes(a + [o] + b, hashOf))
      && (DistinctHashes(a + [o] + b, hashOf) ==> d == a + b + [n])
  {
    hide DropHash, DistinctHashes, Deduped;
    var front := a + [o] + b;
    DedupedMore(front, n, hashOf);
    DedupedLength(front, hashOf);
    assert front[|a|] == o;
    HashSurvives(front, hashOf, |a|);
    var f := Deduped(front, hashOf);
    var r :| r in f && HashOfRec(r, hashOf) == HashOfRec(n, hashOf);
    DropHashLength(f, hashOf, HashOfRec(n, hashOf));
    DropHashOne(f, hashOf, HashOfRec(n, hashOf));
    if DistinctHashes(front, hashOf) {
      TwinAlone(a, o, b, hashOf);
      DropHashAt(a, o, b, hashOf, HashOfRec(n, hashOf));
    }
  }

  lemma {:induction false} DropHashOne(recs: seq<Rec>, hashOf: Id -> nat, hash: nat)
    ensures |DropHash(recs, hashOf, hash)| >= |recs| - 1
  {
    if recs != [] && HashOfRec(recs[0], hashOf) != hash {
      DropHashOne(recs[1..], hashOf, hash);
    }
  }

  lemma TwinAlone(a: seq<Rec>, o: Rec, b: seq<Rec>, hashOf: Id -> nat)
    requires DistinctHashes(a + [o] + b, hashOf)
    ensures forall x :: x in a ==> HashOfRec(x, hashOf) != HashOfRec(o, hashOf)
  {
    var front := a + [o] + b;
    forall x | x in a ensures HashOfRec(x, hashOf) != HashOfRec(o, hashOf) {
      var i :| 0 <= i < |a| && a[i] == x;
      assert front[i] == x && front[|a|] == o;
    }
  }

  // In hashes, a record may stand for its replacement.
  lemma SwapDistinct(a: seq<Rec>, o: Rec, b: seq<Rec>, n: Rec, hashOf: Id -> nat)
    requires HashOfRec(o, hashOf) == HashOfRec(n, hashOf)
    ensures DistinctHashes(a + [o] + b, hashOf) <==> DistinctHashes(a + b + [n], hashOf)
  {
    var r, s := a + [o] + b, a + b + [n];
    assert forall i :: 0 <= i < |a| + |b| ==> s[i] == r[if i < |a| then i else i + 1];
    assert s[|a| + |b|] == n && r[|a|] == o;
    if DistinctHashes(s, hashOf) {
      forall i, j | 0 <= i < j < |r| ensures HashOfRec(r[i], hashOf) != HashOfRec(r[j], hashOf) {
        if i == |a| {
          assert s[j - 1] == r[j];
        } else if j == |a| {
          assert s[i] == r[i];
        } else {
          assert s[if i < |a| then i else i - 1] == r[i] && s[if j < |a| then j else j - 1] == r[j];
        }
      }
    }
    if DistinctHashes(r, hashOf) {
      forall i, j | 0 <= i < j < |s| ensures HashOfRec(s[i], hashOf) != HashOfRec(s[j], hashOf) {
        if j == |s| - 1 {
          assert r[if i < |a| then i else i + 1] == s[i];
        } else {
          assert r[if i < |a| then i else i + 1] == s[i] && r[if j < |a| then j else j + 1] == s[j];
        }
      }
    }
  }

  // Loading leaves everything but the old record if and only if the rest comes through by itself.
  lemma LoadedWithoutTwinIff(recs: seq<Rec>, tail: bool, hashOf: Id -> nat)
    ensures |LoadedRecs(recs, tail, hashOf)| <= |WithoutTwin(recs)|
    ensures |LoadedRecs(recs, tail, hashOf)| == |WithoutTwin(recs)| <==> KeptRecs(recs, tail, hashOf)
    ensures KeptRecs(recs, tail, hashOf) ==> LoadedRecs(recs, tail, hashOf) == WithoutTwin(recs)
  {
    hide Deduped, DistinctHashes, ChunkShadowed, ChunkDropped;
    LoadedWithin(recs, tail, hashOf);
    WithinLess(LoadedRecs(recs, tail, hashOf), recs);
    if TwinPlace(recs, 0) == |recs| {
      LoadLosesNothingIff(recs, tail, hashOf);
    } else {
      var a, o, b, n := TwinSplit(recs);
      DedupedTwin(a, o, b, n, hashOf);
      SwapDistinct(a, o, b, n, hashOf);
      var d := Deduped(recs, hashOf);
      DroppedLength(d);
      if DistinctHashes(a + b + [n], hashOf) {
        assert d == WithoutTwin(recs);
      }
    }
  }

  lemma DroppedLength(recs: seq<Rec>)
    ensures |ChunkDropped(recs)| <= |recs| && (|ChunkDropped(recs)| == |recs| <==> !ChunkShadowed(recs))
    ensures !ChunkShadowed(recs) ==> ChunkDropped(recs) == recs
  {
  }

  // Whatever loading drops, the last record stays, and the old record does not.
  lemma LoadedEnd(recs: seq<Rec>, tail: bool, hashOf: Id -> nat)
    requires recs != []
    ensures var l := LoadedRecs(recs, tail, hashOf); l != [] && l[|l| - 1] == recs[|recs| - 1]
    ensures multiset(LoadedRecs(recs, tail, hashOf)) <= multiset(WithoutTwin(recs))
  {
    hide DistinctHashes, Within;
    var l := LoadedRecs(recs, tail, hashOf);
    var d := Deduped(recs, hashOf);
    assert d[|d| - 1] == recs[|recs| - 1];
    assert l[|l| - 1] == recs[|recs| - 1];
    LoadedWithin(recs, tail, hashOf);
    WithinLess(l, recs);
    if TwinPlace(recs, 0) < |recs| {
      LoadedIsDistinct(recs, tail, hashOf);
      var a, o, b, n := TwinSplit(recs);
      WithoutOld(l, a, o, b, n, hashOf);
    }
  }

  lemma LoadedIsDistinct(recs: seq<Rec>, tail: bool, hashOf: Id -> nat)
    ensures DistinctHashes(LoadedRecs(recs, tail, hashOf), hashOf)
  {
    hide DistinctHashes, Deduped, ChunkDropped;
    DedupedIsDistinct(recs, hashOf);
    DropKeepsDistinct(Deduped(recs, hashOf), hashOf);
  }

  lemma WithoutOld(l: seq<Rec>, a: seq<Rec>, o: Rec, b: seq<Rec>, n: Rec, hashOf: Id -> nat)
    requires DistinctHashes(l, hashOf) && l != [] && l[|l| - 1] == n && HashOfRec(o, hashOf) == HashOfRec(n, hashOf)
    requires multiset(l) <= multiset(a + [o] + b + [n])
    ensures multiset(l) <= multiset(a + b + [n])
  {
    forall r ensures multiset(l)[r] <= multiset(a + b + [n])[r] {
      OnceAtMost(l, r, hashOf);
      assert multiset(a + [o] + b + [n]) == multiset(a) + multiset{o} + multiset(b) + multiset{n};
      assert multiset(a + b + [n]) == multiset(a) + multiset(b) + multiset{n};
      if r in multiset(l) && r == o {
        var k :| 0 <= k < |l| && l[k] == r;
        assert HashOfRec(l[k], hashOf) == HashOfRec(l[|l| - 1], hashOf);
        assert k == |l| - 1;
      }
    }
  }

  lemma {:induction false} OnceAtMost(l: seq<Rec>, r: Rec, hashOf: Id -> nat)
    requires DistinctHashes(l, hashOf)
    ensures multiset(l)[r] <= 1
  {
    if l != [] {
      var front, last := l[..|l| - 1], l[|l| - 1];
      assert l == front + [last];
      assert forall i :: 0 <= i < |front| ==> front[i] == l[i];
      OnceAtMost(front, r, hashOf);
    }
  }

  // Losing power while such a page is checked leaves it as it was, or without the old record.
  lemma {:induction false} KeptIsDistinct(recs: seq<Rec>, tail: bool, hashOf: Id -> nat)
    requires KeptRecs(recs, tail, hashOf)
    ensures DistinctHashes(WithoutTwin(recs), hashOf) && (TwinPlace(recs, 0) == |recs| ==> WithoutTwin(recs) == recs)
  {
    hide DistinctHashes, ChunkShadowed;
  }

  lemma StageWithoutTwin(recs: seq<Rec>, r: seq<Rec>, tail: bool, dedup: bool, hashOf: Id -> nat)
    requires KeptRecs(recs, tail, hashOf) && StageOf(recs, r, dedup, hashOf)
    ensures r == recs || r == WithoutTwin(recs)
  {
    hide Deduped, DistinctHashes, KeptRecs, WithoutTwin, Twins, TwinPlace;
    var k: nat :| k <= |recs| && r == Checked(recs[..k], dedup, hashOf) + recs[k..];
    assert recs == recs[..k] + recs[k..];
    KeptIsDistinct(recs, tail, hashOf);
    if dedup {
      if TwinPlace(recs, 0) == |recs| {
        DistinctUpTo(recs, k, hashOf);
      } else {
        var a, o, b, n := TwinSplit(recs);
        SwapDistinct(a, o, b, n, hashOf);
        var front := a + [o] + b;
        if k <= |front| {
          assert recs[..k] == front[..k];
          DistinctUpTo(front, k, hashOf);
        } else {
          DedupedTwin(a, o, b, n, hashOf);
          assert recs[..k] == recs && recs[k..] == [];
        }
      }
    }
  }

  lemma DistinctUpTo(recs: seq<Rec>, k: nat, hashOf: Id -> nat)
    requires k <= |recs| && DistinctHashes(recs, hashOf)
    ensures Deduped(recs[..k], hashOf) == recs[..k]
  {
    forall i, j | 0 <= i < j < k ensures HashOfRec(recs[..k][i], hashOf) != HashOfRec(recs[..k][j], hashOf) {
      assert recs[..k][i] == recs[i] && recs[..k][j] == recs[j];
    }
    DedupedLength(recs[..k], hashOf);
  }
}
