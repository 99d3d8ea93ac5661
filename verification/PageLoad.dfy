// What loading a page makes of its records. On an active page the engine drops an item when a
// later one has the same 24-bit hash, and then, if the last entry in use ends an item, the first
// earlier item that a search for that last item finds.
module PageLoad {
  import opened NvsTypes
  import opened PageImage

  ghost function HashOfRec(r: Rec, hashOf: Id -> nat): nat {
    hashOf(IdOf(r.item))
  }

  // Without the first record that has this hash.
  ghost function DropHash(recs: seq<Rec>, hashOf: Id -> nat, hash: nat): seq<Rec> {
    if recs == [] then []
    else if HashOfRec(recs[0], hashOf) == hash then recs[1..]
    else [recs[0]] + DropHash(recs[1..], hashOf, hash)
  }

  // Each record in turn displaces an earlier one with the same hash.
  ghost function Deduped(recs: seq<Rec>, hashOf: Id -> nat): seq<Rec> {
    if recs == [] then []
    else
      var last := recs[|recs| - 1];
      DropHash(Deduped(recs[..|recs| - 1], hashOf), hashOf, HashOfRec(last, hashOf)) + [last]
  }

  predicate ChunkOf(r: Rec, it: Item) {
    r.item.typ.BLOB_DATA? && r.item.ns == it.ns && r.item.key == it.key
  }

  // The first chunk of the same key, whatever its version or number.
  function FirstChunk(recs: seq<Rec>, it: Item): (k: nat)
    ensures k <= |recs| && (k < |recs| ==> ChunkOf(recs[k], it))
    ensures forall j :: 0 <= j < k ==> !ChunkOf(recs[j], it)
  {
    if recs == [] then 0
    else if ChunkOf(recs[0], it) then 0
    else
      assert forall j :: 1 <= j < |recs| ==> recs[j] == recs[1..][j - 1];
      1 + FirstChunk(recs[1..], it)
  }

  // A blob chunk at the end displaces the first chunk of the same key.
  function ChunkDropped(recs: seq<Rec>): seq<Rec> {
    if recs == [] || !recs[|recs| - 1].item.typ.BLOB_DATA? then recs
    else
      var k := FirstChunk(recs, recs[|recs| - 1].item);
      if k < |recs| - 1 then recs[..k] + recs[k + 1..] else recs
  }

  // The records an active page is left with; `tail` says whether the last entry in use ends an item.
  ghost function LoadedRecs(recs: seq<Rec>, tail: bool, hashOf: Id -> nat): seq<Rec> {
    if tail then ChunkDropped(Deduped(recs, hashOf)) else Deduped(recs, hashOf)
  }

  // ---------------------------------------------------------------- when loading loses nothing

  ghost predicate DistinctHashes(recs: seq<Rec>, hashOf: Id -> nat) {
    forall i, j :: 0 <= i < j < |recs| ==> HashOfRec(recs[i], hashOf) != HashOfRec(recs[j], hashOf)
  }

  // The last record is a blob chunk and the page holds an earlier chunk of its key.
  predicate ChunkShadowed(recs: seq<Rec>) {
    recs != [] && recs[|recs| - 1].item.typ.BLOB_DATA? && FirstChunk(recs, recs[|recs| - 1].item) < |recs| - 1
  }

  lemma {:induction false} ShadowedDrop(recs: seq<Rec>, k: nat)
    requires ChunkShadowed(recs) && k == FirstChunk(recs, recs[|recs| - 1].item)
    ensures k < |recs| - 1 && ChunkDropped(recs) == recs[..k] + recs[k + 1..]
  {
    hide FirstChunk;
  }

  lemma NotDropped(recs: seq<Rec>)
    requires !ChunkShadowed(recs)
    ensures ChunkDropped(recs) == recs
  {
  }

  lemma {:induction false} DropHashLength(recs: seq<Rec>, hashOf: Id -> nat, hash: nat)
    ensures |DropHash(recs, hashOf, hash)| <= |recs|
    ensures |DropHash(recs, hashOf, hash)| == |recs| <==>
      forall k :: 0 <= k < |recs| ==> HashOfRec(recs[k], hashOf) != hash
    ensures |DropHash(recs, hashOf, hash)| == |recs| ==> DropHash(recs, hashOf, hash) == recs
  {
    if recs != [] {
      DropHashLength(recs[1..], hashOf, hash);
      assert forall k :: 1 <= k < |recs| ==> recs[k] == recs[1..][k - 1];
      assert forall k :: 0 <= k < |recs[1..]| ==> recs[1..][k] == recs[k + 1];
    }
  }

  lemma {:induction false} DedupedLength(recs: seq<Rec>, hashOf: Id -> nat)
    ensures |Deduped(recs, hashOf)| <= |recs|
    ensures |Deduped(recs, hashOf)| == |recs| <==> DistinctHashes(recs, hashOf)
    ensures |Deduped(recs, hashOf)| == |recs| ==> Deduped(recs, hashOf) == recs
  {
    hide Deduped, DropHash, DistinctHashes;
    DedupedBy(recs, hashOf);
    if recs != [] {
      var front, last := recs[..|recs| - 1], recs[|recs| - 1];
      DedupedLength(front, hashOf);
      DropHashLength(Deduped(front, hashOf), hashOf, HashOfRec(last, hashOf));
      DistinctLast(recs, hashOf);
      assert recs == front + [last];
    }
  }

  lemma {:induction false} DedupedBy(recs: seq<Rec>, hashOf: Id -> nat)
    ensures recs == [] ==> Deduped(recs, hashOf) == [] && DistinctHashes(recs, hashOf)
    ensures recs != [] ==> var last := recs[|recs| - 1];
      Deduped(recs, hashOf) == DropHash(Deduped(recs[..|recs| - 1], hashOf), hashOf, HashOfRec(last, hashOf)) + [last]
  {
  }

  lemma DistinctLast(recs: seq<Rec>, hashOf: Id -> nat)
    requires recs != []
    ensures var front, h := recs[..|recs| - 1], HashOfRec(recs[|recs| - 1], hashOf);
      DistinctHashes(recs, hashOf) <==>
        DistinctHashes(front, hashOf) && forall k :: 0 <= k < |front| ==> HashOfRec(front[k], hashOf) != h
  {
    var front := recs[..|recs| - 1];
    assert forall k :: 0 <= k < |front| ==> front[k] == recs[k];
    assert DistinctHashes(recs, hashOf) ==> forall k :: 0 <= k < |front| ==>
      HashOfRec(recs[k], hashOf) != HashOfRec(recs[|front|], hashOf);
  }

  // Loading an active page keeps all its records if and only if their hashes are pairwise distinct
  // and the page does not end in a chunk of a blob that has an earlier chunk there.
  lemma LoadLosesNothingIff(recs: seq<Rec>, tail: bool, hashOf: Id -> nat)
    ensures LoadedRecs(recs, tail, hashOf) == recs <==> DistinctHashes(recs, hashOf) && !(tail && ChunkShadowed(recs))
  {
    DedupedLength(recs, hashOf);
  }

  // ---------------------------------------------------------------- how the scan drops items

  lemma {:induction false} DropHashNone(recs: seq<Rec>, hashOf: Id -> nat, hash: nat)
    requires forall r :: r in recs ==> HashOfRec(r, hashOf) != hash
    ensures DropHash(recs, hashOf, hash) == recs
  {
    if recs != [] {
      DropHashNone(recs[1..], hashOf, hash);
    }
  }

  lemma {:induction false} DropHashAt(a: seq<Rec>, r: Rec, b: seq<Rec>, hashOf: Id -> nat, hash: nat)
    requires HashOfRec(r, hashOf) == hash && forall x :: x in a ==> HashOfRec(x, hashOf) != hash
    ensures DropHash(a + [r] + b, hashOf, hash) == a + b
  {
    if a == [] {
      assert a + [r] + b == [r] + b;
    } else {
      DropHashAt(a[1..], r, b, hashOf, hash);
      assert (a + [r] + b)[1..] == a[1..] + [r] + b;
      assert a + b == [a[0]] + (a[1..] + b);
    }
  }

  lemma {:induction false} DedupedMore(recs: seq<Rec>, r: Rec, hashOf: Id -> nat)
    ensures Deduped(recs + [r], hashOf) == DropHash(Deduped(recs, hashOf), hashOf, HashOfRec(r, hashOf)) + [r]
  {
    assert (recs + [r])[..|recs|] == recs;
  }

  // ---------------------------------------------------------------- what loading can leave out

  lemma {:induction false} DropHashDistinct(recs: seq<Rec>, hashOf: Id -> nat, hash: nat)
    requires DistinctHashes(recs, hashOf)
    ensures DistinctHashes(DropHash(recs, hashOf, hash), hashOf)
    ensures forall r :: r in DropHash(recs, hashOf, hash) ==> r in recs && HashOfRec(r, hashOf) != hash
  {
    if recs != [] && HashOfRec(recs[0], hashOf) != hash {
      var rest := recs[1..];
      assert forall i :: 0 <= i < |rest| ==> rest[i] == recs[i + 1];
      DropHashDistinct(rest, hashOf, hash);
      var d := DropHash(rest, hashOf, hash);
      assert DropHash(recs, hashOf, hash) == [recs[0]] + d;
      forall j | 0 <= j < |d| ensures HashOfRec(d[j], hashOf) != HashOfRec(recs[0], hashOf) {
        assert d[j] in rest;
      }
    }
  }

  lemma {:induction false} DedupedIsDistinct(recs: seq<Rec>, hashOf: Id -> nat)
    ensures DistinctHashes(Deduped(recs, hashOf), hashOf)
  {
    if recs != [] {
      var front, last := recs[..|recs| - 1], recs[|recs| - 1];
      DedupedIsDistinct(front, hashOf);
      DropHashDistinct(Deduped(front, hashOf), hashOf, HashOfRec(last, hashOf));
      var d := DropHash(Deduped(front, hashOf), hashOf, HashOfRec(last, hashOf));
      assert forall i :: 0 <= i < |d| ==> d[i] in d;
    }
  }

  lemma DropKeepsDistinct(recs: seq<Rec>, hashOf: Id -> nat)
    requires DistinctHashes(recs, hashOf)
    ensures DistinctHashes(ChunkDropped(recs), hashOf)
  {
    var d := ChunkDropped(recs);
    if d != recs {
      var k := FirstChunk(recs, recs[|recs| - 1].item);
      assert forall i :: 0 <= i < |d| ==> d[i] == recs[if i < k then i else i + 1];
    }
  }

  // r is recs without some of its records.
  ghost predicate Within(r: seq<Rec>, recs: seq<Rec>)
    decreases |recs|
  {
    if recs == [] then r == []
    else
      || (r != [] && r[|r| - 1] == recs[|recs| - 1] && Within(r[..|r| - 1], recs[..|recs| - 1]))
      || Within(r, recs[..|recs| - 1])
  }

  lemma {:induction false} WithinSelf(recs: seq<Rec>)
    ensures Within(recs, recs)
  {
    if recs != [] {
      WithinSelf(recs[..|recs| - 1]);
    }
  }

  lemma {:induction false} WithinLess(r: seq<Rec>, recs: seq<Rec>)
    requires Within(r, recs)
    ensures |r| <= |recs| && multiset(r) <= multiset(recs) && (|r| == |recs| ==> r == recs)
    decreases |recs|
  {
    if recs != [] {
      var front, last := recs[..|recs| - 1], recs[|recs| - 1];
      assert recs == front + [last];
      if r != [] && r[|r| - 1] == last && Within(r[..|r| - 1], front) {
        WithinLess(r[..|r| - 1], front);
        assert r == r[..|r| - 1] + [last];
      } else {
        WithinLess(r, front);
      }
    }
  }

  lemma {:induction false} WithinTwice(q: seq<Rec>, r: seq<Rec>, recs: seq<Rec>)
    requires Within(q, r) && Within(r, recs)
    ensures Within(q, recs)
    decreases |recs|
  {
    if recs != [] {
      var front := recs[..|recs| - 1];
      if r != [] && r[|r| - 1] == recs[|recs| - 1] && Within(r[..|r| - 1], front) {
        if q != [] && q[|q| - 1] == r[|r| - 1] && Within(q[..|q| - 1], r[..|r| - 1]) {
          WithinTwice(q[..|q| - 1], r[..|r| - 1], front);
        } else {
          WithinTwice(q, r[..|r| - 1], front);
        }
      } else {
        WithinTwice(q, r, front);
      }
    }
  }

  lemma {:induction false} WithinMore(r: seq<Rec>, recs: seq<Rec>, more: seq<Rec>)
    requires Within(r, recs)
    ensures Within(r + more, recs + more)
    decreases |more|
  {
    if more == [] {
      assert r + more == r && recs + more == recs;
    } else {
      var less, last := more[..|more| - 1], more[|more| - 1];
      WithinMore(r, recs, less);
      assert (r + more)[..|r + more| - 1] == r + less && (recs + more)[..|recs + more| - 1] == recs + less;
    }
  }

  lemma {:induction false} WithoutIsWithin(a: seq<Rec>, o: Rec, b: seq<Rec>)
    ensures Within(a + b, a + [o] + b)
  {
    WithinSelf(a);
    assert (a + [o])[..|a|] == a;
    assert Within(a, a + [o]);
    WithinMore(a, a + [o], b);
  }

  lemma {:induction false} DropHashWithin(recs: seq<Rec>, hashOf: Id -> nat, hash: nat)
    ensures Within(DropHash(recs, hashOf, hash), recs)
  {
    if k: nat :|
      && k < |recs| && HashOfRec(recs[k], hashOf) == hash
      && forall j :: 0 <= j < k ==> HashOfRec(recs[j], hashOf) != hash {
      DropHashAt(recs[..k], recs[k], recs[k + 1..], hashOf, hash);
      WithoutIsWithin(recs[..k], recs[k], recs[k + 1..]);
      assert recs == recs[..k] + [recs[k]] + recs[k + 1..];
    } else {
      NoFirst(recs, |recs|, hashOf, hash);
      DropHashNone(recs, hashOf, hash);
      WithinSelf(recs);
    }
  }

  lemma {:induction false} NoFirst(recs: seq<Rec>, n: nat, hashOf: Id -> nat, hash: nat)
    requires n <= |recs|
    requires forall k: nat :: k < |recs| && HashOfRec(recs[k], hashOf) == hash ==>
      exists j :: 0 <= j < k && HashOfRec(recs[j], hashOf) == hash
    ensures forall k :: 0 <= k < n ==> HashOfRec(recs[k], hashOf) != hash
  {
    if n > 0 {
      NoFirst(recs, n - 1, hashOf, hash);
    }
  }

  lemma {:induction false} DedupedWithin(recs: seq<Rec>, hashOf: Id -> nat)
    ensures Within(Deduped(recs, hashOf), recs)
  {
    if recs != [] {
      var front, last := recs[..|recs| - 1], recs[|recs| - 1];
      DedupedWithin(front, hashOf);
      DropHashWithin(Deduped(front, hashOf), hashOf, HashOfRec(last, hashOf));
      WithinTwice(DropHash(Deduped(front, hashOf), hashOf, HashOfRec(last, hashOf)), Deduped(front, hashOf), front);
      WithinMore(DropHash(Deduped(front, hashOf), hashOf, HashOfRec(last, hashOf)), front, [last]);
      assert recs == front + [last];
    }
  }

  lemma {:induction false} ChunkDroppedWithin(recs: seq<Rec>)
    ensures Within(ChunkDropped(recs), recs)
  {
    hide ChunkDropped, FirstChunk, Within;
    WithinSelf(recs);
    if ChunkShadowed(recs) {
      var k := FirstChunk(recs, recs[|recs| - 1].item);
      ShadowedDrop(recs, k);
      WithoutIsWithin(recs[..k], recs[k], recs[k + 1..]);
      assert recs == recs[..k] + [recs[k]] + recs[k + 1..];
    } else {
      NotDropped(recs);
    }
  }

  // Loading adds nothing and keeps the order.
  lemma {:induction false} LoadedWithin(recs: seq<Rec>, tail: bool, hashOf: Id -> nat)
    ensures Within(LoadedRecs(recs, tail, hashOf), recs)
  {
    DedupedWithin(recs, hashOf);
    ChunkDroppedWithin(Deduped(recs, hashOf));
    if tail {
      WithinTwice(ChunkDropped(Deduped(recs, hashOf)), Deduped(recs, hashOf), recs);
    }
  }
}
