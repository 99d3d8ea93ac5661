// What bringing the store up makes of blobs: an index whose chunks are not all there goes, and then
// every chunk that no index counts.
module BlobPurge {
  import opened NvsTypes
  import opened PageImage
  import opened PageSearch
  import opened StoreImage
  import opened StoreWalk

  // ---------------------------------------------------------------- blobs and their chunks

  const INDEX_WALK := Query(NS_ANY, BLOB_IDX, None, CHUNK_ANY, VER_ANY)
  const CHUNK_WALK := Query(NS_ANY, BLOB_DATA, None, CHUNK_ANY, VER_ANY)

  predicate IsIndex(r: Rec) {
    r.item.typ.BLOB_IDX? && r.item.val.BlobIndex?
  }

  predicate SameName(r: Rec, i: Rec) {
    r.item.ns == i.item.ns && r.item.key == i.item.key
  }

  // Chunk numbers of a version end where those of the other one begin.
  function VersionEnd(start: byte): byte {
    if start == VER_0_OFFSET then VER_1_OFFSET else VER_ANY
  }

  // A chunk of the name and the version of this index.
  predicate InFamily(c: Rec, i: Rec) {
    c.item.typ.BLOB_DATA? && IsIndex(i) && SameName(c, i)
      && i.item.val.chunkStart <= c.item.chunk < VersionEnd(i.item.val.chunkStart)
  }

  // A chunk that this index counts.
  predicate Counts(i: Rec, c: Rec) {
    c.item.typ.BLOB_DATA? && IsIndex(i) && SameName(c, i)
      && i.item.val.chunkStart <= c.item.chunk < i.item.val.chunkStart + i.item.val.chunkCount
  }

  function DataSize(r: Rec): nat {
    if r.item.val.VarLength? then r.item.val.dataSize else 0
  }

  ghost function TotalSize(s: set<Rec>): nat {
    if s == {} then 0 else var x :| x in s; DataSize(x) + TotalSize(s - {x})
  }

  lemma {:induction false} TotalWithout(s: set<Rec>, x: Rec)
    requires x in s
    ensures TotalSize(s) == DataSize(x) + TotalSize(s - {x})
  {
    var y :| y in s && TotalSize(s) == DataSize(y) + TotalSize(s - {y});
    if x != y {
      TotalWithout(s - {y}, x);
      TotalWithout(s - {x}, y);
      assert s - {y} - {x} == s - {x} - {y};
    }
  }

  ghost function Family(live: multiset<Rec>, i: Rec): set<Rec> {
    set c | c in live && InFamily(c, i)
  }

  // As many chunks and as many bytes as the index says.
  ghost predicate Matched(live: multiset<Rec>, i: Rec) {
    IsIndex(i) && |Family(live, i)| == i.item.val.chunkCount && TotalSize(Family(live, i)) == i.item.val.totalSize
  }

  ghost predicate Stays(live: multiset<Rec>, r: Rec) {
    if IsIndex(r) then Matched(live, r)
    else r.item.typ.BLOB_DATA? ==> exists i :: i in live && Matched(live, i) && Counts(i, r)
  }

  // The records that are left.
  ghost predicate Purged(live: multiset<Rec>, now: multiset<Rec>) {
    now <= live && forall r :: r in live ==> now[r] == if Stays(live, r) then live[r] else 0
  }

  // Every blob is complete, and every chunk belongs to one.
  ghost predicate Tidy(live: multiset<Rec>) {
    forall r :: r in live ==> Stays(live, r)
  }

  // What is left is tidy if and only if every chunk of a complete blob's version is one it counts.
  lemma PurgedIsTidyIff(live: multiset<Rec>, now: multiset<Rec>)
    requires Purged(live, now)
      && forall i, j :: i in live && j in live && IsIndex(i) && IsIndex(j) && SameName(i, j) ==> i == j
    ensures Tidy(now) <==> forall i, c :: i in live && Matched(live, i) && c in Family(live, i) ==> Counts(i, c)
  {
    hide Matched, Family, TotalSize;
    if forall i, c :: i in live && Matched(live, i) && c in Family(live, i) ==> Counts(i, c) {
      forall r | r in now ensures Stays(now, r) {
        AllCountedStays(live, now, r);
      }
    }
    if Tidy(now) {
      forall i, c | i in live && Matched(live, i) && c in Family(live, i) ensures Counts(i, c) {
        TidyCounts(live, now, i, c);
      }
    }
  }

  lemma FamilyIs(live: multiset<Rec>, i: Rec, c: Rec)
    ensures c in Family(live, i) <==> c in live && InFamily(c, i)
  {
  }

  // Of a complete blob's family those chunks are left that it counts.
  lemma FamilyLeft(live: multiset<Rec>, now: multiset<Rec>, i: Rec, c: Rec)
    requires Purged(live, now)
      && forall i, j :: i in live && j in live && IsIndex(i) && IsIndex(j) && SameName(i, j) ==> i == j
    requires i in live && Matched(live, i)
    ensures c in Family(now, i) <==> c in Family(live, i) && Counts(i, c)
  {
    hide TotalSize, Family, Matched;
    FamilyIs(live, i, c);
    FamilyIs(now, i, c);
    MatchedIndex(live, i);
    if c in live && InFamily(c, i) {
      if Stays(live, c) {
        var j :| j in live && Matched(live, j) && Counts(j, c);
        assert j == i;
      }
      assert c in now <==> Stays(live, c);
    }
  }

  lemma MatchedIndex(live: multiset<Rec>, i: Rec)
    requires Matched(live, i)
    ensures IsIndex(i)
  {
  }

  lemma AllCountedStays(live: multiset<Rec>, now: multiset<Rec>, r: Rec)
    requires Purged(live, now)
      && forall i, j :: i in live && j in live && IsIndex(i) && IsIndex(j) && SameName(i, j) ==> i == j
    requires (forall i, c :: i in live && Matched(live, i) && c in Family(live, i) ==> Counts(i, c)) && r in now
    ensures Stays(now, r)
  {
    hide Family, TotalSize, Counts, Matched;
    assert Stays(live, r);
    if IsIndex(r) {
      StillMatched(live, now, r);
    } else if r.item.typ.BLOB_DATA? {
      var i :| i in live && Matched(live, i) && Counts(i, r);
      StillMatched(live, now, i);
    }
  }

  lemma StillMatched(live: multiset<Rec>, now: multiset<Rec>, i: Rec)
    requires Purged(live, now)
      && forall i, j :: i in live && j in live && IsIndex(i) && IsIndex(j) && SameName(i, j) ==> i == j
    requires i in live && Matched(live, i) && forall c :: c in Family(live, i) ==> Counts(i, c)
    ensures i in now && Matched(now, i)
  {
    hide Family, TotalSize, Counts, InFamily;
    assert Stays(live, i);
    forall c ensures c in Family(now, i) <==> c in Family(live, i) {
      FamilyLeft(live, now, i, c);
    }
    assert Family(now, i) == Family(live, i);
  }

  lemma TidyCounts(live: multiset<Rec>, now: multiset<Rec>, i: Rec, c: Rec)
    requires Purged(live, now)
      && forall i, j :: i in live && j in live && IsIndex(i) && IsIndex(j) && SameName(i, j) ==> i == j
    requires Tidy(now) && i in live && Matched(live, i) && c in Family(live, i)
    ensures Counts(i, c)
  {
    hide Family, TotalSize, Counts, InFamily;
    assert Stays(live, i);
    assert i in now && Stays(now, i);
    if !Counts(i, c) {
      forall d | d in Family(now, i) ensures d in Family(live, i) && d != c {
        FamilyLeft(live, now, i, d);
      }
      assert Family(now, i) <= Family(live, i) - {c};
      FewerIn(Family(now, i), Family(live, i), c);
    }
  }

  lemma FewerIn(a: set<Rec>, b: set<Rec>, c: Rec)
    requires a <= b - {c} && c in b
    ensures |a| < |b|
  {
    assert b == (b - {c}) + {c};
    SubsetSize(a, b - {c});
  }

  lemma {:induction false} SubsetSize(a: set<Rec>, b: set<Rec>)
    requires a <= b
    ensures |a| <= |b|
  {
    if a != {} {
      var x :| x in a;
      SubsetSize(a - {x}, b - {x});
    }
  }

  lemma PurgedOnce(live: multiset<Rec>, a: multiset<Rec>, b: multiset<Rec>)
    requires Purged(live, a) && Purged(live, b)
    ensures a == b
  {
    hide Stays;
    forall r ensures a[r] == b[r] {
      if r !in live {
        assert a[r] <= live[r] && b[r] <= live[r];
      }
    }
  }

  // ---------------------------------------------------------------- counting them in list order

  function FamilyOf(recs: seq<Rec>, i: Rec): seq<Rec> {
    if recs == [] then []
    else FamilyOf(recs[..|recs| - 1], i) + if InFamily(recs[|recs| - 1], i) then [recs[|recs| - 1]] else []
  }

  function SizeSum(recs: seq<Rec>): nat {
    if recs == [] then 0 else SizeSum(recs[..|recs| - 1]) + DataSize(recs[|recs| - 1])
  }

  predicate Distinct(recs: seq<Rec>) {
    forall i, j :: 0 <= i < j < |recs| ==> recs[i] != recs[j]
  }

  lemma {:induction false} FamilyMore(recs: seq<Rec>, c: Rec, i: Rec)
    ensures FamilyOf(recs + [c], i) == FamilyOf(recs, i) + if InFamily(c, i) then [c] else []
  {
    assert (recs + [c])[..|recs|] == recs;
  }

  lemma {:induction false} SizeMore(recs: seq<Rec>, c: Rec)
    ensures SizeSum(recs + [c]) == SizeSum(recs) + DataSize(c)
  {
    assert (recs + [c])[..|recs|] == recs;
  }

  ghost function Elements(recs: seq<Rec>): set<Rec> {
    set r | r in recs
  }

  lemma {:induction false} CountedOnce(recs: seq<Rec>)
    requires Distinct(recs)
    ensures |Elements(recs)| == |recs| && TotalSize(Elements(recs)) == SizeSum(recs)
  {
    if recs != [] {
      var front, last := recs[..|recs| - 1], recs[|recs| - 1];
      CountedOnce(front);
      assert last !in front;
      assert Elements(recs) == Elements(front) + {last};
      TotalWithout(Elements(recs), last);
      assert Elements(recs) - {last} == Elements(front);
    }
  }

  lemma {:induction false} FamilyOfMeans(recs: seq<Rec>, i: Rec)
    requires Distinct(recs)
    ensures Distinct(FamilyOf(recs, i)) && forall c :: c in FamilyOf(recs, i) <==> c in recs && InFamily(c, i)
  {
    hide InFamily;
    if recs != [] {
      var front, last := recs[..|recs| - 1], recs[|recs| - 1];
      FamilyOfMeans(front, i);
      assert last !in front;
      assert forall c :: c in recs <==> c in front || c == last;
    }
  }

  // The counts taken while walking over all chunks are those of the whole store.
  lemma {:induction false} ObservedIs(live: multiset<Rec>, chunks: seq<Rec>, i: Rec)
    requires Distinct(chunks) && forall c :: c in chunks <==> c in live && c.item.typ.BLOB_DATA?
    ensures |FamilyOf(chunks, i)| == |Family(live, i)| && SizeSum(FamilyOf(chunks, i)) == TotalSize(Family(live, i))
  {
    FamilyOfMeans(chunks, i);
    CountedOnce(FamilyOf(chunks, i));
    assert Elements(FamilyOf(chunks, i)) == Family(live, i);
  }

  // ---------------------------------------------------------------- the list of blobs

  // A blob as the list holds it: what its index says, and what has been seen of its chunks.
  datatype BlobNode = BlobNode(key: string, ns: byte, start: byte, count: byte, size: nat, observedSize: nat,
    observedCount: nat)

  ghost function NodeOf(i: Rec, chunks: seq<Rec>): BlobNode
    requires IsIndex(i)
  {
    BlobNode(i.item.key, i.item.ns, i.item.val.chunkStart, i.item.val.chunkCount, i.item.val.totalSize,
      SizeSum(FamilyOf(chunks, i)), |FamilyOf(chunks, i)|)
  }

  ghost predicate NodesOf(nodes: seq<BlobNode>, idx: seq<Rec>, chunks: seq<Rec>) {
    |nodes| == |idx| && forall k :: 0 <= k < |idx| ==> IsIndex(idx[k]) && nodes[k] == NodeOf(idx[k], chunks)
  }

  predicate HasFamily(n: BlobNode, c: Item) {
    c.key == n.key && c.ns == n.ns && n.start <= c.chunk < VersionEnd(n.start)
  }

  predicate HasCounted(n: BlobNode, c: Item) {
    c.key == n.key && c.ns == n.ns && n.start <= c.chunk < n.start + n.count
  }

  // The first node of whose blob this is a chunk, or the number of nodes.
  function FindFamily(nodes: seq<BlobNode>, c: Item): (k: nat)
    ensures k <= |nodes| && (k < |nodes| ==> HasFamily(nodes[k], c))
      && forall j :: 0 <= j < k ==> !HasFamily(nodes[j], c)
  {
    if nodes == [] then 0
    else if HasFamily(nodes[0], c) then 0
    else
      assert forall j :: 1 <= j < |nodes| ==> nodes[j] == nodes[1..][j - 1];
      1 + FindFamily(nodes[1..], c)
  }

  predicate AnyCounts(nodes: seq<BlobNode>, c: Item) {
    exists k :: 0 <= k < |nodes| && HasCounted(nodes[k], c)
  }

  // No two of these have the same name.
  predicate NamesDiffer(idx: seq<Rec>) {
    forall j, k :: 0 <= j < k < |idx| ==> !SameName(idx[j], idx[k])
  }

  // The node as it is once the chunk c has been seen.
  function Seen(n: BlobNode, c: Rec): BlobNode {
    n.(observedSize := n.observedSize + DataSize(c), observedCount := n.observedCount + 1)
  }

  lemma {:induction false} OnlyFamily(nodes: seq<BlobNode>, idx: seq<Rec>, chunks: seq<Rec>, c: Item, k: nat, j: nat)
    requires NodesOf(nodes, idx, chunks) && NamesDiffer(idx) && k == FindFamily(nodes, c) && j < |idx|
    ensures HasFamily(nodes[j], c) <==> j == k
  {
    assert k < j ==> !SameName(idx[k], idx[j]);
  }

  lemma {:induction false} ObservedAt(nodes: seq<BlobNode>, idx: seq<Rec>, chunks: seq<Rec>, c: Rec, k: nat, j: nat)
    requires NodesOf(nodes, idx, chunks) && NamesDiffer(idx) && c.item.typ.BLOB_DATA? && k == FindFamily(nodes, c.item)
      && j < |idx|
    ensures IsIndex(idx[j])
    ensures j == k ==> NodeOf(idx[j], chunks + [c]) == Seen(nodes[j], c)
    ensures j != k ==> NodeOf(idx[j], chunks + [c]) == nodes[j]
  {
    OnlyFamily(nodes, idx, chunks, c.item, k, j);
    FamilyIsInFamily(nodes[j], idx[j], chunks, c);
    OneMoreInFamily(chunks, c, idx[j]);
  }

  lemma FamilyIsInFamily(n: BlobNode, i: Rec, chunks: seq<Rec>, c: Rec)
    requires IsIndex(i) && n == NodeOf(i, chunks) && c.item.typ.BLOB_DATA?
    ensures HasFamily(n, c.item) <==> InFamily(c, i)
  {
  }

  // A chunk is counted for the first blob that it can belong to, which is the only one.
  lemma {:induction false} OneMoreObserved(nodes: seq<BlobNode>, idx: seq<Rec>, chunks: seq<Rec>, c: Rec, k: nat)
    requires NodesOf(nodes, idx, chunks) && NamesDiffer(idx) && c.item.typ.BLOB_DATA? && k == FindFamily(nodes, c.item)
    ensures NodesOf(if k < |nodes| then nodes[k := Seen(nodes[k], c)] else nodes, idx, chunks + [c])
  {
    hide NodeOf, Seen, NamesDiffer, HasFamily;
    var now := if k < |nodes| then nodes[k := Seen(nodes[k], c)] else nodes;
    assert |now| == |idx|;
    forall j | 0 <= j < |idx| ensures IsIndex(idx[j]) && now[j] == NodeOf(idx[j], chunks + [c]) {
      ObservedAt(nodes, idx, chunks, c, k, j);
      assert j != k ==> now[j] == nodes[j];
    }
  }

  lemma OneMoreInFamily(chunks: seq<Rec>, c: Rec, i: Rec)
    requires IsIndex(i)
    ensures var n := NodeOf(i, chunks);
      NodeOf(i, chunks + [c]) == if InFamily(c, i)
        then n.(observedSize := n.observedSize + DataSize(c), observedCount := n.observedCount + 1)
        else n
  {
    hide InFamily, FamilyOf, SizeSum;
    FamilyMore(chunks, c, i);
    SizeMore(FamilyOf(chunks, i), c);
    assert FamilyOf(chunks, i) + [] == FamilyOf(chunks, i);
  }

  predicate IsMatched(n: BlobNode) {
    n.observedSize == n.size && n.observedCount == n.count
  }

  lemma MatchedIs(live: multiset<Rec>, chunks: seq<Rec>, i: Rec)
    requires Distinct(chunks) && (forall c :: c in chunks <==> c in live && c.item.typ.BLOB_DATA?) && IsIndex(i)
    ensures IsMatched(NodeOf(i, chunks)) <==> Matched(live, i)
  {
    ObservedIs(live, chunks, i);
  }

  // The blob indices of a store.
  ghost predicate IndicesOf(idx: seq<Rec>, live: multiset<Rec>) {
    Distinct(idx) && NamesDiffer(idx) && forall i :: i in idx <==> i in live && i.item.typ.BLOB_IDX?
  }

  ghost predicate ChunksIn(chunks: seq<Rec>, live: multiset<Rec>) {
    Distinct(chunks) && forall c :: c in chunks <==> c in live && c.item.typ.BLOB_DATA?
  }

  lemma OnceIsDistinct(recs: seq<Rec>, live: multiset<Rec>)
    requires multiset(recs) <= live && Unique(live)
    ensures Distinct(recs)
  {
    hide Unique;
    forall i, j | 0 <= i < j < |recs| ensures recs[i] != recs[j] {
      if recs[i] == recs[j] {
        TwiceCounted(recs, i, j);
        AtMostOnce(live, recs[i]);
      }
    }
  }

  lemma AtMostOnce(live: multiset<Rec>, r: Rec)
    requires Unique(live)
    ensures live[r] <= 1
  {
  }

  lemma {:induction false} OfIsPart(recs: seq<Rec>, q: Query)
    ensures multiset(Of(recs, q)) <= multiset(recs)
  {
    hide Sought;
    if recs != [] {
      OfIsPart(recs[..|recs| - 1], q);
      assert recs == recs[..|recs| - 1] + [recs[|recs| - 1]];
    }
  }

  lemma SoughtIndex(r: Rec)
    requires WritableId(r.item)
    ensures Sought(r, INDEX_WALK) <==> r.item.typ.BLOB_IDX?
  {
  }

  lemma SoughtChunk(r: Rec)
    requires WritableId(r.item)
    ensures Sought(r, CHUNK_WALK) <==> r.item.typ.BLOB_DATA?
  {
  }

  // Walking over the indices finds all of them, and over the chunks all of those.
  lemma {:induction false} WalkedIndices(all: seq<Rec>, live: multiset<Rec>)
    requires multiset(all) == live && Unique(live) && forall r :: r in live ==> WritableId(r.item)
    ensures IndicesOf(Of(all, INDEX_WALK), live)
  {
    hide Sought, WritableId, Unique;
    var idx := Of(all, INDEX_WALK);
    OfMeans(all, INDEX_WALK);
    OfIsPart(all, INDEX_WALK);
    OnceIsDistinct(idx, live);
    forall i ensures i in idx <==> i in live && i.item.typ.BLOB_IDX? {
      assert i in all <==> i in live;
      if i in live {
        SoughtIndex(i);
      }
    }
    forall j, k | 0 <= j < k < |idx| ensures !SameName(idx[j], idx[k]) {
      assert idx[j] in idx && idx[k] in idx;
      IndexNamesDiffer(live, idx[j], idx[k]);
    }
  }

  lemma IndexNamesDiffer(live: multiset<Rec>, i: Rec, j: Rec)
    requires Unique(live) && i in live && j in live && i != j && i.item.typ.BLOB_IDX? && j.item.typ.BLOB_IDX?
      && WritableId(i.item) && WritableId(j.item)
    ensures !SameName(i, j)
  {
    assert IdOf(i.item) != IdOf(j.item);
  }

  lemma {:induction false} WalkedChunks(all: seq<Rec>, live: multiset<Rec>)
    requires multiset(all) == live && Unique(live) && forall r :: r in live ==> WritableId(r.item)
    ensures ChunksIn(Of(all, CHUNK_WALK), live)
  {
    hide Sought, WritableId, Unique;
    var chunks := Of(all, CHUNK_WALK);
    OfMeans(all, CHUNK_WALK);
    OfIsPart(all, CHUNK_WALK);
    OnceIsDistinct(chunks, live);
    forall c ensures c in chunks <==> c in live && c.item.typ.BLOB_DATA? {
      assert c in all <==> c in live;
      if c in live {
        SoughtChunk(c);
      }
    }
  }
}
