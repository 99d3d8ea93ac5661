// Counting entries and listing keys: the pages walked in list order, item by item
// (nvs_storage.cpp, nvs_pagemanager.cpp, and the sums the application forms of them).
module StoreAccounts {
  import opened NvsTypes
  import opened PageImage
  import opened PageRam
  import opened PageWalk
  import opened PageSearch
  import opened FlashDevice
  import opened StoreImage
  import opened PageLists
  import opened StoreWrites
  import opened StoreWalk

  // ---------------------------------------------------------------- sums over records

  function SpanSum(recs: seq<Rec>): nat {
    if recs == [] then 0 else SpanSum(recs[..|recs| - 1]) + recs[|recs| - 1].item.span
  }

  function NsQuery(ns: byte): Query {
    Query(ns, ANY, None, CHUNK_ANY, VER_ANY)
  }

  // The records of one namespace, or of all.
  function OfNs(recs: seq<Rec>, ns: byte): seq<Rec> {
    Of(recs, NsQuery(ns))
  }

  lemma {:induction false} SpanSumAdds(a: seq<Rec>, b: seq<Rec>)
    ensures SpanSum(a + b) == SpanSum(a) + SpanSum(b)
    decreases |b|
  {
    if b == [] {
      assert a + b == a;
    } else {
      SpanSumAdds(a, b[..|b| - 1]);
      assert (a + b)[..|a + b| - 1] == a + b[..|b| - 1];
    }
  }

  // ---------------------------------------------------------------- partition into namespaces

  // The entries of namespaces below n.
  function SpansBelow(recs: seq<Rec>, n: nat): nat
    requires n <= 256
  {
    if n == 0 then 0 else SpansBelow(recs, n - 1) + SpanSum(OfNs(recs, (n - 1) as byte))
  }

  lemma {:induction false} OneMoreSpan(recs: seq<Rec>, r: Rec, n: nat)
    requires n <= 255 && r.item.ns != NS_ANY
    ensures SpansBelow(recs + [r], n) == SpansBelow(recs, n) + if r.item.ns < n then r.item.span else 0
    decreases n
  {
    hide Of, Judge;
    if n > 0 {
      OneMoreSpan(recs, r, n - 1);
      SoughtInNs(r, (n - 1) as byte);
      OfAdds(recs, [r], NsQuery((n - 1) as byte));
      OfOne(r, NsQuery((n - 1) as byte));
      assert OfNs(recs, (n - 1) as byte) + [] == OfNs(recs, (n - 1) as byte);
      SpanSumAdds(OfNs(recs, (n - 1) as byte), [r]);
      SpanOne(r);
    }
  }

  lemma SoughtInNs(r: Rec, ns: byte)
    ensures Sought(r, NsQuery(ns)) <==> ns == NS_ANY || r.item.ns == ns
  {
  }

  lemma SpanOne(r: Rec)
    ensures SpanSum([r]) == r.item.span
  {
    assert [r][..0] == [];
  }

  // Every entry in use belongs to exactly one namespace.
  lemma {:induction false} NamespacesPartition(recs: seq<Rec>)
    requires forall r :: r in recs ==> r.item.ns != NS_ANY
    ensures SpansBelow(recs, 255) == SpanSum(recs)
  {
    if recs == [] {
      NoSpans(255);
    } else {
      var front, last := recs[..|recs| - 1], recs[|recs| - 1];
      NamespacesPartition(front);
      OneMoreSpan(front, last, 255);
      assert recs == front + [last];
    }
  }

  lemma {:induction false} NoSpans(n: nat)
    requires n <= 256
    ensures SpansBelow([], n) == 0
  {
    if n > 0 {
      NoSpans(n - 1);
    }
  }

  // ---------------------------------------------------------------- entries in use

  // Entries counted as written are those of the items.
  lemma {:induction false} CountIsSpans(s: seq<Slot>, nf: nat, i: nat)
    requires Quiet(s, nf) && i <= |s| && Boundary(s, i)
    ensures CountIn(s, i, |s|) == SpanSum(RecsIn(s, i, |s|))
    decreases |s| - i
  {
    hide Quiet;
    if i < |s| {
      QuietIsLoose(s, nf);
      if s[i].st.WRITTEN? {
        WrittenAtBoundary(s, nf, i);
        HeadIsWhole(s, nf, i);
        BoundaryAfter(s, nf, i);
        CountIsSpans(s, nf, i + SpanAt(s, i));
        OneItemMore(s, nf, i);
      } else {
        BoundaryOver(s, i);
        CountIsSpans(s, nf, i + 1);
        NoItemHere(s, i);
      }
    }
  }

  lemma NoItemHere(s: seq<Slot>, i: nat)
    requires i < |s| && !s[i].st.WRITTEN?
    ensures CountIn(s, i, |s|) == CountIn(s, i + 1, |s|) && RecsIn(s, i, |s|) == RecsIn(s, i + 1, |s|)
  {
    CountSplit(s, i, i + 1, |s|);
    CountAll(s, i, i + 1, false);
    RecsSplit(s, i, i + 1, |s|);
    RecsNone(s, i, i + 1);
    assert [] + RecsIn(s, i + 1, |s|) == RecsIn(s, i + 1, |s|);
  }

  lemma OneItemMore(s: seq<Slot>, nf: nat, i: nat)
    requires Loose(s, nf) && i < |s| && Whole(s, i)
    ensures CountIn(s, i, |s|) == SpanAt(s, i) + CountIn(s, i + SpanAt(s, i), |s|)
    ensures SpanSum(RecsIn(s, i, |s|)) == SpanAt(s, i) + SpanSum(RecsIn(s, i + SpanAt(s, i), |s|))
  {
    var next := i + SpanAt(s, i);
    CountSplit(s, i, next, |s|);
    CountAll(s, i, next, true);
    hide Loose, Whole, CountIn;
    RecsFromHead(s, nf, i, i);
    assert RecsIn(s, i, |s|) == [RecAt(s, i)] + RecsIn(s, next, |s|);
    SpanSumAdds([RecAt(s, i)], RecsIn(s, next, |s|));
    SpanOne(RecAt(s, i));
  }

  lemma QuietIsLoose(s: seq<Slot>, nf: nat)
    requires Quiet(s, nf)
    ensures Loose(s, nf)
  {
  }

  // What a page object counts as used are the entries of the records on its page.
  lemma UsedIsSpans(r: Ram, fp: FPage, hashOf: Id -> nat)
    requires RamOk(r, fp, hashOf) && |fp.slots| == ENTRY_COUNT && !r.state.CORRUPT?
    ensures r.used == SpanSum(RecsOf(fp)) && r.used <= ENTRY_COUNT
  {
    if LiveState(r.state) {
      CountIsSpans(fp.slots, r.top, 0);
      CountBelow(fp.slots, |fp.slots|);
    }
  }

  // ---------------------------------------------------------------- all listed pages

  lemma {:induction false} ListedSum(rams: seq<Ram>, img: seq<FPage>, list: seq<nat>, free: seq<nat>, next: nat,
                                     hashOf: Id -> nat, k: nat)
    requires InOrder(rams, img, list, free, next, hashOf) && k < |list|
    ensures |rams| == |img| && forall j :: 0 <= j < |list| ==> list[j] < |img|
    ensures var r := rams[list[k]]; 0 <= r.used <= ENTRY_COUNT && (r.state.UNINITIALIZED? ==> r.used == 0)
    ensures rams[list[k]].state.UNINITIALIZED? || rams[list[k]].state.FULL? || rams[list[k]].state.ACTIVE?
    ensures SpanSum(ListRecs(img, list, k)) == rams[list[k]].used + SpanSum(ListRecs(img, list, k + 1))
  {
    hide RamOk, RecsOf, SpanSum;
    UsedIsSpans(rams[list[k]], img[list[k]], hashOf);
    SpanSumAdds(RecsOf(img[list[k]]), ListRecs(img, list, k + 1));
    if rams[list[k]].state.UNINITIALIZED? {
      UsedNone(rams[list[k]], img[list[k]], hashOf);
    }
  }

  lemma {:induction false} NoMoreRecs(img: seq<FPage>, list: seq<nat>, k: nat)
    requires k >= |list| && forall j :: 0 <= j < |list| ==> list[j] < |img|
    ensures SpanSum(ListRecs(img, list, k)) == 0
  {
  }

  lemma ListPartition(rams: seq<Ram>, img: seq<FPage>, list: seq<nat>, free: seq<nat>, next: nat, hashOf: Id -> nat)
    requires InOrder(rams, img, list, free, next, hashOf)
    ensures |list| + |free| == |img| == |rams| && free != []
  {
    PartitionSize(|img|, list, free);
  }

  lemma UsedNone(r: Ram, fp: FPage, hashOf: Id -> nat)
    requires RamOk(r, fp, hashOf) && r.state.UNINITIALIZED?
    ensures r.used == 0
  {
  }

  // ---------------------------------------------------------------- how many pages there are

  function Members(s: seq<nat>): (m: set<nat>)
    ensures forall x :: x in m <==> x in s
  {
    set x | x in s
  }

  lemma {:induction false} DistinctSize(s: seq<nat>)
    requires forall i, j :: 0 <= i < j < |s| ==> s[i] != s[j]
    ensures |Members(s)| == |s|
  {
    if s != [] {
      var front, x := s[..|s| - 1], s[|s| - 1];
      DistinctSize(front);
      assert s == front + [x] && x !in front;
      assert Members(s) == Members(front) + {x};
    }
  }

  function UpTo(n: nat): (s: set<nat>)
    ensures |s| == n && forall x: nat :: x in s <==> x < n
  {
    if n == 0 then {} else UpTo(n - 1) + {n - 1}
  }

  lemma PartitionSize(n: nat, list: seq<nat>, free: seq<nat>)
    requires Partition(n, list, free)
    ensures |list| + |free| == n
  {
    DistinctSize(list + free);
    assert Members(list + free) == UpTo(n);
  }

  // ---------------------------------------------------------------- numbers the application shows

  datatype Stats = Stats(used: nat, free: nat, available: nat, total: nat)

  datatype Health = Ok | Low | Critical | Full

  datatype Capacity = Capacity(usable: nat, available: nat, percent: nat, health: Health)

  const RESERVED_ENTRIES: nat := 126
  const LOW_PERCENT: nat := 25
  const CRITICAL_PERCENT: nat := 10

  function CapacityOf(st: Stats): Capacity {
    var usable := if st.total > RESERVED_ENTRIES then st.total - RESERVED_ENTRIES else 0;
    var available := if st.available < usable then st.available else usable;
    Capacity(usable, available, if usable > 0 then available * 100 / usable else 0,
             if available == 0 then Full
             else if available * 100 < usable * CRITICAL_PERCENT then Critical
             else if available * 100 <= usable * LOW_PERCENT then Low
             else Ok)
  }

  // Stats of a store of n pages of which `spare` entries are neither in use nor in the reserve.
  predicate StatsOf(st: Stats, n: nat, spare: nat) {
    && st.total == ENTRY_COUNT * n && st.used + st.free == st.total
    && st.free == spare + ENTRY_COUNT && st.available == spare
  }

  // Entries to spare: those the next write can use, in the pages there are or by moving items.
  lemma {:induction false} SpareIsRoom(rams: seq<Ram>, img: seq<FPage>, list: seq<nat>, free: seq<nat>, next: nat,
                                       hashOf: Id -> nat, spare: int)
    requires InOrder(rams, img, list, free, next, hashOf)
    requires spare == ENTRY_COUNT * (|free| - 1) + UnusedOf(rams, list, 0)
    ensures spare >= 0 && (spare == 0 <==> !Room(rams, list, free, 1))
  {
    hide RamOk;
    UnusedNone(rams, img, list, free, next, hashOf, 0);
  }

  // The entries not in use of the pages from position k of the list on.
  function UnusedOf(rams: seq<Ram>, list: seq<nat>, k: nat): int
    requires forall j :: 0 <= j < |list| ==> list[j] < |rams|
    decreases |list| - k
  {
    if k >= |list| then 0 else ENTRY_COUNT - rams[list[k]].used + UnusedOf(rams, list, k + 1)
  }

  lemma {:induction false} UnusedNone(rams: seq<Ram>, img: seq<FPage>, list: seq<nat>, free: seq<nat>, next: nat,
                                      hashOf: Id -> nat, k: nat)
    requires InOrder(rams, img, list, free, next, hashOf) && k <= |list|
    ensures forall j :: 0 <= j < |list| ==> list[j] < |rams|
    ensures UnusedOf(rams, list, k) >= 0
    ensures UnusedOf(rams, list, k) == 0 <==> forall j :: k <= j < |list| ==> rams[list[j]].used >= ENTRY_COUNT
    decreases |list| - k
  {
    hide RamOk;
    if k < |list| {
      UnusedNone(rams, img, list, free, next, hashOf, k + 1);
      ListedSum(rams, img, list, free, next, hashOf, k);
    }
  }

  // On a store of at least two pages the clamps of the capacity never bite. The percentage is rounded
  // down. Without an entry to spare the store is full; with less than a tenth of what is usable it is
  // critical, with more than a quarter in order, and low in between.
  lemma CapacityMeans(st: Stats, n: nat, spare: nat)
    requires StatsOf(st, n, spare) && n >= 2
    ensures var c := CapacityOf(st);
      c.available == spare <= c.usable == st.used + spare == 126 * (n - 1)
    ensures var c := CapacityOf(st);
      c.percent * c.usable <= 100 * spare < (c.percent + 1) * c.usable && c.percent <= 100
    ensures CapacityOf(st).health.Full? <==> spare == 0
    ensures CapacityOf(st).health.Critical? <==> spare > 0 && 10 * spare < CapacityOf(st).usable
    ensures CapacityOf(st).health.Low? <==>
      spare > 0 && 10 * spare >= CapacityOf(st).usable && 4 * spare <= CapacityOf(st).usable
    ensures CapacityOf(st).health.Ok? <==> spare > 0 && 4 * spare > CapacityOf(st).usable
  {
    var c := CapacityOf(st);
    Percent(c.available, c.usable);
  }

  lemma Percent(a: nat, u: nat)
    requires a <= u && u > 0
    ensures var q := a * 100 / u; q * u <= 100 * a < (q + 1) * u && q <= 100
  {
    var q := a * 100 / u;
    assert q * u <= a * 100 < q * u + u;
    if q > 100 {
      Times(q, 101, u);
    }
  }

  lemma Times(x: nat, y: nat, u: nat)
    requires x >= y
    ensures x * u >= y * u
  {
    assert (x - y) * u >= 0;
  }

  // ---------------------------------------------------------------- entries not attributed to a namespace

  // Namespace records, of one entry each, say which namespaces there are.
  ghost predicate NamespaceTable(recs: seq<Rec>, names: seq<byte>) {
    && (forall r :: r in OfNs(recs, NS_INDEX) ==> r.item.span == 1)
    && |OfNs(recs, NS_INDEX)| == |names| && (forall i :: 0 <= i < |names| ==> 0 < names[i] < 255) && Different(names)
  }

  predicate Different(names: seq<byte>) {
    forall i, j :: 0 <= i < j < |names| ==> names[i] != names[j]
  }

  // The entries of namespaces from 1 to below n that are not among these.
  function Unlisted(recs: seq<Rec>, listed: seq<byte>, n: nat): nat
    requires n <= 256
  {
    if n <= 1 then 0
    else Unlisted(recs, listed, n - 1) + if (n - 1) as byte in listed then 0 else SpanSum(OfNs(recs, (n - 1) as byte))
  }

  // What is shown for a namespace: its own entry and those of its items.
  function ShownFor(recs: seq<Rec>, listed: seq<byte>): seq<nat> {
    seq(|listed|, i requires 0 <= i < |listed| => SpanSum(OfNs(recs, listed[i])) + 1)
  }

  function Sum(ns: seq<nat>): nat {
    if ns == [] then 0 else Sum(ns[..|ns| - 1]) + ns[|ns| - 1]
  }

  method UnattributedEntries(used: nat, shown: seq<nat>) returns (n: nat)
    ensures n == if used > Sum(shown) then used - Sum(shown) else 0
  {
    var listed := 0;
    var i := 0;
    while i < |shown|
      invariant i <= |shown| && listed == Sum(shown[..i])
    {
      assert shown[..i + 1][..i] == shown[..i];
      listed := listed + shown[i];
      i := i + 1;
    }
    assert shown[..|shown|] == shown;
    n := if used > listed then used - listed else 0;
  }

  lemma {:induction false} ListedOneMore(recs: seq<Rec>, listed: seq<byte>, x: byte, n: nat)
    requires n <= 256 && x !in listed && x > 0
    ensures Unlisted(recs, listed, n) == Unlisted(recs, listed + [x], n) + if x < n then SpanSum(OfNs(recs, x)) else 0
  {
    if n > 1 {
      ListedOneMore(recs, listed, x, n - 1);
    }
  }

  lemma {:induction false} ShownAndUnlisted(recs: seq<Rec>, listed: seq<byte>)
    requires Different(listed) && forall i :: 0 <= i < |listed| ==> 0 < listed[i] < 255
    ensures Sum(ShownFor(recs, listed)) + Unlisted(recs, listed, 255) == |listed| + Unlisted(recs, [], 255)
  {
    if listed != [] {
      var front, x := listed[..|listed| - 1], listed[|listed| - 1];
      ShownAndUnlisted(recs, front);
      ListedOneMore(recs, front, x, 255);
      assert front + [x] == listed;
      assert ShownFor(recs, listed)[..|listed| - 1] == ShownFor(recs, front);
    }
  }

  lemma {:induction false} BelowIsUnlisted(recs: seq<Rec>, n: nat)
    requires 1 <= n <= 256
    ensures SpansBelow(recs, n) == SpanSum(OfNs(recs, NS_INDEX)) + Unlisted(recs, [], n)
  {
    if n == 1 {
      assert SpansBelow(recs, 0) == 0;
    } else {
      BelowIsUnlisted(recs, n - 1);
    }
  }

  lemma {:induction false} OneEntryEach(recs: seq<Rec>)
    requires forall r :: r in recs ==> r.item.span == 1
    ensures SpanSum(recs) == |recs|
  {
    if recs != [] {
      OneEntryEach(recs[..|recs| - 1]);
    }
  }

  lemma {:induction false} NoMoreThan(listed: seq<byte>, names: seq<byte>)
    requires Different(listed) && Different(names) && forall x :: x in listed ==> x in names
    ensures |listed| <= |names|
    decreases |listed|
  {
    if listed != [] {
      var front, x := listed[..|listed| - 1], listed[|listed| - 1];
      assert x in listed;
      var k :| 0 <= k < |names| && names[k] == x;
      var rest := names[..k] + names[k + 1..];
      forall y | y in front ensures y in rest {
        assert y in listed;
        var j :| 0 <= j < |names| && names[j] == y;
        assert j != k;
        assert rest[if j < k then j else j - 1] == y;
      }
      NoMoreThan(front, rest);
    }
  }

  // The sum over the listed namespaces never exceeds the entries in use, so the subtraction needs no
  // clamp; what it leaves are the entries of namespaces that are not listed, and one entry for each
  // namespace record without a listed namespace.
  lemma {:induction false} UnattributedIs(recs: seq<Rec>, names: seq<byte>, listed: seq<byte>)
    requires (forall r :: r in recs ==> r.item.ns != NS_ANY) && NamespaceTable(recs, names)
    requires Different(listed) && forall x :: x in listed ==> x in names
    ensures SpanSum(recs) - Sum(ShownFor(recs, listed)) == Unlisted(recs, listed, 255) + (|names| - |listed|) >= 0
  {
    NamespacesPartition(recs);
    BelowIsUnlisted(recs, 255);
    OneEntryEach(OfNs(recs, NS_INDEX));
    forall i | 0 <= i < |listed| ensures 0 < listed[i] < 255 {
      assert listed[i] in names;
    }
    ShownAndUnlisted(recs, listed);
    NoMoreThan(listed, names);
  }

  // ---------------------------------------------------------------- listing keys

  // What is listed: not namespaces or blob indices, and of a blob only the first chunk.
  predicate Iterable(it: Item) {
    && it.ns != 0 && !it.typ.BLOB? && !it.typ.BLOB_IDX?
    && (it.typ.BLOB_DATA? ==> it.chunk == VER_0_OFFSET || it.chunk == VER_1_OFFSET)
  }

  function Listed(recs: seq<Rec>): seq<Item> {
    if recs == [] then [] else (if Iterable(recs[0].item) then [recs[0].item] else []) + Listed(recs[1..])
  }

  lemma {:induction false} ListedFirst(r: Rec, recs: seq<Rec>)
    ensures Listed([r] + recs) == (if Iterable(r.item) then [r.item] else []) + Listed(recs)
  {
    assert ([r] + recs)[1..] == recs;
  }

  // One item more is listed, the others follow.
  lemma ListedNext(items: seq<Item>, item: Item, rest: seq<Item>)
    ensures items + ([item] + rest) == items + [item] + rest
  {
  }

  lemma SpanNone()
    ensures SpanSum([]) == 0
  {
  }

  lemma NothingAhead()
    ensures Listed([]) == []
  {
  }

  lemma BehindPage(fp: FPage, index: nat, ns: byte)
    requires index >= |fp.slots|
    ensures SpanSum(OfNs(PageAhead(fp, index), ns)) == 0
  {
  }
}
