// How much room a blob needs: the stretches of entries its chunks can go to, one chunk to a stretch, and
// when these hold the data and the index.
module BlobRooms {
  import opened NvsTypes
  import opened PageRam
  import opened PageValues
  import opened FlashDevice
  import opened StoreImage
  import opened PageLists
  import opened StoreWrites
  import opened StoreAccounts
  import opened BlobWrites

  // ---------------------------------------------------------------- stretches of entries

  // What a chunk of a blob can hold on so many entries: one of them is its header.
  function DataEntries(lot: int): nat {
    if lot > 1 then lot - 1 else 0
  }

  function DataSum(lots: seq<int>): nat {
    if lots == [] then 0 else DataSum(lots[..|lots| - 1]) + DataEntries(lots[|lots| - 1])
  }

  // The lots have room for n entries of data in chunks, each with its header, and for the index after
  // that: more than n entries of data, or just as many and a lot of one entry besides.
  predicate CanHold(lots: seq<int>, n: nat) {
    DataSum(lots) > n || (DataSum(lots) == n && 1 in lots)
  }

  lemma {:induction false} DataSumAdds(a: seq<int>, b: seq<int>)
    ensures DataSum(a + b) == DataSum(a) + DataSum(b)
    decreases |b|
  {
    if b == [] {
      assert a + b == a;
    } else {
      DataSumAdds(a, b[..|b| - 1]);
      assert (a + b)[..|a + b| - 1] == a + b[..|b| - 1];
    }
  }

  lemma DataSumOne(lot: int)
    ensures DataSum([lot]) == DataEntries(lot)
  {
    assert [lot][..0] == [];
  }

  lemma WithoutOne(front: seq<int>, x: int, b: seq<int>, j: nat)
    requires multiset(front + [x]) == multiset(b) && j < |b| && b[j] == x
    ensures multiset(front) == multiset(b[..j] + b[j + 1..])
  {
    var rest := b[..j] + b[j + 1..];
    assert b == b[..j] + [x] + b[j + 1..];
    assert multiset(rest) + multiset{x} == multiset(front) + multiset{x};
    assert forall y :: multiset(rest)[y] == (multiset(rest) + multiset{x})[y] - multiset{x}[y];
  }

  // The order of the lots does not matter.
  lemma {:induction false} DataSumSame(a: seq<int>, b: seq<int>)
    requires multiset(a) == multiset(b)
    ensures DataSum(a) == DataSum(b)
    decreases |a|
  {
    if a == [] {
      assert |multiset(b)| == |b|;
    } else {
      var front, x := a[..|a| - 1], a[|a| - 1];
      assert a == front + [x] && x in multiset(b);
      var j :| 0 <= j < |b| && b[j] == x;
      assert b == b[..j] + [x] + b[j + 1..];
      WithoutOne(front, x, b, j);
      DataSumSame(front, b[..j] + b[j + 1..]);
      DataSumOne(x);
      DataSumAdds(b[..j] + [x], b[j + 1..]);
      DataSumAdds(b[..j], [x]);
      DataSumAdds(b[..j], b[j + 1..]);
    }
  }

  lemma HoldsSame(a: seq<int>, b: seq<int>, n: nat)
    requires multiset(a) == multiset(b)
    ensures CanHold(a, n) <==> CanHold(b, n)
  {
    DataSumSame(a, b);
    assert 1 in a <==> 1 in multiset(a);
    assert 1 in b <==> 1 in multiset(b);
  }

  predicate SomeEntry(lots: seq<int>) {
    exists i :: 0 <= i < |lots| && lots[i] > 0
  }

  lemma {:induction false} NoData(lots: seq<int>)
    requires forall i :: 0 <= i < |lots| ==> lots[i] <= 1
    ensures DataSum(lots) == 0
  {
    if lots != [] {
      NoData(lots[..|lots| - 1]);
    }
  }

  lemma {:induction false} SomeData(lots: seq<int>)
    ensures DataSum(lots) > 0 <==> exists i :: 0 <= i < |lots| && lots[i] > 1
    ensures DataSum(lots) > 0 || 1 in lots <==> SomeEntry(lots)
  {
    if lots != [] {
      var front := lots[..|lots| - 1];
      SomeData(front);
      assert forall i :: 0 <= i < |front| ==> front[i] == lots[i];
      assert 1 in lots <==> 1 in front || lots[|lots| - 1] == 1;
    }
  }

  // A lot that is too small for data, or empty, besides.
  lemma HoldsBesides(lots: seq<int>, lot: int, n: nat)
    requires lot != 1
    ensures CanHold(lots + [lot], n + DataEntries(lot)) <==> CanHold(lots, n)
  {
    DataSumAdds(lots, [lot]);
    DataSumOne(lot);
    assert 1 in lots + [lot] <==> 1 in lots;
  }

  // ---------------------------------------------------------------- what it means that lots hold a blob

  // The i-th lot takes parts[i] entries of data with a header before them, or none; one lot has an entry
  // left for the index.
  ghost predicate LaidOut(lots: seq<int>, parts: seq<nat>, n: nat) {
    && |parts| == |lots| && Sum(parts) == n
    && (forall i :: 0 <= i < |lots| ==> Taken(parts[i]) <= Least(lots[i]))
    && exists i :: 0 <= i < |lots| && Taken(parts[i]) < Least(lots[i])
  }

  function Taken(part: nat): nat {
    if part == 0 then 0 else part + 1
  }

  function Least(lot: int): nat {
    if lot < 0 then 0 else lot
  }

  // The lots hold a blob exactly if it can be laid out in them in any way.
  lemma CanHoldIff(lots: seq<int>, n: nat)
    ensures CanHold(lots, n) <==> exists parts: seq<nat> :: LaidOut(lots, parts, n)
  {
    if CanHold(lots, n) {
      var parts := LayOut(lots, n);
      assert LaidOut(lots, parts, n);
    }
    if exists parts: seq<nat> :: LaidOut(lots, parts, n) {
      var parts: seq<nat> :| LaidOut(lots, parts, n);
      CannotExceed(lots, parts);
    }
  }

  lemma {:induction false} LayOut(lots: seq<int>, n: nat) returns (parts: seq<nat>)
    requires CanHold(lots, n)
    ensures LaidOut(lots, parts, n)
  {
    var front, last := lots[..|lots| - 1], lots[|lots| - 1];
    var d := DataSum(front);
    if CanHold(front, n) {
      var some := LayOut(front, n);
      parts := some + [0];
      SumMore(some, 0);
      var i :| 0 <= i < |front| && Taken(some[i]) < Least(front[i]);
      assert Taken(parts[i]) < Least(lots[i]);
    } else {
      var some := FillAll(front);
      parts := some + [n - d];
      SumMore(some, n - d);
      if last > 1 && n - d == last - 1 {
        assert 1 in front;
        var i :| 0 <= i < |front| && front[i] == 1;
        assert Taken(parts[i]) < Least(lots[i]);
      } else {
        assert Taken(parts[|front|]) < Least(lots[|front|]);
      }
    }
  }

  // All the data the lots can take.
  lemma {:induction false} FillAll(lots: seq<int>) returns (parts: seq<nat>)
    ensures |parts| == |lots| && Sum(parts) == DataSum(lots)
      && forall i :: 0 <= i < |lots| ==> parts[i] == DataEntries(lots[i])
  {
    parts := [];
    if lots != [] {
      var some := FillAll(lots[..|lots| - 1]);
      parts := some + [DataEntries(lots[|lots| - 1])];
      SumMore(some, DataEntries(lots[|lots| - 1]));
    }
  }

  lemma {:induction false} SumMore(parts: seq<nat>, part: nat)
    ensures Sum(parts + [part]) == Sum(parts) + part
  {
    assert (parts + [part])[..|parts|] == parts;
  }

  lemma {:induction false} CannotExceed(lots: seq<int>, parts: seq<nat>)
    requires |parts| == |lots| && forall i :: 0 <= i < |lots| ==> Taken(parts[i]) <= Least(lots[i])
    ensures Sum(parts) <= DataSum(lots)
    ensures (exists i :: 0 <= i < |lots| && Taken(parts[i]) < Least(lots[i])) ==>
      Sum(parts) < DataSum(lots) || 1 in lots
  {
    if lots != [] {
      var front, some := lots[..|lots| - 1], parts[..|parts| - 1];
      CannotExceed(front, some);
      if exists i :: 0 <= i < |lots| && Taken(parts[i]) < Least(lots[i]) {
        var i :| 0 <= i < |lots| && Taken(parts[i]) < Least(lots[i]);
        if i < |front| {
          assert Taken(some[i]) < Least(front[i]);
          assert 1 in front ==> 1 in lots;
        }
      }
    }
  }

  // ---------------------------------------------------------------- the lots of a store

  // The entries behind the next free one.
  function OpenEnd(r: Ram): nat {
    if r.state.FULL? || FirstFree(r) > ENTRY_COUNT then 0 else ENTRY_COUNT - FirstFree(r)
  }

  function UnusedOn(rams: seq<Ram>, p: nat): int {
    if p < |rams| then ENTRY_COUNT - rams[p].used else 0
  }

  // The entries not in use, listed page by listed page.
  function Gaps(rams: seq<Ram>, list: seq<nat>): seq<int> {
    seq(|list|, k requires 0 <= k < |list| => UnusedOn(rams, list[k]))
  }

  // The free pages but for the reserve.
  function SparePages(free: seq<nat>): seq<int> {
    seq(if free == [] then 0 else |free| - 1, _ => ENTRY_COUNT)
  }

  // What a new page can offer, one after the other.
  function AllLots(rams: seq<Ram>, list: seq<nat>, free: seq<nat>): seq<int> {
    Gaps(rams, list) + SparePages(free)
  }

  // What chunks can use from now on: the current page up to its end; later, when it has moved, its gaps.
  function OpenLots(rams: seq<Ram>, list: seq<nat>, free: seq<nat>): seq<int> {
    if list == [] || list[|list| - 1] >= |rams| then []
    else
      var r := rams[list[|list| - 1]];
      Gaps(rams, list[..|list| - 1]) + SparePages(free) + [ENTRY_COUNT - r.used - OpenEnd(r)] + [OpenEnd(r)]
  }

  // A page to start a blob of this size on: room for all of it, or for a tenth of the longest chunk.
  predicate Roomy(tailroom: nat, size: nat) {
    tailroom >= 400 || (tailroom > 0 && tailroom >= size)
  }

  predicate SomeRoomy(lots: seq<int>, size: nat) {
    exists i :: 0 <= i < |lots| && Roomy(ENTRY_SIZE * DataEntries(lots[i]), size)
  }

  predicate RoomyNow(rams: seq<Ram>, list: seq<nat>, size: nat) {
    list != [] && list[|list| - 1] < |rams| && Roomy(Tailroom(rams[list[|list| - 1]]), size)
  }

  // A page to start on is there, or can be had.
  predicate CanStart(rams: seq<Ram>, list: seq<nat>, free: seq<nat>, size: nat) {
    RoomyNow(rams, list, size) || SomeRoomy(AllLots(rams, list, free), size)
  }

  // There is room for a blob of this size. If it is not started on the current page, the gaps of that
  // page count with what is behind them.
  predicate BlobRoom(rams: seq<Ram>, list: seq<nat>, free: seq<nat>, size: nat) {
    && CanStart(rams, list, free, size)
    && CanHold(if RoomyNow(rams, list, size) then OpenLots(rams, list, free) else AllLots(rams, list, free),
             EntriesFor(size))
  }

  // What a write of a blob of this size answers on a store of n pages, unless chunk numbers run out.
  predicate BlobAnswer(err: Error, n: nat, rams: seq<Ram>, list: seq<nat>, free: seq<nat>, key: string, size: nat) {
    && (err == VALUE_TOO_LONG <==> size > 4000 * if n > 128 then 127 else n - 1)
    && (err != VALUE_TOO_LONG ==>
      if |key| <= 15 then err == if BlobRoom(rams, list, free, size) then OK else NOT_ENOUGH_SPACE
      else err == if CanStart(rams, list, free, size) then KEY_TOO_LONG else NOT_ENOUGH_SPACE)
  }

  lemma TailroomIs(r: Ram)
    requires r.state.UNINITIALIZED? || r.state.FULL? || r.state.ACTIVE?
    ensures Tailroom(r) == ENTRY_SIZE * DataEntries(OpenEnd(r))
  {
  }

  // On a page without gaps all that is not in use is behind the next free entry.
  lemma FreshLots(rams: seq<Ram>, list: seq<nat>, free: seq<nat>, n: nat)
    requires list != [] && list[|list| - 1] < |rams| && Fresh(rams[list[|list| - 1]])
      && 0 <= rams[list[|list| - 1]].used <= ENTRY_COUNT
    ensures CanHold(OpenLots(rams, list, free), n) <==> CanHold(AllLots(rams, list, free), n)
  {
    hide CanHold, SparePages;
    var front, u := list[..|list| - 1], UnusedOn(rams, list[|list| - 1]);
    assert Gaps(rams, list) == Gaps(rams, front) + [u];
    assert OpenEnd(rams[list[|list| - 1]]) == u;
    NoneBehind(Gaps(rams, front), SparePages(free), u, n);
  }

  lemma NoneBehind(front: seq<int>, spare: seq<int>, u: int, n: nat)
    ensures CanHold(front + spare + [0] + [u], n) <==> CanHold(front + [u] + spare, n)
  {
    hide CanHold;
    Reordered(front, spare, [u], [0]);
    assert multiset(front + spare + [0] + [u]) == multiset(front + spare + [u] + [0]);
    HoldsSame(front + spare + [0] + [u], front + [u] + spare + [0], n);
    HoldsBesides(front + [u] + spare, 0, n);
  }

  // Another page: the lots are the same, and the new page is one of the largest.
  ghost predicate Widest(rams: seq<Ram>, list: seq<nat>, free: seq<nat>) {
    && list != [] && list[|list| - 1] < |rams|
    && forall i :: 0 <= i < |AllLots(rams, list, free)| ==>
         AllLots(rams, list, free)[i] <= UnusedOn(rams, list[|list| - 1])
  }

  lemma NewPageLots(rams0: seq<Ram>, img0: seq<FPage>, p: nat, rams: seq<Ram>, img: seq<FPage>, list: seq<nat>,
                    free: seq<nat>, rams': seq<Ram>, img': seq<FPage>, list': seq<nat>, free': seq<nat>, freed: nat)
    requires MarkedFull(rams0, img0, p, rams, img) && Partition(|rams0|, list, free) && free != []
    requires Relocated(rams, img, list, free, rams', img', list', free', freed)
    requires forall k :: 0 <= k < |list| ==> 0 <= rams0[list[k]].used
    ensures multiset(AllLots(rams', list', free')) == multiset(AllLots(rams0, list, free))
    ensures Widest(rams', list', free')
  {
    hide Relocated, MarkedFull, Widest;
    MarkingKeepsGaps(rams0, img0, p, rams, img, list);
    if |free| >= 2 {
      TakenLots(rams, img, list, free, rams', img', list', free', freed);
    } else {
      MovedLots(rams, img, list, free, rams', img', list', free', freed);
    }
  }

  lemma MarkingKeepsGaps(rams0: seq<Ram>, img0: seq<FPage>, p: nat, rams: seq<Ram>, img: seq<FPage>, list: seq<nat>)
    requires MarkedFull(rams0, img0, p, rams, img)
    ensures Gaps(rams, list) == Gaps(rams0, list) && |rams| == |rams0|
    ensures (forall k :: 0 <= k < |list| ==> list[k] < |rams|) ==>
      forall k :: 0 <= k < |list| ==> rams[list[k]].used == rams0[list[k]].used
  {
  }

  lemma TakenLots(rams: seq<Ram>, img: seq<FPage>, list: seq<nat>, free: seq<nat>, rams': seq<Ram>, img': seq<FPage>,
                  list': seq<nat>, free': seq<nat>, freed: nat)
    requires Relocated(rams, img, list, free, rams', img', list', free', freed) && |free| >= 2
      && Partition(|rams|, list, free)
    requires forall k :: 0 <= k < |list| ==> 0 <= rams[list[k]].used
    ensures AllLots(rams', list', free') == AllLots(rams, list, free) && Widest(rams', list', free')
  {
    hide RecsOf, Fresh;
    assert Gaps(rams', list') == Gaps(rams, list) + [ENTRY_COUNT];
  }

  lemma MovedLots(rams: seq<Ram>, img: seq<FPage>, list: seq<nat>, free: seq<nat>, rams': seq<Ram>, img': seq<FPage>,
                  list': seq<nat>, free': seq<nat>, freed: nat)
    requires Relocated(rams, img, list, free, rams', img', list', free', freed) && |free| == 1
      && Partition(|rams|, list, free)
    ensures multiset(AllLots(rams', list', free')) == multiset(AllLots(rams, list, free))
      && Widest(rams', list', free')
  {
    hide RecsOf, Fresh, Relocated;
    var at := MovedGaps(rams, img, list, free, rams', img', list', free', freed);
    var a, b, u := Gaps(rams, list[..at]), Gaps(rams, list[at + 1..]), [UnusedOn(rams, freed)];
    assert Gaps(rams, list) == a + u + b;
    assert AllLots(rams', list', free') == a + b + u;
    assert AllLots(rams, list, free) == a + u + b;
    MostUnused(rams, img, list, free, rams', img', list', free', freed, at);
  }

  lemma MovedGaps(rams: seq<Ram>, img: seq<FPage>, list: seq<nat>, free: seq<nat>, rams': seq<Ram>, img': seq<FPage>,
                  list': seq<nat>, free': seq<nat>, freed: nat) returns (at: nat)
    requires Relocated(rams, img, list, free, rams', img', list', free', freed) && |free| == 1
      && Partition(|rams|, list, free)
    ensures at < |list| && list[at] == freed && list' == Collected(list, at, free[0]) && |free'| == 1
    ensures Gaps(rams', list') == Gaps(rams, list[..at]) + Gaps(rams, list[at + 1..]) + [UnusedOn(rams, freed)]
  {
    hide RecsOf, Fresh;
    at :| 0 <= at < |list| && list[at] == freed && list' == Collected(list, at, free[0]);
    forall k | 0 <= k < |list'| - 1
      ensures UnusedOn(rams', list'[k]) == UnusedOn(rams, list[if k < at then k else k + 1])
    {
      var j := if k < at then k else k + 1;
      assert list'[k] == list[j] && list[j] != list[at] && list[j] != free[0];
    }
    GapsCollected(rams, list, rams', list', at, freed);
  }

  lemma GapsCollected(rams: seq<Ram>, list: seq<nat>, rams': seq<Ram>, list': seq<nat>, at: nat, freed: nat)
    requires at < |list| == |list'| && UnusedOn(rams', list'[|list'| - 1]) == UnusedOn(rams, freed)
    requires forall k :: 0 <= k < |list'| - 1 ==>
      UnusedOn(rams', list'[k]) == UnusedOn(rams, list[if k < at then k else k + 1])
    ensures Gaps(rams', list') == Gaps(rams, list[..at]) + Gaps(rams, list[at + 1..]) + [UnusedOn(rams, freed)]
  {
    hide UnusedOn;
  }

  lemma MostUnused(rams: seq<Ram>, img: seq<FPage>, list: seq<nat>, free: seq<nat>, rams': seq<Ram>, img': seq<FPage>,
                   list': seq<nat>, free': seq<nat>, freed: nat, at: nat)
    requires Relocated(rams, img, list, free, rams', img', list', free', freed) && |free| == 1
    requires at < |list| && list[at] == freed && list' == Collected(list, at, free[0]) && |free'| == 1
    requires Gaps(rams', list') == Gaps(rams, list[..at]) + Gaps(rams, list[at + 1..]) + [UnusedOn(rams, freed)]
    ensures Widest(rams', list', free')
  {
    hide RecsOf, Fresh;
    forall i | 0 <= i < |list'| ensures Gaps(rams', list')[i] <= UnusedOn(rams, freed) {
      if i < at {
        assert Gaps(rams', list')[i] == UnusedOn(rams, list[i]);
      } else if i < |list| - 1 {
        assert Gaps(rams', list')[i] == UnusedOn(rams, list[i + 1]);
      }
    }
    assert UnusedOn(rams', list'[|list'| - 1]) == UnusedOn(rams, freed);
  }

  // Another page can be had exactly if there is an entry left on any.
  lemma AnyLot(rams: seq<Ram>, list: seq<nat>, free: seq<nat>)
    requires (forall k :: 0 <= k < |list| ==> list[k] < |rams|)
    ensures SomeEntry(AllLots(rams, list, free)) <==>
      |free| >= 2 || exists k :: 0 <= k < |list| && rams[list[k]].used < ENTRY_COUNT
  {
    var lots := AllLots(rams, list, free);
    if |free| >= 2 {
      assert lots[|list|] == ENTRY_COUNT;
    }
    forall k | 0 <= k < |list| ensures lots[k] == ENTRY_COUNT - rams[list[k]].used {
    }
  }

  lemma NewPageAt(rams: seq<Ram>, img: seq<FPage>, list: seq<nat>, free: seq<nat>, rams': seq<Ram>, img': seq<FPage>,
                  list': seq<nat>, free': seq<nat>, freed: nat)
    requires Relocated(rams, img, list, free, rams', img', list', free', freed)
    ensures free != [] && free[0] < |rams'|
  {
    hide RecsOf, Fresh;
  }

  // The answer when another page is asked for, and what there is then.
  lemma AnotherPage(rams0: seq<Ram>, img0: seq<FPage>, list: seq<nat>, free: seq<nat>, next: nat, hashOf: Id -> nat,
                    rams: seq<Ram>, img: seq<FPage>, rams': seq<Ram>, img': seq<FPage>, list': seq<nat>,
                    free': seq<nat>, freed: nat, ok: bool)
    requires InOrder(rams0, img0, list, free, next, hashOf) && MarkedFull(rams0, img0, list[|list| - 1], rams, img)
    requires ok <==> |free| >= 2 || exists k :: 0 <= k < |list| && rams[list[k]].used < ENTRY_COUNT
    requires ok ==> Relocated(rams, img, list, free, rams', img', list', free', freed)
    ensures list != [] && list[|list| - 1] < |rams0| && (ok <==> SomeEntry(AllLots(rams0, list, free)))
    ensures ok ==> free != [] && free[0] < |rams'|
    ensures ok ==> multiset(AllLots(rams', list', free')) == multiset(AllLots(rams0, list, free))
    ensures ok ==> Widest(rams', list', free') && list'[|list'| - 1] < |rams'|
    ensures ok ==> var r := rams'[list'[|list'| - 1]]; Fresh(r) && r.used < ENTRY_COUNT
    ensures ok ==> Tailroom(rams'[list'[|list'| - 1]]) == CHUNK_MAX_SIZE || NoBetter(rams', list', free')
    ensures ok && NoBetter(rams0, list, free) ==>
      Tailroom(rams'[list'[|list'| - 1]]) == Tailroom(rams0[list[|list| - 1]])
    ensures ok ==> |Filled(rams', list')| >= |Filled(rams0, list)|
  {
    hide RamsOk, MarkedFull, Relocated, NoBetter, Filled, Fresh, Tailroom, AllLots, SomeEntry, Partition;
    var p := list[|list| - 1];
    UsedInRange(rams0, img0, list, free, next, hashOf);
    ListedOnce(rams0, img0, list, free, next, hashOf);
    MarkingKeepsGaps(rams0, img0, p, rams, img, list);
    AnyLot(rams0, list, free);
    if ok {
      NewPageAt(rams, img, list, free, rams', img', list', free', freed);
      NewTailroom(rams0, img0, p, rams, img, list, free, rams', img', list', free', freed);
      StaysFilled(rams0, img0, p, rams, img, list, free, rams', img', list', free', freed);
      NewPageLots(rams0, img0, p, rams, img, list, free, rams', img', list', free', freed);
    }
  }

  // ---------------------------------------------------------------- starting a blob

  lemma UsedInRange(rams: seq<Ram>, img: seq<FPage>, list: seq<nat>, free: seq<nat>, next: nat, hashOf: Id -> nat)
    requires InOrder(rams, img, list, free, next, hashOf)
    ensures |rams| == |img| && (forall k :: 0 <= k < |list| ==> list[k] < |rams|) && list != [] && free != []
      && Partition(|rams|, list, free)
    ensures forall k :: 0 <= k < |list| ==> 0 <= rams[list[k]].used <= ENTRY_COUNT
    ensures var st := rams[list[|list| - 1]].state; st.UNINITIALIZED? || st.FULL? || st.ACTIVE?
  {
    InRange(rams, img, list, free, next, hashOf);
    forall k | 0 <= k < |list| ensures 0 <= rams[list[k]].used <= ENTRY_COUNT {
      ListedSum(rams, img, list, free, next, hashOf, k);
    }
  }

  lemma NoneRoomy(lots: seq<int>, size: nat)
    requires !SomeEntry(lots)
    ensures !SomeRoomy(lots, size)
  {
  }

  lemma RoomySame(a: seq<int>, b: seq<int>, size: nat)
    requires multiset(a) == multiset(b) && SomeRoomy(a, size)
    ensures SomeRoomy(b, size)
  {
    var i :| 0 <= i < |a| && Roomy(ENTRY_SIZE * DataEntries(a[i]), size);
    assert a[i] in multiset(b);
    var j :| 0 <= j < |b| && b[j] == a[i];
  }

  // The widest page has no room to start: no page has.
  lemma NoneWider(rams: seq<Ram>, list: seq<nat>, free: seq<nat>, size: nat)
    requires Widest(rams, list, free) && Fresh(rams[list[|list| - 1]])
    requires 0 <= rams[list[|list| - 1]].used <= ENTRY_COUNT
    ensures RoomyNow(rams, list, size) <==> SomeRoomy(AllLots(rams, list, free), size)
  {
    var r, lots := rams[list[|list| - 1]], AllLots(rams, list, free);
    TailroomIs(r);
    assert lots[|list| - 1] == UnusedOn(rams, list[|list| - 1]) == OpenEnd(r);
  }

  // Pages have moved, and the current one was no place to start.
  lemma StartAfterMove(rams0: seq<Ram>, list0: seq<nat>, free0: seq<nat>, rams: seq<Ram>, list: seq<nat>,
                       free: seq<nat>, size: nat)
    requires multiset(AllLots(rams, list, free)) == multiset(AllLots(rams0, list0, free0))
    requires Widest(rams, list, free) && Fresh(rams[list[|list| - 1]])
    requires 0 <= rams[list[|list| - 1]].used <= ENTRY_COUNT
    requires !RoomyNow(rams0, list0, size)
    ensures CanStart(rams0, list0, free0, size) <==> RoomyNow(rams, list, size)
    ensures BlobRoom(rams0, list0, free0, size) <==>
      RoomyNow(rams, list, size) && CanHold(OpenLots(rams, list, free), EntriesFor(size))
  {
    hide Fresh, AllLots, OpenLots, Roomy, CanHold, SomeRoomy;
    var lots0, lots := AllLots(rams0, list0, free0), AllLots(rams, list, free);
    NoneWider(rams, list, free, size);
    if SomeRoomy(lots0, size) {
      RoomySame(lots0, lots, size);
    }
    if SomeRoomy(lots, size) {
      RoomySame(lots, lots0, size);
    }
    HoldsSame(lots0, lots, EntriesFor(size));
    FreshLots(rams, list, free, EntriesFor(size));
  }

  // Looking for a page to start on: the current one is still that of the beginning, or it was no place to
  // start, and what there is now counts.
  ghost predicate Searching(rams0: seq<Ram>, list0: seq<nat>, free0: seq<nat>, rams: seq<Ram>, list: seq<nat>,
                            free: seq<nat>, size: nat) {
    && (RoomyNow(rams, list, size) ==> CanStart(rams0, list0, free0, size))
    && (RoomyNow(rams, list, size) ==>
      (CanHold(OpenLots(rams, list, free), EntriesFor(size)) <==> BlobRoom(rams0, list0, free0, size)))
    && ((rams == rams0 && list == list0 && free == free0)
      || (multiset(AllLots(rams, list, free)) == multiset(AllLots(rams0, list0, free0))
        && !RoomyNow(rams0, list0, size)
        && (CanStart(rams0, list0, free0, size) <==> RoomyNow(rams, list, size))))
  }

  lemma SearchStarts(rams: seq<Ram>, list: seq<nat>, free: seq<nat>, size: nat)
    ensures Searching(rams, list, free, rams, list, free, size)
  {
    hide CanHold, OpenLots, AllLots, Roomy;
  }

  lemma SearchEnds(rams0: seq<Ram>, list0: seq<nat>, free0: seq<nat>, rams: seq<Ram>, list: seq<nat>, free: seq<nat>,
                   size: nat)
    requires Searching(rams0, list0, free0, rams, list, free, size) && RoomyNow(rams, list, size)
    ensures CanStart(rams0, list0, free0, size)
    ensures CanHold(OpenLots(rams, list, free), EntriesFor(size)) <==> BlobRoom(rams0, list0, free0, size)
  {
    hide CanHold, OpenLots, AllLots, Roomy, CanStart, BlobRoom;
  }

  // Another page was asked for, since the current one is no place to start.
  lemma SearchGoesOn(rams0: seq<Ram>, list0: seq<nat>, free0: seq<nat>, rams: seq<Ram>, list: seq<nat>,
                     free: seq<nat>, rams': seq<Ram>, img': seq<FPage>, list': seq<nat>, free': seq<nat>, next': nat,
                     hashOf: Id -> nat, size: nat, ok: bool)
    requires Searching(rams0, list0, free0, rams, list, free, size) && !RoomyNow(rams, list, size)
    requires ok <==> SomeEntry(AllLots(rams, list, free))
    requires ok ==> multiset(AllLots(rams', list', free')) == multiset(AllLots(rams, list, free))
    requires InOrder(rams', img', list', free', next', hashOf)
    requires ok ==> Widest(rams', list', free') && list'[|list'| - 1] < |rams'| && Fresh(rams'[list'[|list'| - 1]])
    ensures ok ==> Searching(rams0, list0, free0, rams', list', free', size)
    ensures !ok || !RoomyNow(rams', list', size) ==>
      !CanStart(rams0, list0, free0, size) && !BlobRoom(rams0, list0, free0, size)
  {
    hide CanHold, OpenLots, AllLots, Roomy, SomeRoomy, Widest, Fresh, SomeEntry, InOrder;
    UsedInRange(rams', img', list', free', next', hashOf);
    var lots0, lots := AllLots(rams0, list0, free0), AllLots(rams, list, free);
    if ok {
      StartAfterMove(rams0, list0, free0, rams', list', free', size);
    } else {
      NoneRoomy(lots, size);
      if SomeRoomy(lots0, size) {
        RoomySame(lots0, lots, size);
      }
    }
  }

  // ---------------------------------------------------------------- one chunk more

  // What the longest piece of the data that fits takes, and what is left.
  lemma PieceEntries(end: nat, left: nat)
    requires end >= 2
    ensures left + 32 <= 32 * (end - 1) ==> EntriesFor(left) < end - 1
    ensures left <= 32 * (end - 1) < left + 32 ==> EntriesFor(left) == end - 1
    ensures left > 32 * (end - 1) ==>
      EntriesFor(left) == end - 1 + EntriesFor(left - 32 * (end - 1)) && EntriesFor(left - 32 * (end - 1)) > 0
  {
  }

  // The longest piece of what is left of the data goes to the current page.
  ghost predicate PieceOf(r: Ram, left: nat, piece: nat) {
    Tailroom(r) > 0 && piece == if left > Tailroom(r) then Tailroom(r) else left
  }

  // What is left fits after the chunk exactly if it did before. While the page is not filled it does.
  ghost predicate StillRoom(rams: seq<Ram>, list: seq<nat>, free: seq<nat>, rams': seq<Ram>, left: nat, piece: nat)
    requires list != [] && list[|list| - 1] < |rams| && piece <= left
  {
    CanHold(OpenLots(rams, list, free), EntriesFor(left)) <==>
      (piece + ENTRY_SIZE <= Tailroom(rams[list[|list| - 1]])
        || CanHold(AllLots(rams', list, free), EntriesFor(left - piece)))
  }

  lemma ChunkLots(rams: seq<Ram>, list: seq<nat>, free: seq<nat>, rams': seq<Ram>, r: Ram, r': Ram, left: nat,
                  piece: seq<byte>)
    requires list != [] && OnlyAt(rams, rams', list[|list| - 1]) && Partition(|rams|, list, free)
    requires rams[list[|list| - 1]] == r && rams'[list[|list| - 1]] == r' && PieceOf(r, left, |piece|)
    requires r'.used == r.used + SpanFor(BLOB_DATA, Variable(piece))
    requires r.state.UNINITIALIZED? || r.state.ACTIVE? || r.state.FULL?
    ensures StillRoom(rams, list, free, rams', left, |piece|)
  {
    hide CanHold, Partition, AllLots, OpenLots;
    var a := OpenEnd(r);
    TailroomIs(r);
    PieceEntries(a, left);
    PieceEntries(a, |piece|);
    if |piece| + ENTRY_SIZE <= Tailroom(r) {
      EndHolds(rams, list, free, EntriesFor(left));
    } else {
      RestOfLots(rams, list, free, rams', r, r', EntriesFor(left - |piece|));
    }
  }

  // What there is after a chunk has been written to the current page.
  lemma AfterChunk(rams: seq<Ram>, img: seq<FPage>, list: seq<nat>, free: seq<nat>, next: nat, hashOf: Id -> nat,
                   rams': seq<Ram>, r: Ram, r': Ram, left: nat, piece: seq<byte>)
    requires InOrder(rams, img, list, free, next, hashOf) && OnlyAt(rams, rams', list[|list| - 1])
    requires rams[list[|list| - 1]] == r && rams'[list[|list| - 1]] == r' && PieceOf(r, left, |piece|)
    requires r'.used == r.used + SpanFor(BLOB_DATA, Variable(piece)) && r'.state == ACTIVE
    requires r'.nextFree == FirstFree(r) + SpanFor(BLOB_DATA, Variable(piece))
    ensures StillRoom(rams, list, free, rams', left, |piece|)
    ensures LiveState(r'.state) && !r'.state.FULL?
    ensures |piece| + ENTRY_SIZE <= Tailroom(r) ==> FirstFree(r') < ENTRY_COUNT
    ensures |Filled(rams', list)| >= |Filled(rams, list)| + if Fresh(r) && |piece| == Tailroom(r) then 1 else 0
  {
    hide RamsOk, StillRoom, SpanFor, Tailroom, Filled, Fresh, Partition;
    var p := list[|list| - 1];
    UsedInRange(rams, img, list, free, next, hashOf);
    CurrentIs(rams, img, list, free, next, hashOf);
    UsedBelow(rams, img, hashOf, p);
    ChunkPlaced(rams, list, p, rams', r, r', piece);
    ChunkLots(rams, list, free, rams', r, r', left, piece);
  }

  lemma EndHolds(rams: seq<Ram>, list: seq<nat>, free: seq<nat>, n: nat)
    requires list != [] && list[|list| - 1] < |rams| && n < DataEntries(OpenEnd(rams[list[|list| - 1]]))
    ensures CanHold(OpenLots(rams, list, free), n)
  {
    var lots, a := OpenLots(rams, list, free), OpenEnd(rams[list[|list| - 1]]);
    assert lots == lots[..|lots| - 1] + [a];
  }

  // The current page has been filled up.
  lemma RestOfLots(rams: seq<Ram>, list: seq<nat>, free: seq<nat>, rams': seq<Ram>, r: Ram, r': Ram, n: nat)
    requires list != [] && OnlyAt(rams, rams', list[|list| - 1]) && Partition(|rams|, list, free)
    requires rams[list[|list| - 1]] == r && rams'[list[|list| - 1]] == r' && OpenEnd(r) != 1
    requires r'.used == r.used + OpenEnd(r)
    ensures CanHold(OpenLots(rams, list, free), n + DataEntries(OpenEnd(r))) <==> CanHold(AllLots(rams', list, free), n)
  {
    hide CanHold, OpenEnd, DataEntries, Gaps, SparePages, Partition;
    GapBehind(rams, list, free, rams', r, r');
    EndApart(Gaps(rams, list[..|list| - 1]), SparePages(free), ENTRY_COUNT - r.used - OpenEnd(r), OpenEnd(r), n);
  }

  lemma EndApart(front: seq<int>, spare: seq<int>, gap: int, end: int, n: nat)
    requires end != 1
    ensures CanHold(front + spare + [gap] + [end], n + DataEntries(end)) <==> CanHold(front + [gap] + spare, n)
  {
    hide CanHold, DataEntries;
    Reordered(front, spare, [gap], [end]);
    HoldsSame(front + spare + [gap] + [end], front + [gap] + spare + [end], n + DataEntries(end));
    HoldsBesides(front + [gap] + spare, end, n);
  }

  lemma GapBehind(rams: seq<Ram>, list: seq<nat>, free: seq<nat>, rams': seq<Ram>, r: Ram, r': Ram)
    requires list != [] && OnlyAt(rams, rams', list[|list| - 1]) && Partition(|rams|, list, free)
    requires rams[list[|list| - 1]] == r && rams'[list[|list| - 1]] == r' && r'.used == r.used + OpenEnd(r)
    ensures Gaps(rams', list) == Gaps(rams, list[..|list| - 1]) + [ENTRY_COUNT - r.used - OpenEnd(r)]
  {
    hide OpenEnd;
  }

  lemma Reordered(a: seq<int>, b: seq<int>, c: seq<int>, d: seq<int>)
    ensures multiset(a + b + c + d) == multiset(a + c + b + d)
  {
  }

  // The page is filled, and another was asked for.
  lemma RoomGoesOn(rams: seq<Ram>, list: seq<nat>, free: seq<nat>, rams': seq<Ram>, list': seq<nat>, free': seq<nat>,
                   n: nat)
    requires multiset(AllLots(rams', list', free')) == multiset(AllLots(rams, list, free))
    requires Widest(rams', list', free') && Fresh(rams'[list'[|list'| - 1]])
      && 0 <= rams'[list'[|list'| - 1]].used <= ENTRY_COUNT
    ensures CanHold(OpenLots(rams', list', free'), n) <==> CanHold(AllLots(rams, list, free), n)
  {
    hide Fresh, AllLots, OpenLots, CanHold;
    HoldsSame(AllLots(rams, list, free), AllLots(rams', list', free'), n);
    FreshLots(rams', list', free', n);
  }

  // For the index alone any entry will do; without any nothing fits.
  lemma LastEntry(lots: seq<int>, n: nat)
    ensures CanHold(lots, 0) <==> SomeEntry(lots)
    ensures !SomeEntry(lots) ==> !CanHold(lots, n)
  {
    SomeData(lots);
    if !SomeEntry(lots) {
      NoData(lots);
    }
  }

  // The chunk is written, and another page asked for if it is needed.
  lemma ChunkAnswer(rams: seq<Ram>, list: seq<nat>, free: seq<nat>, mid: seq<Ram>, rams': seq<Ram>, list': seq<nat>,
                    free': seq<nat>, left: nat, piece: nat, ok: bool)
    requires list != [] && list[|list| - 1] < |rams| && PieceOf(rams[list[|list| - 1]], left, piece)
      && StillRoom(rams, list, free, mid, left, piece)
    requires ok <==> SomeEntry(AllLots(mid, list, free))
    requires ok ==> multiset(AllLots(rams', list', free')) == multiset(AllLots(mid, list, free))
    requires ok ==> Widest(rams', list', free') && list' != [] && list'[|list'| - 1] < |rams'|
    requires ok ==> Fresh(rams'[list'[|list'| - 1]]) && 0 <= rams'[list'[|list'| - 1]].used <= ENTRY_COUNT
    requires piece < left || Tailroom(rams[list[|list| - 1]]) - piece < ENTRY_SIZE
    ensures CanHold(OpenLots(rams, list, free), EntriesFor(left)) <==>
      ok && (piece < left ==> CanHold(OpenLots(rams', list', free'), EntriesFor(left - piece)))
  {
    hide CanHold, AllLots, OpenLots, SomeEntry, Widest, Fresh, Tailroom;
    LastEntry(AllLots(mid, list, free), EntriesFor(left - piece));
    if ok {
      RoomGoesOn(mid, list, free, rams', list', free', EntriesFor(left - piece));
    }
  }

  lemma FreshHasEnd(r: Ram)
    requires Fresh(r) && r.used < ENTRY_COUNT
    ensures !r.state.FULL? && FirstFree(r) < ENTRY_COUNT
  {
  }

  lemma ChunkFitsHere(rams: seq<Ram>, list: seq<nat>, free: seq<nat>, mid: seq<Ram>, left: nat, piece: nat)
    requires list != [] && list[|list| - 1] < |rams| && piece <= left && StillRoom(rams, list, free, mid, left, piece)
    requires Tailroom(rams[list[|list| - 1]]) - piece >= ENTRY_SIZE
    ensures CanHold(OpenLots(rams, list, free), EntriesFor(left))
  {
    hide CanHold, OpenLots, AllLots;
  }

  // The widest page takes no data: what is left does not fit.
  lemma NothingFits(rams: seq<Ram>, img: seq<FPage>, list: seq<nat>, free: seq<nat>, next: nat, hashOf: Id -> nat,
                    left: nat)
    requires Widest(rams, list, free) && Fresh(rams[list[|list| - 1]]) && Tailroom(rams[list[|list| - 1]]) == 0
    requires InOrder(rams, img, list, free, next, hashOf) && left > 0
    ensures !CanHold(OpenLots(rams, list, free), EntriesFor(left))
  {
    hide AllLots, OpenLots, InOrder;
    UsedInRange(rams, img, list, free, next, hashOf);
    var r := rams[list[|list| - 1]];
    TailroomIs(r);
    NoData(AllLots(rams, list, free));
    FreshLots(rams, list, free, EntriesFor(left));
  }

  // ---------------------------------------------------------------- in pages and bytes

  lemma {:induction false} DataOfPages(n: nat)
    ensures DataSum(seq(n, _ => ENTRY_COUNT)) == 125 * n
  {
    if n > 0 {
      DataOfPages(n - 1);
      assert seq(n, _ => ENTRY_COUNT)[..n - 1] == seq(n - 1, _ => ENTRY_COUNT);
    }
  }

  // The current page takes the data and one entry more.
  lemma RoomHere(rams: seq<Ram>, img: seq<FPage>, list: seq<nat>, free: seq<nat>, next: nat, hashOf: Id -> nat,
                 size: nat)
    requires InOrder(rams, img, list, free, next, hashOf) && Tailroom(rams[list[|list| - 1]]) >= size + 32
    ensures BlobRoom(rams, list, free, size)
  {
    hide InOrder, Tailroom, AllLots, OpenLots, CanHold, SomeRoomy;
    UsedInRange(rams, img, list, free, next, hashOf);
    TailroomIs(rams[list[|list| - 1]]);
    EndHolds(rams, list, free, EntriesFor(size));
  }

  // There are free pages for all chunks, for the index, and as the reserve.
  lemma RoomOnFreePages(rams: seq<Ram>, list: seq<nat>, free: seq<nat>, size: nat)
    requires list != [] && list[|list| - 1] < |rams| && |free| >= 2 && size <= 4000 * (|free| - 2)
    ensures BlobRoom(rams, list, free, size)
  {
    hide Gaps, Roomy, DataSum, SomeRoomy, OpenEnd;
    var r, spare := rams[list[|list| - 1]], SparePages(free);
    var front, gap, end := Gaps(rams, list[..|list| - 1]), ENTRY_COUNT - r.used - OpenEnd(r), OpenEnd(r);
    DataOfPages(|free| - 1);
    DataSumAdds(Gaps(rams, list), spare);
    DataAround(front, spare, gap, end);
    RoomyPage(rams, list, free, size);
  }

  lemma {:induction false} DataAround(front: seq<int>, spare: seq<int>, gap: int, end: int)
    ensures DataSum(front + spare + [gap] + [end]) >= DataSum(spare)
  {
    hide DataSum;
    DataSumAdds(front + spare + [gap], [end]);
    DataSumAdds(front + spare, [gap]);
    DataSumAdds(front, spare);
  }

  lemma RoomyPage(rams: seq<Ram>, list: seq<nat>, free: seq<nat>, size: nat)
    requires |free| >= 2
    ensures SomeRoomy(AllLots(rams, list, free), size)
  {
    hide Gaps;
    var lots := AllLots(rams, list, free);
    assert lots[|Gaps(rams, list)|] == ENTRY_COUNT;
  }

  // On an erased store a blob may be as long as all pages but one hold, less one entry.
  lemma RoomWhenErased(rams: seq<Ram>, list: seq<nat>, free: seq<nat>, size: nat)
    requires |list| == 1 && list[0] < |rams| && FirstFree(rams[list[0]]) == rams[list[0]].used == 0 && free != []
    requires rams[list[0]].state.UNINITIALIZED? || rams[list[0]].state.ACTIVE?
    ensures BlobRoom(rams, list, free, size) <==> size + 32 <= 4000 * |free|
  {
    hide DataSum;
    var spare := SparePages(free);
    DataOfPages(|free| - 1);
    assert OpenLots(rams, list, free) == spare + [0] + [ENTRY_COUNT];
    DataSumAdds(spare + [0], [ENTRY_COUNT]);
    DataSumAdds(spare, [0]);
    DataSumOne(0);
    DataSumOne(ENTRY_COUNT);
  }

  // Two full pages with ten entries each that are not in use, and the reserve. A blob of 320 bytes could
  // be laid out on them in two chunks, but it is refused: neither page is one to start on.
  lemma RefusedThoughItFits(rams: seq<Ram>, p: nat, q: nat, reserve: nat)
    requires p < |rams| && q < |rams| && rams[p].used == rams[q].used == 116 && rams[q].state.FULL?
    ensures CanHold(AllLots(rams, [p, q], [reserve]), EntriesFor(320))
    ensures !CanStart(rams, [p, q], [reserve], 320) && !BlobRoom(rams, [p, q], [reserve], 320)
  {
    hide DataSum;
    assert AllLots(rams, [p, q], [reserve]) == [10] + [10];
    DataSumAdds([10], [10]);
    DataSumOne(10);
  }
}
