// Which records lie on which page: the steps of the engine as a caller can follow them page by page.
module Layouts {
  import opened NvsTypes
  import opened PageImage
  import opened PageRam
  import opened PageSearch
  import opened PageSteps
  import opened PageScan
  import opened PageValues
  import opened PageCuts
  import opened FlashDevice
  import opened ItemHashList
  import opened StoreImage
  import opened Recovery
  import opened PageLists
  import opened Startup
  import opened StoreSearch
  import opened StoreWrites
  import opened StoreUpdates
  import opened StoreMap
  import opened StoreAccounts
  import opened StoreWalk
  import opened PageManagers
  import opened Collections
  import opened BlobCrash
  import opened Storages

  // The listed pages hold these records, in list order; the last takes more from entry `next` on.
  ghost predicate Sheets(rams: seq<Ram>, img: seq<FPage>, list: seq<nat>, sheets: seq<seq<Rec>>, next: nat) {
    && |list| == |sheets| > 0 && |img| == |rams|
    && (forall k :: 0 <= k < |list| ==> list[k] < |rams| && RecsOf(img[list[k]]) == sheets[k])
    && (rams[list[|list| - 1]].state.ACTIVE? || rams[list[|list| - 1]].state.UNINITIALIZED?)
    && FirstFree(rams[list[|list| - 1]]) == next
  }

  // Besides these pages there are `spare` free ones.
  ghost predicate Laid(s: Storage, sheets: seq<seq<Rec>>, next: nat, spare: nat)
    reads s, s.pm, s.pm.dev, s.pm.Objects()
  {
    s.Valid() && |s.pm.freeList| == spare && Sheets(s.pm.Rams(), s.pm.dev.pages, s.pm.pageList, sheets, next)
  }

  // All records on these pages, and there are no others.
  function Total(sheets: seq<seq<Rec>>): multiset<Rec> {
    if sheets == [] then multiset{} else multiset(sheets[0]) + Total(sheets[1..])
  }

  lemma {:induction false} TotalFrom(img: seq<FPage>, list: seq<nat>, sheets: seq<seq<Rec>>, k: nat)
    requires (forall j :: 0 <= j < |list| ==> list[j] < |img|) && k <= |list| == |sheets|
    requires forall j :: 0 <= j < |list| ==> RecsOf(img[list[j]]) == sheets[j]
    ensures multiset(ListRecs(img, list, k)) == Total(sheets[k..])
    decreases |list| - k
  {
    hide RecsOf;
    if k < |list| {
      TotalFrom(img, list, sheets, k + 1);
      assert sheets[k..][1..] == sheets[k + 1..];
    }
  }

  lemma {:induction false} LaidRecords(s: Storage, sheets: seq<seq<Rec>>, next: nat, spare: nat)
    requires Laid(s, sheets, next, spare)
    ensures s.Records() == Total(sheets)
  {
    hide HashList.Valid, InOrder, RamsOk, PageManager.Wired, PageManager.HashListsOk, Live, RecsOf;
    AllAreListed(s.pm.Rams(), s.pm.dev.pages, s.pm.pageList, s.pm.freeList, s.pm.seqNumber, s.pm.hashOf);
    TotalFrom(s.pm.dev.pages, s.pm.pageList, sheets, 0);
    assert sheets[0..] == sheets;
  }

  lemma TotalOfTwo(p: seq<Rec>, q: seq<Rec>)
    ensures Total([p]) == multiset(p) && Total([p, q]) == multiset(p) + multiset(q)
  {
    assert [p][1..] == [] && [p, q][1..] == [q] && [q][1..] == [];
  }

  // The entries in use of a listed page are those of its records.
  lemma SheetUse(rams: seq<Ram>, img: seq<FPage>, list: seq<nat>, free: seq<nat>, next: nat, hashOf: Id -> nat,
                 sheets: seq<seq<Rec>>, at: nat, k: nat)
    requires InOrder(rams, img, list, free, next, hashOf) && Sheets(rams, img, list, sheets, at) && k < |sheets|
    ensures rams[list[k]].used == SpanSum(sheets[k]) <= ENTRY_COUNT
  {
    hide RamOk, RecsOf, SpanSum;
    RamsOkAt(rams, img, hashOf, list[k]);
    ListedStates(rams, list, k);
    UsedIsSpans(rams[list[k]], img[list[k]], hashOf);
  }

  lemma ListedStates(rams: seq<Ram>, list: seq<nat>, k: nat)
    requires States(rams, list) && k < |list|
    ensures list[k] < |rams| && !rams[list[k]].state.CORRUPT?
  {
  }

  // ---------------------------------------------------------------- an item more

  lemma FitsFrom(r: Ram, typ: ItemType, key: string, v: Input)
    requires SizeOk(typ, key, v) && (r.state.ACTIVE? || r.state.UNINITIALIZED?)
      && FirstFree(r) + SpanFor(typ, v) <= ENTRY_COUNT
    ensures WriteVerdict(r.state, r.nextFree, typ, key, v) == OK
  {
  }

  lemma PutSheets(rams: seq<Ram>, img: seq<FPage>, list: seq<nat>, sheets: seq<seq<Rec>>, next: nat, rams': seq<Ram>,
                  img': seq<FPage>, n: Rec, m: nat)
    requires Sheets(rams, img, list, sheets, next) && (forall j, k :: 0 <= j < k < |list| ==> list[j] != list[k])
    requires OnlyAt(rams, rams', list[|list| - 1]) && OnlyPage(img, img', list[|list| - 1])
    requires var p := list[|list| - 1];
      RecsOf(img'[p]) == RecsOf(img[p]) + [n] && rams'[p].state == ACTIVE && rams'[p].nextFree == FirstFree(rams[p]) + m
    ensures Sheets(rams', img', list, sheets[|sheets| - 1 := sheets[|sheets| - 1] + [n]], next + m)
  {
    hide RecsOf;
  }

  lemma ListApart(rams: seq<Ram>, img: seq<FPage>, list: seq<nat>, free: seq<nat>, next: nat, hashOf: Id -> nat)
    requires InOrder(rams, img, list, free, next, hashOf)
    ensures (forall j, k :: 0 <= j < k < |list| ==> list[j] != list[k])
      && forall k :: 0 <= k < |list| ==> list[k] < |img|
  {
  }

  // An item has just been written to the last page.
  ghost predicate EndsWhole(s: Storage)
    reads s, s.pm, s.pm.dev, s.pm.Objects()
  {
    && s.pm.pageList != [] && s.Current() < |s.pm.pages| && s.CurrentRam().state == ACTIVE
    && s.Current() < |s.pm.dev.pages|
    && EndsInItem(s.pm.dev.pages[s.Current()].slots) && s.pm.dev.pages in s.pm.dev.cuts
  }

  // One item goes to the last page.
  method Put(s: Storage, typ: ItemType, key: string, v: Input, chunk: byte, ghost sheets: seq<seq<Rec>>,
             ghost next: nat, ghost spare: nat)
    requires Laid(s, sheets, next, spare) && WellFormed(typ, v, chunk) && SizeOk(typ, key, v)
      && next + SpanFor(typ, v) <= ENTRY_COUNT
    modifies s.pm.dev, s.pm.Objects()
    ensures s.pm.pages == old(s.pm.pages) && s.pm.pageList == old(s.pm.pageList)
    ensures var n := RecOf(1, typ, key, v, chunk);
      Laid(s, sheets[|sheets| - 1 := sheets[|sheets| - 1] + [n]], next + SpanFor(typ, v), spare)
    ensures EndsWhole(s)
  {
    hide HashList.Valid, InOrder, RamsOk, PageManager.Wired, PageManager.HashListsOk, Live, RecsOf, RecOf, SpanFor,
      WriteVerdict, ItemsKept, ChunksApart, AppendCut, EndsInItem, NoPairWith, Storage.CutsAppend, SizeOk;
    ghost var rams, img := s.pm.Rams(), s.pm.dev.pages;
    FitsFrom(s.CurrentRam(), typ, key, v);
    ListApart(rams, img, s.pm.pageList, s.pm.freeList, s.pm.seqNumber, s.pm.hashOf);
    var err := s.WriteCurrent(1, typ, key, v, chunk, false);
    PutSheets(rams, img, s.pm.pageList, sheets, next, s.pm.Rams(), s.pm.dev.pages, RecOf(1, typ, key, v, chunk),
      SpanFor(typ, v));
  }

  // ---------------------------------------------------------------- an item less

  // Of records only one of which has the name, a search by name finds that one.
  lemma {:induction false} FoundOnSheet(s: seq<Slot>, nf: nat, hashOf: Id -> nat, key: string, a: seq<Rec>, o: Rec,
                                        b: seq<Rec>)
    requires Quiet(s, nf) && Recs(s) == a + [o] + b && PlainType(o.item.typ) && !o.item.typ.ANY?
      && OfName(o, 1, Truncated(key))
    requires forall r :: r in a + b ==> !OfName(r, 1, Truncated(key))
    ensures var f := FindVia(s, KeyQuery(1, o.item.typ, key), hashOf, 0);
      f.Hit? && f.index < |s| && Whole(s, f.index) && RecAt(s, f.index) == o && RecsIn(s, 0, f.index) == a
        && RecsIn(s, f.index + 1, |s|) == b
  {
    hide Quiet, FindVia, Whole, RecsIn;
    forall r | r in Recs(s) && OfName(r, 1, Truncated(key)) ensures r == o {
      assert r in a || r == o || r in b;
    }
    SearchByName(s, nf, hashOf, 1, o.item.typ, key);
    assert Recs(s)[|a|] == o;
    var f := FindVia(s, KeyQuery(1, o.item.typ, key), hashOf, 0);
    var h := if f.Hit? || f.WrongType? then f.index else 0;
    if !f.Nothing? {
      InRecs(s, h);
      RecsAround(s, h);
      var x, y := RecsIn(s, 0, h), RecsIn(s, h + 1, |s|);
      assert ItemAt(s, h) == [o];
      OnceOnly(a, o, b, x, y, key);
    }
  }

  lemma OnceOnly(a: seq<Rec>, o: Rec, b: seq<Rec>, x: seq<Rec>, y: seq<Rec>, key: string)
    requires a + [o] + b == x + [o] + y && OfName(o, 1, Truncated(key))
      && forall r :: r in a + b ==> !OfName(r, 1, Truncated(key))
    requires forall r :: r in x ==> !OfName(r, 1, Truncated(key))
    ensures a == x && b == y
  {
    var l := a + [o] + b;
    assert l[|a|] == o && l[|x|] == o;
    assert forall i :: 0 <= i < |a| ==> l[i] == a[i] && a[i] in a + b;
    assert forall i :: 0 <= i < |x| ==> l[i] == x[i] && x[i] in x;
    assert |a| == |x|;
    assert l[..|a|] == a && l[..|x|] == x && l[|a| + 1..] == b && l[|x| + 1..] == y;
  }

  lemma EraseSheets(rams: seq<Ram>, img: seq<FPage>, list: seq<nat>, sheets: seq<seq<Rec>>, next: nat, rams': seq<Ram>,
                    img': seq<FPage>, k: nat, recs: seq<Rec>)
    requires Sheets(rams, img, list, sheets, next) && (forall i, j :: 0 <= i < j < |list| ==> list[i] != list[j])
      && k < |list|
    requires OnlyAt(rams, rams', list[k]) && OnlyPage(img, img', list[k]) && RecsOf(img'[list[k]]) == recs
      && SameFace(rams[list[k]], rams'[list[k]])
    ensures Sheets(rams', img', list, sheets[k := recs], next)
  {
    hide RecsOf;
  }

  // What is searched for on a page that holds these records.
  lemma SearchedSheet(rams: seq<Ram>, img: seq<FPage>, list: seq<nat>, free: seq<nat>, next: nat, hashOf: Id -> nat,
                      p: nat, key: string, a: seq<Rec>, o: Rec, b: seq<Rec>)
    requires InOrder(rams, img, list, free, next, hashOf) && p < |img| && RecsOf(img[p]) == a + [o] + b
      && PlainType(o.item.typ) && !o.item.typ.ANY?
    requires OfName(o, 1, Truncated(key)) && forall r :: r in a + b ==> !OfName(r, 1, Truncated(key))
    ensures p < |rams| && LiveState(rams[p].state)
    ensures var f := FindVia(img[p].slots, KeyQuery(1, o.item.typ, key), hashOf, 0);
      f.Hit? && IsAt(rams, img, p, f.index, o) && RecsIn(img[p].slots, 0, f.index) == a
        && RecsIn(img[p].slots, f.index + 1, |img[p].slots|) == b
  {
    hide RamOk, InOrder, Quiet, FindVia, Whole, Recs;
    assert (a + [o] + b)[|a|] == o;
    RecordPage(rams, img, list, free, next, hashOf, p);
    FoundOnSheet(img[p].slots, rams[p].top, hashOf, key, a, o, b);
  }

  lemma {:induction false} ErasedSheet(fp: FPage, c: FPage, nf: nat, i: nat, a: seq<Rec>, b: seq<Rec>)
    requires fp.hdr.Header? && c.hdr == fp.hdr && Removed(fp.slots, c.slots, nf, i) && i < |fp.slots|
    requires RecsIn(fp.slots, 0, i) == a && RecsIn(fp.slots, i + 1, |fp.slots|) == b
    ensures RecsOf(c) == a + b
  {
    hide Removed, RecsIn;
    RemovedRecs(fp.slots, c.slots, nf, i);
  }

  // The item o of page k of the list is erased by its name.
  method Erase(s: Storage, k: nat, typ: ItemType, key: string, ghost a: seq<Rec>, ghost o: Rec, ghost b: seq<Rec>,
               ghost sheets: seq<seq<Rec>>, ghost next: nat, ghost spare: nat)
    requires Laid(s, sheets, next, spare) && k < |sheets| && sheets[k] == a + [o] + b && o.item.typ == typ
      && PlainType(typ) && !typ.ANY?
    requires OfName(o, 1, Truncated(key)) && forall r :: r in a + b ==> !OfName(r, 1, Truncated(key))
    modifies s.pm.dev, s.pm.Objects()
    ensures s.pm.pages == old(s.pm.pages) && Laid(s, sheets[k := a + b], next, spare)
  {
    hide HashList.Valid, InOrder, RamsOk, PageManager.Wired, PageManager.HashListsOk, Live, RecsOf, FindVia, IsAt,
      RecsIn, Removed, AllOrAllBut, ChunksApart, Boundary;
    ghost var rams, img := s.pm.Rams(), s.pm.dev.pages;
    ListApart(rams, img, s.pm.pageList, s.pm.freeList, s.pm.seqNumber, s.pm.hashOf);
    var p := s.pm.pageList[k];
    SearchedSheet(rams, img, s.pm.pageList, s.pm.freeList, s.pm.seqNumber, s.pm.hashOf, p, key, a, o, b);
    StartIsBoundary(img[p].slots);
    var err, index, item := s.pm.FindItemAt(p, KeyQuery(1, typ, key), 0);
    WasAt(rams, img, p, index, o);
    NotSuperseded(img, o, 0);
    s.EraseRecord(p, index, o, None, 0);
    ErasedSheet(img[p], s.pm.dev.pages[p], s.pm.Rams()[p].top, index, a, b);
    EraseSheets(rams, img, s.pm.pageList, sheets, next, s.pm.Rams(), s.pm.dev.pages, k, a + b);
  }

  // ---------------------------------------------------------------- another page

  // The pages left when page `at` has moved to the end.
  function Rotated(sheets: seq<seq<Rec>>, at: nat): seq<seq<Rec>>
    requires at < |sheets|
  {
    sheets[..at] + sheets[at + 1..] + [sheets[at]]
  }

  lemma MarkedSheets(rams0: seq<Ram>, img0: seq<FPage>, list: seq<nat>, sheets: seq<seq<Rec>>, next: nat,
                     rams: seq<Ram>, img: seq<FPage>)
    requires Sheets(rams0, img0, list, sheets, next) && MarkedFull(rams0, img0, list[|list| - 1], rams, img)
      && img0[list[|list| - 1]].hdr.Header?
    ensures |rams| == |img| == |rams0|
    ensures forall k :: 0 <= k < |list| ==>
      list[k] < |rams| && rams[list[k]].used == rams0[list[k]].used && RecsOf(img[list[k]]) == sheets[k]
  {
    hide Recs;
  }

  lemma NextSheets(rams0: seq<Ram>, img0: seq<FPage>, list: seq<nat>, free: seq<nat>, sheets: seq<seq<Rec>>, next: nat,
                   rams: seq<Ram>, img: seq<FPage>, rams': seq<Ram>, img': seq<FPage>, list': seq<nat>, free': seq<nat>,
                   n': nat, freed: nat, hashOf: Id -> nat)
    requires Sheets(rams0, img0, list, sheets, next) && MarkedFull(rams0, img0, list[|list| - 1], rams, img)
      && |free| >= 2 && free[0] !in list
    requires img0[list[|list| - 1]].hdr.Header?
    requires Relocated(rams, img, list, free, rams', img', list', free', freed)
      && InOrder(rams', img', list', free', n', hashOf)
    ensures Sheets(rams', img', list', sheets + [[]], 0) && |free'| == |free| - 1
  {
    hide RecsOf, InOrder;
    UsedNothing(rams', img', list', free', n', hashOf, free[0]);
    var r := sheets + [[]];
    MarkedSheets(rams0, img0, list, sheets, next, rams, img);
    forall k | 0 <= k < |list'| ensures list'[k] < |rams'| && RecsOf(img'[list'[k]]) == r[k] {
      if k < |list| {
        assert list'[k] == list[k] && list[k] != free[0] && list[k] in list;
      }
    }
  }

  lemma UsedNothing(rams: seq<Ram>, img: seq<FPage>, list: seq<nat>, free: seq<nat>, next: nat, hashOf: Id -> nat,
                    p: nat)
    requires InOrder(rams, img, list, free, next, hashOf) && p < |rams| && Fresh(rams[p]) && rams[p].used == 0
    ensures p < |img| && RecsOf(img[p]) == [] && FirstFree(rams[p]) == 0
  {
    hide RamOk, Recs;
    RamsOkAt(rams, img, hashOf, p);
    FreshUse(rams[p], img[p], hashOf);
  }

  lemma MovedSheets(rams0: seq<Ram>, img0: seq<FPage>, list: seq<nat>, free: seq<nat>, sheets: seq<seq<Rec>>, next: nat,
                    rams: seq<Ram>, img: seq<FPage>, rams': seq<Ram>, img': seq<FPage>, list': seq<nat>,
                    free': seq<nat>, freed: nat, at: nat)
    requires Sheets(rams0, img0, list, sheets, next) && MarkedFull(rams0, img0, list[|list| - 1], rams, img)
      && |free| == 1 && free[0] !in list
    requires img0[list[|list| - 1]].hdr.Header?
    requires Relocated(rams, img, list, free, rams', img', list', free', freed)
      && (forall j, k :: 0 <= j < k < |list| ==> list[j] != list[k])
    requires at < |list| && (forall k :: 0 <= k < |list| && k != at ==> rams0[list[at]].used < rams0[list[k]].used)
    ensures Sheets(rams', img', list', Rotated(sheets, at), rams0[list[at]].used) && |free'| == 1 && freed == list[at]
  {
    hide Recs, RecsOf, Relocated;
    MarkedSheets(rams0, img0, list, sheets, next, rams, img);
    MovedIsLeast(rams0, img0, list, free, rams, img, rams', img', list', free', freed, at);
    SheetsMoved(list, free, sheets, rams, img, rams', img', list', free', freed, at);
  }

  // The page to move is the one with the fewest entries in use.
  lemma MovedIsLeast(rams0: seq<Ram>, img0: seq<FPage>, list: seq<nat>, free: seq<nat>, rams: seq<Ram>,
                     img: seq<FPage>, rams': seq<Ram>, img': seq<FPage>, list': seq<nat>, free': seq<nat>, freed: nat,
                     at: nat)
    requires list != [] && MarkedFull(rams0, img0, list[|list| - 1], rams, img) && |free| == 1
    requires Relocated(rams, img, list, free, rams', img', list', free', freed)
    requires at < |list| && (forall k :: 0 <= k < |list| ==> list[k] < |rams0|)
      && (forall k :: 0 <= k < |list| && k != at ==> rams0[list[at]].used < rams0[list[k]].used)
    ensures freed == list[at] && rams[list[at]].used == rams0[list[at]].used
      && list' == Collected(list, at, free[0])
  {
    hide RecsOf, Fresh;
    var i :| 0 <= i < |list| && list[i] == freed && list' == Collected(list, i, free[0]);
    assert rams[list[i]].used == rams0[list[i]].used;
  }

  lemma SheetsMoved(list: seq<nat>, free: seq<nat>, sheets: seq<seq<Rec>>, rams: seq<Ram>, img: seq<FPage>,
                    rams': seq<Ram>, img': seq<FPage>, list': seq<nat>, free': seq<nat>, freed: nat, at: nat)
    requires Relocated(rams, img, list, free, rams', img', list', free', freed) && |free| == 1 && free[0] !in list
    requires at < |list| == |sheets| && freed == list[at] && list' == Collected(list, at, free[0])
      && (forall j, k :: 0 <= j < k < |list| ==> list[j] != list[k])
    requires forall k :: 0 <= k < |list| ==> list[k] < |img| && RecsOf(img[list[k]]) == sheets[k]
    ensures rams[list[at]].used >= 0 && Sheets(rams', img', list', Rotated(sheets, at), rams[list[at]].used)
      && |free'| == 1
  {
    hide RecsOf;
    var r := Rotated(sheets, at);
    forall k | 0 <= k < |list'| ensures list'[k] < |rams'| && RecsOf(img'[list'[k]]) == r[k] {
      if k < |list| - 1 {
        var j := if k < at then k else k + 1;
        assert list'[k] == list[j] && r[k] == sheets[j] && list[j] != list[at] && list[j] != free[0] && list[j] in list;
      }
    }
  }

  lemma LastInUse(rams: seq<Ram>, img: seq<FPage>, list: seq<nat>, free: seq<nat>, next: nat, hashOf: Id -> nat,
                  sheets: seq<seq<Rec>>, at: nat)
    requires InOrder(rams, img, list, free, next, hashOf) && Sheets(rams, img, list, sheets, at)
      && sheets[|sheets| - 1] != []
    ensures list != [] && list[|list| - 1] < |img| == |rams| && img[list[|list| - 1]].hdr.Header?
      && rams[list[|list| - 1]].state.ACTIVE?
    ensures free != [] && free[0] !in list
  {
    hide RamOk, Loadable, Recs;
    HeadersAre(rams, img, hashOf);
  }

  // The last page is full, and a free one becomes the next.
  method Next(s: Storage, ghost sheets: seq<seq<Rec>>, ghost next: nat, ghost spare: nat)
    requires Laid(s, sheets, next, spare) && spare >= 2 && sheets[|sheets| - 1] != []
    modifies s.pm, s.pm.dev, s.pm.Objects()
    ensures s.pm.pages == old(s.pm.pages) && Laid(s, sheets + [[]], 0, spare - 1)
  {
    hide HashList.Valid, InOrder, RamsOk, PageManager.Wired, PageManager.HashListsOk, Live, RecsOf, ChunksApart,
      Relocated, MarkedFull, Safe, Sheets;
    ghost var rams0, img0, list, free := s.pm.Rams(), s.pm.dev.pages, s.pm.pageList, s.pm.freeList;
    LastInUse(rams0, img0, list, free, s.pm.seqNumber, s.pm.hashOf, sheets, next);
    ghost var freed, rams, img;
    var err;
    err, freed, rams, img := s.MakeRoom();
    NextSheets(rams0, img0, list, free, sheets, next, rams, img, s.pm.Rams(), s.pm.dev.pages, s.pm.pageList,
      s.pm.freeList, s.pm.seqNumber, freed, s.pm.hashOf);
  }

  // The last page is full; page `at`, which has the fewest entries in use, moves to the reserve.
  method Collect(s: Storage, ghost at: nat, ghost sheets: seq<seq<Rec>>, ghost next: nat)
    requires Laid(s, sheets, next, 1) && sheets[|sheets| - 1] != [] && at < |sheets|
      && SpanSum(sheets[at]) < ENTRY_COUNT
    requires forall k :: 0 <= k < |sheets| && k != at ==> SpanSum(sheets[at]) < SpanSum(sheets[k])
    modifies s.pm, s.pm.dev, s.pm.Objects()
    ensures s.pm.pages == old(s.pm.pages) && Laid(s, Rotated(sheets, at), SpanSum(sheets[at]), 1)
      && s.pm.dev.pages in s.pm.dev.cuts
    ensures sheets[at] != [] ==> EndsWhole(s)
  {
    hide HashList.Valid, InOrder, RamsOk, PageManager.Wired, PageManager.HashListsOk, Live, RecsOf, ChunksApart,
      Relocated, Safe, SpanSum;
    ghost var rams0, img0, list, free := s.pm.Rams(), s.pm.dev.pages, s.pm.pageList, s.pm.freeList;
    LastInUse(rams0, img0, list, free, s.pm.seqNumber, s.pm.hashOf, sheets, next);
    ListApart(rams0, img0, list, free, s.pm.seqNumber, s.pm.hashOf);
    SheetsUse(rams0, img0, list, free, s.pm.seqNumber, s.pm.hashOf, sheets, next);
    ghost var freed, rams, img;
    var err;
    err, freed, rams, img := s.MakeRoom();
    assert rams[list[at]].used == rams0[list[at]].used;
    MovedSheets(rams0, img0, list, free, sheets, next, rams, img, s.pm.Rams(), s.pm.dev.pages, s.pm.pageList,
      s.pm.freeList, freed, at);
    NewPageIs(rams, img, list, free, s.pm.Rams(), s.pm.dev.pages, s.pm.pageList, s.pm.freeList, freed);
    if sheets[at] != [] {
      MovedEnds(s.pm.Rams(), s.pm.dev.pages, s.pm.pageList, s.pm.freeList, s.pm.seqNumber, s.pm.hashOf, free[0]);
    }
  }

  lemma MovedEnds(rams: seq<Ram>, img: seq<FPage>, list: seq<nat>, free: seq<nat>, next: nat, hashOf: Id -> nat, p: nat)
    requires InOrder(rams, img, list, free, next, hashOf) && p < |rams| && p < |img| && Fresh(rams[p])
      && RecsOf(img[p]) != []
    ensures rams[p].state == ACTIVE && EndsInItem(img[p].slots)
  {
    hide RamOk, RecsOf, EndsInItem;
    RamsOkAt(rams, img, hashOf, p);
    FreshUse(rams[p], img[p], hashOf);
  }

  // The last page is full, and so are all others: there is no room, and nothing else has changed.
  method NoRoom(s: Storage, ghost sheets: seq<seq<Rec>>, ghost next: nat) returns (err: Error)
    requires Laid(s, sheets, next, 1) && sheets[|sheets| - 1] != []
      && forall k :: 0 <= k < |sheets| ==> SpanSum(sheets[k]) == ENTRY_COUNT
    modifies s.pm, s.pm.dev, s.pm.Objects()
    ensures s.pm.pages == old(s.pm.pages) && s.Valid() && err == NOT_ENOUGH_SPACE && s.Records() == old(s.Records())
      && |s.pm.pageList| == |sheets|
    ensures forall k :: 0 <= k < |sheets| ==>
      && s.pm.pageList[k] < |s.pm.pages| && s.pm.pageList[k] < |s.pm.dev.pages|
      && RecsOf(s.pm.dev.pages[s.pm.pageList[k]]) == sheets[k]
  {
    hide HashList.Valid, InOrder, RamsOk, PageManager.Wired, PageManager.HashListsOk, Live, RecsOf, ChunksApart,
      Relocated, Safe, SpanSum;
    ghost var rams0, img0, list, free := s.pm.Rams(), s.pm.dev.pages, s.pm.pageList, s.pm.freeList;
    LastInUse(rams0, img0, list, free, s.pm.seqNumber, s.pm.hashOf, sheets, next);
    SheetsUse(rams0, img0, list, free, s.pm.seqNumber, s.pm.hashOf, sheets, next);
    ghost var freed, rams, img;
    err, freed, rams, img := s.MakeRoom();
    MarkedSheets(rams0, img0, list, sheets, next, rams, img);
  }

  lemma SheetsUse(rams: seq<Ram>, img: seq<FPage>, list: seq<nat>, free: seq<nat>, next: nat, hashOf: Id -> nat,
                  sheets: seq<seq<Rec>>, at: nat)
    requires InOrder(rams, img, list, free, next, hashOf) && Sheets(rams, img, list, sheets, at)
    ensures forall k :: 0 <= k < |sheets| ==> rams[list[k]].used == SpanSum(sheets[k])
  {
    hide InOrder, RecsOf, SpanSum;
    forall k | 0 <= k < |sheets| ensures rams[list[k]].used == SpanSum(sheets[k]) {
      SheetUse(rams, img, list, free, next, hashOf, sheets, at, k);
    }
  }

  // ---------------------------------------------------------------- an erased chip

  function Erased(n: nat): seq<FPage> {
    seq(n, _ => ErasedPage())
  }

  lemma {:induction false} NothingLive(n: nat, k: nat)
    requires k <= n
    ensures LiveIn(Erased(n), k) == multiset{}
  {
    hide RecsOf;
    if k > 0 {
      NothingLive(n, k - 1);
      ErasedHasNone();
      assert Erased(n)[k - 1] == ErasedPage();
    }
  }

  lemma ErasedIsStable(n: nat, hashOf: Id -> nat)
    requires n >= 2
    ensures Stable(Erased(n), multiset{}) && Rested(Erased(n)) && Kept(Erased(n), hashOf)
      && Recoverable(Erased(n), multiset{}) && Identified(multiset{})
  {
    hide Recs, LiveIn, ErasedPage, Rested;
    var img := Erased(n);
    NothingLive(n, n);
    ErasedIs(img);
    StableIsRecoverable(img, multiset{});
  }

  lemma ErasedIs(img: seq<FPage>)
    requires |img| >= 2 && (forall p :: 0 <= p < |img| ==> img[p] == ErasedPage()) && Live(img) == multiset{}
    ensures Stable(img, multiset{}) && Rested(img) && forall hashOf: Id -> nat :: Kept(img, hashOf)
  {
    hide Recs, Live;
    assert !img[0].hdr.Header?;
  }

  lemma ErasedSheets(rams: seq<Ram>, n: nat, list: seq<nat>, free: seq<nat>, next: nat, hashOf: Id -> nat)
    requires InOrder(rams, Erased(n), list, free, next, hashOf)
    ensures Sheets(rams, Erased(n), list, [[]], 0) && |free| == n - 1
  {
    hide RamOk, Loadable, Recs, ErasedPage;
    HeadersAre(rams, Erased(n), hashOf);
    ErasedHeader();
    PartitionSize(n, list, free);
    ErasedHasNone();
    assert forall p :: 0 <= p < n ==> Erased(n)[p] == ErasedPage();
    NoneFull(rams, list);
  }

  lemma NoneFull(rams: seq<Ram>, list: seq<nat>)
    requires States(rams, list) && list != []
      && forall k :: 0 <= k < |list| ==> list[k] < |rams| && !LiveState(rams[list[k]].state)
    ensures |list| == 1
  {
    assert !LiveState(rams[list[0]].state);
  }

  lemma ErasedHeader()
    ensures !ErasedPage().hdr.Header?
  {
  }

  method StartErased(n: nat, hashOf: Id -> nat, crcOf: seq<byte> -> nat) returns (s: Storage)
    requires n >= 2
    ensures Laid(s, [[]], 0, n - 1) && fresh(s) && fresh(s.pm) && fresh(s.pm.dev) && fresh(s.pm.Objects())
      && s.pm.hashOf == hashOf
  {
    hide HashList.Valid, InOrder, RamsOk, Stable, Recoverable, Identified, Rested, Kept, Live, RecsOf, ChunksApart,
      Safe, LeftBy, PageManager.Wired, ErasedPage, PageManager.HashListsOk;
    var dev := new Flash(seq(n, _ => ErasedPage()));
    var pm := new PageManager(dev, hashOf);
    s := new Storage(pm, crcOf);
    ErasedIsStable(n, hashOf);
    assert seq(n, _ => ErasedPage()) == Erased(n);
    var err := pm.Load(multiset{});
    ErasedSheets(pm.Rams(), n, pm.pageList, pm.freeList, pm.seqNumber, hashOf);
  }

  // ---------------------------------------------------------------- a store of one page, and of two

  lemma {:induction false} SpanMore(recs: seq<Rec>, n: Rec)
    ensures SpanSum(recs + [n]) == SpanSum(recs) + n.item.span
  {
    SpanOne(n);
    SpanSumAdds(recs, [n]);
  }

  method PutFirst(s: Storage, typ: ItemType, key: string, v: Input, chunk: byte, ghost p: seq<Rec>, ghost next: nat,
                  ghost spare: nat)
    requires Laid(s, [p], next, spare) && WellFormed(typ, v, chunk) && SizeOk(typ, key, v)
      && next + SpanFor(typ, v) <= ENTRY_COUNT
    modifies s.pm.dev, s.pm.Objects()
    ensures s.pm.pages == old(s.pm.pages)
      && Laid(s, [p + [RecOf(1, typ, key, v, chunk)]], next + SpanFor(typ, v), spare)
    ensures SpanSum(p + [RecOf(1, typ, key, v, chunk)]) == SpanSum(p) + RecOf(1, typ, key, v, chunk).item.span
    ensures EndsWhole(s)
  {
    hide Laid, RecOf, SizeOk, WellFormed, SpanFor, SpanSum, Storage.Valid, EndsInItem;
    ghost var n := RecOf(1, typ, key, v, chunk);
    SpanMore(p, n);
    Put(s, typ, key, v, chunk, [p], next, spare);
    assert [p][0 := p + [n]] == [p + [n]];
  }

  method PutSecond(s: Storage, typ: ItemType, key: string, v: Input, chunk: byte, ghost p: seq<Rec>, ghost q: seq<Rec>,
                   ghost next: nat, ghost spare: nat)
    requires Laid(s, [p, q], next, spare) && WellFormed(typ, v, chunk) && SizeOk(typ, key, v)
      && next + SpanFor(typ, v) <= ENTRY_COUNT
    modifies s.pm.dev, s.pm.Objects()
    ensures s.pm.pages == old(s.pm.pages)
      && Laid(s, [p, q + [RecOf(1, typ, key, v, chunk)]], next + SpanFor(typ, v), spare)
    ensures SpanSum(q + [RecOf(1, typ, key, v, chunk)]) == SpanSum(q) + RecOf(1, typ, key, v, chunk).item.span
  {
    hide Laid, RecOf, SizeOk, WellFormed, SpanFor, SpanSum, Storage.Valid, EndsInItem;
    ghost var n := RecOf(1, typ, key, v, chunk);
    SpanMore(q, n);
    Put(s, typ, key, v, chunk, [p, q], next, spare);
    assert [p, q][1 := q + [n]] == [p, q + [n]];
  }

  method NextIsSecond(s: Storage, ghost p: seq<Rec>, ghost next: nat, ghost spare: nat)
    requires Laid(s, [p], next, spare) && spare >= 2 && p != []
    modifies s.pm, s.pm.dev, s.pm.Objects()
    ensures s.pm.pages == old(s.pm.pages) && Laid(s, [p, []], 0, spare - 1)
  {
    hide Laid;
    Next(s, [p], next, spare);
    assert [p] + [[]] == [p, []];
  }

  method EraseFirst(s: Storage, typ: ItemType, key: string, ghost a: seq<Rec>, ghost o: Rec, ghost b: seq<Rec>,
                    ghost q: seq<Rec>, ghost next: nat, ghost spare: nat)
    requires Laid(s, [a + [o] + b, q], next, spare) && o.item.typ == typ && PlainType(typ) && !typ.ANY?
    requires OfName(o, 1, Truncated(key)) && forall r :: r in a + b ==> !OfName(r, 1, Truncated(key))
    modifies s.pm.dev, s.pm.Objects()
    ensures s.pm.pages == old(s.pm.pages) && Laid(s, [a + b, q], next, spare)
  {
    hide Laid;
    Erase(s, 0, typ, key, a, o, b, [a + [o] + b, q], next, spare);
    assert [a + [o] + b, q][0 := a + b] == [a + b, q];
  }

  method EraseSecond(s: Storage, typ: ItemType, key: string, ghost a: seq<Rec>, ghost o: Rec, ghost b: seq<Rec>,
                     ghost p: seq<Rec>, ghost next: nat, ghost spare: nat)
    requires Laid(s, [p, a + [o] + b], next, spare) && o.item.typ == typ && PlainType(typ) && !typ.ANY?
    requires OfName(o, 1, Truncated(key)) && forall r :: r in a + b ==> !OfName(r, 1, Truncated(key))
    modifies s.pm.dev, s.pm.Objects()
    ensures s.pm.pages == old(s.pm.pages) && Laid(s, [p, a + b], next, spare)
  {
    hide Laid;
    Erase(s, 1, typ, key, a, o, b, [p, a + [o] + b], next, spare);
    assert [p, a + [o] + b][1 := a + b] == [p, a + b];
  }

  method CollectFirst(s: Storage, ghost p: seq<Rec>, ghost q: seq<Rec>, ghost next: nat)
    requires Laid(s, [p, q], next, 1) && q != [] && SpanSum(p) < SpanSum(q) <= ENTRY_COUNT
    modifies s.pm, s.pm.dev, s.pm.Objects()
    ensures s.pm.pages == old(s.pm.pages) && Laid(s, [q, p], SpanSum(p), 1) && s.pm.dev.pages in s.pm.dev.cuts
    ensures p != [] ==> EndsWhole(s)
  {
    hide Laid, SpanSum;
    Collect(s, 0, [p, q], next);
    assert Rotated([p, q], 0) == [q, p];
  }

  method CollectSecond(s: Storage, ghost p: seq<Rec>, ghost q: seq<Rec>, ghost next: nat)
    requires Laid(s, [p, q], next, 1) && q != [] && SpanSum(q) < SpanSum(p) <= ENTRY_COUNT
    modifies s.pm, s.pm.dev, s.pm.Objects()
    ensures s.pm.pages == old(s.pm.pages) && Laid(s, [p, q], SpanSum(q), 1) && s.pm.dev.pages in s.pm.dev.cuts
  {
    hide Laid, SpanSum;
    Collect(s, 1, [p, q], next);
    assert Rotated([p, q], 1) == [p, q];
  }
}
