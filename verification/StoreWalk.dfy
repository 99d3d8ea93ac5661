// Walking over the store without a key: the pages in list order, item by item. Each search finds the
// next record that is sought and passes over none.
module StoreWalk {
  import opened NvsTypes
  import opened PageImage
  import opened PageRam
  import opened PageWalk
  import opened PageSearch
  import opened FlashDevice
  import opened StoreImage
  import opened PageLists

  // ---------------------------------------------------------------- what is sought

  // Any item of one namespace or of all, or the items of one type of all namespaces.
  predicate WalkQuery(q: Query) {
    q.key.None? && q.chunk == CHUNK_ANY && q.ver == VER_ANY && !q.typ.BLOB? && (q.typ.ANY? || q.ns == NS_ANY)
  }

  predicate Sought(r: Rec, q: Query) {
    Judge(r.item, q).Take?
  }

  function Of(recs: seq<Rec>, q: Query): seq<Rec> {
    if recs == [] then []
    else Of(recs[..|recs| - 1], q) + if Sought(recs[|recs| - 1], q) then [recs[|recs| - 1]] else []
  }

  lemma {:induction false} OfAdds(a: seq<Rec>, b: seq<Rec>, q: Query)
    ensures Of(a + b, q) == Of(a, q) + Of(b, q)
    decreases |b|
  {
    hide Sought;
    if b == [] {
      assert a + b == a;
    } else {
      OfAdds(a, b[..|b| - 1], q);
      assert (a + b)[..|a + b| - 1] == a + b[..|b| - 1];
    }
  }

  lemma {:induction false} OfOne(r: Rec, q: Query)
    ensures Of([r], q) == if Sought(r, q) then [r] else []
  {
    assert [r][..0] == [];
  }

  lemma {:induction false} OfNone(q: Query)
    ensures Of([], q) == []
  {
  }

  lemma {:induction false} OfMeans(recs: seq<Rec>, q: Query)
    ensures forall r :: r in Of(recs, q) <==> r in recs && Sought(r, q)
  {
    hide Sought;
    if recs != [] {
      OfMeans(recs[..|recs| - 1], q);
      assert forall r :: r in recs <==> r in recs[..|recs| - 1] || r == recs[|recs| - 1];
    }
  }

  // ---------------------------------------------------------------- one page, item by item

  // The records of an image from a boundary on, cut at the next item that is sought.
  ghost predicate NextIs(s: seq<Slot>, q: Query, from: nat, h: nat)
    requires from <= |s|
  {
    && from <= h < |s| && Whole(s, h) && h + SpanAt(s, h) <= |s| && Sought(RecAt(s, h), q)
    && Boundary(s, h + SpanAt(s, h))
    && Of(RecsIn(s, from, |s|), q) == [RecAt(s, h)] + Of(RecsIn(s, h + SpanAt(s, h), |s|), q)
  }

  ghost predicate NextFound(s: seq<Slot>, q: Query, from: nat, f: Found)
    requires from <= |s|
  {
    match f
    case Nothing => Of(RecsIn(s, from, |s|), q) == []
    case WrongType(_) => false
    case Hit(h) => NextIs(s, q, from, h)
  }

  // A search without a key finds the next item that is sought and passes over none.
  lemma NextOf(s: seq<Slot>, nf: nat, q: Query, hashOf: Id -> nat, from: nat)
    requires Quiet(s, nf) && from <= |s| && WalkQuery(q)
    ensures NextFound(s, q, from, FindVia(s, q, hashOf, from))
  {
    hide Quiet, NextIs, RecsIn, Judge, SkippedIn, Of;
    FindMeans(s, q, from);
    match FindFrom(s, q, from)
    case Nothing =>
      NoneOf(s, q, from, |s|);
    case WrongType(h) =>
      NeverWrong(s[h].body.item, q);
    case Hit(h) =>
      NoneOf(s, q, from, h);
      FoundIsNext(s, nf, q, from, h);
  }

  lemma NeverWrong(it: Item, q: Query)
    requires WalkQuery(q)
    ensures !Judge(it, q).Mismatch?
  {
  }

  lemma {:induction false} FoundIsNext(s: seq<Slot>, nf: nat, q: Query, from: nat, h: nat)
    requires Quiet(s, nf) && from <= h < |s| && IsHead(s[h]) && Judge(s[h].body.item, q).Take?
    requires Of(RecsIn(s, from, h), q) == []
    ensures NextIs(s, q, from, h)
  {
    hide Quiet, Loose, RecsIn, Of, Whole, Judge, Boundary;
    HeadIsWhole(s, nf, h);
    RecsFromHead(s, nf, from, h);
    var r := RecAt(s, h);
    OfAdds(RecsIn(s, from, h), [r] + RecsIn(s, h + SpanAt(s, h), |s|), q);
    OfAdds([r], RecsIn(s, h + SpanAt(s, h), |s|), q);
    OfOne(r, q);
  }

  lemma HeadIsWhole(s: seq<Slot>, nf: nat, h: nat)
    requires Quiet(s, nf) && h < |s| && IsHead(s[h])
    ensures Whole(s, h) && Loose(s, nf) && RecAt(s, h).item == s[h].body.item
  {
    HeadReaches(s, nf, h);
  }

  lemma {:induction false} NoneOf(s: seq<Slot>, q: Query, from: nat, end: nat)
    requires from <= end <= |s| && SkippedIn(s, q, from, end)
    ensures Of(RecsIn(s, from, end), q) == []
    decreases end
  {
    hide Judge, Of;
    if from < end {
      NoneOf(s, q, from, end - 1);
      OfAdds(RecsIn(s, from, end - 1), ItemAt(s, end - 1), q);
      if Whole(s, end - 1) {
        OfOne(RecAt(s, end - 1), q);
      } else {
        OfNone(q);
      }
    } else {
      OfNone(q);
    }
  }

  lemma RecsFromHead(s: seq<Slot>, nf: nat, from: nat, h: nat)
    requires Loose(s, nf) && from <= h < |s| && Whole(s, h)
    ensures h + SpanAt(s, h) <= |s| && Boundary(s, h + SpanAt(s, h))
    ensures RecsIn(s, from, |s|) == RecsIn(s, from, h) + ([RecAt(s, h)] + RecsIn(s, h + SpanAt(s, h), |s|))
  {
    hide RecsIn, Boundary, Loose;
    HeadIsBoundary(s, nf, h);
    BoundaryAfter(s, nf, h);
    RecsSplit(s, from, h, |s|);
    ItemFirst(s, nf, h);
  }

  // An item, then what comes behind it.
  lemma ItemFirst(s: seq<Slot>, nf: nat, h: nat)
    requires Loose(s, nf) && h < |s| && Whole(s, h)
    ensures h + SpanAt(s, h) <= |s| && RecsIn(s, h, |s|) == [RecAt(s, h)] + RecsIn(s, h + SpanAt(s, h), |s|)
  {
    hide RecsIn, Loose, Whole;
    NoneInside(s, nf, h);
    RecsSplit(s, h, h + 1, |s|);
    RecsOne(s, h);
    RecsSplit(s, h + 1, h + SpanAt(s, h), |s|);
    RecsNone(s, h + 1, h + SpanAt(s, h));
  }

  lemma NoneInside(s: seq<Slot>, nf: nat, h: nat)
    requires Loose(s, nf) && h < |s| && Whole(s, h)
    ensures 1 <= SpanAt(s, h) && h + SpanAt(s, h) <= |s| && forall j: nat :: h < j < h + SpanAt(s, h) ==> !Whole(s, j)
  {
    forall j: nat | h < j < h + SpanAt(s, h) ensures !Whole(s, j) {
      assert Covers(s, h, j);
    }
  }

  // ---------------------------------------------------------------- all listed pages

  // All records, in list order.
  ghost function RecordList(img: seq<FPage>, list: seq<nat>): seq<Rec> {
    if forall j :: 0 <= j < |list| ==> list[j] < |img| then ListRecs(img, list, 0) else []
  }

  // The records of the pages from position k of the list on, in list order.
  ghost function ListRecs(img: seq<FPage>, list: seq<nat>, k: nat): seq<Rec>
    requires forall j :: 0 <= j < |list| ==> list[j] < |img|
    decreases |list| - k
  {
    if k >= |list| then [] else RecsOf(img[list[k]]) + ListRecs(img, list, k + 1)
  }

  lemma {:induction false} ListRecsSame(img: seq<FPage>, list: seq<nat>, c: seq<FPage>, list': seq<nat>, k: nat)
    requires (forall j :: 0 <= j < |list| ==> list[j] < |img|) && (forall j :: 0 <= j < |list'| ==> list'[j] < |c|)
    requires |list| == |list'| + 1
      && forall j :: k <= j < |list'| ==> list'[j] == list[j + 1] && c[list'[j]] == img[list[j + 1]]
    ensures ListRecs(c, list', k) == ListRecs(img, list, k + 1)
    decreases |list'| - k
  {
    hide RecsOf;
    if k < |list'| {
      ListRecsSame(img, list, c, list', k + 1);
    }
  }

  // The listed pages hold all records, each once.
  lemma {:induction false} ListedAreLive(img: seq<FPage>, list: seq<nat>)
    requires (forall j :: 0 <= j < |list| ==> list[j] < |img|)
      && (forall j, k :: 0 <= j < k < |list| ==> list[j] != list[k])
    requires forall p: nat :: p < |img| && p !in list ==> RecsOf(img[p]) == []
    ensures multiset(ListRecs(img, list, 0)) == Live(img)
    decreases |list|
  {
    hide RecsOf, Live, Rest;
    if list == [] {
      NoRecordsNoLive(img);
    } else {
      var p, rest := list[0], list[1..];
      var c := img[p := ErasedPage()];
      ErasedHasNone();
      assert forall q: nat :: q < |c| && q !in rest ==> q == p || q !in list;
      ListedAreLive(c, rest);
      ListRecsSame(img, list, c, rest, 0);
      LiveAround(img, p);
      RestIs(img, p);
      assert ListRecs(img, list, 0) == RecsOf(img[p]) + ListRecs(img, list, 1);
    }
  }

  lemma RestIs(img: seq<FPage>, p: nat)
    requires p < |img|
    ensures Rest(img, p) == Live(img[p := ErasedPage()])
  {
  }

  lemma NoRecordsNoLive(img: seq<FPage>)
    requires forall p: nat :: p < |img| ==> RecsOf(img[p]) == []
    ensures Live(img) == multiset{}
  {
    NoneLiveIn(img, |img|);
  }

  lemma {:induction false} NoneLiveIn(img: seq<FPage>, n: nat)
    requires n <= |img| && forall p: nat :: p < n ==> RecsOf(img[p]) == []
    ensures LiveIn(img, n) == multiset{}
  {
    hide RecsOf;
    if n > 0 {
      NoneLiveIn(img, n - 1);
      assert multiset(RecsOf(img[n - 1])) == multiset{};
    }
  }

  // Between two operations the records of the store are those of the listed pages.
  lemma {:induction false} AllAreListed(rams: seq<Ram>, img: seq<FPage>, list: seq<nat>, free: seq<nat>, next: nat,
                                        hashOf: Id -> nat)
    requires InOrder(rams, img, list, free, next, hashOf)
    ensures forall j :: 0 <= j < |list| ==> list[j] < |img|
    ensures multiset(ListRecs(img, list, 0)) == Live(img)
  {
    hide RamOk, Live, ListRecs, Recs;
    HeadersAre(rams, img, hashOf);
    forall p: nat | p < |img| && p !in list ensures RecsOf(img[p]) == [] {
      assert p in free;
      var k :| 0 <= k < |free| && free[k] == p;
    }
    ListedAreLive(img, list);
  }

  // ---------------------------------------------------------------- where an iterator stands

  // Where an iterator stands: a position in the page list and an entry on that page.
  datatype Cursor = Cursor(at: nat, index: nat)

  // The records from entry `index` of a page on.
  ghost function PageAhead(fp: FPage, index: nat): seq<Rec> {
    if fp.hdr.Header? && index <= |fp.slots| then RecsIn(fp.slots, index, |fp.slots|) else []
  }

  ghost function Ahead(img: seq<FPage>, list: seq<nat>, cur: Cursor, q: Query): seq<Rec>
    requires forall j :: 0 <= j < |list| ==> list[j] < |img|
  {
    if cur.at >= |list| then []
    else Of(PageAhead(img[list[cur.at]], cur.index), q) + Of(ListRecs(img, list, cur.at + 1), q)
  }

  ghost predicate CursorOk(rams: seq<Ram>, img: seq<FPage>, list: seq<nat>, cur: Cursor) {
    cur.at < |list| ==>
      list[cur.at] < |img| && list[cur.at] < |rams| && CursorOn(rams[list[cur.at]], img[list[cur.at]], cur.index)
  }

  ghost predicate CursorOn(r: Ram, fp: FPage, index: nat) {
    LiveState(r.state) ==> index <= |fp.slots| && Boundary(fp.slots, index)
  }

  // A search from the cursor on one page.
  lemma {:induction false} PageStep(r: Ram, fp: FPage, hashOf: Id -> nat, q: Query, index: nat)
    requires RamOk(r, fp, hashOf) && |fp.slots| == ENTRY_COUNT && CursorOn(r, fp, index) && WalkQuery(q)
    ensures !LiveState(r.state) ==> Of(PageAhead(fp, index), q) == []
    ensures LiveState(r.state) ==> PageFound(r, fp, q, index, FindVia(fp.slots, q, hashOf, index))
  {
    if LiveState(r.state) {
      LiveIsQuiet(r, fp, hashOf);
      LivePageStep(r, fp, hashOf, q, index);
    }
  }

  lemma LiveIsQuiet(r: Ram, fp: FPage, hashOf: Id -> nat)
    requires RamOk(r, fp, hashOf) && LiveState(r.state)
    ensures fp.hdr.Header? && Quiet(fp.slots, r.top)
  {
  }

  lemma LivePageStep(r: Ram, fp: FPage, hashOf: Id -> nat, q: Query, index: nat)
    requires fp.hdr.Header? && Quiet(fp.slots, r.top) && CursorOn(r, fp, index) && WalkQuery(q) && LiveState(r.state)
    ensures PageFound(r, fp, q, index, FindVia(fp.slots, q, hashOf, index))
  {
    hide Quiet, RecsIn, Of, Whole, Boundary, FindVia, Judge;
    NextOf(fp.slots, r.top, q, hashOf, index);
  }

  ghost predicate PageFound(r: Ram, fp: FPage, q: Query, index: nat, f: Found) {
    match f
    case Nothing => Of(PageAhead(fp, index), q) == []
    case WrongType(_) => false
    case Hit(h) =>
      Whole(fp.slots, h) && CursorOn(r, fp, h + SpanAt(fp.slots, h)) && Sought(RecAt(fp.slots, h), q) && index <= h
      && Of(PageAhead(fp, index), q) == [RecAt(fp.slots, h)] + Of(PageAhead(fp, h + SpanAt(fp.slots, h)), q)
  }

  lemma {:induction false} PageStart(rams: seq<Ram>, img: seq<FPage>, list: seq<nat>, free: seq<nat>, next: nat,
                                     hashOf: Id -> nat, k: nat, q: Query)
    requires InOrder(rams, img, list, free, next, hashOf)
    ensures forall j :: 0 <= j < |list| ==> list[j] < |img|
    ensures CursorOk(rams, img, list, Cursor(k, 0))
      && Ahead(img, list, Cursor(k, 0), q) == Of(ListRecs(img, list, k), q)
  {
    hide RamOk, Of, Recs;
    if k < |list| {
      OfAdds(RecsOf(img[list[k]]), ListRecs(img, list, k + 1), q);
      RecsOfIsAhead(img[list[k]]);
    }
    assert Of([], q) == [] by {
      OfNone(q);
    }
  }

  lemma RecsOfIsAhead(fp: FPage)
    ensures PageAhead(fp, 0) == RecsOf(fp)
  {
  }

  lemma {:induction false} CursorReady(rams: seq<Ram>, img: seq<FPage>, list: seq<nat>, free: seq<nat>, next: nat,
                                       hashOf: Id -> nat, at: nat, q: Query, index: nat)
    requires InOrder(rams, img, list, free, next, hashOf) && at < |list|
      && CursorOk(rams, img, list, Cursor(at, index)) && WalkQuery(q)
    ensures list[at] < |rams| == |img| && |img[list[at]].slots| == ENTRY_COUNT
      && CursorOn(rams[list[at]], img[list[at]], index)
    ensures var r, fp := rams[list[at]], img[list[at]];
      if LiveState(r.state) then Boundary(fp.slots, index)
        && PageFound(r, fp, q, index, FindVia(fp.slots, q, hashOf, index))
      else Of(PageAhead(fp, index), q) == []
  {
    hide RamOk, FindVia;
    PageStep(rams[list[at]], img[list[at]], hashOf, q, index);
  }

  lemma {:induction false} AheadStep(img: seq<FPage>, list: seq<nat>, cur: Cursor, index: nat, q: Query, r: Rec)
    requires (forall j :: 0 <= j < |list| ==> list[j] < |img|) && cur.at < |list|
    requires Of(PageAhead(img[list[cur.at]], cur.index), q) == [r] + Of(PageAhead(img[list[cur.at]], index), q)
    ensures Ahead(img, list, cur, q) == [r] + Ahead(img, list, Cursor(cur.at, index), q)
  {
    hide Of, PageAhead;
  }

  lemma {:induction false} PageDone(img: seq<FPage>, list: seq<nat>, cur: Cursor, q: Query)
    requires (forall j :: 0 <= j < |list| ==> list[j] < |img|) && cur.at < |list|
    requires Of(PageAhead(img[list[cur.at]], cur.index), q) == []
    requires Ahead(img, list, Cursor(cur.at + 1, 0), q) == Of(ListRecs(img, list, cur.at + 1), q)
    ensures Ahead(img, list, Cursor(cur.at + 1, 0), q) == Ahead(img, list, cur, q)
  {
    hide Of, PageAhead;
    assert Ahead(img, list, cur, q) == [] + Of(ListRecs(img, list, cur.at + 1), q);
  }
}
