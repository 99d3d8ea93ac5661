// Following a record while others are added: it may be moved to another page, but a page that still
// has the number under which it was found has it at the same entry.
module Trails {
  import opened NvsTypes
  import opened PageImage
  import opened PageRam
  import opened PageSearch
  import opened PageValues
  import opened PageCuts
  import opened FlashDevice
  import opened StoreImage
  import opened PageLists
  import opened Startup
  import opened StoreSearch
  import opened StoreWrites
  import opened BlobWrites
  import opened BlobSearch

  // The record o, when it was found: at entry i of page x, which then had number seqNo.
  datatype Trail = Trail(o: Rec, x: nat, i: nat, seqNo: nat)

  // No record of its name comes before it on its page.
  ghost predicate Leads(recs: seq<Rec>, o: Rec) {
    exists k :: 0 <= k < |recs| && recs[k] == o && forall j :: 0 <= j < k ==> !OfName(recs[j], o.item.ns, o.item.key)
  }

  ghost predicate OnTrail(rams: seq<Ram>, img: seq<FPage>, list: seq<nat>, next: nat, t: Trail) {
    && |rams| == |img| && t.x < |rams| && t.seqNo < next && PlainType(t.o.item.typ)
    && (t.x in list && rams[t.x].seqNo == t.seqNo ==> IsAt(rams, img, t.x, t.i, t.o))
    && forall y :: 0 <= y < |img| && t.o in RecsOf(img[y]) ==> Leads(RecsOf(img[y]), t.o)
  }

  // The pages, the list of those in use, and the number that the next one gets.
  datatype Scene = Scene(rams: seq<Ram>, img: seq<FPage>, list: seq<nat>, next: nat)

  // Whatever could be followed so far still can.
  ghost predicate Followed(a: Scene, b: Scene) {
    forall t :: OnTrail(a.rams, a.img, a.list, a.next, t) ==> OnTrail(b.rams, b.img, b.list, b.next, t)
  }

  lemma FollowedOn(a: Scene, b: Scene, c: Scene)
    requires Followed(a, b) && Followed(b, c)
    ensures Followed(a, c)
  {
    hide OnTrail;
  }

  lemma StillOnTrail(a: Scene, b: Scene, t: Trail)
    requires Followed(a, b) && OnTrail(a.rams, a.img, a.list, a.next, t)
    ensures OnTrail(b.rams, b.img, b.list, b.next, t)
  {
    hide OnTrail;
  }

  lemma FollowedSame(a: Scene)
    ensures Followed(a, a)
  {
  }

  // ---------------------------------------------------------------- the steps

  // A part of a blob has been written to the current page, or nothing.
  lemma WriteFollows(rams: seq<Ram>, img: seq<FPage>, list: seq<nat>, free: seq<nat>, next: nat, hashOf: Id -> nat,
                     rams': seq<Ram>, img': seq<FPage>, n: Rec, ok: bool)
    requires InOrder(rams, img, list, free, next, hashOf) && RamsOk(rams', img', hashOf) && !PlainType(n.item.typ)
    requires var p := list[|list| - 1];
      OnlyAt(rams, rams', p) && OnlyPage(img, img', p) && rams'[p].seqNo == rams[p].seqNo
    requires var p := list[|list| - 1];
      (rams'[p].state.ACTIVE? || rams'[p].state.FULL?) && ItemsKept(img[p].slots, img'[p].slots)
    requires var p := list[|list| - 1]; RecsOf(img'[p]) == RecsOf(img[p]) + if ok then [n] else []
    ensures Followed(Scene(rams, img, list, next), Scene(rams', img', list, next))
  {
    hide RamOk, RecsOf, InOrder, ItemsKept, RamsOk;
    CurrentIs(rams, img, list, free, next, hashOf);
    forall t | OnTrail(rams, img, list, next, t) ensures OnTrail(rams', img', list, next, t) {
      WriteKeepsTrail(rams, img, list, next, hashOf, rams', img', n, ok, t);
    }
  }

  lemma WriteKeepsTrail(rams: seq<Ram>, img: seq<FPage>, list: seq<nat>, next: nat, hashOf: Id -> nat, rams': seq<Ram>,
                        img': seq<FPage>, n: Rec, ok: bool, t: Trail)
    requires list != [] && list[|list| - 1] < |rams| == |img| && RamsOk(rams', img', hashOf) && !PlainType(n.item.typ)
      && OnTrail(rams, img, list, next, t)
    requires var p := list[|list| - 1];
      OnlyAt(rams, rams', p) && OnlyPage(img, img', p) && rams'[p].seqNo == rams[p].seqNo
    requires var p := list[|list| - 1];
      (rams'[p].state.ACTIVE? || rams'[p].state.FULL?) && ItemsKept(img[p].slots, img'[p].slots)
    requires var p := list[|list| - 1]; RecsOf(img'[p]) == RecsOf(img[p]) + if ok then [n] else []
    ensures OnTrail(rams', img', list, next, t)
  {
    hide RamOk, RecsOf, Whole;
    var p, recs := list[|list| - 1], RecsOf(img[list[|list| - 1]]);
    HeadersAre(rams', img', hashOf);
    forall y | 0 <= y < |img'| && t.o in RecsOf(img'[y]) ensures Leads(RecsOf(img'[y]), t.o) {
      if y == p {
        assert t.o in recs;
        LeadsOn(recs, t.o, if ok then [n] else []);
      }
    }
  }

  lemma LeadsOn(recs: seq<Rec>, o: Rec, more: seq<Rec>)
    requires Leads(recs, o)
    ensures Leads(recs + more, o)
  {
    var k :| 0 <= k < |recs| && recs[k] == o && forall j :: 0 <= j < k ==> !OfName(recs[j], o.item.ns, o.item.key);
    assert (recs + more)[k] == o && forall j :: 0 <= j < k ==> (recs + more)[j] == recs[j];
  }

  // The current page counts as full now.
  lemma MarkFollows(rams: seq<Ram>, img: seq<FPage>, list: seq<nat>, next: nat, hashOf: Id -> nat, p: nat,
                    rams': seq<Ram>, img': seq<FPage>)
    requires RamsOk(rams, img, hashOf) && MarkedFull(rams, img, p, rams', img') && LiveState(rams[p].state)
    ensures Followed(Scene(rams, img, list, next), Scene(rams', img', list, next))
  {
    hide RamOk, Recs, Whole;
    HeadersAre(rams, img, hashOf);
    assert RecsOf(img'[p]) == RecsOf(img[p]);
  }

  // Another page is the current one now, and maybe one has been moved to it.
  lemma MoveFollows(rams: seq<Ram>, img: seq<FPage>, list: seq<nat>, free: seq<nat>, next: nat, hashOf: Id -> nat,
                    rams': seq<Ram>, img': seq<FPage>, list': seq<nat>, free': seq<nat>, freed: nat)
    requires InOrder(rams', img', list', free', next + 1, hashOf)
    requires Relocated(rams, img, list, free, rams', img', list', free', freed) && rams'[free[0]].seqNo == next
    ensures Followed(Scene(rams, img, list, next), Scene(rams', img', list', next + 1))
  {
    hide RamOk, RecsOf, Whole, IsAt, Leads, Ascending, Below, States, AllFree;
    FreshRecords(rams, img, list, free, hashOf, rams', img', list', free', freed);
    forall t | OnTrail(rams, img, list, next, t) ensures OnTrail(rams', img', list', next + 1, t) {
      if t.x in list' && rams'[t.x].seqNo == t.seqNo {
        assert t.x != free[0];
        StillListed(rams, list, free, list', free', freed, rams', img, img', t.x);
        IsAtElsewhere(rams, img, rams', img', t.x, t.i, t.o);
      }
    }
  }

  lemma StillListed(rams: seq<Ram>, list: seq<nat>, free: seq<nat>, list': seq<nat>, free': seq<nat>, freed: nat,
                    rams': seq<Ram>, img: seq<FPage>, img': seq<FPage>, x: nat)
    requires Relocated(rams, img, list, free, rams', img', list', free', freed) && Partition(|img'|, list', free')
      && x in list' && x != free[0]
    ensures x in list && x != freed
  {
    if |free| == 1 {
      var at :| 0 <= at < |list| && list[at] == freed && list' == Collected(list, at, free[0]);
      assert free'[0] == freed;
    }
  }

  lemma IsAtElsewhere(rams: seq<Ram>, img: seq<FPage>, rams': seq<Ram>, img': seq<FPage>, x: nat, i: nat, o: Rec)
    requires IsAt(rams, img, x, i, o) && |rams'| == |rams| && |img'| == |img| && rams'[x] == rams[x]
      && img'[x] == img[x]
    ensures IsAt(rams', img', x, i, o)
  {
  }

  // The pages concerned by a move have the records they had, or the moved ones, or none.
  lemma FreshRecords(rams: seq<Ram>, img: seq<FPage>, list: seq<nat>, free: seq<nat>, hashOf: Id -> nat,
                     rams': seq<Ram>, img': seq<FPage>, list': seq<nat>, free': seq<nat>, freed: nat)
    requires RamsOk(rams', img', hashOf) && Relocated(rams, img, list, free, rams', img', list', free', freed)
      && free != []
    ensures |img'| == |img| && free[0] < |img| && freed < |img|
    ensures forall y :: 0 <= y < |img'| ==>
      RecsOf(img'[y]) == [] || RecsOf(img'[y]) == RecsOf(img[y]) || RecsOf(img'[y]) == RecsOf(img[freed])
  {
    hide RamOk, Recs;
    HeadersAre(rams', img', hashOf);
    forall y | 0 <= y < |img'|
      ensures RecsOf(img'[y]) == [] || RecsOf(img'[y]) == RecsOf(img[y]) || RecsOf(img'[y]) == RecsOf(img[freed])
    {
      if y != freed && y != free[0] {
        assert img'[y] == img[y];
      } else {
        BlankRecords(rams', img', hashOf, y);
      }
    }
  }

  lemma BlankRecords(rams: seq<Ram>, img: seq<FPage>, hashOf: Id -> nat, y: nat)
    requires RamsOk(rams, img, hashOf) && y < |img|
    ensures !LiveState(rams[y].state) ==> RecsOf(img[y]) == []
  {
    hide RamOk, Recs;
    HeadersAre(rams, img, hashOf);
  }

  // The current page was marked full, and then there was another, or no room.
  lemma RoomFollows(rams0: seq<Ram>, img0: seq<FPage>, list: seq<nat>, free: seq<nat>, next: nat, hashOf: Id -> nat,
                    rams: seq<Ram>, img: seq<FPage>, rams': seq<Ram>, img': seq<FPage>, list': seq<nat>,
                    free': seq<nat>, next': nat, freed: nat, ok: bool)
    requires InOrder(rams0, img0, list, free, next, hashOf) && InOrder(rams', img', list', free', next', hashOf)
    requires list != [] && list[|list| - 1] < |rams0| && LiveState(rams0[list[|list| - 1]].state)
      && MarkedFull(rams0, img0, list[|list| - 1], rams, img)
    requires ok ==> Relocated(rams, img, list, free, rams', img', list', free', freed)
    requires ok ==> free != [] && free[0] < |rams'| && rams'[free[0]].seqNo == next && next' == next + 1
    requires !ok ==> rams' == rams && img' == img && list' == list && next' == next
    ensures Followed(Scene(rams0, img0, list, next), Scene(rams', img', list', next'))
  {
    hide RamsOk, Partition, Ascending, Below, AllFree, States, RamOk, RecsOf, MarkedFull, Relocated, Followed;
    MarkFollows(rams0, img0, list, next, hashOf, list[|list| - 1], rams, img);
    if ok {
      MoveFollows(rams, img, list, free, next, hashOf, rams', img', list', free', freed);
      FollowedOn(Scene(rams0, img0, list, next), Scene(rams, img, list, next), Scene(rams', img', list', next'));
    }
  }

  lemma ChunkFollows(rams: seq<Ram>, img: seq<FPage>, list: seq<nat>, free: seq<nat>, next: nat, hashOf: Id -> nat,
                     rams': seq<Ram>, img': seq<FPage>, n: Rec, ok: bool, ns: byte, key: string, piece: seq<byte>,
                     chunk: byte)
    requires InOrder(rams, img, list, free, next, hashOf) && RamsOk(rams', img', hashOf)
      && n == RecOf(ns, BLOB_DATA, key, Variable(piece), chunk)
    requires var p := list[|list| - 1];
      OnlyAt(rams, rams', p) && OnlyPage(img, img', p) && rams'[p].seqNo == rams[p].seqNo
    requires var p := list[|list| - 1];
      (rams'[p].state.ACTIVE? || rams'[p].state.FULL?) && ItemsKept(img[p].slots, img'[p].slots)
    requires var p := list[|list| - 1]; RecsOf(img'[p]) == RecsOf(img[p]) + if ok then [n] else []
    ensures Followed(Scene(rams, img, list, next), Scene(rams', img', list, next))
  {
    hide InOrder, RamsOk, RecsOf, ItemsKept, Followed;
    WriteFollows(rams, img, list, free, next, hashOf, rams', img', n, ok);
  }

  lemma IndexFollows(rams: seq<Ram>, img: seq<FPage>, list: seq<nat>, free: seq<nat>, next: nat, hashOf: Id -> nat,
                     rams': seq<Ram>, img': seq<FPage>, ns: byte, key: string, size: nat, count: byte, start: byte)
    requires InOrder(rams, img, list, free, next, hashOf) && RamsOk(rams', img', hashOf)
    requires var p := list[|list| - 1];
      OnlyAt(rams, rams', p) && OnlyPage(img, img', p) && rams'[p].seqNo == rams[p].seqNo
    requires var p := list[|list| - 1];
      (rams'[p].state.ACTIVE? || rams'[p].state.FULL?) && ItemsKept(img[p].slots, img'[p].slots)
    requires var p := list[|list| - 1]; RecsOf(img'[p]) == RecsOf(img[p]) + [IndexRec(ns, key, size, count, start)]
    ensures Followed(Scene(rams, img, list, next), Scene(rams', img', list, next))
  {
    hide InOrder, RamsOk, RecsOf, ItemsKept, Followed;
    WriteFollows(rams, img, list, free, next, hashOf, rams', img', IndexRec(ns, key, size, count, start), true);
  }

  // ---------------------------------------------------------------- the end of the trail

  // It starts where the only record of a name is found.
  lemma TrailStarts(rams: seq<Ram>, img: seq<FPage>, list: seq<nat>, free: seq<nat>, next: nat, hashOf: Id -> nat,
                    x: nat, i: nat, o: Rec)
    requires InOrder(rams, img, list, free, next, hashOf) && IsAt(rams, img, x, i, o) && PlainType(o.item.typ)
    requires forall r :: r in Live(img) && OfName(r, o.item.ns, o.item.key) ==> r == o
    ensures OnTrail(rams, img, list, next, Trail(o, x, i, rams[x].seqNo))
  {
    hide RamOk, RecsOf, Whole, Live;
    RecordPage(rams, img, list, free, next, hashOf, x);
    forall y: nat | y < |img| && o in RecsOf(img[y]) ensures Leads(RecsOf(img[y]), o) {
      var k := FirstOf(RecsOf(img[y]), o);
      forall j | 0 <= j < k ensures !OfName(RecsOf(img[y])[j], o.item.ns, o.item.key) {
        OnPageIsLive(img, y, RecsOf(img[y])[j]);
      }
    }
  }

  lemma {:induction false} FirstOf(recs: seq<Rec>, o: Rec) returns (k: nat)
    requires o in recs
    ensures k < |recs| && recs[k] == o && o !in recs[..k]
  {
    if o in recs[..|recs| - 1] {
      k := FirstOf(recs[..|recs| - 1], o);
      assert recs[..|recs| - 1][..k] == recs[..k];
    } else {
      k := |recs| - 1;
    }
  }

  // The item that a record of a page is.
  lemma {:induction false} PlaceOfIndex(s: seq<Slot>, hi: nat, k: nat) returns (h: nat)
    requires hi <= |s| && k < |RecsIn(s, 0, hi)|
    ensures h < hi && Whole(s, h) && RecAt(s, h) == RecsIn(s, 0, hi)[k] && RecsIn(s, 0, h) == RecsIn(s, 0, hi)[..k]
  {
    if k < |RecsIn(s, 0, hi - 1)| {
      h := PlaceOfIndex(s, hi - 1, k);
    } else {
      h := hi - 1;
    }
  }

  lemma {:induction false} InPrefix(s: seq<Slot>, j: nat, h: nat)
    requires j < h <= |s| && Whole(s, j)
    ensures RecAt(s, j) in RecsIn(s, 0, h)
  {
    RecsSplit(s, 0, j + 1, h);
    assert RecsIn(s, 0, j + 1) == RecsIn(s, 0, j) + ItemAt(s, j);
  }

  // A record before which none of its name comes is what a search under its type finds on the page.
  lemma SearchLeads(s: seq<Slot>, nf: nat, hashOf: Id -> nat, ns: byte, key: string, o: Rec)
    requires Quiet(s, nf) && Leads(Recs(s), o) && OfName(o, ns, Truncated(key)) && PlainType(o.item.typ)
      && ns != NS_ANY && o.item.chunk == CHUNK_ANY
    ensures var f := FindVia(s, KeyQuery(ns, o.item.typ, key), hashOf, 0);
      f.Hit? && f.index < |s| && Whole(s, f.index) && RecAt(s, f.index) == o
  {
    hide Quiet;
    var q := KeyQuery(ns, o.item.typ, key);
    var k :| 0 <= k < |Recs(s)| && Recs(s)[k] == o &&
      forall j :: 0 <= j < k ==> !OfName(Recs(s)[j], ns, Truncated(key));
    var h := PlaceOfIndex(s, |s|, k);
    forall j: nat | j < h && IsHead(s[j]) ensures Judge(s[j].body.item, q).Skip? {
      HeadOfWhole(s, nf, j);
      InPrefix(s, j, h);
      assert !OfName(RecAt(s, j), ns, Truncated(key));
    }
    assert HasHash(s, h, hashOf, hashOf(QueryId(q)));
    var i := FirstHash(s, hashOf, hashOf(QueryId(q)), 0);
    FindSkips(s, q, i, h);
  }

  // A page that is in use under the same number has the record where it was.
  lemma StillThere(rams: seq<Ram>, img: seq<FPage>, list: seq<nat>, free: seq<nat>, next: nat, hashOf: Id -> nat,
                   t: Trail)
    requires InOrder(rams, img, list, free, next, hashOf) && OnTrail(rams, img, list, next, t)
      && rams[t.x].seqNo == t.seqNo && LiveState(rams[t.x].state)
    ensures IsAt(rams, img, t.x, t.i, t.o)
  {
    hide RamOk, RecsOf, IsAt, Leads;
    LiveHeader(rams, img, list, free, next, hashOf, t.x);
    RecordPage(rams, img, list, free, next, hashOf, t.x);
  }

  // If the page has been given up since, the record is what a search under its type finds, although
  // parts of a blob have its name by now.
  lemma TrailEnds(rams: seq<Ram>, img: seq<FPage>, list: seq<nat>, free: seq<nat>, next: nat, hashOf: Id -> nat,
                  t: Trail, ns: byte, key: string, found: bool, at: nat, index: nat)
    requires InOrder(rams, img, list, free, next, hashOf) && OnTrail(rams, img, list, next, t) && ns != NS_ANY
      && t.o in Live(img)
    requires OfName(t.o, ns, Truncated(key)) && t.o.item.chunk == CHUNK_ANY && !t.o.item.typ.ANY?
    requires forall r :: r in Live(img) && OfName(r, ns, Truncated(key)) ==> r == t.o || !PlainType(r.item.typ)
    requires found ==> Locates(rams, img, list, KeyQuery(ns, t.o.item.typ, key), hashOf, at, index)
    requires !found ==> NoHitBefore(rams, img, list, KeyQuery(ns, t.o.item.typ, key), hashOf, |list|)
    ensures found && at < |list| && IsAt(rams, img, list[at], index, t.o)
  {
    hide RamOk, RecsOf, Whole, Live, Leads, FindVia, Quiet, IsAt;
    var y := PageOf(img, t.o);
    RecordPage(rams, img, list, free, next, hashOf, y);
    SearchLeads(img[y].slots, rams[y].top, hashOf, ns, key, t.o);
    var k :| 0 <= k < |list| && list[k] == y;
    if found {
      var r := HitIsNamed(rams, img, list, free, next, hashOf, ns, t.o.item.typ, key, at, index);
    }
  }
}
