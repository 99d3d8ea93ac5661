// Bringing the store up: why the check for a stale duplicate of the last item finds the old record
// and nothing else, and what the lists look like after each phase.
module Startup {
  import opened NvsTypes
  import opened PageImage
  import opened PageRam
  import opened PageErases
  import opened PageSearch
  import opened PageLoad
  import opened PageTwins
  import opened PageScan
  import opened PageWalk
  import opened PageTail
  import opened FlashDevice
  import opened PageCuts
  import opened StoreImage
  import opened Recovery
  import opened PageLists

  // ---------------------------------------------------------------- records and where they are

  lemma RecIsInRecs(s: seq<Slot>, k: nat)
    requires k < |s| && Whole(s, k)
    ensures RecAt(s, k) in Recs(s)
  {
    RecsAround(s, k);
    assert (RecsIn(s, 0, k) + ItemAt(s, k) + RecsIn(s, k + 1, |s|))[|RecsIn(s, 0, k)|] == RecAt(s, k);
  }

  lemma {:induction false} PlaceOfRec(s: seq<Slot>, hi: nat, r: Rec) returns (k: nat)
    requires hi <= |s| && r in RecsIn(s, 0, hi)
    ensures k < hi && Whole(s, k) && RecAt(s, k) == r
  {
    if r in ItemAt(s, hi - 1) {
      k := hi - 1;
    } else {
      k := PlaceOfRec(s, hi - 1, r);
    }
  }

  // The query of the duplicate check for this item.
  function StaleQuery(it: Item): Query {
    Query(it.ns, it.typ, Some(it.key), it.chunk, VER_ANY)
  }

  // Of an item that is no part of a blob the page has no chunk of that name either.
  ghost predicate NoChunkHere(recs: seq<Rec>, it: Item) {
    it.typ.BLOB_DATA? || it.typ.BLOB_IDX? || forall r :: r in recs ==> !ChunkOf(r, it)
  }

  // The search goes by namespace, key and chunk index, whatever the hashes.
  lemma {:induction false} SearchById(s: seq<Slot>, nf: nat, hashOf: Id -> nat, it: Item)
    requires Quiet(s, nf) && WritableId(it) && NoChunkHere(Recs(s), it)
    ensures FindVia(s, StaleQuery(it), hashOf, 0) == FindFrom(s, StaleQuery(it), 0)
    ensures forall k: nat :: k < |s| && IsHead(s[k]) ==>
      Judge(s[k].body.item, StaleQuery(it)) ==
        if IdOf(s[k].body.item) != IdOf(it) then Skip else if s[k].body.item.typ == it.typ then Take else Mismatch
  {
    var q := StaleQuery(it);
    forall k: nat | k < |s| && IsHead(s[k])
      ensures WritableId(s[k].body.item)
        && (OfKey(s[k].body.item, q) && s[k].body.item.chunk != q.chunk ==> it.typ.BLOB_DATA? || it.typ.BLOB_IDX?)
    {
      assert HeadFits(s, k, nf);
      RecIsInRecs(s, k);
    }
    HashAgreesWithScan(s, q, hashOf, 0);
  }

  lemma SearchNothing(s: seq<Slot>, nf: nat, hashOf: Id -> nat, it: Item)
    requires Quiet(s, nf) && WritableId(it) && NoChunkHere(Recs(s), it)
    requires forall r :: r in Recs(s) ==> IdOf(r.item) != IdOf(it)
    ensures FindVia(s, StaleQuery(it), hashOf, 0) == Nothing
  {
    hide FindVia, Judge, NoChunkHere, WritableId;
    SearchById(s, nf, hashOf, it);
    FindMeans(s, StaleQuery(it), 0);
    forall k: nat | k < |s| && IsHead(s[k]) ensures IdOf(s[k].body.item) != IdOf(it) {
      RecIsInRecs(s, k);
    }
  }

  // A search for a blob of the old format meets no item that could be erased.
  lemma SearchOldFormat(s: seq<Slot>, nf: nat, hashOf: Id -> nat, it: Item)
    requires Quiet(s, nf) && WritableId(it) && it.typ.BLOB_IDX?
    requires forall r :: r in Recs(s) ==> IdOf(r.item) != IdOf(it)
    ensures !FindVia(s, StaleQuery(it.(typ := BLOB)), hashOf, 0).Hit?
  {
    var q := StaleQuery(it.(typ := BLOB));
    FindMeans(s, q, FirstHash(s, hashOf, hashOf(QueryId(q)), 0));
    forall k: nat | k < |s| && IsHead(s[k]) ensures !Judge(s[k].body.item, q).Take? {
      assert HeadFits(s, k, nf);
      RecIsInRecs(s, k);
    }
  }

  lemma HeadOfWhole(s: seq<Slot>, nf: nat, h: nat)
    requires Quiet(s, nf) && h < |s| && IsHead(s[h])
    ensures Whole(s, h)
  {
    HeadReaches(s, nf, h);
  }

  lemma SearchOld(s: seq<Slot>, nf: nat, hashOf: Id -> nat, it: Item, o: Rec) returns (k: nat)
    requires Quiet(s, nf) && WritableId(it) && NoChunkHere(Recs(s), it)
    requires o in Recs(s) && IdOf(o.item) == IdOf(it) && o.item.typ == it.typ
    requires forall r :: r in Recs(s) && IdOf(r.item) == IdOf(it) ==> r == o
    ensures k < |s| && Whole(s, k) && RecAt(s, k) == o && FindVia(s, StaleQuery(it), hashOf, 0) == Hit(k)
  {
    hide FindVia, Judge, NoChunkHere, WritableId, Loose;
    SearchById(s, nf, hashOf, it);
    FindMeans(s, StaleQuery(it), 0);
    var place := PlaceOfRec(s, |s|, o);
    forall h: nat | h < |s| && IsHead(s[h]) && IdOf(s[h].body.item) == IdOf(it)
      ensures Whole(s, h) && RecAt(s, h) == o {
      HeadOfWhole(s, nf, h);
      RecIsInRecs(s, h);
    }
    k := FindVia(s, StaleQuery(it), hashOf, 0).index;
  }

  // ---------------------------------------------------------------- the last item and its twin

  // Page p is the last in the list.
  ghost predicate LastPage(img: seq<FPage>, p: nat) {
    p < |img| && img[p].hdr.Header?
    && forall q :: 0 <= q < |img| && img[q].hdr.Header? ==> img[q].hdr.seqNo <= img[p].hdr.seqNo
  }

  ghost predicate NoTwin(recs: seq<Rec>, n: Rec) {
    forall r :: r in recs ==> IdOf(r.item) != IdOf(n.item)
  }

  ghost predicate OnlyTwin(recs: seq<Rec>, n: Rec, o: Rec) {
    forall r :: r in recs && IdOf(r.item) == IdOf(n.item) ==> r == o
  }

  // Two records of one multiset.
  lemma Apart(live: multiset<Rec>, a: multiset<Rec>, b: multiset<Rec>, n: Rec, r: Rec)
    requires Unique(live) && a + b <= live && n in a && r in b
    ensures IdOf(r.item) != IdOf(n.item)
  {
    assert (a + b)[n] == a[n] + b[n];
    assert r in a + b && n in a + b;
  }

  // Away from the page that is being freed, no record is a twin of one on page p, when the pages
  // hold only live records.
  lemma NoTwinElsewhere(img: seq<FPage>, live: multiset<Rec>, p: nat, x: nat, n: Rec)
    requires p < |img| && x < |img| && p != x && Live(img) == live && Unique(live) && n in RecsOf(img[p])
    ensures NoTwin(RecsOf(img[x]), n)
  {
    hide RecsOf, Unique;
    LiveAround(img, p);
    RestAround(img, p, x);
    forall r | r in RecsOf(img[x]) ensures IdOf(r.item) != IdOf(n.item) {
      Apart(live, multiset(RecsOf(img[p])), multiset(RecsOf(img[x])), n, r);
    }
  }

  lemma NoTwinOfCopy(img: seq<FPage>, live: multiset<Rec>, e: nat, t: nat, x: nat, n: Rec)
    requires e < |img| && t < |img| && x < |img| && Copying(img, live, e, t) && x != t && x != e && Unique(live)
    requires n in RecsOf(img[t])
    ensures NoTwin(RecsOf(img[x]), n)
  {
    hide RecsOf, Unique, Sound;
    var c := img[t := ErasedPage()];
    assert n in RecsOf(c[e]) && c[x] == img[x];
    NoTwinElsewhere(c, live, e, x, n);
  }

  lemma TwinIsOld(img: seq<FPage>, live: multiset<Rec>, p: nat, q: nat, x: nat, o: Rec)
    requires p < |img| && q < |img| && x < |img| && p != q && p != x && Doubled(img, live, p, q, o) && Unique(live)
    ensures var n := RecsOf(img[p])[|RecsOf(img[p])| - 1];
      if x == q then OnlyTwin(RecsOf(img[x]), n, o) else NoTwin(RecsOf(img[x]), n)
  {
    hide RecsOf, Sound, Spare, NoneFreeing, Unique, Live, Rest;
    var n := RecsOf(img[p])[|RecsOf(img[p])| - 1];
    assert n in RecsOf(img[p]);
    if x == q {
      LiveAround(img, q);
      RestAround(img, q, p);
      forall r | r in RecsOf(img[q]) && IdOf(r.item) == IdOf(n.item) ensures r == o {
        if r != o {
          OldTaken(Rest(img, q), multiset(RecsOf(img[q])), live, o, n, r);
        }
      }
    } else {
      LiveAround(img, q);
      WithoutOld(img, live, p, q, x, o);
      forall r | r in RecsOf(img[x]) ensures IdOf(r.item) != IdOf(n.item) {
        Apart(live, multiset(RecsOf(img[p])), multiset(RecsOf(img[x])), n, r);
      }
    }
  }

  lemma OldTaken(rest: multiset<Rec>, q: multiset<Rec>, live: multiset<Rec>, o: Rec, n: Rec, r: Rec)
    requires rest + q == live + multiset{o} && o in q && r in q && r != o && n in rest && Unique(live)
    ensures IdOf(r.item) != IdOf(n.item)
  {
    Cancel(rest + (q - multiset{o}), live, o);
    Apart(live, rest, q - multiset{o}, n, r);
  }

  // Pages p and x hold only live records when the old one is on page q.
  lemma WithoutOld(img: seq<FPage>, live: multiset<Rec>, p: nat, q: nat, x: nat, o: Rec)
    requires p < |img| && q < |img| && x < |img| && p != q && p != x && x != q && o in RecsOf(img[q])
    requires Live(img) == live + multiset{o}
    ensures multiset(RecsOf(img[p])) + multiset(RecsOf(img[x])) <= live
  {
    hide RecsOf;
    LiveAround(img, q);
    var c := img[q := ErasedPage()];
    LiveAround(c, p);
    RestAround(c, p, x);
    OutsideOld(Rest(img, q), multiset(RecsOf(img[q])), live, o, multiset(RecsOf(img[p])) + multiset(RecsOf(img[x])));
  }

  // On a listed page before the last one that is not being freed, a twin of the last record can
  // only be the old record it replaces.
  lemma TwinOfLast(img: seq<FPage>, live: multiset<Rec>, p: nat, x: nat)
    requires Recoverable(img, live) && Unique(live) && LastPage(img, p) && x < |img| && x != p
      && !InState(img[x], FREEING)
    requires RecsOf(img[p]) != [] && NoneDoubledOn(img, live, p)
    ensures var n := RecsOf(img[p])[|RecsOf(img[p])| - 1];
      NoTwin(RecsOf(img[x]), n) || exists o :: Doubled(img, live, p, x, o) && OnlyTwin(RecsOf(img[x]), n, o)
  {
    hide RecsOf, Spare, NoneFreeing, NoneActive, Unique, Live, Rest, NoTwin, OnlyTwin, Loadable;
    var n := RecsOf(img[p])[|RecsOf(img[p])| - 1];
    if Stable(img, live) || (exists e :: 0 <= e < |img| && Freeing(img, live, e)) {
      NoTwinElsewhere(img, live, p, x, n);
    } else if e, t :| 0 <= e < |img| && 0 <= t < |img| && Copying(img, live, e, t) {
      assert t == p;
      NoTwinOfCopy(img, live, e, p, x, n);
    } else {
      var a, q, o :| 0 <= a < |img| && 0 <= q < |img| && Doubled(img, live, a, q, o);
      assert a == p;
      TwinIsOld(img, live, p, q, x, o);
    }
  }

  lemma TwinOnPage(img: seq<FPage>, live: multiset<Rec>, p: nat, o: Rec, hashOf: Id -> nat)
    requires p < |img| && Doubled(img, live, p, p, o)
    ensures !DistinctHashes(RecsOf(img[p]), hashOf)
  {
    var recs := RecsOf(img[p]);
    var front := recs[..|recs| - 1];
    var k :| 0 <= k < |front| && front[k] == o;
    assert recs[k] == o && HashOfRec(recs[k], hashOf) == HashOfRec(recs[|recs| - 1], hashOf);
  }

  // Once a page has been loaded it does not hold a record and its replacement.
  ghost predicate NoneDoubledOn(img: seq<FPage>, live: multiset<Rec>, p: nat) {
    forall o :: !Doubled(img, live, p, p, o)
  }

  lemma CombedNotDoubled(img: seq<FPage>, live: multiset<Rec>, p: nat, hashOf: Id -> nat)
    requires p < |img| && |img[p].slots| == ENTRY_COUNT && Combed(img[p], hashOf)
    ensures NoneDoubledOn(img, live, p)
  {
    hide RecsOf, DistinctHashes, HashesApart, Live;
    forall o ensures !Doubled(img, live, p, p, o) {
      if Doubled(img, live, p, p, o) {
        CombedIsDistinct(img[p], hashOf);
        TwinOnPage(img, live, p, o, hashOf);
      }
    }
  }

  // Records of other pages are live, unless one is the record replaced; so is the last one itself.
  lemma NoChunkOfLast(img: seq<FPage>, live: multiset<Rec>, p: nat, x: nat, hashOf: Id -> nat)
    requires Recoverable(img, live) && Identified(live) && LastPage(img, p) && x < |img| && x != p
      && RecsOf(img[p]) != []
    ensures NoChunkHere(RecsOf(img[x]), RecsOf(img[p])[|RecsOf(img[p])| - 1].item)
  {
    hide RecsOf, Spare, NoneFreeing, NoneActive, Unique, Live, Loadable;
    var n := RecsOf(img[p])[|RecsOf(img[p])| - 1];
    if Stable(img, live) || (exists e :: 0 <= e < |img| && Freeing(img, live, e)) {
      OnPageCounts(img, p, n);
      NoChunkAmong(img, x, n, live, multiset{});
    } else if e, t :| 0 <= e < |img| && 0 <= t < |img| && Copying(img, live, e, t) {
      assert t == p;
      var c := img[t := ErasedPage()];
      assert c[e] == img[e] && c[x] == img[x];
      OnPageCounts(c, e, n);
      NoChunkAmong(c, x, n, live, multiset{});
    } else {
      var a, q, o :| 0 <= a < |img| && 0 <= q < |img| && Doubled(img, live, a, q, o);
      assert a == p;
      NoChunkAmong(img, x, n, live, multiset{o});
    }
  }

  lemma OnPageCounts(img: seq<FPage>, p: nat, r: Rec)
    requires p < |img| && r in RecsOf(img[p])
    ensures r in Live(img)
  {
    hide RecsOf, Live, Rest;
    LiveAround(img, p);
    assert r in multiset(RecsOf(img[p]));
  }

  lemma NoChunkAmong(img: seq<FPage>, x: nat, n: Rec, live: multiset<Rec>, more: multiset<Rec>)
    requires x < |img| && Live(img) == live + more && n in live && NoStrays(live)
      && forall o :: o in more ==> Twins(n, o)
    ensures NoChunkHere(RecsOf(img[x]), n.item)
  {
    hide RecsOf, Live;
    forall r | r in RecsOf(img[x]) && ChunkOf(r, n.item) ensures n.item.typ.BLOB_DATA? || n.item.typ.BLOB_IDX? {
      OnPageCounts(img, x, r);
    }
  }

  // ---------------------------------------------------------------- once no stale record is left

  // No record waits for its replacement to take over.
  ghost predicate Settled(img: seq<FPage>, live: multiset<Rec>) {
    || Stable(img, live)
    || (exists e :: 0 <= e < |img| && Freeing(img, live, e))
    || (exists e, t :: 0 <= e < |img| && 0 <= t < |img| && Copying(img, live, e, t))
  }

  // The old record was the only thing to remove.
  lemma SettledWithoutTwins(img: seq<FPage>, live: multiset<Rec>, p: nat)
    requires Recoverable(img, live) && LastPage(img, p) && NoneDoubledOn(img, live, p)
    requires RecsOf(img[p]) != [] ==> var n := RecsOf(img[p])[|RecsOf(img[p])| - 1];
      forall x :: 0 <= x < |img| && x != p && img[x].hdr.Header? && !InState(img[x], FREEING) ==>
        NoTwin(RecsOf(img[x]), n)
    ensures Settled(img, live)
  {
    hide Recs, Spare, NoneActive, Live, Rest;
    if a, q, o :| 0 <= a < |img| && 0 <= q < |img| && Doubled(img, live, a, q, o) && a != p {
      assert false;
    }
  }

  // ---------------------------------------------------------------- the lists while pages are loaded

  ghost predicate AllLive(rams: seq<Ram>, list: seq<nat>) {
    && (forall k :: 0 <= k < |list| ==> list[k] < |rams|)
    && forall k :: 0 <= k < |list| ==> LiveState(rams[list[k]].state)
  }

  function Inserted(list: seq<nat>, pos: nat, i: nat): (r: seq<nat>)
    requires pos <= |list|
    ensures |r| == |list| + 1 && r[pos] == i
    ensures forall k :: 0 <= k < |r| && k != pos ==> r[k] == list[if k < pos then k else k - 1]
  {
    list[..pos] + [i] + list[pos..]
  }

  lemma InsertedPartition(list: seq<nat>, free: seq<nat>, i: nat, pos: nat)
    requires Partition(i, list, free) && pos <= |list|
    ensures Partition(i + 1, Inserted(list, pos, i), free)
  {
    var r := Inserted(list, pos, i);
    forall j: nat | j < i + 1 ensures j in r || j in free {
      if j == i {
        assert r[pos] == i;
      } else if j in list {
        var k :| 0 <= k < |list| && list[k] == j;
        assert r[if k < pos then k else k + 1] == j;
      }
    }
  }

  lemma InsertedAscending(rams: seq<Ram>, list: seq<nat>, i: nat, pos: nat)
    requires Ascending(rams, list) && i < |rams| && pos <= |list|
    requires forall k :: 0 <= k < pos ==> rams[list[k]].seqNo < rams[i].seqNo
    requires pos < |list| ==> rams[list[pos]].seqNo > rams[i].seqNo
    ensures Ascending(rams, Inserted(list, pos, i))
  {
  }

  lemma FreedPartition(list: seq<nat>, free: seq<nat>, i: nat)
    requires Partition(i, list, free)
    ensures Partition(i + 1, list, free + [i])
  {
    forall j: nat | j < i + 1 ensures j in list || j in free + [i] {
      if j in free {
        assert j in free + [i];
      }
    }
  }

  // ---------------------------------------------------------------- page objects before and after loading

  // A page object nothing has happened to yet.
  function NewRam(): Ram {
    Ram(INVALID, 0xffff_ffff, seq(ENTRY_COUNT, _ => EMPTY), INVALID_ENTRY, INVALID_ENTRY, 0, {}, 0)
  }

  // Items of a page in use do not share hashes.
  ghost predicate Combed(fp: FPage, hashOf: Id -> nat) {
    InState(fp, ACTIVE) ==> HashesApart(fp.slots, ENTRY_COUNT, hashOf)
  }

  // The first i pages have been loaded.
  ghost predicate LoadedTo(rams: seq<Ram>, img: seq<FPage>, i: nat, hashOf: Id -> nat) {
    && |rams| == |img| && i <= |img|
    && (forall j :: 0 <= j < |img| ==> |img[j].slots| == ENTRY_COUNT && Loadable(img[j]))
    && (forall j :: 0 <= j < i ==> RamOk(rams[j], img[j], hashOf) && Combed(img[j], hashOf))
    && (forall j :: i <= j < |img| ==> rams[j] == NewRam())
  }

  lemma LoadedMore(rams: seq<Ram>, img: seq<FPage>, rams': seq<Ram>, img': seq<FPage>, i: nat, hashOf: Id -> nat)
    requires LoadedTo(rams, img, i, hashOf) && i < |img| && OnlyAt(rams, rams', i) && OnlyPage(img, img', i)
    requires RamOk(rams'[i], img'[i], hashOf) && |img'[i].slots| == ENTRY_COUNT && Combed(img'[i], hashOf)
    ensures LoadedTo(rams', img', i + 1, hashOf)
  {
    hide RamOk, Loadable, Combed;
    RamIsLoadable(rams'[i], img'[i], hashOf);
  }

  lemma NotYetLoaded(rams: seq<Ram>, img: seq<FPage>, i: nat, hashOf: Id -> nat)
    requires LoadedTo(rams, img, i, hashOf) && i < |img|
    ensures rams[i] == NewRam() && |img[i].slots| == ENTRY_COUNT && Loadable(img[i])
  {
  }

  lemma LoadedIsCut(img: seq<FPage>, c: seq<FPage>, i: nat, r: Ram, hashOf: Id -> nat)
    requires OnlyPage(img, c, i) && c[i].hdr == img[i].hdr && |c[i].slots| == ENTRY_COUNT && RamOk(r, c[i], hashOf)
    requires c[i].hdr.Header? ==> Recs(c[i].slots) == LoadedRecsOf(img[i], hashOf)
    ensures Loadable(c[i]) && (c[i].hdr.Header? ==> LoadCut(img, c, i, hashOf))
  {
    hide RamOk, Loadable, Recs, LoadedRecs;
    RamIsLoadable(r, c[i], hashOf);
  }

  // ---------------------------------------------------------------- hashes of slots and of records

  lemma {:induction false} ApartIsDistinct(s: seq<Slot>, hi: nat, hashOf: Id -> nat)
    requires hi <= |s| <= ENTRY_COUNT && HashesApart(s, ENTRY_COUNT, hashOf)
    ensures DistinctHashes(RecsIn(s, 0, hi), hashOf)
  {
    if hi > 0 {
      ApartIsDistinct(s, hi - 1, hashOf);
      if Whole(s, hi - 1) {
        var front, x := RecsIn(s, 0, hi - 1), RecAt(s, hi - 1);
        forall r | r in front ensures HashOfRec(r, hashOf) != HashOfRec(x, hashOf) {
          var k := PlaceOfRec(s, hi - 1, r);
          assert HasHash(s, hi - 1, hashOf, HashOfRec(x, hashOf)) && HasHash(s, k, hashOf, HashOfRec(r, hashOf));
        }
        assert RecsIn(s, 0, hi) == front + [x];
        assert forall i :: 0 <= i < |front| ==> front[i] in front;
      }
    }
  }

  lemma DistinctIsApart(s: seq<Slot>, nf: nat, hashOf: Id -> nat)
    requires Quiet(s, nf) && DistinctHashes(Recs(s), hashOf)
    ensures HashesApart(s, ENTRY_COUNT, hashOf)
  {
    forall h: nat, k: nat, hash: nat | h < k < ENTRY_COUNT && HasHash(s, k, hashOf, hash)
      ensures !HasHash(s, h, hashOf, hash) {
      if HasHash(s, h, hashOf, hash) {
        TwoPlaces(s, h, k);
      }
    }
  }

  lemma TwoPlaces(s: seq<Slot>, h: nat, k: nat)
    requires h < k < |s| && Whole(s, h) && Whole(s, k)
    ensures exists i, j :: 0 <= i < j < |Recs(s)| && Recs(s)[i] == RecAt(s, h) && Recs(s)[j] == RecAt(s, k)
  {
    hide RecsIn, Whole;
    RecsAround(s, k);
    RecsApart(s, h, k);
    var a, b, c := RecsIn(s, 0, h), RecsIn(s, h + 1, k), RecsIn(s, k + 1, |s|);
    assert Recs(s) == a + [RecAt(s, h)] + b + [RecAt(s, k)] + c;
    assert Recs(s)[|a|] == RecAt(s, h) && Recs(s)[|a| + 1 + |b|] == RecAt(s, k);
  }

  // ---------------------------------------------------------------- sorting pages into the lists

  // The first n pages are in the lists. Free pages are in sector order.
  ghost predicate Placed(rams: seq<Ram>, list: seq<nat>, free: seq<nat>, n: nat) {
    && Partition(n, list, free) && Ascending(rams, list) && AllFree(rams, free) && AllLive(rams, list)
    && (list == [] ==> |free| == n && forall k :: 0 <= k < n ==> free[k] == k) && Rising(free)
  }

  ghost predicate Rising(free: seq<nat>) {
    forall j, k :: 0 <= j < k < |free| ==> free[j] < free[k]
  }

  lemma PlacedMeans(rams: seq<Ram>, list: seq<nat>, free: seq<nat>, n: nat)
    requires Placed(rams, list, free, n)
    ensures Partition(n, list, free) && Ascending(rams, list) && AllFree(rams, free) && AllLive(rams, list)
  {
  }

  lemma PlacedFree(rams: seq<Ram>, list: seq<nat>, free: seq<nat>, i: nat)
    requires Placed(rams, list, free, i) && i < |rams| && FreeState(rams[i].state)
    ensures Placed(rams, list, free + [i], i + 1)
  {
    hide Ascending;
    FreedPartition(list, free, i);
  }

  lemma PlacedListed(rams: seq<Ram>, list: seq<nat>, free: seq<nat>, i: nat, pos: nat)
    requires Placed(rams, list, free, i) && i < |rams| && LiveState(rams[i].state) && pos <= |list|
    requires forall k :: 0 <= k < |list| ==> list[k] < |rams|
    requires forall k :: 0 <= k < pos ==> rams[list[k]].seqNo < rams[i].seqNo
    requires pos < |list| ==> rams[list[pos]].seqNo > rams[i].seqNo
    ensures Placed(rams, Inserted(list, pos, i), free, i + 1)
  {
    hide Partition, Ascending;
    InsertedPartition(list, free, i, pos);
    InsertedAscending(rams, list, i, pos);
  }

  lemma NonePlaced(rams: seq<Ram>)
    ensures Placed(rams, [], [], 0)
  {
  }

  lemma PlacedStill(rams: seq<Ram>, rams': seq<Ram>, list: seq<nat>, free: seq<nat>, i: nat)
    requires Placed(rams, list, free, i) && OnlyAt(rams, rams', i)
    ensures Placed(rams', list, free, i)
  {
  }

  ghost predicate AllClean(img: seq<FPage>, hashOf: Id -> nat) {
    forall p :: 0 <= p < |img| && img[p].hdr.Header? ==> Clean(img[p], hashOf)
  }

  // The images that losing power while page i is loaded can leave.
  lemma CutsOfPage(img0: seq<FPage>, img: seq<FPage>, cuts: iset<seq<FPage>>, cuts0: iset<seq<FPage>>, i: nat,
                   live: multiset<Rec>, hashOf: Id -> nat)
    requires Recoverable(img, live) && Identified(live) && (ChunksApart(img0) ==> ChunksApart(img)) && i < |img|
    requires InState(img[i], ACTIVE) ==> PageKept(img, i, hashOf)
    requires forall d :: d in cuts && d !in cuts0 ==> LoadCut(img, d, i, hashOf)
    ensures forall d :: d in cuts && d !in cuts0 ==> Safe(img0, d, live)
  {
    hide Recoverable, Identified, ChunksApart, LoadCut, PageKept;
    forall d: seq<FPage> | d in cuts && d !in cuts0 ensures Safe(img0, d, live) {
      LoadKeeps(img, d, i, live, hashOf);
    }
  }

  // Where loading stands when it has come to page i: the page in use is still to be loaded, and
  // everything is as it was; or it has been loaded, and everything has been kept exactly if that
  // page came through.
  ghost predicate Halfway(img0: seq<FPage>, img: seq<FPage>, i: nat, live: multiset<Rec>, kept: multiset<Rec>,
                          hashOf: Id -> nat) {
    && |img| == |img0| && i <= |img| && Recoverable(img, kept) && Identified(live) && kept <= live
    && (forall p :: 0 <= p < |img| ==> img[p].hdr == img0[p].hdr) && (forall p :: i <= p < |img| ==> img[p] == img0[p])
    && (ActiveBelow(img0, i) ==> (kept == live <==> Kept(img0, hashOf)) && LeftBy(img0, live, kept, hashOf))
    && (!ActiveBelow(img0, i) ==> kept == live)
    && (ChunksApart(img0) && Kept(img0, hashOf) ==> ChunksApart(img))
  }

  ghost predicate ActiveBelow(img: seq<FPage>, i: nat) {
    exists p :: 0 <= p < i && p < |img| && InState(img[p], ACTIVE)
  }

  lemma OneActive(img: seq<FPage>, p: nat, q: nat)
    requires Sound(img) && p < |img| && q < |img| && InState(img[p], ACTIVE) && InState(img[q], ACTIVE)
    ensures p == q
  {
    hide Loadable;
  }

  lemma OnlyActive(img: seq<FPage>, p: nat, hashOf: Id -> nat)
    requires Sound(img) && p < |img| && InState(img[p], ACTIVE)
    ensures Kept(img, hashOf) <==> PageKept(img, p, hashOf)
  {
    hide PageKept, Sound;
    forall q | 0 <= q < |img| && InState(img[q], ACTIVE) ensures q == p {
      OneActive(img, p, q);
    }
  }

  lemma SamePageKept(img0: seq<FPage>, img: seq<FPage>, i: nat, hashOf: Id -> nat)
    requires |img| == |img0| && i < |img| && img[i] == img0[i]
      && forall p :: 0 <= p < |img| ==> img[p].hdr == img0[p].hdr
    ensures PageKept(img, i, hashOf) <==> PageKept(img0, i, hashOf)
  {
    hide KeptRecs, RecsOf, EndsInItem;
    if e :| 0 <= e < |img| && InState(img[e], FREEING) {
      assert InState(img0[e], FREEING);
    }
    if e :| 0 <= e < |img| && InState(img0[e], FREEING) {
      assert InState(img[e], FREEING);
    }
  }

  // One more page has been loaded.
  lemma PageLoaded(img0: seq<FPage>, img: seq<FPage>, c: seq<FPage>, cuts: iset<seq<FPage>>, cuts0: iset<seq<FPage>>,
                   i: nat, live: multiset<Rec>, kept: multiset<Rec>, hashOf: Id -> nat) returns (now: multiset<Rec>)
    requires Halfway(img0, img, i, live, kept, hashOf) && i < |img| && Sound(img0)
    requires OnlyPage(img, c, i) && c[i].hdr == img[i].hdr && Loadable(c[i])
    requires if c[i].hdr.Header? then RecsOf(c[i]) == LoadedRecsOf(img[i], hashOf) && LoadCut(img, c, i, hashOf)
      else c == img
    requires forall d :: d in cuts && d !in cuts0 ==> LoadCut(img, d, i, hashOf)
    ensures Halfway(img0, c, i + 1, live, now, hashOf)
    ensures Kept(img0, hashOf) ==> forall d :: d in cuts && d !in cuts0 ==> Safe(img0, d, live)
  {
    hide Recoverable, Identified, ChunksApart, LoadCut, PageKept, RecsOf, LoadedRecs, Loadable, EndsInItem, Sound, Kept,
      Safe, LeftOf, LeftBy;
    IdentifiedWithin(live, kept);
    SamePageKept(img0, img, i, hashOf);
    if InState(img[i], ACTIVE) {
      OnlyActive(img0, i, hashOf);
      NotBelow(img0, i);
      now := ActiveLoaded(img, c, i, kept, hashOf);
      LeftByPage(img0, img, i, live, now, hashOf);
      assert ActiveBelow(img0, i + 1);
    } else {
      now := kept;
      assert ActiveBelow(img0, i + 1) <==> ActiveBelow(img0, i);
    }
    if Kept(img0, hashOf) && (InState(img[i], ACTIVE) ==> PageKept(img, i, hashOf)) {
      CutsOfPage(img0, img, cuts, cuts0, i, kept, hashOf);
    }
    if c != img && (InState(img[i], ACTIVE) ==> PageKept(img, i, hashOf)) {
      LoadKeeps(img, c, i, kept, hashOf);
    }
  }

  lemma LeftByPage(img0: seq<FPage>, img: seq<FPage>, i: nat, live: multiset<Rec>, kept: multiset<Rec>,
                   hashOf: Id -> nat)
    requires Sound(img0) && |img| == |img0| && i < |img| && img[i] == img0[i]
      && (forall p :: 0 <= p < |img| ==> img[p].hdr == img0[p].hdr)
    requires InState(img[i], ACTIVE) && (NoneFreeing(img) ==> kept == LeftOf(live, img[i], hashOf))
    ensures LeftBy(img0, live, kept, hashOf)
  {
    hide Sound, LeftOf;
    if NoneFreeing(img0) {
      forall p | 0 <= p < |img0| && InState(img0[p], ACTIVE) ensures p == i {
        OneActive(img0, p, i);
      }
    }
  }

  lemma HalfwaySound(img0: seq<FPage>, img: seq<FPage>, i: nat, live: multiset<Rec>, kept: multiset<Rec>,
                     hashOf: Id -> nat)
    requires Halfway(img0, img, i, live, kept, hashOf)
    ensures Recoverable(img, kept) && Identified(kept)
  {
    IdentifiedWithin(live, kept);
  }

  lemma NotBelow(img: seq<FPage>, i: nat)
    requires Sound(img) && i < |img| && InState(img[i], ACTIVE)
    ensures !ActiveBelow(img, i)
  {
    hide Sound;
    if p :| 0 <= p < i && InState(img[p], ACTIVE) {
      OneActive(img, i, p);
    }
  }

  lemma SequencesDiffer(rams: seq<Ram>, img: seq<FPage>, list: seq<nat>, free: seq<nat>, i: nat, live: multiset<Rec>,
                        hashOf: Id -> nat)
    requires LoadedTo(rams, img, i + 1, hashOf) && Placed(rams, list, free, i) && Recoverable(img, live)
    ensures i < |rams| && (LiveState(rams[i].state) || FreeState(rams[i].state))
    ensures (forall k :: 0 <= k < |list| ==> list[k] < |rams|)
    ensures LiveState(rams[i].state) ==> forall k :: 0 <= k < |list| ==> rams[list[k]].seqNo != rams[i].seqNo
  {
    hide RamOk, Recoverable, Loadable, Combed;
    RecoverableIsSound(img, live);
    StateOf(rams[i], img[i], hashOf);
    forall k: nat | k < |list| && LiveState(rams[i].state) ensures rams[list[k]].seqNo != rams[i].seqNo {
      RamIsLoadable(rams[list[k]], img[list[k]], hashOf);
      RamIsLoadable(rams[i], img[i], hashOf);
    }
  }

  lemma StateOf(r: Ram, fp: FPage, hashOf: Id -> nat)
    requires RamOk(r, fp, hashOf)
    ensures LiveState(r.state) || FreeState(r.state)
  {
  }

  // ---------------------------------------------------------------- the last item

  const ANY_ITEM := Query(NS_ANY, ANY, None, CHUNK_ANY, VER_ANY)

  // A search for anything finds the next item.
  lemma {:induction false} NextItemFound(s: seq<Slot>, from: nat, hashOf: Id -> nat)
    ensures match FindVia(s, ANY_ITEM, hashOf, from)
      case Nothing => forall k: nat :: from <= k < |s| ==> !IsHead(s[k])
      case Hit(h) => from <= h < |s| && IsHead(s[h]) && forall k: nat :: from <= k < h ==> !IsHead(s[k])
      case WrongType(_) => false
  {
    FindMeans(s, ANY_ITEM, from);
    assert forall k: nat :: k < |s| && IsHead(s[k]) ==> Judge(s[k].body.item, ANY_ITEM).Take?;
  }

  // The last of the items before entry `end`, if there is any.
  ghost predicate LastBefore(s: seq<Slot>, end: nat, last: Option<nat>) {
    match last
    case None => forall k: nat :: k < end && k < |s| ==> !IsHead(s[k])
    case Some(a) =>
      && a < |s| && IsHead(s[a]) && a + SpanAt(s, a) == end
      && forall k: nat :: a < k < end && k < |s| ==> !IsHead(s[k])
  }

  lemma LastOfAll(s: seq<Slot>, nf: nat, end: nat, last: Option<nat>)
    requires Quiet(s, nf) && LastBefore(s, end, last) && forall k: nat :: end <= k < |s| ==> !IsHead(s[k])
    ensures last.None? <==> Recs(s) == []
    ensures last.Some? ==>
      last.value < |s| && IsHead(s[last.value]) && Recs(s)[|Recs(s)| - 1].item == s[last.value].body.item
    ensures last.Some? ==> WritableId(s[last.value].body.item)
  {
    match last
    case None =>
      RecsNone(s, 0, |s|);
    case Some(a) =>
      assert HeadFits(s, a, nf);
      LastRec(s, a);
  }

  // ---------------------------------------------------------------- after all pages have been loaded

  // All pages are loaded and listed; the records are recoverable.
  ghost predicate Surveyed(rams: seq<Ram>, img: seq<FPage>, list: seq<nat>, free: seq<nat>, live: multiset<Rec>,
                           hashOf: Id -> nat) {
    && RamsOk(rams, img, hashOf) && Placed(rams, list, free, |img|)
    && (forall j :: 0 <= j < |img| ==> Combed(img[j], hashOf))
    && Recoverable(img, live) && Identified(live)
  }

  lemma LastListed(rams: seq<Ram>, img: seq<FPage>, list: seq<nat>, free: seq<nat>, live: multiset<Rec>,
                   hashOf: Id -> nat)
    requires Surveyed(rams, img, list, free, live, hashOf) && list != []
    ensures list[|list| - 1] < |rams| == |img| && LastPage(img, list[|list| - 1])
    ensures LiveState(rams[list[|list| - 1]].state) && NoneDoubledOn(img, live, list[|list| - 1])
  {
    hide RamOk, Loadable, Recoverable, Identified, ChunksApart, RecsOf, Combed, NoneDoubledOn;
    var p := list[|list| - 1];
    HeadersAre(rams, img, hashOf);
    forall q: nat | q < |img| && img[q].hdr.Header? ensures img[q].hdr.seqNo <= img[p].hdr.seqNo {
      var k := Place(rams, list, free, q);
    }
    CombedNotDoubled(img, live, p, hashOf);
  }

  lemma CombedIsDistinct(fp: FPage, hashOf: Id -> nat)
    requires InState(fp, ACTIVE) && Combed(fp, hashOf) && |fp.slots| == ENTRY_COUNT
    ensures DistinctHashes(RecsOf(fp), hashOf)
  {
    ApartIsDistinct(fp.slots, |fp.slots|, hashOf);
  }

  lemma SettledNotDoubled(img: seq<FPage>, live: multiset<Rec>, p: nat, q: nat, o: Rec)
    requires Settled(img, live)
    ensures !Doubled(img, live, p, q, o)
  {
    hide RecsOf, Rest, Live, Sound, Spare;
    if Live(img) == live + multiset{o} {
      assert (live + multiset{o})[o] == live[o] + 1;
    }
  }

  predicate EndsIn(recs: seq<Rec>, it: Item) {
    recs != [] && recs[|recs| - 1].item == it
  }

  // What the duplicate check does on one page: nothing, or it removes the old record.
  lemma TwinSearch(rams: seq<Ram>, img: seq<FPage>, list: seq<nat>, free: seq<nat>, live: multiset<Rec>,
                   hashOf: Id -> nat, x: nat, it: Item)
    requires Surveyed(rams, img, list, free, live, hashOf) && list != []
    requires list[|list| - 1] < |img| && x < |img| && x != list[|list| - 1] && img[x].hdr.Header?
      && !InState(img[x], FREEING)
    requires EndsIn(RecsOf(img[list[|list| - 1]]), it) && WritableId(it)
    ensures x < |rams|
    ensures var p := list[|list| - 1]; var n := RecsOf(img[p])[|RecsOf(img[p])| - 1];
      var f := FindVia(img[x].slots, StaleQuery(it), hashOf, 0);
      if f.Hit? then f.index < ENTRY_COUNT && Whole(img[x].slots, f.index)
        && Doubled(img, live, p, x, RecAt(img[x].slots, f.index))
      else NoTwin(RecsOf(img[x]), n)
  {
    hide RamOk, Loadable, Recoverable, Identified, ChunksApart, FindVia, Doubled, NoTwin, OnlyTwin, Quiet, Recs,
      WritableId, NoneDoubledOn, NoChunkHere;
    var p := list[|list| - 1];
    var n := RecsOf(img[p])[|RecsOf(img[p])| - 1];
    LastListed(rams, img, list, free, live, hashOf);
    RamIsLoadable(rams[x], img[x], hashOf);
    NoChunkOfLast(img, live, p, x, hashOf);
    IdentifiedIsUnique(live);
    TwinOfLast(img, live, p, x);
    if NoTwin(RecsOf(img[x]), n) {
      TwinFree(img[x], rams[x].top, n, hashOf);
    } else {
      var o :| Doubled(img, live, p, x, o) && OnlyTwin(RecsOf(img[x]), n, o);
      var k := TwinFound(img, live, rams[x].top, p, x, o, hashOf);
    }
  }

  lemma TwinFree(fp: FPage, nf: nat, n: Rec, hashOf: Id -> nat)
    requires fp.hdr.Header? && Quiet(fp.slots, nf) && WritableId(n.item) && NoTwin(RecsOf(fp), n)
      && NoChunkHere(RecsOf(fp), n.item)
    ensures FindVia(fp.slots, StaleQuery(n.item), hashOf, 0) == Nothing
  {
    hide Quiet, Recs, FindVia, WritableId, NoChunkHere;
    SearchNothing(fp.slots, nf, hashOf, n.item);
  }

  lemma TwinFound(img: seq<FPage>, live: multiset<Rec>, nf: nat, p: nat, x: nat, o: Rec, hashOf: Id -> nat)
    returns (k: nat)
    requires p < |img| && x < |img| && Doubled(img, live, p, x, o) && Quiet(img[x].slots, nf)
      && |img[x].slots| == ENTRY_COUNT
    requires var n := RecsOf(img[p])[|RecsOf(img[p])| - 1];
      OnlyTwin(RecsOf(img[x]), n, o) && WritableId(n.item) && NoChunkHere(RecsOf(img[x]), n.item)
    ensures var n := RecsOf(img[p])[|RecsOf(img[p])| - 1];
      k < ENTRY_COUNT && Whole(img[x].slots, k) && RecAt(img[x].slots, k) == o
        && FindVia(img[x].slots, StaleQuery(n.item), hashOf, 0) == Hit(k)
  {
    hide Quiet, Recs, FindVia, WritableId, Sound, Live, Spare, NoneFreeing, NoChunkHere;
    var n := RecsOf(img[p])[|RecsOf(img[p])| - 1];
    k := SearchOld(img[x].slots, nf, hashOf, n.item, o);
  }

  lemma QuietItem(s: seq<Slot>, nf: nat, i: nat)
    requires Quiet(s, nf) && i < |s| && IsHead(s[i])
    ensures Boundary(s, i + SpanAt(s, i)) && 1 <= SpanAt(s, i) && i + SpanAt(s, i) <= |s| == ENTRY_COUNT
    ensures forall k: nat :: i < k < i + SpanAt(s, i) && k < |s| ==> !IsHead(s[k])
  {
    HeadIsBoundary(s, nf, i);
    BoundaryAfter(s, nf, i);
    HeadReaches(s, nf, i);
  }

  // None of these records is a twin of the last of the others.
  ghost predicate NoTwinOf(recs: seq<Rec>, of: seq<Rec>) {
    of != [] && NoTwin(recs, of[|of| - 1])
  }

  // The old record is gone; the pages are listed as before.
  lemma {:induction false} TwinErased(rams: seq<Ram>, img: seq<FPage>, rams': seq<Ram>, c: seq<FPage>,
                                      cuts: iset<seq<FPage>>, cuts0: iset<seq<FPage>>, list: seq<nat>, free: seq<nat>,
                                      live: multiset<Rec>, hashOf: Id -> nat, x: nat, i: nat)
    requires Surveyed(rams, img, list, free, live, hashOf) && list != [] && x < |img| && i < ENTRY_COUNT
    requires x != list[|list| - 1] && LiveState(rams[x].state)
    requires Whole(img[x].slots, i) && Doubled(img, live, list[|list| - 1], x, RecAt(img[x].slots, i))
    requires OnlyAt(rams, rams', x) && SameFace(rams[x], rams'[x]) && RamsOk(rams', c, hashOf)
    requires ItemEraseCut(img, c, x, rams[x].top, i)
    requires Recs(c[x].slots) == RecsIn(img[x].slots, 0, i) + RecsIn(img[x].slots, i + 1, ENTRY_COUNT)
    requires forall d :: d in cuts && d !in cuts0 ==> ItemEraseCut(img, d, x, rams[x].top, i)
    ensures Surveyed(rams', c, list, free, live, hashOf) && Settled(c, live) && !Settled(img, live)
    ensures ChunksApart(img) ==> ChunksApart(c)
    ensures forall d :: d in cuts && d !in cuts0 ==> Safe(img, d, live)
  {
    hide RamOk, Placed, Identified, ChunksApart, Recs, RecsIn, Whole, EraseCut, Sound, Live, Rest, Loadable, SoundAt,
      NoneFreeing, Spare, Combed;
    var p, o := list[|list| - 1], RecAt(img[x].slots, i);
    LastListed(rams, img, list, free, live, hashOf);
    HeadersAre(rams, img, hashOf);
    HeadersAre(rams', c, hashOf);
    PageIsSound(rams[x], img[x], hashOf);
    SplitAt(img[x].slots, i);
    OldDropped(img, c, p, live, x, o, RecsIn(img[x].slots, 0, i), RecsIn(img[x].slots, i + 1, ENTRY_COUNT));
    if Settled(img, live) {
      SettledNotDoubled(img, live, p, x, o);
    }
    PlacedSame(rams, rams', list, free, x, |img|);
    CombedStill(img, c, p, x, live, o, hashOf);
    forall d: seq<FPage> | d in cuts && d !in cuts0 ensures Safe(img, d, live) {
      EraseOld(img, d, x, rams[x].top, i, p, live);
    }
  }

  lemma PageIsSound(r: Ram, fp: FPage, hashOf: Id -> nat)
    requires RamOk(r, fp, hashOf) && |fp.slots| == ENTRY_COUNT && fp.hdr.Header?
    ensures SoundAt(fp.hdr.st, fp.slots, r.top)
  {
    RamIsLoadable(r, fp, hashOf);
  }

  lemma {:induction false} SplitAt(s: seq<Slot>, i: nat)
    requires i < |s| && Whole(s, i)
    ensures Recs(s) == RecsIn(s, 0, i) + [RecAt(s, i)] + RecsIn(s, i + 1, |s|)
  {
    RecsAround(s, i);
  }

  lemma PlacedSame(rams: seq<Ram>, rams': seq<Ram>, list: seq<nat>, free: seq<nat>, x: nat, n: nat)
    requires Placed(rams, list, free, n) && OnlyAt(rams, rams', x) && SameFace(rams[x], rams'[x])
    ensures Placed(rams', list, free, n)
  {
  }

  lemma CombedStill(img: seq<FPage>, c: seq<FPage>, p: nat, x: nat, live: multiset<Rec>, o: Rec, hashOf: Id -> nat)
    requires p < |img| && x < |img| && p != x && Doubled(img, live, p, x, o) && OnlyPage(img, c, x)
      && c[x].hdr == img[x].hdr
    requires forall j :: 0 <= j < |img| ==> Combed(img[j], hashOf)
    ensures forall j :: 0 <= j < |c| ==> Combed(c[j], hashOf)
  {
    hide RecsOf, Live, Loadable, HashesApart;
    assert !InState(c[x], ACTIVE);
  }

  // The first k listed pages hold no twin of the last record.
  ghost predicate NoTwinsBefore(img: seq<FPage>, list: seq<nat>, k: nat) {
    && list != [] && k < |list| && (forall j :: 0 <= j < |list| ==> list[j] < |img|)
    && forall j :: 0 <= j < k && !InState(img[list[j]], FREEING) ==>
         NoTwinOf(RecsOf(img[list[j]]), RecsOf(img[list[|list| - 1]]))
  }

  lemma NothingStale(rams: seq<Ram>, img: seq<FPage>, list: seq<nat>, free: seq<nat>, live: multiset<Rec>,
                     hashOf: Id -> nat)
    requires Surveyed(rams, img, list, free, live, hashOf) && list != []
    requires list[|list| - 1] < |img| && RecsOf(img[list[|list| - 1]]) != [] ==> NoTwinsBefore(img, list, |list| - 1)
    ensures Settled(img, live)
  {
    hide RamOk, Loadable, Recoverable, Identified, ChunksApart, RecsOf, NoTwin, Settled, NoneDoubledOn;
    var p := list[|list| - 1];
    LastListed(rams, img, list, free, live, hashOf);
    HeadersAre(rams, img, hashOf);
    if RecsOf(img[p]) != [] {
      var n := RecsOf(img[p])[|RecsOf(img[p])| - 1];
      forall x: nat | x < |img| && x != p && img[x].hdr.Header? && !InState(img[x], FREEING)
        ensures NoTwin(RecsOf(img[x]), n) {
        var k := Place(rams, list, free, x);
        assert k < |list| - 1;
      }
    }
    SettledWithoutTwins(img, live, p);
  }

  lemma NoneBefore(img: seq<FPage>, list: seq<nat>)
    requires list != [] && forall j :: 0 <= j < |list| ==> list[j] < |img|
    ensures NoTwinsBefore(img, list, 0)
  {
  }

  lemma OneMoreBefore(img: seq<FPage>, list: seq<nat>, k: nat)
    requires NoTwinsBefore(img, list, k) && k < |list| - 1
    requires !InState(img[list[k]], FREEING) ==> NoTwinOf(RecsOf(img[list[k]]), RecsOf(img[list[|list| - 1]]))
    ensures NoTwinsBefore(img, list, k + 1)
  {
  }

  // What is known about one listed page.
  lemma ListedPage(rams: seq<Ram>, img: seq<FPage>, list: seq<nat>, free: seq<nat>, live: multiset<Rec>,
                   hashOf: Id -> nat, k: nat)
    requires Surveyed(rams, img, list, free, live, hashOf) && k < |list|
    ensures |rams| == |img| && (forall j :: 0 <= j < |list| ==> list[j] < |img|) && LiveState(rams[list[k]].state)
    ensures img[list[k]].hdr == Header(rams[list[k]].state, rams[list[k]].seqNo)
    ensures k < |list| - 1 ==> list[k] != list[|list| - 1]
    ensures RecsOf(img[list[k]]) == Recs(img[list[k]].slots)
  {
    hide RamOk, Loadable, Recoverable, Identified, ChunksApart, Recs;
    HeadersAre(rams, img, hashOf);
  }

  // The old-format check: a page without a twin has nothing of another type under the same hash.
  lemma OldFormatFree(r: Ram, fp: FPage, of: seq<Rec>, it: Item, hashOf: Id -> nat)
    requires RamOk(r, fp, hashOf) && fp.hdr.Header? && |fp.slots| == ENTRY_COUNT
    requires NoTwinOf(RecsOf(fp), of) && EndsIn(of, it) && WritableId(it) && it.typ.BLOB_IDX?
    ensures !FindVia(fp.slots, StaleQuery(it.(typ := BLOB)), hashOf, 0).Hit?
  {
    hide RamOk, Recs, FindVia, WritableId, Quiet;
    RamIsLoadable(r, fp, hashOf);
    SearchOldFormat(fp.slots, r.top, hashOf, it);
  }

  lemma OldFormatSearch(rams: seq<Ram>, img: seq<FPage>, list: seq<nat>, free: seq<nat>, live: multiset<Rec>,
                        hashOf: Id -> nat, k: nat, it: Item)
    requires k < |list| - 1 && list[k] < |img| && list[|list| - 1] < |img| && !InState(img[list[k]], FREEING)
    requires Surveyed(rams, img, list, free, live, hashOf) && NoTwinsBefore(img, list, |list| - 1)
    requires EndsIn(RecsOf(img[list[|list| - 1]]), it) && WritableId(it) && it.typ.BLOB_IDX?
    ensures !FindVia(img[list[k]].slots, StaleQuery(it.(typ := BLOB)), hashOf, 0).Hit?
  {
    hide RamOk, Recs, FindVia, WritableId, Recoverable, Identified, ChunksApart, NoTwin;
    ListedPage(rams, img, list, free, live, hashOf, k);
    RamsOkAt(rams, img, hashOf, list[k]);
    OldFormatFree(rams[list[k]], img[list[k]], RecsOf(img[list[|list| - 1]]), it, hashOf);
  }

  // ---------------------------------------------------------------- finishing an interrupted move

  // Page e is being freed, nothing has been copied, and the lists are otherwise in order.
  ghost predicate Interrupted(rams: seq<Ram>, img: seq<FPage>, list: seq<nat>, free: seq<nat>, next: nat,
                              live: multiset<Rec>, hashOf: Id -> nat, e: nat) {
    && RamsOk(rams, img, hashOf) && Partition(|img|, list, free) && Ascending(rams, list) && Below(rams, list, next)
    && AllFree(rams, free) && AllLive(rams, list) && free != []
    && e < |img| && rams[e].state.FREEING? && Freeing(img, live, e)
  }

  // Either nothing is being freed, or page e is and the last page may be a half-filled copy.
  lemma WhatIsFreed(rams: seq<Ram>, img: seq<FPage>, list: seq<nat>, free: seq<nat>, live: multiset<Rec>,
                    hashOf: Id -> nat, at: nat)
    requires Surveyed(rams, img, list, free, live, hashOf) && list != [] && Settled(img, live) && at < |list|
    requires rams[list[at]].state.FREEING?
    ensures |rams| == |img| && list[at] < |img| && list[|list| - 1] < |img|
    ensures if rams[list[|list| - 1]].state.ACTIVE?
      then Copying(img, live, list[at], list[|list| - 1]) && at < |list| - 1
      else Freeing(img, live, list[at]) && free != []
  {
    hide RamOk, Loadable, Recoverable, Identified, ChunksApart, RecsOf, Live, Rest;
    var p, e := list[|list| - 1], list[at];
    LastListed(rams, img, list, free, live, hashOf);
    HeadersAre(rams, img, hashOf);
    assert InState(img[e], FREEING);
    if f :| 0 <= f < |img| && Freeing(img, live, f) {
      assert f == e;
      assert !InState(img[p], ACTIVE);
      var q :| 0 <= q < |img| && !img[q].hdr.Header?;
      assert q in list || q in free;
    } else {
      var f, t :| 0 <= f < |img| && 0 <= t < |img| && Copying(img, live, f, t);
      assert f == e;
      assert t == p;
    }
  }

  lemma NothingIsFreed(rams: seq<Ram>, img: seq<FPage>, list: seq<nat>, free: seq<nat>, next: nat, live: multiset<Rec>,
                       hashOf: Id -> nat)
    requires Surveyed(rams, img, list, free, live, hashOf) && list != [] && Settled(img, live)
    requires Below(rams, list, next) && forall k :: 0 <= k < |list| ==> !rams[list[k]].state.FREEING?
    ensures InOrder(rams, img, list, free, next, hashOf) && Stable(img, live)
  {
    hide RamOk, Loadable, Recoverable, Identified, ChunksApart, RecsOf, Live, Rest, Combed;
    HeadersAre(rams, img, hashOf);
    forall q: nat | q < |img| && img[q].hdr.Header? ensures !img[q].hdr.st.FREEING? {
      var k := Place(rams, list, free, q);
    }
    assert Stable(img, live);
    var q :| 0 <= q < |img| && !img[q].hdr.Header?;
    assert q in list || q in free;
    forall k | 0 <= k < |list| - 1 ensures rams[list[k]].state == FULL {
      assert img[list[|list| - 1]].hdr.Header? && !InState(img[list[k]], ACTIVE);
    }
  }

  // The half-filled copy has been erased.
  lemma TargetDropped(rams: seq<Ram>, img: seq<FPage>, list: seq<nat>, free: seq<nat>, next: nat, live: multiset<Rec>,
                      hashOf: Id -> nat, at: nat, rams': seq<Ram>, img': seq<FPage>)
    requires Surveyed(rams, img, list, free, live, hashOf) && Below(rams, list, next) && at < |list| - 1
      && rams[list[at]].state.FREEING?
    requires |rams| == |img| && list[at] < |img| && list[|list| - 1] < |img|
      && Copying(img, live, list[at], list[|list| - 1])
    requires OnlyAt(rams, rams', list[|list| - 1]) && rams'[list[|list| - 1]].state.UNINITIALIZED?
      && RamsOk(rams', img', hashOf)
    requires img' == img[list[|list| - 1] := ErasedPage()]
    ensures Interrupted(rams', img', list[..|list| - 1], free + [list[|list| - 1]], next, live, hashOf, list[at])
    ensures (ChunksApart(img) ==> ChunksApart(img')) && Safe(img, img', live)
  {
    hide RamOk, Loadable, Recoverable, Identified, ChunksApart, RecsOf, Live, Rest, Combed, Copying, Freeing;
    EraseTarget(img, img', list[at], list[|list| - 1], live);
    FreeingIsSafe(img, img', live, list[at]);
    DroppedPartition(list, free, |img|);
  }

  lemma DroppedPartition(list: seq<nat>, free: seq<nat>, n: nat)
    requires Partition(n, list, free) && list != []
    ensures Partition(n, list[..|list| - 1], free + [list[|list| - 1]])
  {
    var list', free' := list[..|list| - 1], free + [list[|list| - 1]];
    forall i: nat | i < n ensures i in list' || i in free' {
      if i in list {
        var k :| 0 <= k < |list| && list[k] == i;
        assert k < |list| - 1 ==> list'[k] == i;
        assert free'[|free|] == list[|list| - 1];
      } else {
        var k :| 0 <= k < |free| && free[k] == i;
        assert free'[k] == i;
      }
    }
  }

  // Without a copy to drop the lists are in order right away.
  lemma NoTargetToDrop(rams: seq<Ram>, img: seq<FPage>, list: seq<nat>, free: seq<nat>, next: nat, live: multiset<Rec>,
                       hashOf: Id -> nat, e: nat)
    requires Surveyed(rams, img, list, free, live, hashOf) && Below(rams, list, next) && e < |rams|
      && rams[e].state.FREEING?
    requires Freeing(img, live, e) && free != []
    ensures Interrupted(rams, img, list, free, next, live, hashOf, e)
  {
    hide RamOk, Recoverable, Identified, ChunksApart, Combed, Partition, Ascending;
    RamsOkLengths(rams, img, hashOf);
  }

  // What the next steps of recovery rely on.
  lemma BeforeRecovery(rams: seq<Ram>, img: seq<FPage>, list: seq<nat>, free: seq<nat>, next: nat, live: multiset<Rec>,
                       hashOf: Id -> nat, e: nat)
    requires Interrupted(rams, img, list, free, next, live, hashOf, e)
    ensures |rams| == |img| && free[0] < |img| && free[0] != e && FreeState(rams[free[0]].state)
      && !img[free[0]].hdr.Header?
    ensures forall q :: 0 <= q < |img| && img[q].hdr.Header? ==> img[q].hdr.seqNo < next
    ensures e in list && Partition(|rams|, list, free) && AllFree(rams, free)
    ensures e < |img| && rams[e].state.FREEING? && Freeing(img, live, e)
  {
    hide RamOk, Loadable, RecsOf, Live;
    HeadersAre(rams, img, hashOf);
    forall q: nat | q < |img| && img[q].hdr.Header? ensures img[q].hdr.seqNo < next {
      var k := Place(rams, list, free, q);
    }
    var k := Place(rams, list, free, e);
  }

  // The interrupted move has been done over.
  lemma RecoveredInOrder(rams: seq<Ram>, img: seq<FPage>, list: seq<nat>, free: seq<nat>, next: nat,
                         live: multiset<Rec>, hashOf: Id -> nat, at: nat, rams': seq<Ram>, img': seq<FPage>)
    requires at < |list| && Interrupted(rams, img, list, free, next, live, hashOf, list[at])
    requires Elsewhere(rams, img, rams', img', list[at], free[0]) && RamsOk(rams', img', hashOf)
    requires rams'[list[at]].state.UNINITIALIZED? && rams'[free[0]].seqNo == next
    requires rams'[free[0]].state.UNINITIALIZED? || rams'[free[0]].state.ACTIVE?
    ensures InOrder(rams', img', Collected(list, at, free[0]), free[1..] + [list[at]], next + 1, hashOf)
  {
    hide RamOk, RamsOk, Loadable, RecsOf, Live, Partition, Ascending, Below, AllFree, AllLive, States, Freeing;
    RamsOkLengths(rams, img, hashOf);
    RamsOkLengths(rams', img', hashOf);
    RecoveredPartition(list, free, |img|, at);
    RecoveredStates(rams, img, list, free, live, hashOf, at, rams', img');
    RecoveredAscending(rams, rams', img, img', list, free, at, next);
    RecoveredFree(rams, rams', img, img', list, free, at);
  }

  lemma RecoveredPartition(list: seq<nat>, free: seq<nat>, n: nat, at: nat)
    requires Partition(n, list, free) && free != [] && at < |list|
    ensures Partition(n, Collected(list, at, free[0]), free[1..] + [list[at]])
  {
    var list', free' := Collected(list, at, free[0]), free[1..] + [list[at]];
    forall i: nat | i < n ensures i in list' || i in free' {
      if i in list {
        var k :| 0 <= k < |list| && list[k] == i;
        assert k != at ==> list'[if k < at then k else k - 1] == i;
        assert free'[|free| - 1] == list[at];
      } else {
        var k :| 0 <= k < |free| && free[k] == i;
        assert k > 0 ==> free'[k - 1] == i;
        assert list'[|list| - 1] == free[0];
      }
    }
  }

  lemma RecoveredAscending(rams: seq<Ram>, rams': seq<Ram>, img: seq<FPage>, img': seq<FPage>, list: seq<nat>,
                           free: seq<nat>, at: nat, next: nat)
    requires Ascending(rams, list) && Below(rams, list, next) && Partition(|rams|, list, free) && free != []
      && at < |list|
    requires Elsewhere(rams, img, rams', img', list[at], free[0]) && rams'[free[0]].seqNo == next
    ensures Ascending(rams', Collected(list, at, free[0])) && Below(rams', Collected(list, at, free[0]), next + 1)
  {
  }

  lemma RecoveredFree(rams: seq<Ram>, rams': seq<Ram>, img: seq<FPage>, img': seq<FPage>, list: seq<nat>,
                      free: seq<nat>, at: nat)
    requires AllFree(rams, free) && Partition(|rams|, list, free) && free != [] && at < |list|
    requires Elsewhere(rams, img, rams', img', list[at], free[0]) && rams'[list[at]].state.UNINITIALIZED?
    ensures AllFree(rams', free[1..] + [list[at]])
  {
  }

  lemma RecoveredStates(rams: seq<Ram>, img: seq<FPage>, list: seq<nat>, free: seq<nat>, live: multiset<Rec>,
                        hashOf: Id -> nat, at: nat, rams': seq<Ram>, img': seq<FPage>)
    requires RamsOk(rams, img, hashOf) && AllLive(rams, list) && Partition(|img|, list, free) && at < |list|
      && free != []
    requires rams[list[at]].state.FREEING? && Freeing(img, live, list[at])
    requires Elsewhere(rams, img, rams', img', list[at], free[0])
    requires rams'[free[0]].state.UNINITIALIZED? || rams'[free[0]].state.ACTIVE?
    ensures States(rams', Collected(list, at, free[0]))
  {
    hide RamOk, Loadable, RecsOf, Live;
    HeadersAre(rams, img, hashOf);
    forall k | 0 <= k < |list| && k != at ensures rams[list[k]].state.FULL? {
      assert !InState(img[list[k]], ACTIVE) && !InState(img[list[k]], FREEING);
    }
  }

  lemma ListedRange(rams: seq<Ram>, img: seq<FPage>, list: seq<nat>, free: seq<nat>, live: multiset<Rec>,
                    hashOf: Id -> nat)
    requires Surveyed(rams, img, list, free, live, hashOf)
    ensures |rams| == |img| && forall k :: 0 <= k < |list| ==> list[k] < |rams|
  {
    RamsOkLengths(rams, img, hashOf);
  }

  lemma ClearedBelow(img: seq<FPage>, c: seq<FPage>, p: nat, n: nat)
    requires p < |img| && (c == img || c == img[p := ErasedPage()])
    requires forall q :: 0 <= q < |img| && img[q].hdr.Header? ==> img[q].hdr.seqNo < n
    ensures forall q :: 0 <= q < |c| && c[q].hdr.Header? ==> c[q].hdr.seqNo < n
  {
  }

  lemma RecoveringHasReserve(rams: seq<Ram>, img: seq<FPage>, list: seq<nat>, free: seq<nat>, next: nat,
                             live: multiset<Rec>, hashOf: Id -> nat, e: nat)
    requires Interrupted(rams, img, list, free, next, live, hashOf, e)
    ensures free != []
  {
  }

  // The interrupted move has been made again.
  lemma Recovered(rams: seq<Ram>, img: seq<FPage>, list: seq<nat>, free: seq<nat>, next: nat, live: multiset<Rec>,
                  hashOf: Id -> nat, at: nat, rams1: seq<Ram>, mid: seq<FPage>, rams': seq<Ram>, img': seq<FPage>)
    requires at < |list| && free != [] && Interrupted(rams, img, list, free, next, live, hashOf, list[at])
      && ZeroFirst(img, free)
    requires Elsewhere(rams, img, rams1, mid, list[at], free[0])
      && Elsewhere(rams1, mid, rams', img', list[at], free[0]) && RamsOk(rams', img', hashOf)
    requires list[at] < |rams'| && rams'[list[at]].state.UNINITIALIZED? && free[0] < |rams'|
      && rams'[free[0]].seqNo == next
    requires rams'[free[0]].state.UNINITIALIZED? || rams'[free[0]].state.ACTIVE?
    ensures InOrder(rams', img', Collected(list, at, free[0]), free[1..] + [list[at]], next + 1, hashOf)
    ensures Started(img')
  {
    hide Interrupted, ZeroFirst, RamsOk, Elsewhere, Partition, Ascending, Below, AllFree, States;
    ElsewhereTwice(rams, img, rams1, mid, rams', img', list[at], free[0]);
    BeforeRecovery(rams, img, list, free, next, live, hashOf, list[at]);
    ElsewhereLengths(rams, img, rams', img', list[at], free[0]);
    RecoveredInOrder(rams, img, list, free, next, live, hashOf, at, rams', img');
    RecoveredStarted(rams, img, list, free, next, live, hashOf, list[at], rams', img');
  }

  lemma ElsewhereLengths(was: seq<Ram>, img: seq<FPage>, now: seq<Ram>, c: seq<FPage>, e: nat, p: nat)
    requires Elsewhere(was, img, now, c, e, p)
    ensures |now| == |was| && |c| == |img|
  {
  }

  lemma SafeTwice(img: seq<FPage>, mid: seq<FPage>, cuts: iset<seq<FPage>>, cuts0: iset<seq<FPage>>,
                  live: multiset<Rec>)
    requires (ChunksApart(img) ==> ChunksApart(mid)) && forall c :: c in cuts && c !in cuts0 ==> Safe(mid, c, live)
    ensures forall c :: c in cuts && c !in cuts0 ==> Safe(img, c, live)
  {
  }

  // ---------------------------------------------------------------- the whole of loading

  lemma AllLoaded(rams: seq<Ram>, img: seq<FPage>, list: seq<nat>, free: seq<nat>, img0: seq<FPage>,
                  live: multiset<Rec>, kept: multiset<Rec>, hashOf: Id -> nat)
    requires LoadedTo(rams, img, |img|, hashOf) && Placed(rams, list, free, |img|)
    requires Halfway(img0, img, |img|, live, kept, hashOf)
    ensures Surveyed(rams, img, list, free, kept, hashOf) && RamsOk(rams, img, hashOf)
    ensures kept <= live && (kept == live <==> Kept(img0, hashOf)) && LeftBy(img0, live, kept, hashOf)
    ensures Kept(img0, hashOf) && ChunksApart(img0) ==> ChunksApart(img)
  {
    hide RamOk, Loadable, Recoverable, Identified, ChunksApart, Combed, Placed, PageKept, LeftOf;
    HalfwaySound(img0, img, |img|, live, kept, hashOf);
    if !ActiveBelow(img0, |img|) {
      assert Kept(img0, hashOf);
    }
  }

  // Erasing the freed page leaves a page with records, or the first page erased.
  lemma RecoveredStarted(rams: seq<Ram>, img: seq<FPage>, list: seq<nat>, free: seq<nat>, next: nat,
                         live: multiset<Rec>, hashOf: Id -> nat, e: nat, rams': seq<Ram>, img': seq<FPage>)
    requires Interrupted(rams, img, list, free, next, live, hashOf, e) && ZeroFirst(img, free)
    requires free[0] < |rams| && Elsewhere(rams, img, rams', img', e, free[0]) && RamsOk(rams', img', hashOf)
    requires e < |rams'| && rams'[e].state.UNINITIALIZED?
    requires rams'[free[0]].state.UNINITIALIZED? || rams'[free[0]].state.ACTIVE?
    ensures Started(img')
  {
    hide RamOk, Loadable, RecsOf, Live, Freeing;
    HeadersAre(rams, img, hashOf);
    HeadersAre(rams', img', hashOf);
    ReservedIsErased(rams', img', hashOf, e);
    if rams'[free[0]].state.UNINITIALIZED? {
      ReservedIsErased(rams', img', hashOf, free[0]);
    } else {
      assert img'[free[0]].hdr.Header?;
    }
    assert 0 in list || 0 in free;
    if 0 in list {
      var k :| 0 <= k < |list| && list[k] == 0;
      assert 0 != e ==> img'[0] == img[0] && img[0].hdr.Header?;
    }
  }

  lemma ValidIsRested(rams: seq<Ram>, img: seq<FPage>, list: seq<nat>, free: seq<nat>, next: nat, hashOf: Id -> nat)
    requires InOrder(rams, img, list, free, next, hashOf) && Started(img)
    ensures Rested(img) && Stable(img, Live(img))
  {
    hide RamOk, Live, Started;
    StartedIsRested(rams, img, hashOf);
    InOrderIsStable(rams, img, list, free, next, hashOf);
  }

  // No page has records: the first one becomes the current page.
  lemma EmptyStore(rams: seq<Ram>, img: seq<FPage>, free: seq<nat>, live: multiset<Rec>, hashOf: Id -> nat)
    requires Surveyed(rams, img, [], free, live, hashOf)
    ensures |rams| == |img| >= 2 && |free| == |img| && free[0] == 0 && AllFree(rams, free) && Partition(|img|, [], free)
    ensures Stable(img, live) && (forall q :: 0 <= q < |img| ==> !img[q].hdr.Header?) && FreeState(rams[0].state)
  {
    hide RamOk, Loadable, Identified, ChunksApart, Combed, RecsOf, Live, Rest;
    HeadersAre(rams, img, hashOf);
    forall q: nat | q < |img| ensures !img[q].hdr.Header? {
      assert free[q] == q;
    }
  }

  lemma StartedInOrder(rams: seq<Ram>, img: seq<FPage>, free: seq<nat>, hashOf: Id -> nat, rams': seq<Ram>,
                       img': seq<FPage>)
    requires |rams| == |img| >= 2 && |free| == |img| && free[0] == 0 && AllFree(rams, free)
      && Partition(|img|, [], free)
    requires OnlyAt(rams, rams', 0) && rams'[0].state.UNINITIALIZED? && rams'[0].seqNo == 0
      && RamsOk(rams', img', hashOf)
    ensures InOrder(rams', img', [0], free[1..], 1, hashOf)
  {
    hide RamOk;
    forall i: nat | i < |img| ensures i in [0] || i in free[1..] {
      assert i in free;
      var k :| 0 <= k < |free| && free[k] == i;
      assert k > 0 ==> free[1..][k - 1] == i;
    }
  }

  lemma NextSequence(rams: seq<Ram>, list: seq<nat>)
    requires Ascending(rams, list) && list != []
    ensures Below(rams, list, rams[list[|list| - 1]].seqNo + 1)
  {
  }

  lemma FacesKeep(rams: seq<Ram>, rams': seq<Ram>, list: seq<nat>, next: nat)
    requires SameFaces(rams, rams') && Below(rams, list, next)
    ensures Below(rams', list, next)
  {
  }

  // ---------------------------------------------------------------- when loading has nothing to do

  // Every page with records is as an operation leaves it, and there is such a page, or else the
  // first page is erased.
  ghost predicate Rested(img: seq<FPage>) {
    && (forall p :: 0 <= p < |img| && img[p].hdr.Header? ==> exists nf: nat :: Quiet(img[p].slots, nf))
    && Started(img)
  }

  lemma RestedIsClean(img: seq<FPage>, live: multiset<Rec>, hashOf: Id -> nat)
    requires Rested(img) && Stable(img, live) && Identified(live) && Kept(img, hashOf)
    ensures AllClean(img, hashOf)
  {
    hide Recs, Quiet, Loadable, Live, Rest, Unique, DistinctHashes, HashesApart, EndsInItem, TwinPlace, WithoutTwin,
      ChunkShadowed;
    forall p | 0 <= p < |img| && img[p].hdr.Header? ensures Clean(img[p], hashOf) {
      LiveAround(img, p);
      NoTwinHere(RecsOf(img[p]), live);
      var nf: nat :| Quiet(img[p].slots, nf);
      if InState(img[p], ACTIVE) {
        assert PageKept(img, p, hashOf);
        DistinctIsApart(img[p].slots, nf, hashOf);
      }
    }
  }

  // A page with records remains, or else the first page is erased.
  ghost predicate Started(img: seq<FPage>) {
    img != [] && ((exists p :: 0 <= p < |img| && img[p].hdr.Header?) || img[0] == ErasedPage())
  }

  lemma StartedIsRested(rams: seq<Ram>, img: seq<FPage>, hashOf: Id -> nat)
    requires RamsOk(rams, img, hashOf) && Started(img)
    ensures Rested(img)
  {
    hide RamOk, Quiet;
    forall p | 0 <= p < |img| && img[p].hdr.Header? ensures exists nf: nat :: Quiet(img[p].slots, nf) {
      RamIsLoadable(rams[p], img[p], hashOf);
      HeadersAre(rams, img, hashOf);
    }
  }

  // The first free page is the first page of all, if that is free; or the first page is erased.
  ghost predicate ZeroFirst(img: seq<FPage>, free: seq<nat>) {
    img != [] && (0 in free ==> free[0] == 0 || img[0] == ErasedPage())
  }

  lemma StableIsSettled(img: seq<FPage>, live: multiset<Rec>)
    requires Stable(img, live)
    ensures Settled(img, live)
  {
  }

  lemma StableIsRecoverable(img: seq<FPage>, live: multiset<Rec>)
    requires Stable(img, live)
    ensures Recoverable(img, live)
  {
  }

  lemma BeforeLoading(img: seq<FPage>, live: multiset<Rec>, hashOf: Id -> nat)
    requires Recoverable(img, live) && Identified(live)
    ensures Sound(img) && forall j :: 0 <= j < |img| ==> |img[j].slots| == ENTRY_COUNT && Loadable(img[j])
    ensures Rested(img) && Stable(img, live) && Kept(img, hashOf) ==> AllClean(img, hashOf)
    ensures Halfway(img, img, 0, live, live, hashOf)
  {
    hide Identified, ChunksApart, Stable, Freeing, Copying, Doubled, Rested, AllClean, Kept;
    RecoverableIsSound(img, live);
    if Rested(img) && Stable(img, live) && Kept(img, hashOf) {
      RestedIsClean(img, live, hashOf);
    }
  }

  lemma SurveyedApart(rams: seq<Ram>, img: seq<FPage>, list: seq<nat>, free: seq<nat>, live: multiset<Rec>,
                      hashOf: Id -> nat)
    requires Surveyed(rams, img, list, free, live, hashOf)
    ensures list == [] && Rested(img) ==> img[0] == ErasedPage()
    ensures ZeroFirst(img, free) && (list != [] ==> Started(img))
  {
    hide RamOk, Loadable, Recoverable, Identified, ChunksApart, Combed, Quiet;
    HeadersAre(rams, img, hashOf);
    SurveyedSize(rams, img, list, free, live, hashOf);
    if list == [] {
      EmptyStore(rams, img, free, live, hashOf);
    } else {
      assert img[list[0]].hdr.Header?;
    }
    if 0 in free {
      var k :| 0 <= k < |free| && free[k] == 0;
      assert free[0] <= free[k];
    }
  }

  lemma SurveyedSize(rams: seq<Ram>, img: seq<FPage>, list: seq<nat>, free: seq<nat>, live: multiset<Rec>,
                     hashOf: Id -> nat)
    requires Surveyed(rams, img, list, free, live, hashOf)
    ensures |img| >= 2
  {
    hide RamOk, Loadable, Identified, Combed, Placed, RecsOf, Live, Rest;
    RecoverableIsSound(img, live);
  }

  lemma SurveyedSequence(rams: seq<Ram>, img: seq<FPage>, list: seq<nat>, free: seq<nat>, live: multiset<Rec>,
                         hashOf: Id -> nat)
    requires Surveyed(rams, img, list, free, live, hashOf) && list != []
    ensures list[|list| - 1] < |rams| && Below(rams, list, rams[list[|list| - 1]].seqNo + 1)
  {
    hide RamsOk, Recoverable, Identified, ChunksApart, Combed;
    NextSequence(rams, list);
  }

  lemma StillFreeing(rams: seq<Ram>, img: seq<FPage>, list: seq<nat>, free: seq<nat>, live: multiset<Rec>,
                     hashOf: Id -> nat, at: nat)
    requires Surveyed(rams, img, list, free, live, hashOf) && at < |list| && list[at] < |rams|
      && rams[list[at]].state.FREEING?
    ensures !Stable(img, live)
  {
    hide RamOk, Loadable, Recoverable, Identified, ChunksApart, Combed, Live;
    HeadersAre(rams, img, hashOf);
    assert InState(img[list[at]], FREEING);
  }
}
