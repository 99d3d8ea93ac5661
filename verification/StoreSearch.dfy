// Looking for a key over all pages: what findItem finds is the record of the key.
module StoreSearch {
  import opened NvsTypes
  import opened PageImage
  import opened PageRam
  import opened PageSearch
  import opened FlashDevice
  import opened StoreImage
  import opened PageLists
  import opened Startup

  predicate OfName(r: Rec, ns: byte, key: string) {
    r.item.ns == ns && r.item.key == key
  }

  // The key names no blob.
  ghost predicate NoBlob(live: multiset<Rec>, ns: byte, key: string) {
    forall r :: r in live && OfName(r, ns, key) ==> !r.item.typ.BLOB_DATA? && !r.item.typ.BLOB_IDX? && !r.item.typ.BLOB?
  }

  function KeyQuery(ns: byte, typ: ItemType, key: string): Query {
    Query(ns, typ, Some(key), CHUNK_ANY, VER_ANY)
  }

  // A type a single item is stored and searched under.
  predicate PlainType(typ: ItemType) {
    !typ.BLOB? && !typ.BLOB_DATA? && !typ.BLOB_IDX?
  }

  ghost predicate NoneNamed(recs: seq<Rec>, ns: byte, key: string) {
    forall r :: r in recs ==> !OfName(r, ns, key)
  }

  // On a page without blobs of this name the search goes by the records alone: it stops at the first
  // record of the name, whatever the hashes.
  lemma SearchByName(s: seq<Slot>, nf: nat, hashOf: Id -> nat, ns: byte, typ: ItemType, key: string)
    requires Quiet(s, nf) && ns != NS_ANY && PlainType(typ)
    requires forall r :: r in Recs(s) && OfName(r, ns, Truncated(key)) ==> !r.item.typ.BLOB_DATA?
    ensures var f := FindVia(s, KeyQuery(ns, typ, key), hashOf, 0);
      match f
      case Nothing => NoneNamed(Recs(s), ns, Truncated(key))
      case Hit(h) => FirstNamed(s, h, ns, Truncated(key)) && (typ.ANY? || RecAt(s, h).item.typ == typ)
      case WrongType(h) => FirstNamed(s, h, ns, Truncated(key)) && !typ.ANY? && RecAt(s, h).item.typ != typ
  {
    var q := KeyQuery(ns, typ, key);
    forall k: nat | k < |s| && IsHead(s[k]) && OfKey(s[k].body.item, q)
      ensures s[k].body.item.chunk == CHUNK_ANY && !s[k].body.item.typ.BLOB_DATA?
    {
      assert HeadFits(s, k, nf);
      RecIsInRecs(s, k);
    }
    HashAgreesWithScan(s, q, hashOf, 0);
    FindMeans(s, q, 0);
    var f := FindFrom(s, q, 0);
    match f
    case Nothing =>
      NoneSkipped(s, q, |s|);
    case Hit(h) =>
      NoneSkipped(s, q, h);
    case WrongType(h) =>
      NoneSkipped(s, q, h);
  }

  // The item at h is a record of the name, and none before it is.
  ghost predicate FirstNamed(s: seq<Slot>, h: nat, ns: byte, key: string) {
    && Whole(s, h) && OfName(RecAt(s, h), ns, key)
    && NoneNamed(RecsIn(s, 0, h), ns, key)
  }

  lemma {:induction false} NoneSkipped(s: seq<Slot>, q: Query, h: nat)
    requires h <= |s| && q.key.Some? && q == KeyQuery(q.ns, q.typ, q.key.value) && q.ns != NS_ANY && PlainType(q.typ)
    requires SkippedIn(s, q, 0, h)
    requires forall k: nat :: k < |s| && IsHead(s[k]) && OfKey(s[k].body.item, q) ==> !s[k].body.item.typ.BLOB_DATA?
    ensures NoneNamed(RecsIn(s, 0, h), q.ns, Truncated(q.key.value))
  {
    forall r | r in RecsIn(s, 0, h) ensures !OfName(r, q.ns, Truncated(q.key.value)) {
      var k := PlaceOfRec(s, h, r);
      assert Judge(s[k].body.item, q).Skip?;
    }
  }

  // ---------------------------------------------------------------- records and the pages they are on

  lemma {:induction false} PageIn(img: seq<FPage>, n: nat, r: Rec) returns (p: nat)
    requires n <= |img| && r in LiveIn(img, n)
    ensures p < n && r in RecsOf(img[p])
  {
    hide RecsOf;
    if r in multiset(RecsOf(img[n - 1])) {
      p := n - 1;
    } else {
      p := PageIn(img, n - 1, r);
    }
  }

  lemma PageOf(img: seq<FPage>, r: Rec) returns (p: nat)
    requires r in Live(img)
    ensures p < |img| && r in RecsOf(img[p]) && img[p].hdr.Header?
  {
    p := PageIn(img, |img|, r);
  }

  lemma OnPageIsLive(img: seq<FPage>, p: nat, r: Rec)
    requires p < |img| && r in RecsOf(img[p])
    ensures r in Live(img)
  {
    hide RecsOf;
    LiveAround(img, p);
    assert r in multiset(RecsOf(img[p]));
  }

  lemma RecWritable(s: seq<Slot>, nf: nat, r: Rec)
    requires Quiet(s, nf) && r in Recs(s)
    ensures WritableId(r.item)
  {
    var k := PlaceOfRec(s, |s|, r);
    assert HeadFits(s, k, nf);
  }

  // The pages are as after an operation, and the records are `live`.
  ghost predicate Keeps(rams: seq<Ram>, img: seq<FPage>, list: seq<nat>, free: seq<nat>, next: nat, hashOf: Id -> nat,
                        live: multiset<Rec>) {
    InOrder(rams, img, list, free, next, hashOf) && Live(img) == live
  }

  // A page with a record is listed, and in order.
  lemma RecordPage(rams: seq<Ram>, img: seq<FPage>, list: seq<nat>, free: seq<nat>, next: nat, hashOf: Id -> nat,
                   p: nat)
    requires InOrder(rams, img, list, free, next, hashOf) && p < |img| && img[p].hdr.Header?
    ensures |rams| == |img| && p in list && LiveState(rams[p].state) && Quiet(img[p].slots, rams[p].top)
      && |img[p].slots| == ENTRY_COUNT
    ensures RecsOf(img[p]) == Recs(img[p].slots)
  {
    hide RamOk, Quiet;
    HeadersAre(rams, img, hashOf);
    RamIsLoadable(rams[p], img[p], hashOf);
    var k := Place(rams, list, free, p);
  }

  // At most one record has a name that is no blob's.
  lemma OneOfName(rams: seq<Ram>, img: seq<FPage>, list: seq<nat>, free: seq<nat>, next: nat, hashOf: Id -> nat,
                  live: multiset<Rec>, ns: byte, key: string, r: Rec, q: Rec)
    requires Keeps(rams, img, list, free, next, hashOf, live) && Unique(live) && NoBlob(live, ns, key)
    requires r in live && q in live && OfName(r, ns, key) && OfName(q, ns, key)
    ensures r == q
  {
    hide RecsOf, Quiet, InOrder;
    var a := PageOf(img, r);
    var b := PageOf(img, q);
    RecordPage(rams, img, list, free, next, hashOf, a);
    RecordPage(rams, img, list, free, next, hashOf, b);
    RecWritable(img[a].slots, rams[a].top, r);
    RecWritable(img[b].slots, rams[b].top, q);
  }

  // What the search over all listed pages answers.
  ghost predicate Locates(rams: seq<Ram>, img: seq<FPage>, list: seq<nat>, q: Query, hashOf: Id -> nat, at: nat,
                          index: nat) {
    && at < |list| && list[at] < |img| && list[at] < |rams| && LiveState(rams[list[at]].state)
    && FindVia(img[list[at]].slots, q, hashOf, 0) == Hit(index)
    && NoHitBefore(rams, img, list, q, hashOf, at)
  }

  // The header that was read is the one of the item found.
  ghost predicate IsItemAt(img: seq<FPage>, list: seq<nat>, at: nat, index: nat, item: Option<Item>) {
    && at < |list| && list[at] < |img| && index < |img[list[at]].slots| && IsHead(img[list[at]].slots[index])
    && item == Some(img[list[at]].slots[index].body.item)
  }

  ghost predicate NoHitBefore(rams: seq<Ram>, img: seq<FPage>, list: seq<nat>, q: Query, hashOf: Id -> nat, at: nat) {
    && at <= |list| && (forall k :: 0 <= k < |list| ==> list[k] < |img| && list[k] < |rams|)
    && forall k :: 0 <= k < at && LiveState(rams[list[k]].state) ==> !FindVia(img[list[k]].slots, q, hashOf, 0).Hit?
  }

  lemma FoundNamed(rams: seq<Ram>, img: seq<FPage>, list: seq<nat>, free: seq<nat>, next: nat, hashOf: Id -> nat,
                   live: multiset<Rec>, ns: byte, typ: ItemType, key: string, at: nat, index: nat)
    requires Keeps(rams, img, list, free, next, hashOf, live) && ns != NS_ANY && PlainType(typ)
    requires NoBlob(live, ns, Truncated(key)) && Locates(rams, img, list, KeyQuery(ns, typ, key), hashOf, at, index)
    ensures img[list[at]].hdr.Header? && Whole(img[list[at]].slots, index)
    ensures var r := RecAt(img[list[at]].slots, index);
      r in live && r in RecsOf(img[list[at]]) && OfName(r, ns, Truncated(key)) && (typ.ANY? || r.item.typ == typ)
  {
    hide RamOk, Quiet, FindVia, Whole, Recs;
    var p := list[at];
    HeadersAre(rams, img, hashOf);
    RecordPage(rams, img, list, free, next, hashOf, p);
    forall r | r in Recs(img[p].slots) && OfName(r, ns, Truncated(key)) ensures !r.item.typ.BLOB_DATA? {
      OnPageIsLive(img, p, r);
    }
    SearchByName(img[p].slots, rams[p].top, hashOf, ns, typ, key);
    InRecs(img[p].slots, index);
    OnPageIsLive(img, p, RecAt(img[p].slots, index));
  }

  lemma InRecs(s: seq<Slot>, k: nat)
    requires Whole(s, k)
    ensures k < |s| && RecAt(s, k) in Recs(s)
  {
    RecIsInRecs(s, k);
  }

  lemma NotFoundNamed(rams: seq<Ram>, img: seq<FPage>, list: seq<nat>, free: seq<nat>, next: nat, hashOf: Id -> nat,
                      live: multiset<Rec>, ns: byte, typ: ItemType, key: string)
    requires Keeps(rams, img, list, free, next, hashOf, live) && Unique(live) && ns != NS_ANY && PlainType(typ)
    requires NoBlob(live, ns, Truncated(key)) && NoHitBefore(rams, img, list, KeyQuery(ns, typ, key), hashOf, |list|)
    ensures forall r :: r in live && OfName(r, ns, Truncated(key)) ==> !typ.ANY? && r.item.typ != typ
  {
    hide RamOk, Quiet, FindVia, Whole, Recs, InOrder, NoBlob, Unique, Live;
    forall r | r in live && OfName(r, ns, Truncated(key)) ensures !typ.ANY? && r.item.typ != typ {
      var p := PageOf(img, r);
      RecordPage(rams, img, list, free, next, hashOf, p);
      NamedOnPage(rams, img, list, free, next, hashOf, live, ns, typ, key, p, r);
    }
  }

  lemma NamedOnPage(rams: seq<Ram>, img: seq<FPage>, list: seq<nat>, free: seq<nat>, next: nat, hashOf: Id -> nat,
                    live: multiset<Rec>, ns: byte, typ: ItemType, key: string, p: nat, r: Rec)
    requires Keeps(rams, img, list, free, next, hashOf, live) && Unique(live) && ns != NS_ANY && PlainType(typ)
    requires NoBlob(live, ns, Truncated(key)) && p < |img| && img[p].hdr.Header? && r in RecsOf(img[p])
      && OfName(r, ns, Truncated(key))
    requires !FindVia(img[p].slots, KeyQuery(ns, typ, key), hashOf, 0).Hit?
    ensures !typ.ANY? && r.item.typ != typ
  {
    hide RamOk, Quiet, FindVia, Whole, Recs, InOrder, Live;
    RecordPage(rams, img, list, free, next, hashOf, p);
    OnPageIsLive(img, p, r);
    forall x | x in Recs(img[p].slots) && OfName(x, ns, Truncated(key)) ensures !x.item.typ.BLOB_DATA? {
      OnPageIsLive(img, p, x);
    }
    SearchByName(img[p].slots, rams[p].top, hashOf, ns, typ, key);
    var h := FindVia(img[p].slots, KeyQuery(ns, typ, key), hashOf, 0).index;
    InRecs(img[p].slots, h);
    var x := RecAt(img[p].slots, h);
    OnPageIsLive(img, p, x);
    OneOfName(rams, img, list, free, next, hashOf, live, ns, Truncated(key), r, x);
  }

  // ---------------------------------------------------------------- the record of a name

  // o is the record of this name, or there is none.
  ghost predicate RecordOf(live: multiset<Rec>, ns: byte, key: string, o: Option<Rec>) {
    match o
    case None => forall r :: r in live ==> !OfName(r, ns, key)
    case Some(r) => r in live && OfName(r, ns, key)
  }

  // The record o is the item at entry `index` of page x.
  ghost predicate IsAt(rams: seq<Ram>, img: seq<FPage>, x: nat, index: nat, o: Rec) {
    && x < |rams| == |img| && LiveState(rams[x].state) && img[x].hdr.Header? && |img[x].slots| == ENTRY_COUNT
    && index < ENTRY_COUNT && Whole(img[x].slots, index) && RecAt(img[x].slots, index) == o && o in RecsOf(img[x])
  }

  lemma LocatedIs(rams: seq<Ram>, img: seq<FPage>, list: seq<nat>, free: seq<nat>, next: nat, hashOf: Id -> nat,
                  live: multiset<Rec>, ns: byte, typ: ItemType, key: string, at: nat, index: nat)
    requires Keeps(rams, img, list, free, next, hashOf, live) && ns != NS_ANY && PlainType(typ)
    requires NoBlob(live, ns, Truncated(key)) && Locates(rams, img, list, KeyQuery(ns, typ, key), hashOf, at, index)
    ensures index < |img[list[at]].slots| && Whole(img[list[at]].slots, index)
    ensures var r := RecAt(img[list[at]].slots, index);
      IsAt(rams, img, list[at], index, r) && RecordOf(live, ns, Truncated(key), Some(r))
        && (typ.ANY? || r.item.typ == typ)
  {
    hide RamOk, Quiet, FindVia, Whole, Recs, NoBlob;
    FoundNamed(rams, img, list, free, next, hashOf, live, ns, typ, key, at, index);
    RecordPage(rams, img, list, free, next, hashOf, list[at]);
    InRecs(img[list[at]].slots, index);
  }

  // A whole item on a page that is in use is a record of the store.
  lemma FoundIsAt(rams: seq<Ram>, img: seq<FPage>, list: seq<nat>, free: seq<nat>, next: nat, hashOf: Id -> nat, p: nat,
                  i: nat)
    requires InOrder(rams, img, list, free, next, hashOf) && p < |img| && p < |rams| && LiveState(rams[p].state)
      && i < |img[p].slots| && Whole(img[p].slots, i)
    ensures IsAt(rams, img, p, i, RecAt(img[p].slots, i)) && RecAt(img[p].slots, i) in Live(img)
  {
    hide RamOk, Quiet, Whole, Recs, Live;
    HeadersAre(rams, img, hashOf);
    RecordPage(rams, img, list, free, next, hashOf, p);
    InRecs(img[p].slots, i);
    OnPageIsLive(img, p, RecAt(img[p].slots, i));
  }
}
