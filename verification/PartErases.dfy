// Everything of a name is erased: after the walk over the pages no chunk of it is left anywhere.
module PartErases {
  import opened NvsTypes
  import opened PageImage
  import opened PageRam
  import opened PageSearch
  import opened PageSteps
  import opened PageWalk
  import opened FlashDevice
  import opened StoreImage
  import opened PageLists
  import opened Startup
  import opened StoreSearch
  import opened StoreUpdates
  import opened BlobSearch

  predicate ChunkNamed(it: Item, ns: byte, key: string) {
    it.ns == ns && it.key == key && it.typ.BLOB_DATA?
  }

  // No chunk of the name is among the first `to` entries.
  ghost predicate ChunkFree(s: seq<Slot>, to: nat, ns: byte, key: string) {
    forall k: nat :: k < to && k < |s| && IsHead(s[k]) ==> !ChunkNamed(s[k].body.item, ns, key)
  }

  ghost predicate NoChunk(recs: seq<Rec>, ns: byte, key: string) {
    forall r :: r in recs ==> !ChunkNamed(r.item, ns, key)
  }

  // The search for any chunk stops at the next one of the name, wherever it starts.
  lemma ScanToChunk(s: seq<Slot>, hashOf: Id -> nat, ns: byte, key: string, from: nat)
    requires ns != NS_ANY && ChunkFree(s, from, ns, Truncated(key)) && from <= |s|
    ensures var f := FindVia(s, ChunkQuery(ns, key, CHUNK_ANY), hashOf, from);
      match f
      case Nothing => ChunkFree(s, |s|, ns, Truncated(key))
      case Hit(h) => from <= h < |s| && IsHead(s[h]) && ChunkFree(s, h, ns, Truncated(key))
      case WrongType(h) => false
  {
    var q := ChunkQuery(ns, key, CHUNK_ANY);
    FindMeans(s, q, from);
    forall k: nat | k < |s| && IsHead(s[k])
      ensures Judge(s[k].body.item, q) == if ChunkNamed(s[k].body.item, ns, Truncated(key)) then Take else Skip
    {
    }
  }

  // It has been erased: the search goes on behind it.
  lemma ChunkFreeOn(s: seq<Slot>, t: seq<Slot>, nf: nat, index: nat, ns: byte, key: string)
    requires Removed(s, t, nf, index) && ChunkFree(s, index, ns, key)
    ensures index < |s| && IsHead(s[index]) && ChunkFree(t, index + s[index].body.item.span, ns, key)
  {
    HeadReaches(s, nf, index);
    forall k: nat | k < index + s[index].body.item.span && k < |t| && IsHead(t[k])
      ensures !ChunkNamed(t[k].body.item, ns, key) {
      assert k < index;
    }
  }

  // What the scan of one page has come to.
  ghost predicate ScannedTo(r: Ram, fp: FPage, to: nat, ns: byte, key: string) {
    LiveState(r.state) ==> ChunkFree(fp.slots, to, ns, key)
  }

  lemma ScannedNone(r: Ram, fp: FPage, ns: byte, key: string)
    ensures ScannedTo(r, fp, 0, ns, key)
  {
  }

  // The next step of the scan of a page.
  lemma ScanStep(rams: seq<Ram>, img: seq<FPage>, hashOf: Id -> nat, p: nat, ns: byte, key: string, from: nat)
    requires RamsOk(rams, img, hashOf) && p < |img| && p < |rams| && ns != NS_ANY && from <= ENTRY_COUNT
      && ScannedTo(rams[p], img[p], from, ns, Truncated(key))
    ensures LiveState(rams[p].state) ==>
      match FindVia(img[p].slots, ChunkQuery(ns, key, CHUNK_ANY), hashOf, from)
      case Nothing => ScannedTo(rams[p], img[p], ENTRY_COUNT, ns, Truncated(key))
      case Hit(h) => ScannedTo(rams[p], img[p], h, ns, Truncated(key))
      case WrongType(h) => false
    ensures !LiveState(rams[p].state) ==> ScannedTo(rams[p], img[p], ENTRY_COUNT, ns, Truncated(key))
  {
    hide RamOk, FindVia;
    if LiveState(rams[p].state) {
      RamsOkAt(rams, img, hashOf, p);
      RamIsLoadable(rams[p], img[p], hashOf);
      ScanToChunk(img[p].slots, hashOf, ns, key, from);
    }
  }

  lemma ScanGoesOn(rams: seq<Ram>, img: seq<FPage>, rams': seq<Ram>, img': seq<FPage>, p: nat, index: nat, ns: byte,
                   key: string)
    requires p < |rams| == |img| == |rams'| == |img'| && LiveState(rams[p].state)
      && ScannedTo(rams[p], img[p], index, ns, Truncated(key))
    requires Removed(img[p].slots, img'[p].slots, rams'[p].top, index)
    ensures index < |img[p].slots| && IsHead(img[p].slots[index])
    ensures ScannedTo(rams'[p], img'[p], index + img[p].slots[index].body.item.span, ns, Truncated(key))
  {
    hide Removed;
    ChunkFreeOn(img[p].slots, img'[p].slots, rams'[p].top, index, ns, Truncated(key));
  }

  lemma ScannedMore(r: Ram, fp: FPage, to: nat, ns: byte, key: string)
    requires ScannedTo(r, fp, to, ns, key) && to >= ENTRY_COUNT
    ensures ScannedTo(r, fp, ENTRY_COUNT, ns, key)
  {
  }

  lemma NoneScanned(img: seq<FPage>, list: seq<nat>, ns: byte, key: string)
    ensures ListScanned(img, list, 0, ns, key)
  {
  }

  lemma PageScanned(rams: seq<Ram>, img: seq<FPage>, hashOf: Id -> nat, p: nat, ns: byte, key: string)
    requires RamsOk(rams, img, hashOf) && p < |img| && p < |rams| && ScannedTo(rams[p], img[p], ENTRY_COUNT, ns, key)
    ensures NoChunk(RecsOf(img[p]), ns, key)
  {
    hide RamOk, Recs, Whole;
    HeadersAre(rams, img, hashOf);
    if LiveState(rams[p].state) {
      RamsOkAt(rams, img, hashOf, p);
      RamIsLoadable(rams[p], img[p], hashOf);
      FreeOfChunks(img[p].slots, rams[p].top, ns, key);
    }
  }

  lemma FreeOfChunks(s: seq<Slot>, nf: nat, ns: byte, key: string)
    requires Quiet(s, nf) && |s| == ENTRY_COUNT && ChunkFree(s, ENTRY_COUNT, ns, key)
    ensures NoChunk(Recs(s), ns, key)
  {
    hide Quiet;
    forall r | r in Recs(s) ensures !ChunkNamed(r.item, ns, key) {
      var k := PlaceOfRec(s, |s|, r);
    }
  }

  // The first pages of the list have been scanned.
  ghost predicate ListScanned(img: seq<FPage>, list: seq<nat>, at: nat, ns: byte, key: string) {
    forall k :: 0 <= k < at && k < |list| && list[k] < |img| ==> NoChunk(RecsOf(img[list[k]]), ns, key)
  }

  lemma OneMoreScanned(img: seq<FPage>, c: seq<FPage>, list: seq<nat>, at: nat, ns: byte, key: string)
    requires at < |list| && list[at] < |img| && OnlyPage(img, c, list[at]) && NoChunk(RecsOf(c[list[at]]), ns, key)
    requires ListScanned(img, list, at, ns, key)
    ensures ListScanned(c, list, at + 1, ns, key)
  {
    hide RecsOf;
  }

  lemma AllScanned(rams: seq<Ram>, img: seq<FPage>, list: seq<nat>, free: seq<nat>, next: nat, hashOf: Id -> nat,
                   ns: byte, key: string)
    requires InOrder(rams, img, list, free, next, hashOf) && ListScanned(img, list, |list|, ns, key)
    ensures forall r :: r in Live(img) ==> !ChunkNamed(r.item, ns, key)
  {
    hide RamOk, RecsOf, Live, InOrder;
    forall r | r in Live(img) ensures !ChunkNamed(r.item, ns, key) {
      var p := PageOf(img, r);
      RecordPage(rams, img, list, free, next, hashOf, p);
      var k :| 0 <= k < |list| && list[k] == p;
    }
  }

  // ---------------------------------------------------------------- indices

  predicate IndexNamed(r: Rec, ns: byte, key: string) {
    OfName(r, ns, key) && r.item.typ.BLOB_IDX?
  }

  // The name has an index.
  ghost predicate HasAnIndex(live: multiset<Rec>, ns: byte, key: string) {
    exists i :: i in live && IndexNamed(i, ns, key)
  }

  // A name with an index stands for nothing but parts of blobs, and has two indices at most, as a store
  // may that lost power in the middle of an update.
  ghost predicate IndexedOnly(live: multiset<Rec>, ns: byte, key: string) {
    HasAnIndex(live, ns, key) ==>
      && (forall r :: r in live && OfName(r, ns, key) ==> r.item.typ.BLOB_DATA? || r.item.typ.BLOB_IDX?)
      && forall i, j :: i in live && j in live - multiset{i} && IndexNamed(i, ns, key) && IndexNamed(j, ns, key) ==>
           !HasAnIndex(live - multiset{i} - multiset{j}, ns, key)
  }

  // So it is if all records have identities of their own.
  lemma UniqueIsIndexedOnly(live: multiset<Rec>, ns: byte, key: string)
    requires Unique(live) && forall r :: r in live ==> WritableId(r.item)
    ensures IndexedOnly(live, ns, key)
  {
    if i :| i in live && IndexNamed(i, ns, key) {
      forall r | r in live && OfName(r, ns, key) && !r.item.typ.BLOB_DATA? ensures r == i {
        assert IdOf(r.item) == IdOf(i.item);
      }
      assert (live - multiset{i})[i] == 0;
    }
  }

  // Of a name that has no index nothing is found; of one that has, one that has it.
  lemma FindsAnyIndex(rams: seq<Ram>, img: seq<FPage>, list: seq<nat>, free: seq<nat>, next: nat, hashOf: Id -> nat,
                      live: multiset<Rec>, ns: byte, key: string, found: bool, at: nat, index: nat)
    requires Keeps(rams, img, list, free, next, hashOf, live) && IndexedOnly(live, ns, Truncated(key)) && ns != NS_ANY
      && forall r :: r in live ==> WritableId(r.item)
    requires found ==> Locates(rams, img, list, IndexQuery(ns, key, VER_ANY), hashOf, at, index)
    requires !found ==> NoHitBefore(rams, img, list, IndexQuery(ns, key, VER_ANY), hashOf, |list|)
    ensures found <==> HasAnIndex(live, ns, Truncated(key))
    ensures found ==>
      exists i :: i in live && IndexNamed(i, ns, Truncated(key)) && at < |list| && IsAt(rams, img, list[at], index, i)
  {
    hide InOrder, Live, Locates, NoHitBefore, IsAt, WritableId, IndexedOnly;
    var q := IndexQuery(ns, key, VER_ANY);
    if found {
      var o := PartHit(rams, img, list, free, next, hashOf, q, at, index);
      HitIsIndex(rams, img, list, free, next, hashOf, q, at, index, o);
    } else if i :| i in live && IndexNamed(i, ns, Truncated(key)) {
      IndicesAreTaken(live, ns, key, i);
      MissedNone(rams, img, list, free, next, hashOf, live, q, i);
    }
  }

  lemma IndicesAreTaken(live: multiset<Rec>, ns: byte, key: string, i: Rec)
    requires IndexedOnly(live, ns, Truncated(key)) && ns != NS_ANY && (forall r :: r in live ==> WritableId(r.item))
    requires i in live && IndexNamed(i, ns, Truncated(key))
    ensures Asked(i, IndexQuery(ns, key, VER_ANY))
    ensures forall x :: x in live && Asked(x, IndexQuery(ns, key, VER_ANY)) ==>
      Judge(x.item, IndexQuery(ns, key, VER_ANY)).Take?
  {
    assert WritableId(i.item) && HasAnIndex(live, ns, Truncated(key));
  }

  lemma HitIsIndex(rams: seq<Ram>, img: seq<FPage>, list: seq<nat>, free: seq<nat>, next: nat, hashOf: Id -> nat,
                   q: Query, at: nat, index: nat, o: Rec)
    requires InOrder(rams, img, list, free, next, hashOf) && q.typ.BLOB_IDX?
      && Locates(rams, img, list, q, hashOf, at, index)
    requires IsAt(rams, img, list[at], index, o)
    ensures o.item.typ.BLOB_IDX?
  {
    hide InOrder, FindVia, Whole;
    HitOfType(rams, img, list, free, next, hashOf, q, at, index);
    WasAt(rams, img, list[at], index, o);
  }

  // An index that is the only thing asked for is one of the name.
  lemma MissedIndex(rams: seq<Ram>, img: seq<FPage>, list: seq<nat>, free: seq<nat>, next: nat, hashOf: Id -> nat,
                    live: multiset<Rec>, ns: byte, key: string, i: Rec)
    requires Keeps(rams, img, list, free, next, hashOf, live) && ns != NS_ANY
      && OnlyAsked(live, IndexQuery(ns, key, VER_ANY), Some(i))
    ensures HasAnIndex(live, ns, Truncated(key))
  {
    hide InOrder, Live;
    assert IndexNamed(i, ns, Truncated(key));
  }

  // Nothing of the name is left, and everything else is.
  ghost predicate NameGone(before: multiset<Rec>, now: multiset<Rec>, ns: byte, key: string) {
    now <= before && forall r :: r in before ==> now[r] == if OfName(r, ns, key) then 0 else before[r]
  }

  // An index that was found has been erased; there may be one more.
  ghost predicate IndexLess(live: multiset<Rec>, now: multiset<Rec>, ns: byte, key: string) {
    exists i :: i in live && IndexNamed(i, ns, key) && now == live - multiset{i}
  }

  lemma IndexErased(rams: seq<Ram>, img: seq<FPage>, x: nat, index: nat, live: multiset<Rec>, o: Rec, ns: byte,
                    key: string)
    requires IsAt(rams, img, x, index, o)
    requires exists i :: i in live && IndexNamed(i, ns, key) && IsAt(rams, img, x, index, i)
    ensures IndexLess(live, live - multiset{o}, ns, key)
  {
    var i :| i in live && IndexNamed(i, ns, key) && IsAt(rams, img, x, index, i);
  }

  lemma StillIndexedOnly(live: multiset<Rec>, now: multiset<Rec>, ns: byte, key: string)
    requires IndexedOnly(live, ns, key) && IndexLess(live, now, ns, key)
    ensures IndexedOnly(now, ns, key) && HasAnIndex(live, ns, key)
      && forall end :: IndexLess(now, end, ns, key) ==> !HasAnIndex(end, ns, key)
  {
    var i :| i in live && IndexNamed(i, ns, key) && now == live - multiset{i};
    assert forall r :: r in now ==> r in live;
    forall j | j in now && IndexNamed(j, ns, key) ensures !HasAnIndex(now - multiset{j}, ns, key) {
      assert j in live - multiset{i};
    }
  }

  lemma GoneTwice(before: multiset<Rec>, mid: multiset<Rec>, now: multiset<Rec>, ns: byte, key: string)
    requires GoneAre(before, mid, ns, key) && GoneAre(mid, now, ns, key)
    ensures GoneAre(before, now, ns, key) && now <= mid
  {
  }

  lemma NameIsGone(before: multiset<Rec>, mid: multiset<Rec>, now: multiset<Rec>, ns: byte, key: string)
    requires IndexedOnly(before, ns, key) && HasAnIndex(before, ns, key) && !HasAnIndex(mid, ns, key)
    requires GoneAre(before, now, ns, key) && now <= mid && forall r :: r in now ==> !ChunkNamed(r.item, ns, key)
    ensures NameGone(before, now, ns, key)
  {
    forall r | r in before && OfName(r, ns, key) ensures r !in now {
      assert r in now ==> r in mid;
    }
  }
}
