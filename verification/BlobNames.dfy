// Looking for a blob without saying that it is one: the search starts at the hash that its index has,
// and what it meets there first may be a chunk.
module BlobNames {
  import opened NvsTypes
  import opened PageImage
  import opened PageRam
  import opened PageSearch
  import opened FlashDevice
  import opened StoreImage
  import opened PageLists
  import opened Startup
  import opened StoreSearch
  import opened StoreUpdates
  import opened StoreWrites
  import opened BlobWrites
  import opened BlobSearch
  import opened BlobUpdates
  import opened PartErases

  predicate IndexItem(it: Item, ns: byte, key: string) {
    it.ns == ns && it.key == key && it.typ.BLOB_IDX? && it.chunk == CHUNK_ANY
  }

  // The item at k has the hash that the index of the name has, and behind it, or there, comes a chunk
  // of the name before any index.
  ghost predicate Lures(s: seq<Slot>, hashOf: Id -> nat, ns: byte, key: string, k: nat, c: nat) {
    && k <= c < |s| && HasHash(s, k, hashOf, hashOf(Id(ns, key, CHUNK_ANY)))
    && IsHead(s[c]) && ChunkNamed(s[c].body.item, ns, key)
    && forall j: nat :: j < c && IsHead(s[j]) ==> !IndexItem(s[j].body.item, ns, key)
  }

  ghost predicate ChunkFirst(s: seq<Slot>, hashOf: Id -> nat, ns: byte, key: string) {
    exists k: nat, c: nat :: Lures(s, hashOf, ns, key, k, c)
  }

  // On the page there are only parts of a blob under this name.
  ghost predicate PartsOnly(s: seq<Slot>, ns: byte, key: string) {
    forall j: nat :: j < |s| && IsHead(s[j]) && s[j].body.item.ns == ns && s[j].body.item.key == key ==>
      s[j].body.item.typ.BLOB_DATA? || IndexItem(s[j].body.item, ns, key)
  }

  ghost predicate IndexOn(s: seq<Slot>, ns: byte, key: string) {
    exists j: nat :: j < |s| && IsHead(s[j]) && IndexItem(s[j].body.item, ns, key)
  }

  lemma AnyJudge(it: Item, ns: byte, key: string)
    requires ns != NS_ANY
    ensures Judge(it, KeyQuery(ns, ANY, key)) == if it.ns == ns && it.key == Truncated(key) then Take else Skip
  {
  }

  // Where the search stops on a page.
  ghost predicate PageStops(s: seq<Slot>, hashOf: Id -> nat, ns: byte, key: string) {
    var f := FindVia(s, KeyQuery(ns, ANY, key), hashOf, 0);
    && (IndexOn(s, ns, Truncated(key)) || ChunkFirst(s, hashOf, ns, Truncated(key)) ==> f.Hit?)
    && (f.Hit? ==> f.index < |s| && IsHead(s[f.index]) && OfKey(s[f.index].body.item, KeyQuery(ns, ANY, key)))
    && (f.Hit? ==> ChunkFirst(s, hashOf, ns, Truncated(key)) || IndexOn(s, ns, Truncated(key)))
    && (f.Hit? ==> (ChunkFirst(s, hashOf, ns, Truncated(key)) <==> s[f.index].body.item.typ.BLOB_DATA?))
  }

  // On one page: an index is found unless a chunk comes first.
  lemma AnyHit(s: seq<Slot>, hashOf: Id -> nat, ns: byte, key: string)
    requires ns != NS_ANY && PartsOnly(s, ns, Truncated(key))
    ensures PageStops(s, hashOf, ns, key)
  {
    var q := KeyQuery(ns, ANY, key);
    var i := FirstHash(s, hashOf, hashOf(QueryId(q)), 0);
    FindMeans(s, q, i);
    forall k: nat | k < |s| && IsHead(s[k])
      ensures Judge(s[k].body.item, q) == if s[k].body.item.ns == ns && s[k].body.item.key == Truncated(key) then Take
        else Skip
    {
      AnyJudge(s[k].body.item, ns, key);
    }
    var f := FindVia(s, q, hashOf, 0);
    if IndexOn(s, ns, Truncated(key)) {
      var j: nat :| j < |s| && IsHead(s[j]) && IndexItem(s[j].body.item, ns, Truncated(key));
      assert HasHash(s, j, hashOf, hashOf(QueryId(q)));
    }
    if ChunkFirst(s, hashOf, ns, Truncated(key)) {
      var k: nat, c: nat :| Lures(s, hashOf, ns, Truncated(key), k, c);
      assert HasHash(s, k, hashOf, hashOf(QueryId(q)));
      assert i <= k;
    }
    if f.Hit? && s[f.index].body.item.typ.BLOB_DATA? {
      HitLures(s, hashOf, ns, key, i, f.index);
    }
  }

  lemma {:induction false} HitLures(s: seq<Slot>, hashOf: Id -> nat, ns: byte, key: string, i: nat, h: nat)
    requires ns != NS_ANY && i <= h < |s| && i == FirstHash(s, hashOf, hashOf(Id(ns, Truncated(key), CHUNK_ANY)), 0)
    requires SkippedIn(s, KeyQuery(ns, ANY, key), i, h) && IsHead(s[h])
      && ChunkNamed(s[h].body.item, ns, Truncated(key))
    ensures ChunkFirst(s, hashOf, ns, Truncated(key))
  {
    forall j: nat | j < h && IsHead(s[j]) ensures !IndexItem(s[j].body.item, ns, Truncated(key)) {
      AnyJudge(s[j].body.item, ns, key);
      if IndexItem(s[j].body.item, ns, Truncated(key)) {
        assert HasHash(s, j, hashOf, hashOf(Id(ns, Truncated(key), CHUNK_ANY)));
      }
    }
    assert Lures(s, hashOf, ns, Truncated(key), i, h);
  }

  // ---------------------------------------------------------------- over all pages

  // Of the listed pages the first on which the search stops has a chunk first.
  ghost predicate TakesChunk(img: seq<FPage>, list: seq<nat>, hashOf: Id -> nat, ns: byte, key: string) {
    && (forall k :: 0 <= k < |list| ==> list[k] < |img|)
    && exists at :: 0 <= at < |list| && ChunkFirst(img[list[at]].slots, hashOf, ns, key) && forall j :: 0 <= j < at ==>
         !IndexOn(img[list[j]].slots, ns, key)
  }

  // On a listed page only parts of the blob have its name.
  lemma OnlyPartsThere(rams: seq<Ram>, img: seq<FPage>, list: seq<nat>, free: seq<nat>, next: nat, hashOf: Id -> nat,
                       live: multiset<Rec>, ns: byte, key: string, b: Blob, p: nat)
    requires Keeps(rams, img, list, free, next, hashOf, live) && OnlyBlob(live, ns, key, Some(b))
      && p < |img| == |rams| && LiveState(rams[p].state)
    ensures PartsOnly(img[p].slots, ns, Truncated(key))
    ensures forall j: nat :: j < |img[p].slots| && IsHead(img[p].slots[j]) ==> Whole(img[p].slots, j)
  {
    hide RamOk, Quiet, Whole, Live, InOrder, BlobOk, PartsOf, IndexOf, ChunkOfBlob;
    LiveHeader(rams, img, list, free, next, hashOf, p);
    RecordPage(rams, img, list, free, next, hashOf, p);
    var s := img[p].slots;
    forall j: nat | j < |s| && IsHead(s[j]) ensures Whole(s, j) {
      HeadOfWhole(s, rams[p].top, j);
    }
    forall j: nat | j < |s| && IsHead(s[j]) && s[j].body.item.ns == ns && s[j].body.item.key == Truncated(key)
      ensures s[j].body.item.typ.BLOB_DATA? || IndexItem(s[j].body.item, ns, Truncated(key))
    {
      FoundIsAt(rams, img, list, free, next, hashOf, p, j);
      var r := RecAt(s, j);
      assert OfName(r, ns, Truncated(key));
      var i := PartIs(ns, key, b, r);
    }
  }

  // Where the index is, an index is on the page; and a part that is one is the index.
  lemma PartThere(rams: seq<Ram>, img: seq<FPage>, list: seq<nat>, free: seq<nat>, next: nat, hashOf: Id -> nat,
                  live: multiset<Rec>, ns: byte, key: string, b: Blob, at: nat, index: nat) returns (r: Rec)
    requires Keeps(rams, img, list, free, next, hashOf, live) && OnlyBlob(live, ns, key, Some(b)) && at < |list|
      && list[at] < |img| == |rams|
    requires LiveState(rams[list[at]].state) && index < |img[list[at]].slots| && IsHead(img[list[at]].slots[index])
    requires img[list[at]].slots[index].body.item.ns == ns && img[list[at]].slots[index].body.item.key == Truncated(key)
    ensures BlobOk(b) && IsAt(rams, img, list[at], index, r) && r in live
      && r.item == img[list[at]].slots[index].body.item
    ensures if r.item.typ.BLOB_DATA? then r in ChunksOf(ns, key, b) else r == IndexOf(ns, key, b)
  {
    hide RamOk, Quiet, Whole, Live, InOrder, BlobOk, PartsOf, ChunkRecs, IndexRec;
    OnlyPartsThere(rams, img, list, free, next, hashOf, live, ns, key, b, list[at]);
    FoundIsAt(rams, img, list, free, next, hashOf, list[at], index);
    r := RecAt(img[list[at]].slots, index);
    assert OfName(r, ns, Truncated(key)) && r in PartsOf(ns, key, b);
    var i := PartIs(ns, key, b, r);
    if i < |b.pieces| {
      ChunkIsPart(ns, key, b, i);
    }
  }

  // The page that the index is on.
  lemma IndexPlace(rams: seq<Ram>, img: seq<FPage>, list: seq<nat>, free: seq<nat>, next: nat, hashOf: Id -> nat,
                   live: multiset<Rec>, ns: byte, key: string, b: Blob) returns (y: nat)
    requires Keeps(rams, img, list, free, next, hashOf, live) && OnlyBlob(live, ns, key, Some(b)) && ns != NS_ANY
    ensures |rams| == |img| && y < |list| && list[y] < |img| && LiveState(rams[list[y]].state)
      && IndexOn(img[list[y]].slots, ns, Truncated(key))
  {
    hide RamOk, Quiet, Whole, Live, InOrder, BlobOk, PartsOf;
    OnlyBlobHas(live, ns, key, b);
    var i := IndexOf(ns, key, b);
    var p := PageOf(img, i);
    RecordPage(rams, img, list, free, next, hashOf, p);
    y :| 0 <= y < |list| && list[y] == p;
    var k := PlaceOfRec(img[p].slots, |img[p].slots|, i);
    WholeIsHead(img[p].slots, k);
  }

  lemma WholeIsHead(s: seq<Slot>, k: nat)
    requires Whole(s, k)
    ensures k < |s| && IsHead(s[k]) && RecAt(s, k).item == s[k].body.item
  {
  }

  lemma OnlyBlobHas(live: multiset<Rec>, ns: byte, key: string, b: Blob)
    requires OnlyBlob(live, ns, key, Some(b))
    ensures BlobOk(b) && IndexOf(ns, key, b) in live && IndexItem(IndexOf(ns, key, b).item, ns, Truncated(key))
  {
    hide BlobOk, ChunksOf;
    assert IndexOf(ns, key, b) in PartsOf(ns, key, b);
    var i := PartIs(ns, key, b, IndexOf(ns, key, b));
  }

  // What a search of unspecified type finds for a blob is its index, or else a chunk of it: exactly
  // when a chunk comes first.
  lemma FindsByName(rams: seq<Ram>, img: seq<FPage>, list: seq<nat>, free: seq<nat>, next: nat, hashOf: Id -> nat,
                    live: multiset<Rec>, ns: byte, key: string, b: Blob, found: bool, at: nat, index: nat)
    returns (r: Rec)
    requires Keeps(rams, img, list, free, next, hashOf, live) && OnlyBlob(live, ns, key, Some(b)) && ns != NS_ANY
    requires found ==> Locates(rams, img, list, KeyQuery(ns, ANY, key), hashOf, at, index)
    requires !found ==> NoHitBefore(rams, img, list, KeyQuery(ns, ANY, key), hashOf, |list|)
    ensures found && BlobOk(b) && at < |list| && IsAt(rams, img, list[at], index, r) && r in live
    ensures if TakesChunk(img, list, hashOf, ns, Truncated(key))
      then r in ChunksOf(ns, key, b) && r.item.typ.BLOB_DATA?
      else r == IndexOf(ns, key, b) && r.item.typ.BLOB_IDX?
  {
    hide RamOk, Quiet, Whole, Live, InOrder, BlobOk, PartsOf, ChunksOf, IndexOf, FindVia, ChunkFirst, IndexOn,
      PartsOnly, OnlyBlob;
    InRange(rams, img, list, free, next, hashOf);
    var y := IndexPlace(rams, img, list, free, next, hashOf, live, ns, key, b);
    forall j | 0 <= j < |list| ensures ListedStops(rams[list[j]], img[list[j]], hashOf, ns, key) {
      if LiveState(rams[list[j]].state) {
        OnlyPartsThere(rams, img, list, free, next, hashOf, live, ns, key, b, list[j]);
        AnyHit(img[list[j]].slots, hashOf, ns, key);
      } else {
        FreshHasNone(rams, img, list, free, next, hashOf, ns, Truncated(key), j);
      }
    }
    assert ListedStops(rams[list[y]], img[list[y]], hashOf, ns, key);
    assert found;
    assert ListedStops(rams[list[at]], img[list[at]], hashOf, ns, key);
    FirstDecides(rams, img, list, hashOf, ns, key, at);
    r := PartThere(rams, img, list, free, next, hashOf, live, ns, key, b, at, index);
    PartTypes(ns, key, b, r);
  }

  // The page on which the search stops decides.
  lemma FirstDecides(rams: seq<Ram>, img: seq<FPage>, list: seq<nat>, hashOf: Id -> nat, ns: byte, key: string, at: nat)
    requires at < |list| && (forall j :: 0 <= j < |list| ==> list[j] < |img| == |rams|)
    requires forall j :: 0 <= j < |list| ==> ListedStops(rams[list[j]], img[list[j]], hashOf, ns, key)
    requires LiveState(rams[list[at]].state) && FindVia(img[list[at]].slots, KeyQuery(ns, ANY, key), hashOf, 0).Hit?
    requires NoHitBefore(rams, img, list, KeyQuery(ns, ANY, key), hashOf, at)
    requires !ChunkFirst(img[list[at]].slots, hashOf, ns, Truncated(key)) ==>
      IndexOn(img[list[at]].slots, ns, Truncated(key))
    ensures TakesChunk(img, list, hashOf, ns, Truncated(key)) <==>
      ChunkFirst(img[list[at]].slots, hashOf, ns, Truncated(key))
  {
    hide FindVia, ChunkFirst, IndexOn;
    forall j | 0 <= j < at
      ensures !IndexOn(img[list[j]].slots, ns, Truncated(key))
      && !ChunkFirst(img[list[j]].slots, hashOf, ns, Truncated(key)) {
      assert ListedStops(rams[list[j]], img[list[j]], hashOf, ns, key);
    }
  }

  lemma PartTypes(ns: byte, key: string, b: Blob, r: Rec)
    requires BlobOk(b) && if r.item.typ.BLOB_DATA? then r in ChunksOf(ns, key, b) else r == IndexOf(ns, key, b)
    ensures !r.item.typ.BLOB_DATA? ==> r.item.typ.BLOB_IDX?
  {
    hide ChunksOf;
  }

  // The same for any listed page; on one not yet in use there is nothing.
  ghost predicate ListedStops(r: Ram, fp: FPage, hashOf: Id -> nat, ns: byte, key: string) {
    if LiveState(r.state) then PageStops(fp.slots, hashOf, ns, key)
    else !IndexOn(fp.slots, ns, Truncated(key)) && !ChunkFirst(fp.slots, hashOf, ns, Truncated(key))
  }

  lemma FreshHasNone(rams: seq<Ram>, img: seq<FPage>, list: seq<nat>, free: seq<nat>, next: nat, hashOf: Id -> nat,
                     ns: byte, key: string, j: nat)
    requires InOrder(rams, img, list, free, next, hashOf) && j < |list| && list[j] < |img| == |rams|
      && !LiveState(rams[list[j]].state)
    ensures !IndexOn(img[list[j]].slots, ns, key) && !ChunkFirst(img[list[j]].slots, hashOf, ns, key)
  {
    hide Recs;
    CurrentPage(rams, img, hashOf, list[j]);
  }

  // Only an index or a chunk has a name that stands for a blob: under any other type nothing is found.
  lemma BlobNotTyped(live: multiset<Rec>, ns: byte, typ: ItemType, key: string, b: Blob)
    requires OnlyBlob(live, ns, key, Some(b)) && PlainType(typ)
    ensures NoneOfType(live, ns, typ, Truncated(key))
  {
    hide BlobOk, PartsOf;
    forall r | r in live && OfName(r, ns, Truncated(key)) ensures r.item.typ != typ {
      var i := PartIs(ns, key, b, r);
    }
  }

  // What has been found of the blob: nothing under a type; otherwise the index, or else a chunk.
  lemma FoundOfBlob(rams: seq<Ram>, img: seq<FPage>, list: seq<nat>, free: seq<nat>, next: nat, hashOf: Id -> nat,
                    live: multiset<Rec>, ns: byte, typ: ItemType, key: string, b: Blob, found: bool, at: nat,
                    index: nat, item: Option<Item>) returns (chunk: Option<Rec>)
    requires Keeps(rams, img, list, free, next, hashOf, live) && OnlyBlob(live, ns, key, Some(b)) && ns != NS_ANY
      && PlainType(typ)
    requires found ==>
      Locates(rams, img, list, KeyQuery(ns, typ, key), hashOf, at, index) && IsItemAt(img, list, at, index, item)
    requires !found ==> NoHitBefore(rams, img, list, KeyQuery(ns, typ, key), hashOf, |list|)
    ensures BlobOk(b) && (found <==> typ.ANY?)
    ensures found ==> at < |list| && (chunk.Some? <==> TakesChunk(img, list, hashOf, ns, Truncated(key)))
    ensures found && chunk.Some? ==>
      chunk.value in ChunksOf(ns, key, b) && IsAt(rams, img, list[at], index, chunk.value) && item.value.typ.BLOB_DATA?
    ensures found && chunk.None? ==>
      item.value.typ.BLOB_IDX? && item.value.val == BlobIndex(|b.data|, |b.pieces|, b.start)
    ensures found && chunk.None? ==> InReach(rams, img, list, hashOf, ns, key, b.start, b)
  {
    hide RamOk, Live, InOrder, BlobOk, PartsOf, ChunksOf, IndexOf, FindVia, OnlyBlob, TakesChunk, NoHitBefore, IsAt;
    chunk := None;
    if typ.ANY? {
      var r := FindsByName(rams, img, list, free, next, hashOf, live, ns, key, b, found, at, index);
      WasAt(rams, img, list[at], index, r);
      if r.item.typ.BLOB_DATA? {
        chunk := Some(r);
      } else {
        IndexMeans(ns, key, b);
        BlobErasable(live, ns, key, b);
        ErasableIsInReach(rams, img, list, free, next, hashOf, ns, key, b.start, b);
      }
    } else {
      OnlyBlobHas(live, ns, key, b);
      BlobNotTyped(live, ns, typ, key, b);
      if found {
        var r := HitIsNamed(rams, img, list, free, next, hashOf, ns, typ, key, at, index);
      }
    }
  }

  lemma BlobErasable(live: multiset<Rec>, ns: byte, key: string, b: Blob)
    requires OnlyBlob(live, ns, key, Some(b)) && ns != NS_ANY
    ensures Erasable(live, ns, key, b.start, b)
  {
    hide BlobOk, PartsOf, IndexOf, ChunkOfBlob, Judge;
    ChunksFound(live, ns, key, b);
    IndexTaken(ns, key, b);
    forall x | x in live && Asked(x, IndexQuery(ns, key, b.start)) ensures x == IndexOf(ns, key, b) {
      IndexAsked(x, ns, key, b.start);
      var i := PartIs(ns, key, b, x);
    }
  }

  lemma NotAnIndex(live: multiset<Rec>, ns: byte, key: string, r: Rec)
    requires NoBlob(live, ns, key) && RecordOf(live, ns, key, Some(r))
    ensures !r.item.typ.BLOB_IDX?
  {
  }

  // What erasing by name leaves: no part of the blob, or all but the chunk that was met.
  ghost predicate ByName(before: multiset<Rec>, now: multiset<Rec>, ns: byte, key: string, b: Blob, chunk: Option<Rec>,
                         lured: bool)
    requires BlobOk(b)
  {
    && (chunk.Some? <==> lured) && (chunk.Some? ==> chunk.value in ChunksOf(ns, key, b))
    && now == (if chunk.Some? then before - multiset{chunk.value} else WithoutBlob(before, ns, key, b))
  }

  // If no other record has the hash of the index, no chunk is met before it.
  lemma OwnHashFindsIndex(rams: seq<Ram>, img: seq<FPage>, list: seq<nat>, free: seq<nat>, next: nat, hashOf: Id -> nat,
                          live: multiset<Rec>, ns: byte, key: string, b: Blob)
    requires Keeps(rams, img, list, free, next, hashOf, live) && OnlyBlob(live, ns, key, Some(b)) && BlobOk(b)
    requires forall r :: r in live && hashOf(IdOf(r.item)) == hashOf(IdOf(IndexOf(ns, key, b).item)) ==>
      r == IndexOf(ns, key, b)
    ensures !TakesChunk(img, list, hashOf, ns, Truncated(key))
  {
    hide RamOk, Live, InOrder, BlobOk, PartsOf, ChunksOf, IndexOf, OnlyBlob, Whole;
    InRange(rams, img, list, free, next, hashOf);
    OnlyBlobHas(live, ns, key, b);
    forall j | 0 <= j < |list| ensures !ChunkFirst(img[list[j]].slots, hashOf, ns, Truncated(key)) {
      if LiveState(rams[list[j]].state) {
        OnlyPartsThere(rams, img, list, free, next, hashOf, live, ns, key, b, list[j]);
        forall k: nat | k < |img[list[j]].slots| && HasHash(img[list[j]].slots, k, hashOf,
          hashOf(Id(ns, Truncated(key), CHUNK_ANY)))
          ensures IndexItem(img[list[j]].slots[k].body.item, ns, Truncated(key))
        {
          FoundIsAt(rams, img, list, free, next, hashOf, list[j], k);
          WholeIsHead(img[list[j]].slots, k);
        }
      } else {
        FreshHasNone(rams, img, list, free, next, hashOf, ns, Truncated(key), j);
      }
    }
  }
}
