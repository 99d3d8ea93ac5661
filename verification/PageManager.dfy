// The pages of a partition (nvs_pagemanager.cpp): their order, the page in reserve, and moving
// items to a fresh page when space runs out.
module PageManagers {
  import opened NvsTypes
  import opened PageImage
  import opened PageRam
  import opened PageSteps
  import opened PageWrites
  import opened PageSearch
  import opened PageLoad
  import opened PageScan
  import opened PageValues
  import opened PageCuts
  import opened ItemHashList
  import opened FlashDevice
  import opened NvsPage
  import opened StoreImage
  import opened Recovery
  import opened PageLists
  import opened Startup
  import opened StoreWrites
  import opened Collections
  import opened StoreWalk
  import opened StoreAccounts

  class PageManager {
    const dev: Flash
    const hashOf: Id -> nat
    var pages: seq<Page>
    var pageList: seq<nat>
    var freeList: seq<nat>
    var seqNumber: nat

    constructor (dev: Flash, hashOf: Id -> nat)
      ensures this.dev == dev && this.hashOf == hashOf
    {
      this.dev, this.hashOf := dev, hashOf;
      pages, pageList, freeList, seqNumber := [], [], [], 0;
    }

    // Page i is on sector i, and no two page objects share anything but the device.
    ghost predicate Wired()
      reads `pages, dev
    {
      && |pages| == |dev.pages|
      && (forall i :: 0 <= i < |pages| ==> pages[i].dev == dev && pages[i].sector == i && pages[i].hashOf == hashOf)
      && (forall i, j :: 0 <= i < j < |pages| ==> pages[i] != pages[j] && pages[i].hashList != pages[j].hashList)
    }

    static ghost function ObjectsOf(ps: seq<Page>): set<object> {
      (set i | 0 <= i < |ps| :: ps[i] as object) + (set i | 0 <= i < |ps| :: ps[i].hashList as object)
    }

    ghost function Objects(): set<object>
      reads `pages
    {
      ObjectsOf(pages)
    }

    ghost function Rams(): (r: seq<Ram>)
      reads `pages, Objects()
      ensures |r| == |pages| && forall i :: 0 <= i < |pages| ==> r[i] == pages[i].Snapshot()
    {
      var ps := pages;
      seq(|ps|, i requires 0 <= i < |ps| reads ObjectsOf(ps) => ps[i].Snapshot())
    }

    ghost predicate HashListsOk()
      reads `pages, Objects()
    {
      forall i :: 0 <= i < |pages| ==> pages[i].hashList.Valid()
    }

    ghost predicate Ready()
      reads `pages, dev, Objects()
    {
      Wired() && HashListsOk() && RamsOk(Rams(), dev.pages, hashOf)
    }

    ghost predicate Valid()
      reads this, dev, Objects()
    {
      Ready() && InOrder(Rams(), dev.pages, pageList, freeList, seqNumber, hashOf)
    }

    // ---------------------------------------------------------------- one page at a time

    // What an operation on page i leaves of the others.
    twostate predicate OnlyTouched(i: nat)
      reads `pages, Objects()
    {
      && pages == old(pages) && i < |pages|
      && (forall j :: 0 <= j < |pages| && j != i ==>
           pages[j].Snapshot() == old(pages[j].Snapshot()) && pages[j].hashList.Valid())
    }

    twostate lemma Touched(i: nat)
      requires old(Wired()) && Wired() && OnlyTouched(i)
      ensures Rams() == old(Rams())[i := pages[i].Snapshot()]
    {
    }

    method MarkFreeingAt(i: nat)
      requires Ready() && i < |pages| && (Rams()[i].state.FULL? || Rams()[i].state.ACTIVE?)
      modifies dev, pages[i], pages[i].hashList
      ensures pages == old(pages) && pageList == old(pageList) && freeList == old(freeList)
        && seqNumber == old(seqNumber)
      ensures Ready() && Rams() == old(Rams())[i := old(Rams())[i].(state := FREEING)]
      ensures dev.pages == old(dev.pages)[i := FPage(Header(FREEING, Rams()[i].seqNo), old(dev.pages)[i].slots)]
      ensures dev.cuts == old(dev.cuts) + iset{dev.pages}
    {
      hide HashList.Valid, RamOk;
      assert pages[i].Valid();
      var err := pages[i].MarkFreeing();
      Touched(i);
    }

    method EraseAt(i: nat)
      requires Ready() && i < |pages|
      modifies dev, pages[i], pages[i].hashList
      ensures pages == old(pages) && pageList == old(pageList) && freeList == old(freeList)
        && seqNumber == old(seqNumber)
      ensures Ready() && OnlyAt(old(Rams()), Rams(), i)
      ensures Rams()[i].state.UNINITIALIZED? && Rams()[i].seqNo == old(Rams())[i].seqNo
      ensures dev.pages == old(dev.pages)[i := ErasedPage()]
      ensures dev.cuts == old(dev.cuts) + iset{dev.pages}
    {
      hide HashList.Valid, RamOk;
      assert pages[i].Valid();
      pages[i].Erase();
      Touched(i);
    }

    method SetSeqNumberAt(i: nat, n: nat)
      requires Ready() && i < |pages| && Rams()[i].state.UNINITIALIZED?
      modifies pages[i]
      ensures pages == old(pages) && pageList == old(pageList) && freeList == old(freeList)
        && seqNumber == old(seqNumber)
      ensures Ready() && Rams() == old(Rams())[i := old(Rams())[i].(seqNo := n)]
    {
      hide HashList.Valid, RamOk;
      assert pages[i].Valid();
      var err := pages[i].SetSeqNumber(n);
      Touched(i);
    }

    method EraseItemAt(i: nat, q: Query) returns (err: Error)
      requires Ready() && i < |pages|
      modifies dev, pages[i], pages[i].hashList
      ensures pages == old(pages) && pageList == old(pageList) && freeList == old(freeList)
        && seqNumber == old(seqNumber)
      ensures Ready() && OnlyAt(old(Rams()), Rams(), i) && SameFace(old(Rams())[i], Rams()[i])
      ensures OnlyPage(old(dev.pages), dev.pages, i) && dev.pages[i].hdr == old(dev.pages)[i].hdr
      ensures err == OK <==> LiveState(Rams()[i].state) && FindVia(old(dev.pages)[i].slots, q, hashOf, 0).Hit?
      ensures err != OK ==> dev.pages == old(dev.pages) && dev.cuts == old(dev.cuts) && Rams() == old(Rams())
      ensures err == OK ==> Whole(old(dev.pages)[i].slots, FindVia(old(dev.pages)[i].slots, q, hashOf, 0).index)
      ensures err == OK ==>
        ItemEraseCut(old(dev.pages), dev.pages, i, Rams()[i].top, FindVia(old(dev.pages)[i].slots, q, hashOf, 0).index)
      ensures forall c :: c in dev.cuts && c !in old(dev.cuts) ==>
        err == OK
          && ItemEraseCut(old(dev.pages), c, i, Rams()[i].top, FindVia(old(dev.pages)[i].slots, q, hashOf, 0).index)
      ensures err == OK ==> var h := FindVia(old(dev.pages)[i].slots, q, hashOf, 0).index;
        Recs(dev.pages[i].slots) == RecsIn(old(dev.pages)[i].slots, 0, h) + RecsIn(old(dev.pages)[i].slots, h + 1,
          ENTRY_COUNT)
        && Removed(old(dev.pages)[i].slots, dev.pages[i].slots, Rams()[i].top, h)
    {
      hide HashList.Valid, RamOk, FindVia, Recs, RecsIn, Removed, ItemEraseCut, Whole;
      assert pages[i].Valid();
      err := pages[i].EraseItem(q);
      Touched(i);
      if err == OK {
        RemovedIsEraseCut(old(dev.pages), dev.pages, i, Rams()[i].top,
          FindVia(old(dev.pages)[i].slots, q, hashOf, 0).index);
      }
    }

    // Copies the items of page e to the fresh page t.
    method CopyItemsAt(e: nat, t: nat) returns (err: Error)
      requires Ready() && e < |pages| && t < |pages| && e != t
      requires LiveState(Rams()[e].state) && Rams()[t].state.UNINITIALIZED?
      modifies dev, pages[t], pages[t].hashList
      ensures pages == old(pages) && pageList == old(pageList) && freeList == old(freeList)
        && seqNumber == old(seqNumber)
      ensures Ready() && OnlyAt(old(Rams()), Rams(), t) && OnlyPage(old(dev.pages), dev.pages, t)
      ensures err == if Rams()[e].firstUsed == INVALID_ENTRY then NOT_FOUND else OK
      ensures err == NOT_FOUND ==> dev.pages == old(dev.pages) && Rams() == old(Rams()) && RecsOf(dev.pages[e]) == []
      ensures err == OK ==>
        Rams()[t].state.ACTIVE? && Rams()[t].nextFree == Rams()[t].used && Rams()[t].seqNo == old(Rams())[t].seqNo
      ensures Rams()[t].used == Rams()[e].used && RecsOf(dev.pages[t]) == RecsOf(dev.pages[e])
      ensures forall c :: c in dev.cuts && c !in old(dev.cuts) ==>
        CopyCut(old(dev.pages), c, t, old(Rams())[t].seqNo, RecsOf(dev.pages[e]))
    {
      hide HashList.Valid, InUse, Recs, CopyCut;
      assert pages[e].Valid() && pages[t].Valid();
      err := pages[e].CopyItems(pages[t]);
      Touched(t);
    }

    method FindItemAt(i: nat, q: Query, from: nat) returns (err: Error, index: nat, item: Option<Item>)
      requires Ready() && i < |pages| && (LiveState(Rams()[i].state) ==> Boundary(dev.pages[i].slots, from))
      ensures Ready() && Rams() == old(Rams())
      ensures LiveState(Rams()[i].state) ==>
        Answers(err, index, item, dev.pages[i].slots, FindVia(dev.pages[i].slots, q, hashOf, from))
      ensures !LiveState(Rams()[i].state) ==> err == NOT_FOUND
    {
      hide HashList.Valid, RamOk, FindVia, Boundary, Answers;
      assert pages[i].Valid();
      err, index, item := pages[i].FindItem(q, from);
    }

    method CmpItemAt(i: nat, q: Query, data: seq<byte>) returns (err: Error)
      requires Ready() && i < |pages| && !q.typ.ANY? && !q.typ.BLOB_IDX?
      ensures Ready() && Rams() == old(Rams())
      ensures LiveState(Rams()[i].state) ==>
        CmpAnswers(err, data, dev.pages[i].slots, FindVia(dev.pages[i].slots, q, hashOf, 0), q.typ)
    {
      hide HashList.Valid, RamOk, FindVia, CmpAnswers;
      assert pages[i].Valid();
      err := pages[i].CmpItem(q, data);
    }

    method ReadItemAt(i: nat, q: Query, size: nat) returns (err: Error, data: seq<byte>)
      requires Ready() && i < |pages| && !q.typ.ANY? && !q.typ.BLOB_IDX?
      ensures Ready() && Rams() == old(Rams())
      ensures LiveState(Rams()[i].state) ==>
        ReadAnswers(err, data, dev.pages[i].slots, FindVia(dev.pages[i].slots, q, hashOf, 0), q.typ, size)
    {
      hide HashList.Valid, RamOk, FindVia, ReadAnswers;
      assert pages[i].Valid();
      err, data := pages[i].ReadItem(q, size);
    }

    // The data of the item of variable length at entry `index` of page i.
    method ReadVariableAt(i: nat, item: Item, index: nat) returns (data: seq<byte>)
      requires Ready() && i < |pages| && LiveState(Rams()[i].state) && index < ENTRY_COUNT
        && Whole(dev.pages[i].slots, index)
      requires item == dev.pages[i].slots[index].body.item && IsVariableLengthType(item.typ)
      ensures Ready() && Rams() == old(Rams()) && WholeRec(RecAt(dev.pages[i].slots, index))
        && data == DataOf(RecAt(dev.pages[i].slots, index))
      ensures |data| == item.val.dataSize
    {
      hide HashList.Valid, RamOk, Whole, WholeRec, DataOf;
      assert pages[i].Valid();
      RamIsLoadable(Rams()[i], dev.pages[i], hashOf);
      ItemIsWhole(dev.pages[i].slots, pages[i].top, index);
      data := pages[i].ReadVariable(item, index);
    }

    method MarkFullAt(i: nat) returns (err: Error)
      requires Ready() && i < |pages|
      modifies dev, pages[i], pages[i].hashList
      ensures pages == old(pages) && pageList == old(pageList) && freeList == old(freeList)
        && seqNumber == old(seqNumber)
      ensures Ready() && err == if old(Rams())[i].state.ACTIVE? then OK else INVALID_STATE
      ensures err == OK ==> Rams() == old(Rams())[i := old(Rams())[i].(state := FULL)]
      ensures err == OK ==>
        dev.pages == old(dev.pages)[i := FPage(Header(FULL, Rams()[i].seqNo), old(dev.pages)[i].slots)]
      ensures err == OK ==> dev.cuts == old(dev.cuts) + iset{dev.pages}
      ensures err != OK ==> Rams() == old(Rams()) && dev.pages == old(dev.pages) && dev.cuts == old(dev.cuts)
    {
      hide HashList.Valid, RamOk;
      assert pages[i].Valid();
      err := pages[i].MarkFull();
      Touched(i);
    }

    method WriteItemAt(i: nat, ns: byte, typ: ItemType, key: string, v: Input, chunk: byte) returns (err: Error)
      requires Ready() && i < |pages| && ns != NS_ANY && WellFormed(typ, v, chunk)
      requires Rams()[i].state.UNINITIALIZED? || Rams()[i].state.ACTIVE? || Rams()[i].state.FULL?
      modifies dev, pages[i], pages[i].hashList
      ensures pages == old(pages) && pageList == old(pageList) && freeList == old(freeList)
        && seqNumber == old(seqNumber)
      ensures Ready() && OnlyAt(old(Rams()), Rams(), i) && OnlyPage(old(dev.pages), dev.pages, i)
      ensures err == WriteVerdict(old(Rams())[i].state, old(Rams())[i].nextFree, typ, key, v)
      ensures Rams()[i].seqNo == old(Rams())[i].seqNo && dev.pages[i].hdr == Header(Rams()[i].state, Rams()[i].seqNo)
      ensures Rams()[i].state == if old(Rams())[i].state.FULL? then FULL else ACTIVE
      ensures Recs(dev.pages[i].slots) ==
        Recs(old(dev.pages)[i].slots) + if err == OK then [RecOf(ns, typ, key, v, chunk)] else []
      ensures err != OK ==> Rams()[i].used == old(Rams())[i].used
      ensures err == OK ==> Rams()[i].used == old(Rams())[i].used + SpanFor(typ, v)
      ensures err == OK ==> Rams()[i].nextFree == FirstFree(old(Rams())[i]) + SpanFor(typ, v)
      ensures ItemsKept(old(dev.pages)[i].slots, dev.pages[i].slots)
      ensures err == OK ==> EndsInItem(dev.pages[i].slots) && dev.pages in dev.cuts
      ensures old(Rams())[i].state.FULL? ==> dev.pages == old(dev.pages) && dev.cuts == old(dev.cuts)
      ensures forall c :: c in dev.cuts && c !in old(dev.cuts) ==>
        PutCut(old(dev.pages), c, i, Rams()[i].seqNo, RecOf(ns, typ, key, v, chunk))
        && (err != OK ==> NothingPut(old(dev.pages), c, i))
    {
      hide HashList.Valid, RamOk, Recs, PutCut, NothingPut, Partial, WriteVerdict, ItemsKept, EndsInItem;
      assert pages[i].Valid();
      err := pages[i].WriteItem(ns, typ, key, v, chunk);
      Touched(i);
    }

    // Erases the item that starts at entry `index` of page i.
    method EraseEntryAt(i: nat, index: nat)
      requires Ready() && i < |pages| && LiveState(Rams()[i].state) && index < ENTRY_COUNT
        && Whole(dev.pages[i].slots, index)
      modifies dev, pages[i], pages[i].hashList
      ensures pages == old(pages) && pageList == old(pageList) && freeList == old(freeList)
        && seqNumber == old(seqNumber)
      ensures Ready() && OnlyAt(old(Rams()), Rams(), i) && SameFace(old(Rams())[i], Rams()[i])
      ensures OnlyPage(old(dev.pages), dev.pages, i) && dev.pages[i].hdr == old(dev.pages)[i].hdr
      ensures Recs(dev.pages[i].slots) ==
        RecsIn(old(dev.pages)[i].slots, 0, index) + RecsIn(old(dev.pages)[i].slots, index + 1, ENTRY_COUNT)
      ensures forall c :: c in dev.cuts && c !in old(dev.cuts) ==>
        ItemEraseCut(old(dev.pages), c, i, Rams()[i].top, index)
      ensures Removed(old(dev.pages)[i].slots, dev.pages[i].slots, Rams()[i].top, index)
    {
      hide HashList.Valid, RamOk, Recs, RecsIn, Removed, ItemEraseCut;
      assert pages[i].Valid();
      pages[i].EraseItemAt(index);
      Touched(i);
    }

    // ---------------------------------------------------------------- the two lists

    method ClearAt(p: nat)
      requires Ready() && p < |pages| && FreeState(Rams()[p].state)
      modifies dev, pages[p], pages[p].hashList
      ensures pages == old(pages) && pageList == old(pageList) && freeList == old(freeList)
        && seqNumber == old(seqNumber)
      ensures Ready() && OnlyAt(old(Rams()), Rams(), p) && Rams()[p].state.UNINITIALIZED?
      ensures dev.pages != old(dev.pages) || dev.cuts != old(dev.cuts) ==>
        dev.pages == old(dev.pages)[p := ErasedPage()] && dev.cuts == old(dev.cuts) + iset{dev.pages}
      ensures old(dev.pages)[p] == ErasedPage() ==> dev.pages == old(dev.pages) && dev.cuts == old(dev.cuts)
    {
      hide HashList.Valid, RamOk;
      if pages[p].state.CORRUPT? {
        CorruptIsNotErased(Rams()[p], dev.pages[p], hashOf);
        EraseAt(p);
      }
    }

    method ActivatePage() returns (err: Error)
      requires Ready() && Partition(|pages|, pageList, freeList) && AllFree(Rams(), freeList)
      modifies this, dev, Objects()
      ensures Ready() && pages == old(pages) && err == if old(freeList) == [] then NOT_ENOUGH_SPACE else OK
      ensures err != OK ==> Rams() == old(Rams()) && dev.pages == old(dev.pages) && dev.cuts == old(dev.cuts)
      ensures err != OK ==> pageList == old(pageList) && freeList == old(freeList) && seqNumber == old(seqNumber)
      ensures err == OK ==> pageList == old(pageList) + [old(freeList)[0]] && freeList == old(freeList)[1..]
      ensures err == OK ==> seqNumber == old(seqNumber) + 1 && OnlyAt(old(Rams()), Rams(), old(freeList)[0])
      ensures err == OK ==>
        Rams()[old(freeList)[0]].state.UNINITIALIZED? && Rams()[old(freeList)[0]].seqNo == old(seqNumber)
      ensures err == OK && (dev.pages != old(dev.pages) || dev.cuts != old(dev.cuts)) ==>
        dev.pages == old(dev.pages)[old(freeList)[0] := ErasedPage()] && dev.cuts == old(dev.cuts) + iset{dev.pages}
      ensures err == OK && old(dev.pages)[old(freeList)[0]] == ErasedPage() ==>
        dev.pages == old(dev.pages) && dev.cuts == old(dev.cuts)
    {
      hide HashList.Valid, RamOk, RamsOk, Partition, AllFree, OnlyAt;
      if freeList == [] {
        return NOT_ENOUGH_SPACE;
      }
      FrontIsFree(Rams(), freeList);
      var p := freeList[0];
      ghost var rams := Rams();
      ClearAt(p);
      ghost var cleared := Rams();
      freeList := freeList[1..];
      pageList := pageList + [p];
      assert Rams() == cleared;
      SetSeqNumberAt(p, seqNumber);
      OnlyAtTwice(rams, cleared, Rams(), p);
      ghost var numbered := Rams();
      seqNumber := seqNumber + 1;
      assert Rams() == numbered;
      err := OK;
    }

    // ---------------------------------------------------------------- making room

    ghost predicate CutsSafe(img: seq<FPage>, cuts0: iset<seq<FPage>>)
      reads dev
    {
      forall c :: c in dev.cuts && c !in cuts0 ==> Safe(img, c, Live(img))
    }

    // Marks page list[at] as being freed and takes the page in reserve.
    method BeginCollect(at: nat)
      requires Valid() && |freeList| == 1 && at < |pageList| && Rams()[pageList[|pageList| - 1]].state.FULL?
      requires LiveState(Rams()[pageList[at]].state)
      modifies this, dev, Objects()
      ensures Ready() && pages == old(pages) && seqNumber == old(seqNumber) + 1
      ensures pageList == old(pageList) + [old(freeList)[0]] && freeList == [] && |dev.pages| == |old(dev.pages)|
      ensures Elsewhere(old(Rams()), old(dev.pages), Rams(), dev.pages, old(pageList)[at], old(freeList)[0])
      ensures Rams()[old(pageList)[at]] == old(Rams())[old(pageList)[at]].(state := FREEING)
      ensures dev.pages[old(pageList)[at]] ==
        FPage(Header(FREEING, Rams()[old(pageList)[at]].seqNo), old(dev.pages)[old(pageList)[at]].slots)
      ensures RecsOf(dev.pages[old(pageList)[at]]) == RecsOf(old(dev.pages)[old(pageList)[at]])
      ensures Rams()[old(freeList)[0]].state.UNINITIALIZED? && Rams()[old(freeList)[0]].seqNo == old(seqNumber)
      ensures Freeing(dev.pages, old(Live(dev.pages)), old(pageList)[at])
        && (ChunksApart(old(dev.pages)) ==> ChunksApart(dev.pages))
      ensures CutsSafe(old(dev.pages), old(dev.cuts))
      ensures forall c :: c in dev.cuts && c !in old(dev.cuts) ==> SomeFreeing(c)
    {
      hide HashList.Valid, RamOk, RamsOk, Freeing, Stable, Recoverable, Live, ChunksApart, Partition, AllFree,
        NoneActive, Wired, HashListsOk, Elsewhere, Safe, RecsOf, Ascending, Below, States;
      ghost var img, live, p := dev.pages, Live(dev.pages), freeList[0];
      var e := pageList[at];
      BeforeMove(Rams(), img, pageList, freeList, seqNumber, hashOf, at);
      MarkFreeingAt(e);
      ghost var mid, rams := dev.pages, Rams();
      MarkFreeingKeeps(img, mid, e, live);
      SameRecs(img[e], mid[e]);
      FreeingIsSafe(img, mid, live, e);
      AllFreeStill(old(Rams()), rams, freeList, e);
      var err := ActivatePage();
      FreshIsSafe(img, mid, dev.pages, e, p, live);
      ElsewhereTwo(old(Rams()), img, rams, mid, Rams(), dev.pages, e, p);
    }

    // Copies what is left on page e to page p and erases page e.
    method MoveItems(e: nat, p: nat, ghost img: seq<FPage>, ghost live: multiset<Rec>)
      requires Ready() && e < |pages| && p < |pages| && e != p
      requires Rams()[e].state.FREEING? && Rams()[p].state.UNINITIALIZED?
      requires Freeing(dev.pages, live, e) && (ChunksApart(img) ==> ChunksApart(dev.pages))
      requires forall q :: 0 <= q < |dev.pages| && dev.pages[q].hdr.Header? ==> dev.pages[q].hdr.seqNo < Rams()[p].seqNo
      modifies dev, pages[e], pages[e].hashList, pages[p], pages[p].hashList
      ensures pages == old(pages) && pageList == old(pageList) && freeList == old(freeList)
        && seqNumber == old(seqNumber)
      ensures Ready() && Elsewhere(old(Rams()), old(dev.pages), Rams(), dev.pages, e, p)
      ensures Rams()[e].state.UNINITIALIZED? && Rams()[p].seqNo == old(Rams())[p].seqNo
      ensures Fresh(Rams()[p]) && Rams()[p].used == old(Rams())[e].used
      ensures RecsOf(dev.pages[p]) == RecsOf(old(dev.pages)[e])
      ensures Stable(dev.pages, live) && (ChunksApart(img) ==> ChunksApart(dev.pages))
      ensures forall c :: c in dev.cuts && c !in old(dev.cuts) ==>
        Safe(img, c, live) && (SomeFreeing(c) || c == dev.pages)
      ensures dev.pages in dev.cuts
    {
      hide HashList.Valid, RamOk, Freeing, Stable, Recoverable, Live, ChunksApart, CopyCut, RecsOf, SomeFreeing;
      ghost var img1 := dev.pages;
      ReservedIsErased(Rams(), img1, hashOf, p);
      var err := CopyItemsAt(e, p);
      ghost var img2, cuts2 := dev.pages, dev.cuts;
      if err == OK {
        RamsOkAt(Rams(), img2, hashOf, p);
        RamIsLoadable(Rams()[p], img2[p], hashOf);
        FullCopyIsCut(img1, img2, p, Rams()[p].seqNo, RecsOf(img1[e]));
      }
      CopiedIsSafe(img, img1, img2, cuts2, old(dev.cuts), e, p, Rams()[p].seqNo, live);
      CopiesStillFreeing(img1, live, cuts2, old(dev.cuts), e, p, Rams()[p].seqNo);
      EraseAt(e);
      EraseSource(img2, dev.pages, e, live);
      StableIsSafe(img, dev.pages, live);
    }

    // Moves what page list[at] holds to the page in reserve.
    method CollectPage(at: nat)
      requires Valid() && |freeList| == 1 && at < |pageList| && Rams()[pageList[|pageList| - 1]].state.FULL?
      requires LiveState(Rams()[pageList[at]].state)
      modifies this, dev, Objects()
      ensures Ready() && pages == old(pages) && seqNumber == old(seqNumber) + 1
        && Rams()[old(freeList)[0]].seqNo == old(seqNumber)
      ensures pageList == old(pageList) + [old(freeList)[0]] && freeList == []
      ensures InOrder(Rams(), dev.pages, Collected(old(pageList), at, old(freeList)[0]), [old(pageList)[at]], seqNumber,
        hashOf)
      ensures Elsewhere(old(Rams()), old(dev.pages), Rams(), dev.pages, old(pageList)[at], old(freeList)[0])
      ensures Rams()[old(pageList)[at]].state.UNINITIALIZED?
      ensures Fresh(Rams()[old(freeList)[0]]) && Rams()[old(freeList)[0]].used == old(Rams())[old(pageList)[at]].used
      ensures RecsOf(dev.pages[old(freeList)[0]]) == RecsOf(old(dev.pages)[old(pageList)[at]])
      ensures Live(dev.pages) == old(Live(dev.pages)) && (ChunksApart(old(dev.pages)) ==> ChunksApart(dev.pages))
      ensures CutsSafe(old(dev.pages), old(dev.cuts))
      ensures forall c :: c in dev.cuts && c !in old(dev.cuts) ==> SomeFreeing(c) || c == dev.pages
      ensures dev.pages in dev.cuts
    {
      hide SomeFreeing, HashList.Valid, RamOk, RamsOk, Freeing, Recoverable, Live, ChunksApart, Partition, Ascending,
        Below, States, AllFree, RecsOf, Safe, Elsewhere, Collected, Wired, HashListsOk, Stable, NoneActive;
      ghost var img, live, rams, list, free := dev.pages, Live(dev.pages), Rams(), pageList, freeList;
      var e, p := pageList[at], freeList[0];
      BeforeMove(rams, img, list, free, seqNumber, hashOf, at);
      BeginCollect(at);
      ReservedIsErased(Rams(), dev.pages, hashOf, p);
      HeadersBelow(rams, img, Rams(), dev.pages, e, p, old(seqNumber));
      ghost var mid, mids := dev.pages, Rams();
      MoveItems(e, p, img, live);
      ElsewhereTwice(rams, img, mids, mid, Rams(), dev.pages, e, p);
      CollectedInOrder(rams, img, list, free, old(seqNumber), hashOf, at, Rams(), dev.pages);
      StableLive(dev.pages, live);
    }

    // The moved page leaves the list and becomes the page in reserve.
    method Collect(at: nat)
      requires Valid() && |freeList| == 1 && at < |pageList| && Rams()[pageList[|pageList| - 1]].state.FULL?
      requires LiveState(Rams()[pageList[at]].state)
      modifies this, dev, Objects()
      ensures Valid() && pages == old(pages) && seqNumber == old(seqNumber) + 1
        && Rams()[old(freeList)[0]].seqNo == old(seqNumber)
      ensures pageList == Collected(old(pageList), at, old(freeList)[0]) && freeList == [old(pageList)[at]]
      ensures Elsewhere(old(Rams()), old(dev.pages), Rams(), dev.pages, old(pageList)[at], old(freeList)[0])
      ensures Rams()[old(pageList)[at]].state.UNINITIALIZED?
      ensures Fresh(Rams()[old(freeList)[0]]) && Rams()[old(freeList)[0]].used == old(Rams())[old(pageList)[at]].used
      ensures RecsOf(dev.pages[old(freeList)[0]]) == RecsOf(old(dev.pages)[old(pageList)[at]])
      ensures Live(dev.pages) == old(Live(dev.pages)) && (ChunksApart(old(dev.pages)) ==> ChunksApart(dev.pages))
      ensures CutsSafe(old(dev.pages), old(dev.cuts))
      ensures forall c :: c in dev.cuts && c !in old(dev.cuts) ==> SomeFreeing(c) || c == dev.pages
      ensures dev.pages in dev.cuts
    {
      hide HashList.Valid, RamsOk, Live, ChunksApart, InOrder, RecsOf, Safe, Elsewhere, SomeFreeing;
      ghost var list, p := pageList, freeList[0];
      var e := pageList[at];
      CollectPage(at);
      pageList := pageList[..at] + pageList[at + 1..];
      freeList := freeList + [e];
      assert pageList == Collected(list, at, p) && freeList == [e];
    }

    // The first listed page with the most entries that are not in use.
    method MostUnused() returns (at: nat, maxUnused: int)
      requires Ready() && (forall k :: 0 <= k < |pageList| ==> pageList[k] < |pages|)
      ensures maxUnused >= 0
        && (maxUnused > 0 ==> at < |pageList| && maxUnused == ENTRY_COUNT - Rams()[pageList[at]].used)
      ensures forall k :: 0 <= k < |pageList| ==> ENTRY_COUNT - Rams()[pageList[k]].used <= maxUnused
      ensures maxUnused > 0 ==> FirstOfLeast(Rams(), pageList, pageList[at])
    {
      hide HashList.Valid, RamsOk;
      at, maxUnused := 0, 0;
      var k := 0;
      while k < |pageList|
        invariant k <= |pageList| && maxUnused >= 0
        invariant maxUnused > 0 ==> at < k && maxUnused == ENTRY_COUNT - Rams()[pageList[at]].used
        invariant forall j :: 0 <= j < k ==> ENTRY_COUNT - Rams()[pageList[j]].used <= maxUnused
        invariant maxUnused > 0 ==> forall j :: 0 <= j < at ==> ENTRY_COUNT - Rams()[pageList[j]].used < maxUnused
      {
        var unused := ENTRY_COUNT - pages[pageList[k]].used;
        if unused > maxUnused {
          at, maxUnused := k, unused;
        }
        k := k + 1;
      }
      if maxUnused > 0 {
        IsFirstOfLeast(Rams(), pageList, at);
      }
    }

    // A second free page: nothing has to move.
    method TakeFreePage()
      requires Valid() && |freeList| >= 2 && Rams()[pageList[|pageList| - 1]].state.FULL?
      modifies this, dev, Objects()
      ensures Valid() && pages == old(pages) && seqNumber == old(seqNumber) + 1
        && Rams()[old(freeList)[0]].seqNo == old(seqNumber)
      ensures pageList == old(pageList) + [old(freeList)[0]] && freeList == old(freeList)[1..]
      ensures Elsewhere(old(Rams()), old(dev.pages), Rams(), dev.pages, old(freeList)[0], old(freeList)[0])
      ensures Rams()[old(freeList)[0]].state.UNINITIALIZED? && Rams()[old(freeList)[0]].used == 0
      ensures Live(dev.pages) == old(Live(dev.pages)) && (ChunksApart(old(dev.pages)) ==> ChunksApart(dev.pages))
      ensures CutsSafe(old(dev.pages), old(dev.cuts))
      ensures forall c :: c in dev.cuts && c !in old(dev.cuts) ==> c == dev.pages
    {
      hide HashList.Valid, RamOk, RamsOk, Stable, Recoverable, Live, ChunksApart, Partition, AllFree, Wired,
        HashListsOk, Elsewhere, Safe, Ascending, Below, States;
      ghost var img, rams, p := dev.pages, Rams(), freeList[0];
      ReserveIsFree(rams, img, pageList, freeList, seqNumber, hashOf);
      var err := ActivatePage();
      ActivatedInOrder(rams, img, old(pageList), old(freeList), old(seqNumber), hashOf, Rams(), dev.pages);
      ReservedIsErased(Rams(), dev.pages, hashOf, p);
      ClearedIsSafe(img, dev.pages, p, Live(img));
      ElsewhereOne(rams, img, Rams(), dev.pages, p);
    }

    // Makes room at the end of the page list. Every caller has marked the current page full before.
    // There is no room to make if and only if there is no second free page and every listed page is
    // in use to its last entry; then nothing changes. All images on the way come through being
    // loaded but possibly the last; that one does if and only if nothing had to move or the page
    // that was moved does not end in a chunk with an earlier chunk of its key.
    method RequestNewPage() returns (err: Error, ghost freed: nat)
      requires Valid() && Rams()[pageList[|pageList| - 1]].state.FULL?
      modifies this, dev, Objects()
      ensures Valid() && pages == old(pages) && (err == OK || err == NOT_ENOUGH_SPACE)
      ensures err == OK <==>
        |old(freeList)| >= 2 || exists k :: 0 <= k < |old(pageList)| && old(Rams())[old(pageList)[k]].used < ENTRY_COUNT
      ensures err != OK ==>
        pageList == old(pageList) && freeList == old(freeList) && Rams() == old(Rams()) && seqNumber == old(seqNumber)
      ensures err != OK ==> dev.pages == old(dev.pages) && dev.cuts == old(dev.cuts)
      ensures err == OK ==> seqNumber == old(seqNumber) + 1 && Rams()[old(freeList)[0]].seqNo == old(seqNumber)
      ensures err == OK ==>
        Relocated(old(Rams()), old(dev.pages), old(pageList), old(freeList), Rams(), dev.pages, pageList, freeList,
          freed)
      ensures err == OK && |old(freeList)| == 1 ==> FirstOfLeast(old(Rams()), old(pageList), freed)
      ensures Live(dev.pages) == old(Live(dev.pages)) && (ChunksApart(old(dev.pages)) ==> ChunksApart(dev.pages))
      ensures CutsSafe(old(dev.pages), old(dev.cuts))
      ensures forall c :: c in dev.cuts && c !in old(dev.cuts) ==> Kept(c, hashOf) || c == dev.pages
      ensures err == OK && |old(freeList)| == 1 ==> dev.pages in dev.cuts
      ensures err == OK && Unique(Live(dev.pages)) ==>
        (Kept(dev.pages, hashOf) <==> |old(freeList)| >= 2 || MoveKeepsOn(old(dev.pages), freed, hashOf))
    {
      hide HashList.Valid, RamsOk, Live, ChunksApart, Partition, AllFree, Wired, HashListsOk, Elsewhere, Safe,
        Ascending, Below, RecsOf, Relocated, Collected, Fresh, Kept, SomeFreeing, MoveKeepsOn, Unique, States, Stable,
        Recoverable, PageKept, FirstOfLeast;
      freed := 0;
      ghost var rams, img, list, free := Rams(), dev.pages, pageList, freeList;
      InRange(Rams(), dev.pages, pageList, freeList, seqNumber, hashOf);
      if |freeList| >= 2 {
        freed := freeList[0];
        TakeFreePage();
        TakenIsRelocated(rams, img, list, free, old(seqNumber), hashOf, Rams(), dev.pages);
        KeptNow(rams, img, list, free, Rams(), dev.pages, pageList, freeList, seqNumber, freed, hashOf, dev.cuts,
          old(dev.cuts));
        return OK, freed;
      }
      var at, maxUnused := MostUnused();
      if maxUnused == 0 {
        return NOT_ENOUGH_SPACE, freed;
      }
      freed := pageList[at];
      ListedStates(Rams(), pageList, at);
      Collect(at);
      MovedIsRelocated(rams, img, list, free, old(seqNumber), hashOf, Rams(), dev.pages, at);
      KeptNow(rams, img, list, free, Rams(), dev.pages, pageList, freeList, seqNumber, freed, hashOf, dev.cuts,
        old(dev.cuts));
      err := OK;
    }

    // ---------------------------------------------------------------- statistics

    // Entries in use are those of the records. What is available counts neither the reserve nor
    // anything a write could not use: none is left exactly when not even one entry finds a place.
    method FillStats() returns (st: Stats)
      requires Valid()
      ensures multiset(RecordList(dev.pages, pageList)) == Live(dev.pages)
        && st.used == SpanSum(RecordList(dev.pages, pageList))
      ensures StatsOf(st, |pages|, st.available)
      ensures st.available == 0 <==> !Room(Rams(), pageList, freeList, 1)
    {
      hide HashList.Valid, InOrder, RamsOk, SpanSum, ListRecs, Room, Wired, Live;
      AllAreListed(Rams(), dev.pages, pageList, freeList, seqNumber, hashOf);
      InRange(Rams(), dev.pages, pageList, freeList, seqNumber, hashOf);
      ListPartition(Rams(), dev.pages, pageList, freeList, seqNumber, hashOf);
      var used: int, free: int, total: nat := 0, 0, 0;
      ghost var rams := Rams();
      var k := 0;
      while k < |pageList|
        invariant Rams() == rams
        invariant k <= |pageList| && used + free == total == ENTRY_COUNT * k && used >= 0 && free >= 0
        invariant used + SpanSum(ListRecs(dev.pages, pageList, k)) == SpanSum(ListRecs(dev.pages, pageList, 0))
        invariant free + UnusedOf(Rams(), pageList, k) == UnusedOf(Rams(), pageList, 0)
      {
        ListedSum(Rams(), dev.pages, pageList, freeList, seqNumber, hashOf, k);
        var p := pages[pageList[k]];
        total := total + ENTRY_COUNT;
        if p.state.UNINITIALIZED? || p.state.CORRUPT? {
          free := free + ENTRY_COUNT;
        } else {
          used, free := used + p.used, free + ENTRY_COUNT - p.used;
        }
        k := k + 1;
      }
      NoMoreRecs(dev.pages, pageList, k);
      total := total + |freeList| * ENTRY_COUNT;
      free := free + |freeList| * ENTRY_COUNT;
      SpareIsRoom(Rams(), dev.pages, pageList, freeList, seqNumber, hashOf, free - ENTRY_COUNT);
      st := Stats(used, free, if free >= ENTRY_COUNT then free - ENTRY_COUNT else 0, total);
    }

    // ---------------------------------------------------------------- bringing the store up

    ghost predicate Loading(i: nat)
      reads `pages, dev, Objects()
    {
      Wired() && HashListsOk() && LoadedTo(Rams(), dev.pages, i, hashOf)
    }

    method LoadPage(i: nat)
      requires Loading(i) && i < |pages|
      modifies dev, pages[i], pages[i].hashList
      ensures pages == old(pages) && pageList == old(pageList) && freeList == old(freeList)
        && seqNumber == old(seqNumber)
      ensures Loading(i + 1) && OnlyAt(old(Rams()), Rams(), i)
      ensures OnlyPage(old(dev.pages), dev.pages, i) && dev.pages[i].hdr == old(dev.pages)[i].hdr
      ensures !dev.pages[i].hdr.Header? ==> dev.pages == old(dev.pages) && dev.cuts == old(dev.cuts)
      ensures dev.pages[i].hdr.Header? ==> LoadCut(old(dev.pages), dev.pages, i, hashOf)
      ensures Loadable(dev.pages[i])
      ensures dev.pages[i].hdr.Header? ==> RecsOf(dev.pages[i]) == LoadedRecsOf(old(dev.pages)[i], hashOf)
      ensures forall c :: c in dev.cuts && c !in old(dev.cuts) ==> LoadCut(old(dev.pages), c, i, hashOf)
      ensures Clean(old(dev.pages)[i], hashOf) ==> dev.pages == old(dev.pages) && dev.cuts == old(dev.cuts)
    {
      hide HashList.Valid, RamOk, Loadable, LoadCut, Clean, HashesApart, LoadedTo, Recs, LoadedRecs;
      ghost var rams, img := Rams(), dev.pages;
      NotYetLoaded(rams, img, i, hashOf);
      pages[i].Load();
      Touched(i);
      LoadedMore(rams, img, Rams(), dev.pages, i, hashOf);
      LoadedIsCut(img, dev.pages, i, Rams()[i], hashOf);
    }

    // The first listed page with a greater sequence number.
    method FindPlace(i: nat) returns (pos: nat)
      requires Loading(i + 1) && i < |pages| && Ascending(Rams(), pageList)
      requires forall k :: 0 <= k < |pageList| ==> Rams()[pageList[k]].seqNo != Rams()[i].seqNo
      ensures pos <= |pageList| && forall k :: 0 <= k < pos ==> Rams()[pageList[k]].seqNo < Rams()[i].seqNo
      ensures pos < |pageList| ==> Rams()[pageList[pos]].seqNo > Rams()[i].seqNo
    {
      hide HashList.Valid, LoadedTo, HashListsOk;
      pos := 0;
      while pos < |pageList| && pages[pageList[pos]].seqNo <= pages[i].seqNo
        invariant pos <= |pageList|
        invariant forall k :: 0 <= k < pos ==> Rams()[pageList[k]].seqNo < Rams()[i].seqNo
      {
        pos := pos + 1;
      }
    }

    // A page without a sequence number goes to the free list, any other to its place in the order.
    method Place(i: nat)
      requires Loading(i + 1) && i < |pages| && Placed(Rams(), pageList, freeList, i)
      requires LiveState(Rams()[i].state) || FreeState(Rams()[i].state)
      requires LiveState(Rams()[i].state) ==>
        forall k :: 0 <= k < |pageList| ==> Rams()[pageList[k]].seqNo != Rams()[i].seqNo
      modifies this`pageList, this`freeList
      ensures Loading(i + 1) && Rams() == old(Rams()) && Placed(Rams(), pageList, freeList, i + 1)
    {
      hide HashList.Valid, LoadedTo, Placed, Ascending;
      ghost var rams := Rams();
      PlacedMeans(rams, pageList, freeList, i);
      if !LiveState(pages[i].state) {
        PlacedFree(rams, pageList, freeList, i);
        freeList := freeList + [i];
        assert Rams() == rams;
        return;
      }
      var pos := FindPlace(i);
      PlacedListed(rams, pageList, freeList, i, pos);
      pageList := Inserted(pageList, pos, i);
      assert Rams() == rams;
    }

    method CreatePages()
      requires forall j :: 0 <= j < |dev.pages| ==> |dev.pages[j].slots| == ENTRY_COUNT && Loadable(dev.pages[j])
      modifies this
      ensures Loading(0) && fresh(Objects()) && pageList == [] == freeList
    {
      hide Loadable, HashList.Valid;
      var ps: seq<Page> := [];
      var i := 0;
      while i < |dev.pages|
        invariant i <= |dev.pages| && |ps| == i
        invariant forall k :: 0 <= k < i ==> ps[k].dev == dev && ps[k].sector == k && ps[k].hashOf == hashOf
        invariant forall k :: 0 <= k < i ==>
          fresh(ps[k]) && fresh(ps[k].hashList) && ps[k].hashList.Valid() && ps[k].Snapshot() == NewRam()
        invariant forall j, k :: 0 <= j < k < i ==> ps[j] != ps[k] && ps[j].hashList != ps[k].hashList
      {
        var p := new Page(dev, i, hashOf);
        ps := ps + [p];
        i := i + 1;
      }
      pages, pageList, freeList := ps, [], [];
    }

    // The first loop of load: every page in turn, and into the lists.
    method LoadPages(ghost live: multiset<Rec>) returns (ghost kept: multiset<Rec>)
      requires Loading(0) && pageList == [] == freeList
      requires Halfway(dev.pages, dev.pages, 0, live, live, hashOf) && Sound(dev.pages)
      modifies this`pageList, this`freeList, dev, Objects()
      ensures Loading(|pages|) && Placed(Rams(), pageList, freeList, |pages|)
      ensures Halfway(old(dev.pages), dev.pages, |dev.pages|, live, kept, hashOf)
      ensures Kept(old(dev.pages), hashOf) ==>
        forall c :: c in dev.cuts && c !in old(dev.cuts) ==> Safe(old(dev.pages), c, live)
      ensures AllClean(old(dev.pages), hashOf) ==> dev.pages == old(dev.pages) && dev.cuts == old(dev.cuts)
    {
      hide HashList.Valid, Halfway, Sound, LoadedTo, Placed, HashListsOk, LoadCut, Clean, Safe, Kept, RecsOf,
        LoadedRecsOf;
      ghost var img0 := dev.pages;
      kept := live;
      NonePlaced(Rams());
      var i := 0;
      while i < |pages|
        invariant i <= |pages| && Loading(i) && Placed(Rams(), pageList, freeList, i)
        invariant Halfway(img0, dev.pages, i, live, kept, hashOf)
        invariant Kept(img0, hashOf) ==> forall c :: c in dev.cuts && c !in old(dev.cuts) ==> Safe(img0, c, live)
        invariant AllClean(img0, hashOf) ==> dev.pages == img0 && dev.cuts == old(dev.cuts)
      {
        ghost var img, cuts, rams := dev.pages, dev.cuts, Rams();
        LoadPage(i);
        kept := PageLoaded(img0, img, dev.pages, dev.cuts, cuts, i, live, kept, hashOf);
        PlacedStill(rams, Rams(), pageList, freeList, i);
        HalfwaySound(img0, dev.pages, i + 1, live, kept, hashOf);
        SequencesDiffer(Rams(), dev.pages, pageList, freeList, i, kept, hashOf);
        Place(i);
        i := i + 1;
      }
    }

    // The last item of page p: every search starts behind the item found before.
    method LastItem(p: nat) returns (item: Option<Item>)
      requires Ready() && p < |pages| && LiveState(Rams()[p].state)
      ensures item.None? <==> Recs(dev.pages[p].slots) == []
      ensures item.Some? ==> EndsIn(Recs(dev.pages[p].slots), item.value) && WritableId(item.value)
    {
      hide HashList.Valid, Working, Quiet, Recs, FindVia;
      assert pages[p].Valid();
      ghost var s := dev.pages[p].slots;
      ghost var last: Option<nat> := None;
      item := None;
      var itemIndex: nat := 0;
      var err, index: nat, found := pages[p].FindItem(ANY_ITEM, itemIndex);
      NextItemFound(s, itemIndex, hashOf);
      while err == OK
        invariant Boundary(s, itemIndex) && LastBefore(s, itemIndex, last)
          && Answers(err, index, found, s, FindVia(s, ANY_ITEM, hashOf, itemIndex))
        invariant err == OK ==>
          index < |s| && IsHead(s[index]) && itemIndex <= index && found == Some(s[index].body.item)
        invariant err == OK ==> forall k: nat :: itemIndex <= k < index ==> !IsHead(s[k])
        invariant err != OK ==> forall k: nat :: itemIndex <= k < |s| ==> !IsHead(s[k])
        invariant item == if last.None? then None else Some(s[last.value].body.item)
        decreases if err == OK then ENTRY_COUNT - itemIndex else -1
      {
        QuietItem(s, pages[p].top, index);
        last := Some(index);
        item := found;
        itemIndex := index + found.value.span;
        err, index, found := pages[p].FindItem(ANY_ITEM, itemIndex);
        NextItemFound(s, itemIndex, hashOf);
      }
      LastOfAll(s, pages[p].top, itemIndex, last);
    }

    // What load knows between its loops.
    ghost predicate Surveying(live: multiset<Rec>)
      reads this, dev, Objects()
    {
      Ready() && Surveyed(Rams(), dev.pages, pageList, freeList, live, hashOf)
    }

    // The duplicate check on page x: erases the old record if it is there.
    method EraseTwin(x: nat, item: Item, ghost live: multiset<Rec>) returns (err: Error)
      requires Surveying(live) && pageList != [] && x < |pages| && x != pageList[|pageList| - 1]
      requires LiveState(Rams()[x].state) && !Rams()[x].state.FREEING?
      requires EndsIn(RecsOf(dev.pages[pageList[|pageList| - 1]]), item) && WritableId(item)
      modifies dev, pages[x], pages[x].hashList
      ensures pages == old(pages) && pageList == old(pageList) && freeList == old(freeList)
        && seqNumber == old(seqNumber)
      ensures Surveying(live) && SameFaces(old(Rams()), Rams())
      ensures err == OK ==> Settled(dev.pages, live) && (ChunksApart(old(dev.pages)) ==> ChunksApart(dev.pages))
      ensures err != OK ==> dev.pages == old(dev.pages) && dev.cuts == old(dev.cuts) && Rams() == old(Rams())
      ensures err != OK ==> NoTwinOf(RecsOf(dev.pages[x]), RecsOf(dev.pages[pageList[|pageList| - 1]]))
      ensures Settled(old(dev.pages), live) ==> err != OK
      ensures forall c :: c in dev.cuts && c !in old(dev.cuts) ==> Safe(old(dev.pages), c, live)
    {
      hide HashList.Valid, RamOk, RamsOk, Placed, Recoverable, Identified, ChunksApart, FindVia, Recs, RecsIn, Whole,
        ItemEraseCut, Doubled, Settled, NoTwin, Combed, Safe, WritableId;
      ghost var img, rams, p := dev.pages, Rams(), pageList[|pageList| - 1];
      LastListed(rams, img, pageList, freeList, live, hashOf);
      RamsOkAt(rams, img, hashOf, x);
      RamIsLoadable(rams[x], img[x], hashOf);
      TwinSearch(rams, img, pageList, freeList, live, hashOf, x, item);
      err := EraseItemAt(x, StaleQuery(item));
      if err == OK {
        TwinErased(rams, img, Rams(), dev.pages, dev.cuts, old(dev.cuts), pageList, freeList, live, hashOf, x,
                   FindVia(img[x].slots, StaleQuery(item), hashOf, 0).index);
      }
      OneFace(rams, Rams(), x);
    }

    // Erases a record whose replacement is the last item of the last page, should power have failed
    // between the two.
    method RemoveStale(ghost live: multiset<Rec>)
      requires Surveying(live) && pageList != []
      modifies dev, Objects()
      ensures pages == old(pages) && pageList == old(pageList) && freeList == old(freeList)
        && seqNumber == old(seqNumber)
      ensures Surveying(live) && SameFaces(old(Rams()), Rams()) && Settled(dev.pages, live)
      ensures ChunksApart(old(dev.pages)) ==> ChunksApart(dev.pages)
      ensures forall c :: c in dev.cuts && c !in old(dev.cuts) ==> Safe(old(dev.pages), c, live)
      ensures Settled(old(dev.pages), live) ==> dev.pages == old(dev.pages) && dev.cuts == old(dev.cuts)
    {
      hide HashList.Valid, RamsOk, Surveyed, Wired, HashListsOk, Settled, RecsOf, WritableId, NoTwinsBefore, NoTwinOf,
        Safe, OnlyAt, Live;
      ghost var img, rams, last := dev.pages, Rams(), |pageList| - 1;
      ListedPage(rams, img, pageList, freeList, live, hashOf, last);
      NoneBefore(img, pageList);
      var item := LastItem(pageList[|pageList| - 1]);
      if item.None? {
        NothingStale(rams, img, pageList, freeList, live, hashOf);
        return;
      }
      var k := 0;
      while k < |pageList| - 1
        invariant k <= |pageList| - 1 && dev.pages == img && dev.cuts == old(dev.cuts) && Rams() == rams
          && Surveying(live)
        invariant NoTwinsBefore(img, pageList, k)
      {
        ListedPage(rams, img, pageList, freeList, live, hashOf, k);
        var x := pageList[k];
        if !pages[x].state.FREEING? {
          var err := EraseTwin(x, item.value, live);
          if err == OK {
            return;
          }
        }
        OneMoreBefore(img, pageList, k);
        k := k + 1;
      }
      NothingStale(rams, img, pageList, freeList, live, hashOf);
      if item.value.typ.BLOB_IDX? {
        CheckOldFormat(item.value, live);
      }
    }

    // The same check for a blob in the old format, which has no index.
    method CheckOldFormat(item: Item, ghost live: multiset<Rec>)
      requires Surveying(live) && pageList != [] && item.typ.BLOB_IDX? && WritableId(item)
      requires NoTwinsBefore(dev.pages, pageList, |pageList| - 1)
      requires EndsIn(RecsOf(dev.pages[pageList[|pageList| - 1]]), item)
      modifies dev, Objects()
      ensures pages == old(pages) && pageList == old(pageList) && freeList == old(freeList)
        && seqNumber == old(seqNumber)
      ensures Surveying(live) && Rams() == old(Rams()) && dev.pages == old(dev.pages) && dev.cuts == old(dev.cuts)
    {
      hide HashList.Valid, RamOk, RamsOk, Surveyed, Wired, HashListsOk, RecsOf, WritableId, NoTwinsBefore, NoTwinOf,
        FindVia, OnlyAt, SameFace;
      ghost var img, rams := dev.pages, Rams();
      var k := 0;
      while k < |pageList| - 1
        invariant k <= |pageList| - 1 && dev.pages == img && dev.cuts == old(dev.cuts) && Rams() == rams
          && Surveying(live)
      {
        ListedPage(rams, img, pageList, freeList, live, hashOf, k);
        var x := pageList[k];
        if !pages[x].state.FREEING? {
          OldFormatSearch(rams, img, pageList, freeList, live, hashOf, k, item);
          var err := EraseItemAt(x, StaleQuery(item.(typ := BLOB)));
        }
        k := k + 1;
      }
    }

    ghost predicate Recovering(live: multiset<Rec>, e: nat)
      reads this, dev, Objects()
    {
      Ready() && Interrupted(Rams(), dev.pages, pageList, freeList, seqNumber, live, hashOf, e)
    }

    // The first listed page that is being freed, or the length of the list.
    method FindFreeing(ghost live: multiset<Rec>) returns (at: nat)
      requires Surveying(live)
      ensures at <= |pageList| && (forall k :: 0 <= k < |pageList| ==> pageList[k] < |Rams()|)
      ensures forall k :: 0 <= k < at ==> !Rams()[pageList[k]].state.FREEING?
      ensures at < |pageList| ==> Rams()[pageList[at]].state.FREEING?
    {
      hide HashList.Valid, RamsOk, Surveyed, HashListsOk;
      at := 0;
      ListedRange(Rams(), dev.pages, pageList, freeList, live, hashOf);
      while at < |pageList|
        invariant at <= |pageList| && forall k :: 0 <= k < at ==> !Rams()[pageList[k]].state.FREEING?
      {
        if pages[pageList[at]].state.FREEING? {
          return;
        }
        at := at + 1;
      }
    }

    // A half-filled copy is given up: its page goes to the free list.
    method DropTarget(at: nat, ghost live: multiset<Rec>)
      requires Surveying(live) && Settled(dev.pages, live) && at < |pageList|
        && (forall k :: 0 <= k < |pageList| ==> pageList[k] < |Rams()|)
      requires Rams()[pageList[at]].state.FREEING? && Below(Rams(), pageList, seqNumber)
        && ZeroFirst(dev.pages, freeList)
      modifies this`pageList, this`freeList, dev, Objects()
      ensures Recovering(live, old(pageList)[at]) && at < |pageList| && pageList[at] == old(pageList)[at]
      ensures (ChunksApart(old(dev.pages)) ==> ChunksApart(dev.pages)) && ZeroFirst(dev.pages, freeList)
      ensures forall c :: c in dev.cuts && c !in old(dev.cuts) ==> Safe(old(dev.pages), c, live)
    {
      hide HashList.Valid, RamOk, RamsOk, HashListsOk, Wired, Surveyed, Settled, Interrupted, Freeing, Copying,
        ChunksApart, Below, Safe, Live;
      ghost var img, rams, list, free := dev.pages, Rams(), pageList, freeList;
      WhatIsFreed(rams, img, list, free, live, hashOf, at);
      var back := pageList[|pageList| - 1];
      if pages[back].state.ACTIVE? {
        EraseAt(back);
        TargetDropped(rams, img, list, free, seqNumber, live, hashOf, at, Rams(), dev.pages);
        pageList := pageList[..|pageList| - 1];
        freeList := freeList + [back];
      } else {
        NoTargetToDrop(rams, img, list, free, seqNumber, live, hashOf, list[at]);
      }
    }

    // Does the interrupted move over, to a fresh page.
    method RecoverPage(at: nat, ghost live: multiset<Rec>)
      requires at < |pageList| && freeList != [] && Recovering(live, pageList[at]) && ZeroFirst(dev.pages, freeList)
      modifies this, dev, Objects()
      ensures Ready() && pages == old(pages) && Stable(dev.pages, live) && Started(dev.pages)
      ensures ChunksApart(old(dev.pages)) ==> ChunksApart(dev.pages)
      ensures pageList == old(pageList) + [old(freeList)[0]] && freeList == old(freeList)[1..]
      ensures InOrder(Rams(), dev.pages, Collected(old(pageList), at, old(freeList)[0]),
        old(freeList)[1..] + [old(pageList)[at]], seqNumber, hashOf)
      ensures forall c :: c in dev.cuts && c !in old(dev.cuts) ==> Safe(old(dev.pages), c, live)
    {
      hide HashList.Valid, RamOk, RamsOk, HashListsOk, Wired, Freeing, Stable, ChunksApart, Partition, Ascending, Below,
        AllFree, AllLive, Safe, Live, RecsOf, Elsewhere, Interrupted, Collected;
      ghost var img, rams, list, free := dev.pages, Rams(), pageList, freeList;
      var e, p := pageList[at], freeList[0];
      BeforeRecovery(rams, img, list, free, seqNumber, live, hashOf, e);
      var err := ActivatePage();
      ghost var mid, rams1 := dev.pages, Rams();
      FreshIsSafe(img, img, mid, e, p, live);
      ClearedBelow(img, mid, p, old(seqNumber));
      ElsewhereFirst(rams, img, rams1, mid, e, p);
      MoveItems(e, p, img, live);
      Recovered(rams, img, list, free, old(seqNumber), live, hashOf, at, rams1, mid, Rams(), dev.pages);
    }

    // Gives up the copy and does the move over.
    method RedoMove(at: nat, ghost live: multiset<Rec>) returns (ghost list: seq<nat>, ghost free: seq<nat>)
      requires Surveying(live) && Settled(dev.pages, live) && at < |pageList|
        && (forall k :: 0 <= k < |pageList| ==> pageList[k] < |Rams()|)
      requires Rams()[pageList[at]].state.FREEING? && Below(Rams(), pageList, seqNumber)
        && ZeroFirst(dev.pages, freeList)
      modifies this, dev, Objects()
      ensures Ready() && pages == old(pages) && Live(dev.pages) == live && Started(dev.pages)
      ensures ChunksApart(old(dev.pages)) ==> ChunksApart(dev.pages)
      ensures at < |list| && list[at] == old(pageList)[at] && free != [] && pageList == list + [free[0]]
        && freeList == free[1..]
      ensures InOrder(Rams(), dev.pages, Collected(list, at, free[0]), free[1..] + [list[at]], seqNumber, hashOf)
      ensures forall c :: c in dev.cuts && c !in old(dev.cuts) ==> Safe(old(dev.pages), c, live)
    {
      hide HashList.Valid, RamsOk, Surveyed, Settled, Interrupted, Stable, ChunksApart, InOrder, Below, Safe, Live,
        HashListsOk, Wired, Collected;
      ghost var img := dev.pages;
      DropTarget(at, live);
      ghost var mid, cuts := dev.pages, dev.cuts;
      list, free := pageList, freeList;
      RecoveringHasReserve(Rams(), mid, list, free, seqNumber, live, hashOf, list[at]);
      RecoverPage(at, live);
      StableLive(dev.pages, live);
      SafeTwice(img, mid, dev.cuts, cuts, live);
    }

    // Finishes a move that power loss interrupted.
    method Recover(at: nat, ghost live: multiset<Rec>)
      requires Surveying(live) && Settled(dev.pages, live) && at < |pageList|
        && (forall k :: 0 <= k < |pageList| ==> pageList[k] < |Rams()|)
      requires Rams()[pageList[at]].state.FREEING? && Below(Rams(), pageList, seqNumber)
        && ZeroFirst(dev.pages, freeList)
      modifies this, dev, Objects()
      ensures Valid() && pages == old(pages) && Live(dev.pages) == live && Started(dev.pages)
      ensures ChunksApart(old(dev.pages)) ==> ChunksApart(dev.pages)
      ensures forall c :: c in dev.cuts && c !in old(dev.cuts) ==> Safe(old(dev.pages), c, live)
    {
      hide HashList.Valid, RamsOk, Surveyed, Settled, ChunksApart, InOrder, Below, Safe, Live, HashListsOk, Wired;
      var e := pageList[at];
      ghost var list, free := RedoMove(at, live);
      pageList := pageList[..at] + pageList[at + 1..];
      freeList := freeList + [e];
      assert pageList == Collected(list, at, free[0]);
    }

    // No page has records.
    method StartEmpty(ghost live: multiset<Rec>)
      requires Surveying(live) && pageList == []
      modifies this, dev, Objects()
      ensures Valid() && pages == old(pages) && Live(dev.pages) == live && Started(dev.pages)
      ensures ChunksApart(old(dev.pages)) ==> ChunksApart(dev.pages)
      ensures forall c :: c in dev.cuts && c !in old(dev.cuts) ==> Safe(old(dev.pages), c, live)
      ensures Rested(old(dev.pages)) ==> dev.pages == old(dev.pages) && dev.cuts == old(dev.cuts)
    {
      hide HashList.Valid, RamsOk, HashListsOk, Wired, Surveyed, Stable, ChunksApart, InOrder, Partition, AllFree, Safe,
        Live;
      ghost var img, rams, free := dev.pages, Rams(), freeList;
      EmptyStore(rams, img, free, live, hashOf);
      SurveyedApart(rams, img, pageList, free, live, hashOf);
      seqNumber := 0;
      var err := ActivatePage();
      StartedInOrder(rams, img, free, hashOf, Rams(), dev.pages);
      assert pageList == [0];
      ClearedIsSafe(img, dev.pages, 0, live);
      ReservedIsErased(Rams(), dev.pages, hashOf, 0);
    }

    // The page list is sorted; what is left is to remove a stale duplicate and to finish a move.
    method Finish(ghost live: multiset<Rec>)
      requires Surveying(live) && pageList != []
      modifies this, dev, Objects()
      ensures Valid() && pages == old(pages) && Live(dev.pages) == live && Started(dev.pages)
      ensures ChunksApart(old(dev.pages)) ==> ChunksApart(dev.pages)
      ensures forall c :: c in dev.cuts && c !in old(dev.cuts) ==> Safe(old(dev.pages), c, live)
      ensures Stable(old(dev.pages), live) ==> dev.pages == old(dev.pages) && dev.cuts == old(dev.cuts)
    {
      hide HashList.Valid, RamsOk, HashListsOk, Wired, Surveyed, Stable, Settled, ChunksApart, InOrder, Below, Safe,
        Live, SameFaces;
      ghost var img := dev.pages;
      SurveyedSequence(Rams(), img, pageList, freeList, live, hashOf);
      seqNumber := pages[pageList[|pageList| - 1]].seqNo + 1;
      ghost var rams := Rams();
      if Stable(img, live) {
        StableIsSettled(img, live);
      }
      RemoveStale(live);
      ghost var mid, cuts := dev.pages, dev.cuts;
      FacesKeep(rams, Rams(), pageList, seqNumber);
      SurveyedApart(Rams(), mid, pageList, freeList, live, hashOf);
      var at := FindFreeing(live);
      if at < |pageList| {
        StillFreeing(Rams(), mid, pageList, freeList, live, hashOf, at);
        Recover(at, live);
        SafeTwice(img, mid, dev.cuts, cuts, live);
      } else {
        NothingIsFreed(Rams(), mid, pageList, freeList, seqNumber, live, hashOf);
        StableLive(mid, live);
      }
    }

    // Brings the store up from whatever power loss has left of it, in order and with a page in
    // reserve. It comes up with exactly the records `live` if and only if the page in use comes
    // through being loaded; then also, however often power fails on the way, the records are there.
    // On a store at rest nothing is written.
    method Load(ghost live: multiset<Rec>) returns (err: Error)
      requires Recoverable(dev.pages, live) && Identified(live)
      modifies this, dev
      ensures err == OK && Valid() && fresh(Objects())
      ensures Live(dev.pages) <= live && (Live(dev.pages) == live <==> Kept(old(dev.pages), hashOf))
      ensures LeftBy(old(dev.pages), live, Live(dev.pages), hashOf)
      ensures Rested(dev.pages) && Stable(dev.pages, Live(dev.pages))
      ensures Kept(old(dev.pages), hashOf) && ChunksApart(old(dev.pages)) ==> ChunksApart(dev.pages)
      ensures Kept(old(dev.pages), hashOf) ==>
        forall c :: c in dev.cuts && c !in old(dev.cuts) ==> Safe(old(dev.pages), c, live)
      ensures Rested(old(dev.pages)) && Stable(old(dev.pages), live) && Kept(old(dev.pages), hashOf) ==>
        dev.pages == old(dev.pages) && dev.cuts == old(dev.cuts)
    {
      hide HashList.Valid, RamsOk, Recoverable, Identified, ChunksApart, LoadedTo, Placed, Stable, Settled, Surveyed,
        InOrder, Below, Ascending, Safe, Live, Rested, AllClean, Loadable, Halfway, Kept, Sound, Started, LeftBy;
      ghost var img := dev.pages;
      BeforeLoading(img, live, hashOf);
      CreatePages();
      ghost var kept := LoadPages(live);
      ghost var mid, cuts := dev.pages, dev.cuts;
      AllLoaded(Rams(), mid, pageList, freeList, img, live, kept, hashOf);
      if pageList == [] {
        StartEmpty(kept);
      } else {
        Finish(kept);
      }
      ValidIsRested(Rams(), dev.pages, pageList, freeList, seqNumber, hashOf);
      if Kept(img, hashOf) {
        SafeTwice(img, mid, dev.cuts, cuts, live);
      }
      err := OK;
    }
  }

  // Brings the store up twice. The second time nothing is written if and only if the page in use
  // that the first left comes through being loaded.
  method LoadTwice(dev: Flash, hashOf: Id -> nat, ghost live: multiset<Rec>)
    returns (again: PageManager, ghost mid: seq<FPage>, ghost cuts: iset<seq<FPage>>)
    requires Recoverable(dev.pages, live) && Identified(live)
    modifies dev
    ensures again.Valid() && again.dev == dev && Live(mid) <= live
      && (Live(mid) == live <==> Kept(old(dev.pages), hashOf))
    ensures dev.pages == mid && dev.cuts == cuts <==> Kept(mid, hashOf)
  {
    hide HashList.Valid, Recoverable, Identified, ChunksApart, Stable, Live, Rested, Kept, InOrder, RamsOk;
    var first := new PageManager(dev, hashOf);
    var err := first.Load(live);
    mid, cuts := dev.pages, dev.cuts;
    IdentifiedWithin(live, Live(mid));
    StableIsRecoverable(mid, Live(mid));
    again := new PageManager(dev, hashOf);
    err := again.Load(Live(mid));
  }
}
