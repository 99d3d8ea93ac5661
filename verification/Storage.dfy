// Values by namespace and key (nvs_storage.cpp): searching over all pages, writing a value before the
// one it replaces is erased, and blobs in chunks spread over several pages.
module Storages {
  import opened NvsTypes
  import opened PageImage
  import opened PageRam
  import opened PageSearch
  import opened PageSteps
  import opened PageTwins
  import opened PageScan
  import opened PageValues
  import opened PageCuts
  import opened ItemHashList
  import opened FlashDevice
  import opened StoreImage
  import opened PageLists
  import opened PageManagers
  import opened StoreSearch
  import opened StoreWrites
  import opened StoreUpdates
  import opened StoreMap
  import opened StoreWalk
  import opened StoreAccounts
  import opened BlobWrites
  import opened BlobRooms
  import opened BlobSearch
  import opened BlobUpdates
  import opened PartErases
  import opened BlobNames
  import opened Overwrites
  import opened Trails

  class Storage {
    const pm: PageManager
    // The checksum of a payload; the header of an item of variable length holds that of its data.
    const crcOf: seq<byte> -> nat

    constructor (pm: PageManager, crcOf: seq<byte> -> nat)
      ensures this.pm == pm && this.crcOf == crcOf
    {
      this.pm, this.crcOf := pm, crcOf;
    }

    ghost predicate Valid()
      reads pm, pm.dev, pm.Objects()
    {
      pm.Valid()
    }

    ghost function Records(): multiset<Rec>
      reads pm.dev
    {
      Live(pm.dev.pages)
    }

    ghost function Stage(): Scene
      reads pm, pm.dev, pm.Objects()
    {
      Scene(pm.Rams(), pm.dev.pages, pm.pageList, pm.seqNumber)
    }

    // The page new items go to.
    ghost function Current(): nat
      requires pm.pageList != []
      reads pm
    {
      pm.pageList[|pm.pageList| - 1]
    }

    // ---------------------------------------------------------------- searching

    method FindItem(q: Query) returns (err: Error, at: nat, index: nat, item: Option<Item>)
      requires Valid()
      ensures Valid() && pm.Rams() == old(pm.Rams())
      ensures err == OK ==> Locates(pm.Rams(), pm.dev.pages, pm.pageList, q, pm.hashOf, at, index)
      ensures err == OK ==> IsItemAt(pm.dev.pages, pm.pageList, at, index, item)
      ensures err != OK ==>
        err == NOT_FOUND && NoHitBefore(pm.Rams(), pm.dev.pages, pm.pageList, q, pm.hashOf, |pm.pageList|)
    {
      hide HashList.Valid, RamsOk, InOrder, FindVia, PageManager.Wired, PageManager.HashListsOk;
      InRange(pm.Rams(), pm.dev.pages, pm.pageList, pm.freeList, pm.seqNumber, pm.hashOf);
      ghost var rams := pm.Rams();
      at := 0;
      while at < |pm.pageList|
        invariant NoHitBefore(rams, pm.dev.pages, pm.pageList, q, pm.hashOf, at) && rams == pm.Rams() && pm.Ready()
      {
        err, index, item := pm.FindItemAt(pm.pageList[at], q, 0);
        if err == OK {
          return;
        }
        at := at + 1;
      }
      err, index, item := NOT_FOUND, 0, None;
    }

    // ---------------------------------------------------------------- writing

    // Every image of these that was not there before leaves the old records or one more.
    ghost predicate CutsAppend(img: seq<FPage>, cuts0: iset<seq<FPage>>, n: Rec, ok: bool, apart: bool)
      reads pm.dev
    {
      forall c :: c in pm.dev.cuts && c !in cuts0 ==>
        AppendCut(c, Live(img), n, ok) && (apart && ChunksApart(img) ==> ChunksApart(c))
    }

    // writeItem on the current page.
    method WriteCurrent(ns: byte, typ: ItemType, key: string, v: Input, chunk: byte, ghost apart: bool)
      returns (err: Error)
      requires Valid() && ns != NS_ANY && WellFormed(typ, v, chunk) && pm.pageList != [] && Current() < |pm.dev.pages|
      requires apart ==> NoPairWith(RecsOf(pm.dev.pages[Current()]), RecOf(ns, typ, key, v, chunk))
      modifies pm.dev, pm.Objects()
      ensures pm.pages == old(pm.pages) && pm.pageList == old(pm.pageList) && pm.freeList == old(pm.freeList)
        && pm.seqNumber == old(pm.seqNumber)
      ensures Valid() && OnlyAt(old(pm.Rams()), pm.Rams(), Current())
        && OnlyPage(old(pm.dev.pages), pm.dev.pages, Current())
      ensures err == WriteVerdict(old(pm.Rams())[Current()].state, old(pm.Rams())[Current()].nextFree, typ, key, v)
      ensures pm.Rams()[Current()].seqNo == old(pm.Rams())[Current()].seqNo
      ensures pm.Rams()[Current()].state == if old(pm.Rams())[Current()].state.FULL? then FULL else ACTIVE
      ensures pm.Rams()[Current()].used == old(pm.Rams())[Current()].used + if err == OK then SpanFor(typ, v) else 0
      ensures err == OK ==> pm.Rams()[Current()].nextFree == FirstFree(old(pm.Rams())[Current()]) + SpanFor(typ, v)
      ensures ItemsKept(old(pm.dev.pages)[Current()].slots, pm.dev.pages[Current()].slots)
      ensures RecsOf(pm.dev.pages[Current()]) ==
        RecsOf(old(pm.dev.pages)[Current()]) + if err == OK then [RecOf(ns, typ, key, v, chunk)] else []
      ensures Records() == old(Records()) + if err == OK then multiset{RecOf(ns, typ, key, v, chunk)} else multiset{}
      ensures err == OK ==> EndsInItem(pm.dev.pages[Current()].slots) && pm.dev.pages in pm.dev.cuts
      ensures apart && ChunksApart(old(pm.dev.pages)) ==> ChunksApart(pm.dev.pages)
      ensures CutsAppend(old(pm.dev.pages), old(pm.dev.cuts), RecOf(ns, typ, key, v, chunk), err == OK, apart)
    {
      hide HashList.Valid, RamOk, InOrder, PutCut, Recs, ItemsKept, WriteVerdict, Live, ChunksApart, AppendCut,
        EndsInItem, NoPairWith, PageManager.Wired, PageManager.HashListsOk, RecOf, SpanFor, FirstFree;
      ghost var rams, img := pm.Rams(), pm.dev.pages;
      CurrentIs(rams, img, pm.pageList, pm.freeList, pm.seqNumber, pm.hashOf);
      ghost var p, n := Current(), RecOf(ns, typ, key, v, chunk);
      var page := pm.pageList[|pm.pageList| - 1];
      err := pm.WriteItemAt(page, ns, typ, key, v, chunk);
      WroteInOrder(rams, img, pm.pageList, pm.freeList, pm.seqNumber, pm.hashOf, pm.Rams(), pm.dev.pages);
      CurrentIs(pm.Rams(), pm.dev.pages, pm.pageList, pm.freeList, pm.seqNumber, pm.hashOf);
      WroteRecords(img, pm.dev.pages, p, if err == OK then [n] else []);
      WroteCuts(rams, img, pm.pageList, pm.freeList, pm.seqNumber, pm.hashOf, pm.dev.pages, pm.dev.cuts,
        old(pm.dev.cuts), p, n, err == OK, apart);
    }

    // The current page is full: marks it so, unless it is already, and asks for another.
    method MakeRoom() returns (err: Error, ghost freed: nat, ghost rams: seq<Ram>, ghost img: seq<FPage>)
      requires Valid() && LiveState(pm.Rams()[Current()].state)
      modifies pm, pm.dev, pm.Objects()
      ensures Valid() && pm.pages == old(pm.pages)
        && MarkedFull(old(pm.Rams()), old(pm.dev.pages), old(Current()), rams, img)
      ensures err == OK <==>
        || |old(pm.freeList)| >= 2
        || exists k :: 0 <= k < |old(pm.pageList)| && rams[old(pm.pageList)[k]].used < ENTRY_COUNT
      ensures err != OK ==>
        err == NOT_ENOUGH_SPACE && pm.Rams() == rams && pm.dev.pages == img && pm.pageList == old(pm.pageList)
      ensures err != OK ==> pm.freeList == old(pm.freeList) && pm.seqNumber == old(pm.seqNumber)
      ensures err == OK ==>
        pm.seqNumber == old(pm.seqNumber) + 1 && pm.Rams()[old(pm.freeList)[0]].seqNo == old(pm.seqNumber)
      ensures err == OK ==>
        Relocated(rams, img, old(pm.pageList), old(pm.freeList), pm.Rams(), pm.dev.pages, pm.pageList, pm.freeList,
          freed)
      ensures err == OK && |old(pm.freeList)| == 1 ==> pm.dev.pages in pm.dev.cuts
      ensures Records() == old(Records()) && (ChunksApart(old(pm.dev.pages)) ==> ChunksApart(pm.dev.pages))
      ensures forall c :: c in pm.dev.cuts && c !in old(pm.dev.cuts) ==> Safe(old(pm.dev.pages), c, old(Records()))
    {
      hide HashList.Valid, RamsOk, InOrder, Relocated, MarkedFull, Live, ChunksApart, Safe, PageManager.Wired,
        PageManager.HashListsOk;
      ghost var rams0, img0 := pm.Rams(), pm.dev.pages;
      CurrentIs(rams0, img0, pm.pageList, pm.freeList, pm.seqNumber, pm.hashOf);
      var page := pm.pageList[|pm.pageList| - 1];
      if !pm.pages[page].state.FULL? {
        var marked := pm.MarkFullAt(page);
        IsMarkedFull(rams0, img0, page, pm.Rams(), pm.dev.pages);
      } else {
        AlreadyFull(rams0, img0, pm.hashOf, page);
      }
      rams, img := pm.Rams(), pm.dev.pages;
      ghost var cuts := pm.dev.cuts;
      MarkedFullKeeps(rams0, img0, pm.pageList, pm.freeList, pm.seqNumber, pm.hashOf, rams, img);
      MarkedIsFull(rams0, img0, page, rams, img);
      err, freed := pm.RequestNewPage();
      RoomCutsSafe(img0, img, pm.dev.cuts, cuts, old(pm.dev.cuts));
    }

    // The first write to a new page.
    method WriteRelocated(ns: byte, typ: ItemType, key: string, v: Input, ghost rams: seq<Ram>, ghost img: seq<FPage>,
                          ghost list: seq<nat>, ghost free: seq<nat>, ghost freed: nat) returns (err: Error)
      requires Valid() && ns != NS_ANY && PlainType(typ) && WellFormed(typ, v, CHUNK_ANY)
      requires Relocated(rams, img, list, free, pm.Rams(), pm.dev.pages, pm.pageList, pm.freeList, freed)
      modifies pm.dev, pm.Objects()
      ensures pm.pages == old(pm.pages) && pm.pageList == old(pm.pageList)
      ensures Valid() && pm.pageList != [] && Current() == free[0]
        && (!SizeOk(typ, key, v) ==> err == SizeError(key, v))
      ensures SizeOk(typ, key, v) ==> err == if Room(rams, list, free, SpanFor(typ, v)) then OK else NOT_ENOUGH_SPACE
      ensures Records() == old(Records()) + if err == OK then multiset{RecOf(ns, typ, key, v, CHUNK_ANY)}
        else multiset{}
      ensures OnlyAt(old(pm.Rams()), pm.Rams(), free[0]) && OnlyPage(old(pm.dev.pages), pm.dev.pages, free[0])
      ensures err == OK ==>
        RecsOf(pm.dev.pages[free[0]]) == RecsOf(old(pm.dev.pages)[free[0]]) + [RecOf(ns, typ, key, v, CHUNK_ANY)]
      ensures err == OK ==> pm.Rams()[free[0]].state.ACTIVE?
      ensures ChunksApart(old(pm.dev.pages)) ==> ChunksApart(pm.dev.pages)
      ensures CutsAppend(old(pm.dev.pages), old(pm.dev.cuts), RecOf(ns, typ, key, v, CHUNK_ANY), err == OK, true)
    {
      hide HashList.Valid, RamsOk, InOrder, Relocated, Live, ChunksApart, Room, SizeOk, WriteVerdict, RecsOf, ItemsKept,
        AppendCut, PageManager.Wired, NoPairWith, EndsInItem, PageManager.HashListsOk;
      CurrentIs(pm.Rams(), pm.dev.pages, pm.pageList, pm.freeList, pm.seqNumber, pm.hashOf);
      NewPageVerdict(rams, img, list, free, pm.Rams(), pm.dev.pages, pm.pageList, pm.freeList, freed, typ, key, v);
      NoChunkNoPair(RecsOf(pm.dev.pages[Current()]), RecOf(ns, typ, key, v, CHUNK_ANY));
      err := WriteCurrent(ns, typ, key, v, CHUNK_ANY, true);
      if err == PAGE_FULL {
        err := NOT_ENOUGH_SPACE;
      }
    }

    // The current page has no room: another page, and the value goes there.
    method AppendToNew(ns: byte, typ: ItemType, key: string, v: Input) returns (err: Error)
      requires Valid() && ns != NS_ANY && PlainType(typ) && WellFormed(typ, v, CHUNK_ANY)
        && LiveState(pm.Rams()[Current()].state)
      modifies pm, pm.dev, pm.Objects()
      ensures Valid() && pm.pages == old(pm.pages) && pm.pageList != []
      ensures NewPageAnswer(err, old(pm.Rams()), old(pm.pageList), old(pm.freeList), typ, key, v)
      ensures Records() == old(Records()) + if err == OK then multiset{RecOf(ns, typ, key, v, CHUNK_ANY)}
        else multiset{}
      ensures err == OK ==>
        Stored(old(pm.Rams()), old(pm.dev.pages), pm.Rams(), pm.dev.pages, Current(), RecOf(ns, typ, key, v, CHUNK_ANY))
      ensures ChunksApart(old(pm.dev.pages)) ==> ChunksApart(pm.dev.pages)
      ensures CutsAppend(old(pm.dev.pages), old(pm.dev.cuts), RecOf(ns, typ, key, v, CHUNK_ANY), err == OK, true)
    {
      hide HashList.Valid, InOrder, Relocated, MarkedFull, Live, ChunksApart, Recoverable, Room, SizeOk, Stored, RecsOf,
        RamsOk, AppendCut, OnlyAt, Safe, PageManager.Wired, PageManager.HashListsOk, SizeError, NewPageAnswer, SpanFor;
      ghost var rams0, img0, list0, free0 := pm.Rams(), pm.dev.pages, pm.pageList, pm.freeList;
      CurrentIs(rams0, img0, list0, free0, pm.seqNumber, pm.hashOf);
      ghost var p0 := Current();
      InRange(rams0, img0, list0, free0, pm.seqNumber, pm.hashOf);
      var roomErr, freed, ramsB, imgB := MakeRoom();
      MarkedIsFull(rams0, img0, p0, ramsB, imgB);
      ghost var ramsC, imgC, cutsC, listC, freeC := pm.Rams(), pm.dev.pages, pm.dev.cuts, pm.pageList, pm.freeList;
      CurrentIs(ramsC, imgC, listC, freeC, pm.seqNumber, pm.hashOf);
      if roomErr != OK {
        NewPageAnswers(rams0, img0, list0, free0, p0, ramsB, imgB, typ, key, v, false, roomErr);
        LaterCuts(img0, imgC, pm.dev.cuts, cutsC, old(pm.dev.cuts), RecOf(ns, typ, key, v, CHUNK_ANY), false);
        return roomErr;
      }
      err := WriteRelocated(ns, typ, key, v, ramsB, imgB, list0, free0, freed);
      NewPageAnswers(rams0, img0, list0, free0, p0, ramsB, imgB, typ, key, v, true, err);
      if err == OK {
        StoredOnNewPage(rams0, img0, list0, free0, old(pm.seqNumber), pm.hashOf, p0, ramsB, imgB, ramsC, imgC, listC,
          freeC, freed, pm.Rams(), pm.dev.pages, RecOf(ns, typ, key, v, CHUNK_ANY));
      }
      LaterCuts(img0, imgC, pm.dev.cuts, cutsC, old(pm.dev.cuts), RecOf(ns, typ, key, v, CHUNK_ANY), err == OK);
    }

    // The new value goes to the current page, or, if it does not fit there, to another. It finds a
    // place if and only if there is room for it anywhere.
    method Append(ns: byte, typ: ItemType, key: string, v: Input) returns (err: Error)
      requires Valid() && ns != NS_ANY && PlainType(typ) && WellFormed(typ, v, CHUNK_ANY)
      modifies pm, pm.dev, pm.Objects()
      ensures Valid() && pm.pages == old(pm.pages) && pm.pageList != []
      ensures WriteAnswer(err, old(pm.Rams()), old(pm.pageList), old(pm.freeList), typ, key, v)
      ensures Records() == old(Records()) + if err == OK then multiset{RecOf(ns, typ, key, v, CHUNK_ANY)}
        else multiset{}
      ensures err == OK ==>
        Stored(old(pm.Rams()), old(pm.dev.pages), pm.Rams(), pm.dev.pages, Current(), RecOf(ns, typ, key, v, CHUNK_ANY))
      ensures ChunksApart(old(pm.dev.pages)) ==> ChunksApart(pm.dev.pages)
      ensures CutsAppend(old(pm.dev.pages), old(pm.dev.cuts), RecOf(ns, typ, key, v, CHUNK_ANY), err == OK, true)
    {
      hide HashList.Valid, InOrder, Live, ChunksApart, Stored, AllStayed, RecsOf, RamsOk, WriteVerdict, ItemsKept,
        AppendCut, PageManager.Wired, PageManager.HashListsOk, WriteAnswer, NewPageAnswer, SpanFor;
      ghost var rams0, img0, list, free, n :=
        pm.Rams(), pm.dev.pages, pm.pageList, pm.freeList, RecOf(ns, typ, key, v, CHUNK_ANY);
      CurrentIs(rams0, img0, list, free, pm.seqNumber, pm.hashOf);
      NoChunkNoPair(RecsOf(pm.dev.pages[Current()]), RecOf(ns, typ, key, v, CHUNK_ANY));
      err := WriteCurrent(ns, typ, key, v, CHUNK_ANY, true);
      ghost var ramsA, imgA, cutsA := pm.Rams(), pm.dev.pages, pm.dev.cuts;
      assert LiveState(pm.Rams()[Current()].state);
      if err == PAGE_FULL {
        FailedWrite(rams0, img0, list, free, pm.seqNumber, pm.hashOf, ramsA, imgA, n);
        err := AppendToNew(ns, typ, key, v);
        if err == OK {
          StayedThenStored(rams0, img0, ramsA, imgA, pm.Rams(), pm.dev.pages, Current(), n);
        }
        MoreCuts(img0, imgA, pm.dev.cuts, cutsA, old(pm.dev.cuts), n, err == OK);
      } else if err == OK {
        OkIsNotFull(rams0[old(Current())].state, rams0[old(Current())].nextFree, typ, key, v);
        StoredHere(rams0, img0, list, free, pm.seqNumber, pm.hashOf, ramsA, imgA, n);
      }
      IsWriteAnswer(rams0, img0, list, free, old(pm.seqNumber), pm.hashOf, ramsA, typ, key, v, err);
    }

    // What a write has to replace: searched for under its type first, then under any. `b` is the blob
    // that the name stands for, if it does, and `was` then the chunk of it that the search has met.
    method Lookup(ns: byte, typ: ItemType, key: string, ghost b: Option<Blob>)
      returns (found: bool, matched: bool, page: nat, index: nat, item: Option<Item>, ghost was: Option<Rec>)
      requires Valid() && ns != NS_ANY && PlainType(typ) && !typ.ANY? && Unique(Records())
      requires if b.None? then NoBlob(Records(), ns, Truncated(key)) else OnlyBlob(Records(), ns, key, b)
      ensures pm.Rams() == old(pm.Rams()) && (found ==> page < |pm.pages| && item.Some?)
      ensures b.None? ==> RecordOf(Records(), ns, Truncated(key), was) && (found <==> was.Some?)
      ensures found && was.Some? ==>
        IsAt(pm.Rams(), pm.dev.pages, page, index, was.value) && item == Some(was.value.item)
      ensures matched <==> found && b.None? && was.value.item.typ == typ
      ensures matched ==> FindVia(pm.dev.pages[page].slots, KeyQuery(ns, typ, key), pm.hashOf, 0) == Hit(index)
      ensures b.Some? ==>
        found && Met(b.value, ns, key, was, item.value, TakesChunk(pm.dev.pages, pm.pageList, pm.hashOf, ns,
          Truncated(key)))
    {
      hide HashList.Valid, InOrder, Live, RamsOk, FindVia, Unique, NoBlob, IsAt, NoHitBefore, Whole, PageManager.Wired,
        PageManager.HashListsOk, OnlyBlob, TakesChunk, BlobOk, InReach, ChunksOf;
      ghost var rams, img, list, free, live := pm.Rams(), pm.dev.pages, pm.pageList, pm.freeList, Records();
      page, was := 0, None;
      var err: Error, at: nat;
      err, at, index, item := FindItem(KeyQuery(ns, typ, key));
      found, matched := err == OK, err == OK;
      if b.Some? {
        was := FoundOfBlob(rams, img, list, free, pm.seqNumber, pm.hashOf, live, ns, typ, key, b.value, found, at,
          index, item);
      }
      if !found {
        if b.None? {
          NotFoundNamed(rams, img, list, free, pm.seqNumber, pm.hashOf, live, ns, typ, key);
        }
        err, at, index, item := FindItem(KeyQuery(ns, ANY, key));
        found := err == OK;
        if b.Some? {
          was := FoundOfBlob(rams, img, list, free, pm.seqNumber, pm.hashOf, live, ns, ANY, key, b.value, found, at,
            index, item);
        }
        if !found {
          NotFoundNamed(rams, img, list, free, pm.seqNumber, pm.hashOf, live, ns, ANY, key);
          was := None;
          return;
        }
      }
      page := pm.pageList[at];
      if b.None? {
        LocatedIs(rams, img, list, free, pm.seqNumber, pm.hashOf, live, ns, if matched then typ else ANY, key, at,
          index);
        was := Some(RecAt(img[list[at]].slots, index));
      } else if was.Some? {
        WasAt(rams, img, page, index, was.value);
      }
    }

    // Where the item is that a new record has replaced. If its page was moved meanwhile, it is looked
    // for again; of a blob some chunk is found then.
    method FindAgain(page: nat, index: nat, seqNo: nat, ns: byte, typ: ItemType, key: string, ghost rams0: seq<Ram>,
                     ghost img0: seq<FPage>, ghost live: multiset<Rec>, ghost o: Rec, ghost n: Rec,
                     ghost b: Option<Blob>) returns (err: Error, x: nat, i: nat, ghost gone: Rec)
      requires Valid() && ns != NS_ANY && |key| <= MAX_KEY_LENGTH && typ == o.item.typ
      requires pm.pageList != [] && Stored(rams0, img0, pm.Rams(), pm.dev.pages, Current(), n)
        && IsAt(rams0, img0, page, index, o)
      requires page < |rams0| && seqNo == rams0[page].seqNo && page < |pm.pages| && Records() == live + multiset{n}
      requires if b.None? then Displaces(live, o, n, ns, key)
        else Meeting(pm.dev.pages, live, ns, key, b.value, o, n, Current())
      ensures Valid() && pm.Rams() == old(pm.Rams()) && err == OK && IsAt(pm.Rams(), pm.dev.pages, x, i, gone)
      ensures if b.None? then gone == o else BlobOk(b.value) && gone in ChunksOf(ns, key, b.value)
    {
      hide HashList.Valid, RamsOk, InOrder, FindVia, Live, Traced, IsAt, Recs, RecsIn, Whole, NoHitBefore, Together,
        Appended, MovedTo, Stayed, PageManager.Wired, PageManager.HashListsOk, Overwriting, ChunksOf, BlobOk;
      ghost var rams, img, list, free, p := pm.Rams(), pm.dev.pages, pm.pageList, pm.freeList, Current();
      WasAt(rams0, img0, page, index, o);
      StayedOrMoved(rams0, img0, rams, img, p, n, page);
      StoredIsAppended(rams, img, list, free, pm.seqNumber, pm.hashOf, rams0, img0, live, n, p);
      if b.Some? {
        MeetingMeans(img, live, ns, key, b.value, o, n, p);
      }
      x, i, gone, err := page, index, o, OK;
      if (!pm.pages[page].state.ACTIVE? && !pm.pages[page].state.FULL?) || pm.pages[page].seqNo != seqNo {
        if b.None? {
          MovedIsTogether(rams0, img0, rams, img, page, index, p, live, o, n, ns, key);
        }
        var at: nat, item: Option<Item>;
        err, at, i, item := FindItem(KeyQuery(ns, typ, key));
        if b.None? {
          RelocatedIs(rams, img, list, free, pm.seqNumber, pm.hashOf, live, p, RecsOf(img0[page]), o, n, ns, key,
            err == OK, at, i);
        } else {
          gone := FindsSomeChunk(rams, img, list, free, pm.seqNumber, pm.hashOf, live, ns, key, b.value, n, p, o,
            err == OK, at, i);
        }
        x := pm.pageList[at];
      } else {
        StayedIsAt(rams0, img0, rams, img, pm.hashOf, page, index, o);
      }
    }

    // Erases the item that a new record has replaced, wherever it is now.
    method EraseSuperseded(page: nat, index: nat, seqNo: nat, ns: byte, typ: ItemType, key: string,
                           ghost rams0: seq<Ram>, ghost img0: seq<FPage>, ghost live: multiset<Rec>, ghost o: Rec,
                           ghost n: Rec, ghost b: Option<Blob>) returns (err: Error, ghost gone: Rec)
      requires Valid() && ns != NS_ANY && |key| <= MAX_KEY_LENGTH && typ == o.item.typ
      requires pm.pageList != [] && Stored(rams0, img0, pm.Rams(), pm.dev.pages, Current(), n)
        && IsAt(rams0, img0, page, index, o)
      requires page < |rams0| && seqNo == rams0[page].seqNo && page < |pm.pages| && Records() == live + multiset{n}
      requires if b.None? then Displaces(live, o, n, ns, key)
        else Meeting(pm.dev.pages, live, ns, key, b.value, o, n, Current())
      modifies pm.dev, pm.Objects()
      ensures Valid() && pm.pages == old(pm.pages) && err == OK && Records() == live - multiset{gone} + multiset{n}
      ensures if b.None? then gone == o else BlobOk(b.value) && gone in ChunksOf(ns, key, b.value)
      ensures ChunksApart(old(pm.dev.pages)) ==> ChunksApart(pm.dev.pages)
      ensures b.None? && Twins(n, o) ==>
        forall c :: c in pm.dev.cuts && c !in old(pm.dev.cuts) ==>
          Recoverable(c, live - multiset{o} + multiset{n}) && (ChunksApart(old(pm.dev.pages)) ==> ChunksApart(c))
    {
      hide HashList.Valid, RamsOk, InOrder, Live, ChunksApart, Recoverable, Traced, IsAt, Recs, RecsIn, Whole,
        Overwriting, ChunksOf, BlobOk, Appended, ItemEraseCut, PageManager.Wired, PageManager.HashListsOk;
      ghost var rams, img, list, free, p := pm.Rams(), pm.dev.pages, pm.pageList, pm.freeList, Current();
      var x: nat, i: nat;
      err, x, i, gone := FindAgain(page, index, seqNo, ns, typ, key, rams0, img0, live, o, n, b);
      StoredIsAppended(rams, img, list, free, pm.seqNumber, pm.hashOf, rams0, img0, live, n, p);
      if b.Some? {
        MeetingMeans(img, live, ns, key, b.value, gone, n, p);
      }
      WasAt(rams, img, x, i, gone);
      pm.EraseEntryAt(x, i);
      OldErased(rams, img, pm.hashOf, pm.dev.pages, pm.dev.cuts, old(pm.dev.cuts), x, i, gone, n, p, live);
      ErasedInOrder(rams, img, list, free, pm.seqNumber, pm.hashOf, pm.Rams(), pm.dev.pages, x);
    }

    // Erases what the new record n has replaced: the blob whose index was found, or the item itself.
    method EraseReplaced(page: nat, index: nat, seqNo: nat, ns: byte, prev: Item, key: string, ghost rams0: seq<Ram>,
                         ghost img0: seq<FPage>, ghost live: multiset<Rec>, ghost was: Option<Rec>, ghost n: Rec,
                         ghost b: Option<Blob>) returns (err: Error)
      requires Valid() && ns != NS_ANY && |key| <= MAX_KEY_LENGTH && page < |pm.pages|
      requires pm.pageList != [] && Stored(rams0, img0, pm.Rams(), pm.dev.pages, Current(), n)
        && Records() == live + multiset{n}
      requires page < |rams0| && seqNo == rams0[page].seqNo
      requires was.Some? ==> IsAt(rams0, img0, page, index, was.value) && prev == was.value.item
      requires if b.None? then was.Some? && Displaces(live, was.value, n, ns, key)
        else TakesName(live, ns, key, b.value, was, prev, n)
      modifies pm.dev, pm.Objects()
      ensures Valid() && pm.pages == old(pm.pages) && err == OK
      ensures b.None? ==> Records() == live - multiset{was.value} + multiset{n}
      ensures b.Some? ==> Overwritten(live, Records(), ns, key, b.value, was.Some?, n)
      ensures ChunksApart(old(pm.dev.pages)) ==> ChunksApart(pm.dev.pages)
      ensures b.None? && Twins(n, was.value) ==>
        forall c :: c in pm.dev.cuts && c !in old(pm.dev.cuts) ==>
          Recoverable(c, live - multiset{was.value} + multiset{n})
          && (ChunksApart(old(pm.dev.pages)) ==> ChunksApart(c))
    {
      hide HashList.Valid, RamsOk, InOrder, Live, ChunksApart, Recoverable, Stored, IsAt, Meeting, ChunksOf, BlobOk,
        TakesName, InReach, Displaces, Overwriting, PageManager.Wired, PageManager.HashListsOk, Appended, WithoutBlob,
        Overwritten, ErasingBlob, Superseded;
      ghost var img, p := pm.dev.pages, Current();
      StoredIsAppended(pm.Rams(), img, pm.pageList, pm.freeList, pm.seqNumber, pm.hashOf, rams0, img0, live, n, p);
      if b.Some? {
        OverwritesMeans(img, live, ns, key, b.value, was, prev, n, p);
      } else {
        NotOfBlob(live, was.value, n, ns, key);
      }
      if prev.typ == BLOB_IDX {
        OverwrittenInReach(pm.Rams(), img, pm.pageList, pm.freeList, pm.seqNumber, pm.hashOf, live, ns, key, b.value, n,
          p);
        NotSuperseded(img, IndexOf(ns, key, b.value), 0);
        err := EraseMultiPageBlob(ns, key, prev.val.chunkStart, b, None, 0);
        AllOverwritten(live, ns, key, b.value, n);
      } else {
        ghost var gone;
        err, gone := EraseSuperseded(page, index, seqNo, ns, prev.typ, key, rams0, img0, live, was.value, n, b);
        if b.Some? {
          ChunkOverwritten(live, Records(), ns, key, b.value, gone, n);
        }
      }
    }

    // Writes the new record, then erases what it replaces.
    method Replace(ns: byte, typ: ItemType, key: string, v: Input, found: bool, page: nat, index: nat,
                   item: Option<Item>, ghost was: Option<Rec>, ghost b: Option<Blob>) returns (err: Error)
      requires Valid() && ns != NS_ANY && PlainType(typ) && !typ.ANY? && WellFormed(typ, v, CHUNK_ANY)
        && (found <==> was.Some? || b.Some?)
      requires found ==> page < |pm.pages| && item.Some?
      requires was.Some? ==> IsAt(pm.Rams(), pm.dev.pages, page, index, was.value) && item.value == was.value.item
      requires |key| <= MAX_KEY_LENGTH && b.None? && found ==>
        Displaces(Records(), was.value, RecOf(ns, typ, key, v, CHUNK_ANY), ns, key)
      requires |key| <= MAX_KEY_LENGTH && b.Some? ==>
        TakesName(Records(), ns, key, b.value, was, item.value, RecOf(ns, typ, key, v, CHUNK_ANY))
      modifies pm, pm.dev, pm.Objects()
      ensures Valid() && pm.pages == old(pm.pages)
      ensures WriteAnswer(err, old(pm.Rams()), old(pm.pageList), old(pm.freeList), typ, key, v)
      ensures err != OK ==> Records() == old(Records())
      ensures err == OK && b.None? ==> Records() == Updated(old(Records()), was, RecOf(ns, typ, key, v, CHUNK_ANY))
      ensures err == OK && b.Some? ==>
        Overwritten(old(Records()), Records(), ns, key, b.value, was.Some?, RecOf(ns, typ, key, v, CHUNK_ANY))
      ensures ChunksApart(old(pm.dev.pages)) ==> ChunksApart(pm.dev.pages)
      ensures b.None? && (found ==> item.value.typ == typ) ==>
        forall c :: c in pm.dev.cuts && c !in old(pm.dev.cuts) ==>
          OldOrNew(c, old(Records()), was, RecOf(ns, typ, key, v, CHUNK_ANY), err == OK)
          && (ChunksApart(old(pm.dev.pages)) ==> ChunksApart(c))
    {
      hide HashList.Valid, RamsOk, InOrder, Live, ChunksApart, Recoverable, Traced, IsAt, RecsOf, Room, AppendCut,
        Displaces, TakesName, Overwritten, PageManager.Wired, Safe, OldOrNew, PageManager.HashListsOk, WriteAnswer;
      ghost var rams0, img0, live, n := pm.Rams(), pm.dev.pages, Records(), RecOf(ns, typ, key, v, CHUNK_ANY);
      ghost var atomic := b.None? && (found ==> item.value.typ == typ);
      if was.Some? {
        WasAt(rams0, img0, page, index, was.value);
      }
      var seqNo := if found then pm.pages[page].seqNo else 0;
      err := Append(ns, typ, key, v);
      ghost var mid, cuts := pm.dev.pages, pm.dev.cuts;
      if err == OK {
        AnswerFits(old(pm.Rams()), old(pm.pageList), old(pm.freeList), typ, key, v);
      }
      if atomic {
        AppendCuts(img0, cuts, old(pm.dev.cuts), ns, key, was, n, err == OK);
      }
      if err == OK && found {
        err := EraseReplaced(page, index, seqNo, ns, item.value, key, rams0, img0, live, was, n, b);
        if atomic {
          DisplacesSame(live, was.value, n, ns, key);
          UpdateCuts(img0, mid, pm.dev.cuts, cuts, old(pm.dev.cuts), was.value, n);
        }
      }
    }

    // Sets a scalar or a string. A value that compares as equal to the stored one is not written
    // again. Otherwise the write finds a place if and only if there is room; then the record of the
    // name, wherever it was meanwhile moved to, has been replaced by one with the new value, and
    // all other records are as they were. If the type stays the same, losing power at any moment
    // leaves the old records or the new ones on flash. If the name stood for the blob b, all of it is gone
    // unless the search met a chunk first: then just one chunk.
    method WriteItem(ns: byte, typ: ItemType, key: string, v: Input, ghost b: Option<Blob>)
      returns (err: Error, ghost was: Option<Rec>)
      requires Valid() && ns != NS_ANY && PlainType(typ) && WellFormed(typ, v, CHUNK_ANY)
      requires v.Primitive? ==> OfWidth(typ, |v.bytes|)
      requires Unique(Records())
        && if b.None? then NoBlob(Records(), ns, Truncated(key)) else OnlyBlob(Records(), ns, key, b)
      modifies pm, pm.dev, pm.Objects()
      ensures Valid() && pm.pages == old(pm.pages) && (b.None? ==> RecordOf(old(Records()), ns, Truncated(key), was))
      ensures b.None? && Skips(was, typ, v) ==>
        err == OK && pm.dev.pages == old(pm.dev.pages) && pm.dev.cuts == old(pm.dev.cuts)
      ensures (b.None? ==> !Skips(was, typ, v)) ==>
        WriteAnswer(err, old(pm.Rams()), old(pm.pageList), old(pm.freeList), typ, key, v)
      ensures b.None? ==>
        Records() == if err == OK && !Skips(was, typ, v)
          then Updated(old(Records()), was, RecOf(ns, typ, key, v, CHUNK_ANY))
          else old(Records())
      ensures err == OK && b.None? && !Skips(was, typ, v) ==>
        MapUpdate(old(Records()), Records(), RecOf(ns, typ, key, v, CHUNK_ANY), ns, key)
      ensures b.Some? ==>
        BlobOk(b.value)
          && (was.Some? <==> TakesChunk(old(pm.dev.pages), old(pm.pageList), pm.hashOf, ns, Truncated(key)))
      ensures err != OK && b.Some? ==> Records() == old(Records())
      ensures err == OK && b.Some? ==>
        Overwritten(old(Records()), Records(), ns, key, b.value, was.Some?, RecOf(ns, typ, key, v, CHUNK_ANY))
      ensures err == OK && b.Some? && was.None? ==>
        MapUpdate(old(Records()), Records(), RecOf(ns, typ, key, v, CHUNK_ANY), ns, key)
      ensures ChunksApart(old(pm.dev.pages)) ==> ChunksApart(pm.dev.pages)
      ensures b.None? && (was.Some? ==> was.value.item.typ == typ) ==>
        forall c :: c in pm.dev.cuts && c !in old(pm.dev.cuts) ==>
          OldOrNew(c, old(Records()), was, RecOf(ns, typ, key, v, CHUNK_ANY), err == OK)
          && (ChunksApart(old(pm.dev.pages)) ==> ChunksApart(c))
    {
      hide HashList.Valid, RamsOk, InOrder, FindVia, Live, ChunksApart, Recoverable, Traced, IsAt, RecsOf, NoHitBefore,
        Unique, NoBlob, OnlyBlob, BlobOk, CmpAnswers, SameValue, Room, SizeOk, Displaces, PageManager.Wired,
        PageManager.HashListsOk, OldOrNew, Updated, InputBytes, TakesName, Overwritten, TakesChunk, MapUpdate, Met,
        WriteAnswer;
      ghost var rams0, img0, live, n := pm.Rams(), pm.dev.pages, Records(), RecOf(ns, typ, key, v, CHUNK_ANY);
      var found, matched, page, index, item;
      found, matched, page, index, item, was := Lookup(ns, typ, key, b);
      assert pm.Rams() == rams0;
      if matched {
        var same := pm.CmpItemAt(page, KeyQuery(ns, typ, key), InputBytes(v));
        WasAt(rams0, img0, page, index, was.value);
        CmpMeans(same, InputBytes(v), img0[page].slots, index, typ);
        if same == OK {
          return OK, was;
        }
      } else if b.None? {
        OtherType(was, typ, v);
      }
      if b.Some? {
        MetMeans(b.value, ns, key, was, item.value, TakesChunk(img0, pm.pageList, pm.hashOf, ns, Truncated(key)));
      }
      if |key| <= MAX_KEY_LENGTH {
        if b.None? {
          NewRecord(rams0, img0, pm.pageList, pm.freeList, pm.seqNumber, pm.hashOf, live, ns, typ, key, v, was);
        } else {
          NewOverwrites(live, ns, typ, key, v, b.value, was, item.value,
            TakesChunk(img0, pm.pageList, pm.hashOf, ns, key));
        }
      }
      err := Replace(ns, typ, key, v, found, page, index, item, was, b);
      if err == OK {
        AnswerFits(old(pm.Rams()), old(pm.pageList), old(pm.freeList), typ, key, v);
        if b.None? {
          WriteIsMapUpdate(live, was, n, ns, key);
        } else if was.None? {
          OverwrittenIsUpdate(live, Records(), ns, key, b.value, item.value, n);
        }
      }
    }

    // ---------------------------------------------------------------- reading and erasing

    // Reads the value of a name under a type. Under a type that no record of the name has, as under
    // any of these if it stands for a blob, nothing is found.
    method ReadItem(ns: byte, typ: ItemType, key: string, size: nat) returns (err: Error, data: seq<byte>)
      requires Valid() && ns != NS_ANY && PlainType(typ) && !typ.ANY? && Unique(Records())
      requires NoBlob(Records(), ns, Truncated(key)) || NoneOfType(Records(), ns, typ, Truncated(key))
      ensures ReadsAs(NameRecord(Records(), ns, Truncated(key)), typ, size, err, data)
    {
      hide HashList.Valid, RamsOk, InOrder, Live, FindVia, Unique, NoBlob, NoHitBefore, ReadAnswers, ReadsAs, Whole,
        NameRecord, WritableId, PageManager.Wired, PageManager.HashListsOk;
      ghost var rams, img, live := pm.Rams(), pm.dev.pages, Records();
      var at: nat, index: nat, item: Option<Item>;
      err, at, index, item := FindItem(KeyQuery(ns, typ, key));
      ghost var absent := NoneOfType(live, ns, typ, Truncated(key));
      if err == OK {
        ghost var r := HitIsNamed(rams, img, pm.pageList, pm.freeList, pm.seqNumber, pm.hashOf, ns, typ, key, at,
          index);
      } else {
        if !absent {
          NotFoundNamed(rams, img, pm.pageList, pm.freeList, pm.seqNumber, pm.hashOf, live, ns, typ, key);
        }
        OtherReads(NameRecord(live, ns, Truncated(key)), typ, size);
        return NOT_FOUND, [];
      }
      LocatedIs(rams, img, pm.pageList, pm.freeList, pm.seqNumber, pm.hashOf, live, ns, typ, key, at, index);
      LiveWritable(rams, img, pm.pageList, pm.freeList, pm.seqNumber, pm.hashOf);
      IsNameRecord(live, ns, Truncated(key), RecAt(img[pm.pageList[at]].slots, index));
      err, data := pm.ReadItemAt(pm.pageList[at], KeyQuery(ns, typ, key), size);
      FoundReads(err, data, img[pm.pageList[at]].slots, index, typ, size);
    }

    // Erases the record o, which is at entry `index` of page x. A power cut meanwhile leaves all
    // records or all but this one; if a record n that replaces it has just been written, surely all
    // but this one.
    method EraseRecord(x: nat, index: nat, ghost o: Rec, ghost n: Option<Rec>, ghost p: nat)
      requires Valid() && IsAt(pm.Rams(), pm.dev.pages, x, index, o) && Superseded(pm.dev.pages, o, n, p)
      modifies pm.dev, pm.Objects()
      ensures pm.pages == old(pm.pages) && pm.pageList == old(pm.pageList) && pm.freeList == old(pm.freeList)
        && pm.seqNumber == old(pm.seqNumber)
      ensures Valid() && Records() == old(Records()) - multiset{o}
        && (ChunksApart(old(pm.dev.pages)) ==> ChunksApart(pm.dev.pages))
      ensures x < |pm.pages| && OnlyAt(old(pm.Rams()), pm.Rams(), x) && SameFace(old(pm.Rams())[x], pm.Rams()[x])
      ensures OnlyPage(old(pm.dev.pages), pm.dev.pages, x) && pm.dev.pages[x].hdr == old(pm.dev.pages)[x].hdr
      ensures Removed(old(pm.dev.pages)[x].slots, pm.dev.pages[x].slots, pm.Rams()[x].top, index)
      ensures forall c :: c in pm.dev.cuts && c !in old(pm.dev.cuts) ==>
        AllOrAllBut(c, old(Records()), o) && (ChunksApart(old(pm.dev.pages)) ==> ChunksApart(c))
      ensures n.Some? ==> forall c :: c in pm.dev.cuts && c !in old(pm.dev.cuts) ==> Recoverable(c, Records())
    {
      hide HashList.Valid, RamsOk, InOrder, Live, Whole, IsAt, ItemEraseCut, Recs, RecsIn, AllOrAllBut, ChunksApart,
        Removed, Appended, Recoverable, Superseded, PageManager.Wired, PageManager.HashListsOk;
      ghost var rams, img, list, free := pm.Rams(), pm.dev.pages, pm.pageList, pm.freeList;
      WasAt(rams, img, x, index, o);
      pm.EraseEntryAt(x, index);
      ErasedCuts(rams, img, list, free, pm.seqNumber, pm.hashOf, pm.dev.pages, pm.dev.cuts, old(pm.dev.cuts), x, index,
        o);
      if n.Some? {
        SupersededErased(rams, img, pm.hashOf, pm.dev.pages, pm.dev.cuts, old(pm.dev.cuts), x, index, o, n.value, p);
      }
      ErasedInOrder(rams, img, list, free, pm.seqNumber, pm.hashOf, pm.Rams(), pm.dev.pages, x);
    }

    // Erases what a name stands for, whatever its type when none is given. Of a name that stands for
    // a single record, this one; a power cut meanwhile leaves all records or all but this one. Of a
    // name that stands for the blob b, all of it, unless the search meets a chunk of it first: then
    // exactly that chunk.
    method EraseItem(ns: byte, typ: ItemType, key: string, ghost b: Option<Blob>)
      returns (err: Error, ghost was: Option<Rec>)
      requires Valid() && ns != NS_ANY && PlainType(typ) && Unique(Records())
      requires if b.None? then NoBlob(Records(), ns, Truncated(key)) else OnlyBlob(Records(), ns, key, b)
      modifies pm.dev, pm.Objects()
      ensures Valid() && pm.pages == old(pm.pages) && pm.pageList == old(pm.pageList)
      ensures err != OK ==> err == NOT_FOUND && pm.dev.pages == old(pm.dev.pages) && pm.dev.cuts == old(pm.dev.cuts)
      ensures b.None? ==>
        RecordOf(old(Records()), ns, Truncated(key), was)
          && (err == OK <==> was.Some? && (typ.ANY? || was.value.item.typ == typ))
      ensures err == OK && b.None? ==> Records() == old(Records()) - multiset{was.value}
      ensures err == OK && b.None? ==>
        forall c :: c in pm.dev.cuts && c !in old(pm.dev.cuts) ==> AllOrAllBut(c, old(Records()), was.value)
      ensures b.Some? ==> BlobOk(b.value) && (err == OK <==> typ.ANY?)
      ensures err == OK && b.Some? ==>
        ByName(old(Records()), Records(), ns, key, b.value, was,
          TakesChunk(old(pm.dev.pages), pm.pageList, pm.hashOf, ns, Truncated(key)))
      ensures err == OK && b.Some? ==>
        forall c :: c in pm.dev.cuts && c !in old(pm.dev.cuts) ==>
          if was.Some? then AllOrAllBut(c, old(Records()), was.value)
          else ErasingBlob(c, old(Records()), ns, key, b.value, false)
      ensures StillApart(old(pm.dev.pages), old(pm.dev.cuts), true)
    {
      hide HashList.Valid, RamsOk, InOrder, Live, FindVia, Unique, NoBlob, NoHitBefore, Whole, IsAt, ItemEraseCut, Recs,
        RecsIn, AllOrAllBut, ChunksApart, PageManager.Wired, PageManager.HashListsOk, OnlyBlob, TakesChunk, BlobOk,
        ChunksOf, IndexOf, ErasingBlob, InReach;
      ghost var rams, img, live, list, free := pm.Rams(), pm.dev.pages, Records(), pm.pageList, pm.freeList;
      var at: nat, index: nat, item: Option<Item>;
      err, at, index, item := FindItem(KeyQuery(ns, typ, key));
      was := None;
      if b.Some? {
        was := FoundOfBlob(rams, img, list, free, pm.seqNumber, pm.hashOf, live, ns, typ, key, b.value, err == OK, at,
          index, item);
      }
      if err != OK {
        if b.None? {
          NotFoundNamed(rams, img, list, free, pm.seqNumber, pm.hashOf, live, ns, typ, key);
          was := NameRecord(live, ns, Truncated(key));
        }
        return;
      }
      var x := pm.pageList[at];
      if b.None? {
        LocatedIs(rams, img, list, free, pm.seqNumber, pm.hashOf, live, ns, typ, key, at, index);
        NotAnIndex(live, ns, Truncated(key), RecAt(img[x].slots, index));
        was := Some(RecAt(img[x].slots, index));
      }
      if item.value.typ == BLOB_IDX {
        err := EraseMultiPageBlob(ns, key, item.value.val.chunkStart, b, None, 0);
        return;
      }
      EraseRecord(x, index, was.value, None, 0);
    }

    // ---------------------------------------------------------------- counting and listing

    // One step of a walk over page list[at]: the next record sought, or none is left there.
    method StepOnPage(at: nat, q: Query, index: nat)
      returns (found: bool, next: nat, item: Option<Item>, ghost i: nat, ghost r: Option<Rec>)
      requires Valid() && at < |pm.pageList| && CursorOk(pm.Rams(), pm.dev.pages, pm.pageList, Cursor(at, index))
        && WalkQuery(q)
      ensures Valid() && pm.Rams() == old(pm.Rams()) && pm.pageList[at] < |pm.dev.pages|
      ensures CursorOk(pm.Rams(), pm.dev.pages, pm.pageList, Cursor(at, next))
      ensures found ==>
        r.Some? && IsAt(pm.Rams(), pm.dev.pages, pm.pageList[at], i, r.value) && next == i + r.value.item.span
      ensures var fp := pm.dev.pages[pm.pageList[at]];
        if found then r.Some? && item == Some(r.value.item) && Sought(r.value, q)
          && Of(PageAhead(fp, index), q) == [r.value] + Of(PageAhead(fp, next), q)
        else Of(PageAhead(fp, index), q) == []
    {
      hide HashList.Valid, InOrder, FindVia, Of, PageAhead, Whole, RamOk, PageManager.Wired, CursorOn, Sought, IsAt,
        Recs, PageManager.HashListsOk;
      InRange(pm.Rams(), pm.dev.pages, pm.pageList, pm.freeList, pm.seqNumber, pm.hashOf);
      CursorReady(pm.Rams(), pm.dev.pages, pm.pageList, pm.freeList, pm.seqNumber, pm.hashOf, at, q, index);
      var p := pm.pageList[at];
      ghost var fp := pm.dev.pages[p];
      var err: Error, k: nat;
      err, k, item := pm.FindItemAt(p, q, index);
      found, next, i, r := err == OK, index, k, None;
      if found {
        next := k + item.value.span;
        r := Some(RecAt(fp.slots, k));
        FoundIsAt(pm.Rams(), pm.dev.pages, pm.pageList, pm.freeList, pm.seqNumber, pm.hashOf, p, k);
      }
    }

    // The entries of one namespace on one page.
    method CalcEntriesOnPage(at: nat, ns: byte) returns (used: nat)
      requires Valid() && at < |pm.pageList|
      ensures Valid() && pm.Rams() == old(pm.Rams()) && pm.pageList[at] < |pm.dev.pages|
      ensures used == SpanSum(OfNs(RecsOf(pm.dev.pages[pm.pageList[at]]), ns))
    {
      hide HashList.Valid, InOrder, Of, PageAhead, SpanSum, CursorOk, PageManager.Wired, RamsOk, RecsOf, Sought,
        CursorOn, IsAt, PageManager.HashListsOk;
      ghost var rams := pm.Rams();
      var q := NsQuery(ns);
      InRange(rams, pm.dev.pages, pm.pageList, pm.freeList, pm.seqNumber, pm.hashOf);
      PageStart(rams, pm.dev.pages, pm.pageList, pm.freeList, pm.seqNumber, pm.hashOf, at, q);
      ghost var fp := pm.dev.pages[pm.pageList[at]];
      RecsOfIsAhead(fp);
      used := 0;
      var index: nat := 0;
      while true
        invariant pm.Rams() == rams && pm.Valid() && CursorOk(rams, pm.dev.pages, pm.pageList, Cursor(at, index))
        invariant used + SpanSum(Of(PageAhead(fp, index), q)) == SpanSum(Of(RecsOf(fp), q))
        decreases |Of(PageAhead(fp, index), q)|
      {
        var found: bool, next: nat, item: Option<Item>;
        ghost var i: nat, r: Option<Rec>;
        found, next, item, i, r := StepOnPage(at, q, index);
        if !found {
          SpanNone();
          return;
        }
        SpanSumAdds([r.value], Of(PageAhead(fp, next), q));
        SpanOne(r.value);
        used := used + item.value.span;
        index := next;
        if index >= ENTRY_COUNT {
          RamsOkAt(rams, pm.dev.pages, pm.hashOf, pm.pageList[at]);
          BehindPage(fp, index, ns);
          return;
        }
      }
    }

    // Exactly the entries of the records of this namespace, wherever they lie.
    method CalcEntriesInNamespace(ns: byte) returns (used: nat)
      requires Valid()
      ensures multiset(RecordList(pm.dev.pages, pm.pageList)) == Records()
      ensures used == SpanSum(OfNs(RecordList(pm.dev.pages, pm.pageList), ns))
    {
      hide HashList.Valid, InOrder, Of, SpanSum, PageManager.Wired, RamsOk, RecsOf, Sought, Live,
        PageManager.HashListsOk;
      ghost var rams := pm.Rams();
      var q := NsQuery(ns);
      AllAreListed(rams, pm.dev.pages, pm.pageList, pm.freeList, pm.seqNumber, pm.hashOf);
      InRange(rams, pm.dev.pages, pm.pageList, pm.freeList, pm.seqNumber, pm.hashOf);
      ghost var all := ListRecs(pm.dev.pages, pm.pageList, 0);
      used := 0;
      var at := 0;
      while at < |pm.pageList|
        invariant at <= |pm.pageList| && pm.Rams() == rams && pm.Valid()
        invariant used + SpanSum(Of(ListRecs(pm.dev.pages, pm.pageList, at), q)) == SpanSum(Of(all, q))
      {
        var n := CalcEntriesOnPage(at, ns);
        OfAdds(RecsOf(pm.dev.pages[pm.pageList[at]]), ListRecs(pm.dev.pages, pm.pageList, at + 1), q);
        SpanSumAdds(Of(RecsOf(pm.dev.pages[pm.pageList[at]]), q), Of(ListRecs(pm.dev.pages, pm.pageList, at + 1), q));
        used := used + n;
        at := at + 1;
      }
      OfNone(q);
      SpanNone();
    }

    // The next record sought at or after the cursor, page by page; afterwards the cursor stands behind it.
    method NextRecord(cur: Cursor, q: Query)
      returns (found: bool, next: Cursor, item: Option<Item>, ghost i: nat, ghost r: Option<Rec>)
      requires Valid() && CursorOk(pm.Rams(), pm.dev.pages, pm.pageList, cur) && WalkQuery(q)
      ensures Valid() && pm.Rams() == old(pm.Rams())
      ensures forall j :: 0 <= j < |pm.pageList| ==> pm.pageList[j] < |pm.dev.pages|
      ensures CursorOk(pm.Rams(), pm.dev.pages, pm.pageList, next)
      ensures found ==> r.Some? && item == Some(r.value.item) && Sought(r.value, q) && next.at < |pm.pageList|
      ensures found ==>
        IsAt(pm.Rams(), pm.dev.pages, pm.pageList[next.at], i, r.value) && next.index == i + r.value.item.span
      ensures found ==>
        Ahead(pm.dev.pages, pm.pageList, cur, q) == [r.value] + Ahead(pm.dev.pages, pm.pageList, next, q)
      ensures !found ==> Ahead(pm.dev.pages, pm.pageList, cur, q) == []
    {
      hide HashList.Valid, InOrder, Of, PageAhead, CursorOk, PageManager.Wired, RamsOk, RecsOf, Sought, CursorOn, IsAt,
        PageManager.HashListsOk;
      ghost var rams := pm.Rams();
      InRange(rams, pm.dev.pages, pm.pageList, pm.freeList, pm.seqNumber, pm.hashOf);
      next, i, r := cur, 0, None;
      while next.at < |pm.pageList|
        invariant pm.Rams() == rams && pm.Valid() && CursorOk(rams, pm.dev.pages, pm.pageList, next)
        invariant Ahead(pm.dev.pages, pm.pageList, next, q) == Ahead(pm.dev.pages, pm.pageList, cur, q)
        decreases |pm.pageList| - next.at
      {
        var here: bool, index: nat;
        here, index, item, i, r := StepOnPage(next.at, q, next.index);
        if here {
          AheadStep(pm.dev.pages, pm.pageList, next, index, q, r.value);
          return true, Cursor(next.at, index), item, i, r;
        }
        PageStart(rams, pm.dev.pages, pm.pageList, pm.freeList, pm.seqNumber, pm.hashOf, next.at + 1, q);
        PageDone(pm.dev.pages, pm.pageList, next, q);
        next := Cursor(next.at + 1, 0);
      }
      found, item := false, None;
    }

    // The next item to list at or after the cursor; afterwards the cursor stands behind it.
    method NextEntry(cur: Cursor, ns: byte) returns (found: bool, next: Cursor, item: Option<Item>)
      requires Valid() && CursorOk(pm.Rams(), pm.dev.pages, pm.pageList, cur)
      ensures Valid() && pm.Rams() == old(pm.Rams())
      ensures forall j :: 0 <= j < |pm.pageList| ==> pm.pageList[j] < |pm.dev.pages|
      ensures found ==> CursorOk(pm.Rams(), pm.dev.pages, pm.pageList, next) && item.Some?
      ensures var q := NsQuery(ns);
        Listed(Ahead(pm.dev.pages, pm.pageList, cur, q)) ==
          if found then [item.value] + Listed(Ahead(pm.dev.pages, pm.pageList, next, q)) else []
    {
      hide HashList.Valid, InOrder, Ahead, CursorOk, PageManager.Wired, RamsOk, RecsOf, Sought, Listed, Iterable, IsAt,
        PageManager.HashListsOk;
      ghost var rams := pm.Rams();
      var q := NsQuery(ns);
      InRange(rams, pm.dev.pages, pm.pageList, pm.freeList, pm.seqNumber, pm.hashOf);
      found, next, item := true, cur, None;
      while found
        invariant pm.Rams() == rams && pm.Valid() && CursorOk(rams, pm.dev.pages, pm.pageList, next)
        invariant forall j :: 0 <= j < |pm.pageList| ==> pm.pageList[j] < |pm.dev.pages|
        invariant Listed(Ahead(pm.dev.pages, pm.pageList, cur, q)) ==
          if found then Listed(Ahead(pm.dev.pages, pm.pageList, next, q)) else []
        decreases found, |Ahead(pm.dev.pages, pm.pageList, next, q)|
      {
        ghost var i: nat, r: Option<Rec>;
        found, next, item, i, r := NextRecord(next, q);
        if found {
          ListedFirst(r.value, Ahead(pm.dev.pages, pm.pageList, next, q));
          if Iterable(item.value) {
            return true, next, item;
          }
        } else {
          NothingAhead();
        }
      }
    }

    // All keys of a namespace, or of all: each item once.
    method ListItems(ns: byte) returns (items: seq<Item>)
      requires Valid()
      ensures multiset(RecordList(pm.dev.pages, pm.pageList)) == Records()
      ensures items == Listed(OfNs(RecordList(pm.dev.pages, pm.pageList), ns))
    {
      hide HashList.Valid, InOrder, Of, Ahead, PageManager.Wired, RamsOk, CursorOk, Listed, ListRecs, Live,
        PageManager.HashListsOk;
      ghost var rams := pm.Rams();
      ghost var q := NsQuery(ns);
      AllAreListed(rams, pm.dev.pages, pm.pageList, pm.freeList, pm.seqNumber, pm.hashOf);
      PageStart(rams, pm.dev.pages, pm.pageList, pm.freeList, pm.seqNumber, pm.hashOf, 0, q);
      ghost var all := ListRecs(pm.dev.pages, pm.pageList, 0);
      items := [];
      var cur := Cursor(0, 0);
      var found, next, item := NextEntry(cur, ns);
      ghost var whole, rest := Listed(Of(all, q)), Listed(Of(all, q));
      assert items + rest == whole;
      while found
        invariant pm.Rams() == rams && pm.Valid()
          && (found ==> item.Some? && CursorOk(rams, pm.dev.pages, pm.pageList, next))
        invariant rest == if found then [item.value] + Listed(Ahead(pm.dev.pages, pm.pageList, next, q)) else []
        invariant items + rest == whole
        decreases |rest|
      {
        ListedNext(items, item.value, Listed(Ahead(pm.dev.pages, pm.pageList, next, q)));
        rest := Listed(Ahead(pm.dev.pages, pm.pageList, next, q));
        items := items + [item.value];
        found, next, item := NextEntry(next, ns);
      }
    }

    // ---------------------------------------------------------------- blobs

    ghost function CurrentRam(): Ram
      requires pm.pageList != [] && Current() < |pm.pages|
      reads pm, pm.Objects()
    {
      pm.Rams()[Current()]
    }

    // All records are there, and they were whenever power could have failed.
    ghost predicate KeptSafe(img: seq<FPage>, cuts0: iset<seq<FPage>>)
      reads pm.dev
    {
      && Records() == Live(img) && (ChunksApart(img) ==> ChunksApart(pm.dev.pages))
      && forall c :: c in pm.dev.cuts && c !in cuts0 ==> Safe(img, c, Live(img))
    }

    // The current page is given up for another.
    method NextPage() returns (err: Error)
      requires Valid() && LiveState(pm.Rams()[Current()].state)
      modifies pm, pm.dev, pm.Objects()
      ensures Valid() && pm.pages == old(pm.pages) && Records() == old(Records())
        && (err == OK || err == NOT_ENOUGH_SPACE)
      ensures pm.pageList != [] && Current() < |pm.pages|
      ensures err == OK ==> Fresh(CurrentRam()) && CurrentRam().used < ENTRY_COUNT
      ensures err == OK <==> SomeEntry(old(AllLots(pm.Rams(), pm.pageList, pm.freeList)))
      ensures err == OK ==>
        multiset(AllLots(pm.Rams(), pm.pageList, pm.freeList))
          == multiset(old(AllLots(pm.Rams(), pm.pageList, pm.freeList)))
        && Widest(pm.Rams(), pm.pageList, pm.freeList)
      ensures err == OK ==> |Filled(pm.Rams(), pm.pageList)| >= |Filled(old(pm.Rams()), old(pm.pageList))|
      ensures err == OK ==> Tailroom(CurrentRam()) == CHUNK_MAX_SIZE || NoBetter(pm.Rams(), pm.pageList, pm.freeList)
      ensures err == OK && NoBetter(old(pm.Rams()), old(pm.pageList), old(pm.freeList)) ==>
        Tailroom(CurrentRam()) == old(Tailroom(CurrentRam()))
      ensures KeptSafe(old(pm.dev.pages), old(pm.dev.cuts)) && Followed(old(Stage()), Stage())
    {
      hide HashList.Valid, RamsOk, InOrder, Relocated, MarkedFull, Live, NoBetter, Filled, Fresh, Tailroom,
        PageManager.Wired, Safe, ChunksApart, PageManager.HashListsOk, Followed, AllLots, Widest, SomeEntry, Partition;
      ghost var rams0, img0, list, free := pm.Rams(), pm.dev.pages, pm.pageList, pm.freeList;
      CurrentIs(rams0, img0, list, free, pm.seqNumber, pm.hashOf);
      ghost var rams, img, freed;
      err, freed, rams, img := MakeRoom();
      CurrentIs(pm.Rams(), pm.dev.pages, pm.pageList, pm.freeList, pm.seqNumber, pm.hashOf);
      AnotherPage(rams0, img0, list, free, old(pm.seqNumber), pm.hashOf, rams, img, pm.Rams(), pm.dev.pages,
        pm.pageList, pm.freeList, freed, err == OK);
      RoomFollows(rams0, img0, list, free, old(pm.seqNumber), pm.hashOf, rams, img, pm.Rams(), pm.dev.pages,
        pm.pageList, pm.freeList, pm.seqNumber, freed, err == OK);
    }

    // The current page is no place to start a blob: another one.
    method PageToStart(ghost rams0: seq<Ram>, ghost list0: seq<nat>, ghost free0: seq<nat>, ghost size: nat)
      returns (err: Error)
      requires Valid() && LiveState(pm.Rams()[Current()].state) && !RoomyNow(pm.Rams(), pm.pageList, size)
      requires Searching(rams0, list0, free0, pm.Rams(), pm.pageList, pm.freeList, size)
      modifies pm, pm.dev, pm.Objects()
      ensures Valid() && pm.pages == old(pm.pages) && Records() == old(Records())
        && (err == OK || err == NOT_ENOUGH_SPACE)
      ensures pm.pageList != [] && Current() < |pm.pages|
      ensures err == OK ==> Tailroom(CurrentRam()) == CHUNK_MAX_SIZE || NoBetter(pm.Rams(), pm.pageList, pm.freeList)
      ensures err == OK && NoBetter(old(pm.Rams()), old(pm.pageList), old(pm.freeList)) ==>
        Tailroom(CurrentRam()) == old(Tailroom(CurrentRam()))
      ensures err == OK ==> Searching(rams0, list0, free0, pm.Rams(), pm.pageList, pm.freeList, size)
      ensures err != OK || !RoomyNow(pm.Rams(), pm.pageList, size) ==>
        !CanStart(rams0, list0, free0, size) && !BlobRoom(rams0, list0, free0, size)
      ensures KeptSafe(old(pm.dev.pages), old(pm.dev.cuts)) && Followed(old(Stage()), Stage())
    {
      hide HashList.Valid, RamsOk, InOrder, Live, NoBetter, Filled, PageManager.Wired, PageManager.HashListsOk,
        Tailroom, Fresh, Safe, ChunksApart, Followed, AllLots, Widest, SomeEntry, CanStart, BlobRoom, Searching,
        RoomyNow;
      ghost var rams, list, free := pm.Rams(), pm.pageList, pm.freeList;
      err := NextPage();
      SearchGoesOn(rams0, list0, free0, rams, list, free, pm.Rams(), pm.dev.pages, pm.pageList, pm.freeList,
        pm.seqNumber, pm.hashOf, size, err == OK);
    }

    // Before the first chunk: a page with room for the whole blob, or else with a good part of a page.
    method FindTailroom(size: nat) returns (err: Error)
      requires Valid()
      modifies pm, pm.dev, pm.Objects()
      ensures Valid() && pm.pages == old(pm.pages) && Records() == old(Records())
        && (err == OK || err == NOT_ENOUGH_SPACE)
      ensures pm.pageList != [] && Current() < |pm.pages|
      ensures err == OK ==>
        Tailroom(CurrentRam()) > 0 && (Tailroom(CurrentRam()) >= size || 10 * Tailroom(CurrentRam()) >= 4000)
      ensures err == OK <==> old(CanStart(pm.Rams(), pm.pageList, pm.freeList, size))
      ensures old(BlobRoom(pm.Rams(), pm.pageList, pm.freeList, size)) <==> err == OK && FitsNow(size)
      ensures KeptSafe(old(pm.dev.pages), old(pm.dev.cuts)) && Followed(old(Stage()), Stage())
    {
      hide HashList.Valid, RamsOk, InOrder, Live, NoBetter, Filled, PageManager.Wired, PageManager.HashListsOk,
        Tailroom, Fresh, Recoverable, ChunksApart, Followed, CanStart, BlobRoom, Searching, FitsNow;
      FollowedSame(Stage());
      ghost var rams0, list0, free0 := pm.Rams(), pm.pageList, pm.freeList;
      SearchStarts(rams0, list0, free0, size);
      CurrentIs(pm.Rams(), pm.dev.pages, pm.pageList, pm.freeList, pm.seqNumber, pm.hashOf);
      var tailroom := pm.pages[pm.pageList[|pm.pageList| - 1]].VarDataTailroom();
      ghost var best := false;
      while (tailroom < size || (tailroom == 0 && size == 0)) && tailroom < CHUNK_MAX_SIZE / 10
        invariant Valid() && pm.pages == old(pm.pages) && Records() == old(Records())
        invariant pm.pageList != [] && Current() < |pm.pages| && tailroom == Tailroom(CurrentRam())
        invariant best ==> NoBetter(pm.Rams(), pm.pageList, pm.freeList)
        invariant Searching(rams0, list0, free0, pm.Rams(), pm.pageList, pm.freeList, size)
        invariant KeptSafe(old(pm.dev.pages), old(pm.dev.cuts)) && Followed(old(Stage()), Stage())
        decreases if tailroom == CHUNK_MAX_SIZE then 0 else if best then 1 else 2
      {
        SmallIsLive(pm.Rams(), pm.dev.pages, pm.pageList, pm.freeList, pm.seqNumber, pm.hashOf);
        ghost var mid := Stage();
        err := PageToStart(rams0, list0, free0, size);
        FollowedOn(old(Stage()), mid, Stage());
        if err != OK {
          return;
        }
        var now := pm.pages[pm.pageList[|pm.pageList| - 1]].VarDataTailroom();
        if now == tailroom {
          return NOT_ENOUGH_SPACE;
        }
        tailroom, best := now, now != CHUNK_MAX_SIZE;
      }
      StartFound(rams0, list0, free0, size);
      err := OK;
    }

    // Images that were not there before hold these records, or one more.
    ghost predicate CutsAdd(cuts0: iset<seq<FPage>>, before: multiset<Rec>, n: Rec)
      reads pm.dev
    {
      forall c :: c in pm.dev.cuts && c !in cuts0 ==> Recoverable(c, before) || Recoverable(c, before + multiset{n})
    }

    // No page holds two chunks of one name, and none did whenever power could have failed.
    ghost predicate StillApart(img: seq<FPage>, cuts0: iset<seq<FPage>>, clear: bool)
      reads pm.dev
    {
      clear && ChunksApart(img) ==> ChunksApart(pm.dev.pages) && forall c :: c in pm.dev.cuts && c !in cuts0 ==>
        ChunksApart(c)
    }

    // The key can be stored, and the current page has an entry left for the index.
    ghost predicate IndexRoom(key: string)
      reads pm, pm.Objects()
    {
      && pm.pageList != [] && Current() < |pm.pages|
      && |key| <= MAX_KEY_LENGTH && !CurrentRam().state.FULL? && FirstFree(CurrentRam()) < ENTRY_COUNT
    }

    lemma StartFound(rams0: seq<Ram>, list0: seq<nat>, free0: seq<nat>, size: nat)
      requires Searching(rams0, list0, free0, pm.Rams(), pm.pageList, pm.freeList, size)
        && RoomyNow(pm.Rams(), pm.pageList, size)
      ensures CanStart(rams0, list0, free0, size) && (FitsNow(size) <==> BlobRoom(rams0, list0, free0, size))
    {
      hide CanHold, OpenLots, AllLots, Roomy, CanStart, BlobRoom, Searching, RoomyNow, PageManager.Wired;
      SearchEnds(rams0, list0, free0, pm.Rams(), pm.pageList, pm.freeList, size);
    }

    // So many bytes can be written as chunks from now on, with an index behind them.
    ghost predicate FitsNow(left: nat)
      reads pm, pm.Objects()
    {
      CanHold(OpenLots(pm.Rams(), pm.pageList, pm.freeList), EntriesFor(left))
    }

    // One chunk goes to the current page.
    method PlaceChunk(ns: byte, key: string, piece: seq<byte>, chunk: byte, ghost left: nat)
      returns (err: Error, ghost host: seq<Rec>)
      requires Valid() && ns != NS_ANY && chunk != CHUNK_ANY && pm.pageList != [] && Current() < |pm.pages|
      requires PieceOf(CurrentRam(), left, |piece|)
      modifies pm.dev, pm.Objects()
      ensures pm.pages == old(pm.pages) && pm.pageList == old(pm.pageList) && pm.freeList == old(pm.freeList)
        && pm.seqNumber == old(pm.seqNumber)
      ensures Valid() && err == if |key| > MAX_KEY_LENGTH then KEY_TOO_LONG else OK
      ensures err == OK ==> StillRoom(old(pm.Rams()), pm.pageList, pm.freeList, pm.Rams(), left, |piece|)
      ensures Records() == old(Records()) + if err == OK
        then multiset{RecOf(ns, BLOB_DATA, key, Variable(piece), chunk)}
        else multiset{}
      ensures CutsAdd(old(pm.dev.cuts), old(Records()), RecOf(ns, BLOB_DATA, key, Variable(piece), chunk))
      ensures Current() < |old(pm.dev.pages)| && host == RecsOf(old(pm.dev.pages)[Current()])
      ensures StillApart(old(pm.dev.pages), old(pm.dev.cuts), ClearOf(host, ns, key))
      ensures err == OK ==> |key| <= MAX_KEY_LENGTH && LiveState(CurrentRam().state) && !CurrentRam().state.FULL?
      ensures err == OK && |piece| + ENTRY_SIZE <= old(Tailroom(CurrentRam())) ==> FirstFree(CurrentRam()) < ENTRY_COUNT
      ensures err == OK ==>
        |Filled(pm.Rams(), pm.pageList)| >= |Filled(old(pm.Rams()),
          pm.pageList)| + if old(Fresh(CurrentRam()) && |piece| == Tailroom(CurrentRam())) then 1 else 0
      ensures Followed(old(Stage()), Stage())
    {
      hide HashList.Valid, RamsOk, InOrder, Live, Filled, PageManager.Wired, PageManager.HashListsOk, Tailroom,
        WriteVerdict, RecsOf, RecOf, SpanFor, ItemsKept, ChunksApart, Recoverable, AppendCut, ClearOf, EndsInItem,
        NoPairWith, Fresh, Followed, FirstFree, Appending, StillRoom, Partition;
      ghost var page := Current();
      ghost var rams, list, r, img := pm.Rams(), pm.pageList, CurrentRam(), pm.dev.pages;
      assert page in list && rams[page] == r;
      CurrentIs(rams, pm.dev.pages, list, pm.freeList, pm.seqNumber, pm.hashOf);
      ChunkFits(r, key, piece);
      host := RecsOf(img[page]);
      ghost var n, clear := RecOf(ns, BLOB_DATA, key, Variable(piece), chunk), ClearOf(host, ns, key);
      if clear {
        ClearIsNoPair(host, ns, key, piece, chunk);
      }
      err := WriteCurrent(ns, BLOB_DATA, key, Variable(piece), chunk, clear);
      AppendIsEither(img, pm.dev.cuts, old(pm.dev.cuts), n, err == OK);
      ChunkFollows(rams, img, list, pm.freeList, pm.seqNumber, pm.hashOf, pm.Rams(), pm.dev.pages, n, err == OK, ns,
        key, piece, chunk);
      if err == OK {
        AfterChunk(rams, img, list, pm.freeList, pm.seqNumber, pm.hashOf, pm.Rams(), r, pm.Rams()[page], left, piece);
      }
    }

    // A chunk has filled the current page: another page for the rest of the data, or for the index.
    method PageForRest(ghost rams0: seq<Ram>, ghost left: nat, ghost piece: nat) returns (err: Error)
      requires Valid() && LiveState(pm.Rams()[Current()].state) && Current() < |rams0|
        && PieceOf(rams0[Current()], left, piece)
      requires StillRoom(rams0, pm.pageList, pm.freeList, pm.Rams(), left, piece)
        && (piece < left || Tailroom(rams0[Current()]) - piece < ENTRY_SIZE)
      modifies pm, pm.dev, pm.Objects()
      ensures Valid() && pm.pages == old(pm.pages) && Records() == old(Records())
        && (err == OK || err == NOT_ENOUGH_SPACE)
      ensures pm.pageList != [] && Current() < |pm.pages|
      ensures err == OK ==> !CurrentRam().state.FULL? && FirstFree(CurrentRam()) < ENTRY_COUNT
      ensures err == OK ==>
        Fresh(CurrentRam()) && CurrentRam().used < ENTRY_COUNT && Widest(pm.Rams(), pm.pageList, pm.freeList)
      ensures CanHold(OpenLots(rams0, old(pm.pageList), old(pm.freeList)), EntriesFor(left)) <==>
        err == OK && (piece < left ==> FitsNow(left - piece))
      ensures err == OK ==> |Filled(pm.Rams(), pm.pageList)| >= |Filled(old(pm.Rams()), old(pm.pageList))|
      ensures KeptSafe(old(pm.dev.pages), old(pm.dev.cuts)) && Followed(old(Stage()), Stage())
    {
      hide HashList.Valid, RamsOk, InOrder, Live, Filled, PageManager.Wired, PageManager.HashListsOk, Tailroom,
        ChunksApart, Followed, CanHold, OpenLots, AllLots, SomeEntry, StillRoom, Widest, Partition, Fresh, Safe;
      ghost var mid, list, free := pm.Rams(), pm.pageList, pm.freeList;
      CurrentIs(mid, pm.dev.pages, list, free, pm.seqNumber, pm.hashOf);
      err := NextPage();
      UsedInRange(pm.Rams(), pm.dev.pages, pm.pageList, pm.freeList, pm.seqNumber, pm.hashOf);
      if err == OK {
        FreshHasEnd(CurrentRam());
      }
      ChunkAnswer(rams0, list, free, mid, pm.Rams(), pm.pageList, pm.freeList, left, piece, err == OK);
    }

    // One chunk goes to the current page. If there is more, or no entry is left for the index,
    // another page is needed.
    method WriteChunk(ns: byte, key: string, piece: seq<byte>, chunk: byte, left: nat)
      returns (err: Error, written: bool, page: nat, ghost host: seq<Rec>)
      requires Valid() && ns != NS_ANY && chunk != CHUNK_ANY && pm.pageList != [] && Current() < |pm.pages|
      requires PieceOf(CurrentRam(), left, |piece|)
      modifies pm, pm.dev, pm.Objects()
      ensures Valid() && pm.pages == old(pm.pages) && pm.pageList != [] && Current() < |pm.pages| && page < |pm.pages|
      ensures err != PAGE_FULL && (err == OK ==> written && IndexRoom(key))
      ensures if |key| > MAX_KEY_LENGTH then err == KEY_TOO_LONG else err == OK || err == NOT_ENOUGH_SPACE
      ensures |key| <= MAX_KEY_LENGTH ==>
        (old(FitsNow(left)) <==> err == OK && (|piece| < left ==> FitsNow(left - |piece|)))
      ensures Records() == old(Records()) + if written then multiset{RecOf(ns, BLOB_DATA, key, Variable(piece), chunk)}
        else multiset{}
      ensures CutsAdd(old(pm.dev.cuts), old(Records()), RecOf(ns, BLOB_DATA, key, Variable(piece), chunk))
      ensures old(Current()) < |old(pm.dev.pages)| && host == RecsOf(old(pm.dev.pages)[old(Current())])
      ensures StillApart(old(pm.dev.pages), old(pm.dev.cuts), ClearOf(host, ns, key))
      ensures err == OK && |piece| < left ==>
        Fresh(CurrentRam()) && CurrentRam().used < ENTRY_COUNT && Widest(pm.Rams(), pm.pageList, pm.freeList)
      ensures err == OK && |piece| < left ==>
        |Filled(pm.Rams(), pm.pageList)| >= |Filled(old(pm.Rams()),
          old(pm.pageList))| + if old(Fresh(CurrentRam())) then 1 else 0
      ensures Followed(old(Stage()), Stage())
    {
      hide HashList.Valid, RamsOk, InOrder, Live, Filled, PageManager.Wired, PageManager.HashListsOk, Tailroom, RecsOf,
        RecOf, ChunksApart, Recoverable, ClearOf, Followed, CanHold, OpenLots, StillRoom, Widest, Fresh,
        FirstFree, SpanFor, EntriesFor;
      page := pm.pageList[|pm.pageList| - 1];
      CurrentIs(pm.Rams(), pm.dev.pages, pm.pageList, pm.freeList, pm.seqNumber, pm.hashOf);
      ghost var rams, list, free := pm.Rams(), pm.pageList, pm.freeList;
      var tailroom := pm.pages[page].VarDataTailroom();
      err, host := PlaceChunk(ns, key, piece, chunk, left);
      written := err == OK;
      if written && (|piece| < left || tailroom - |piece| < ENTRY_SIZE) {
        ghost var mid := Stage();
        err := PageForRest(rams, left, |piece|);
        FollowedOn(old(Stage()), mid, Stage());
      } else if written {
        ChunkFitsHere(rams, list, free, pm.Rams(), left, |piece|);
      }
    }

    // The record n has just been added to these.
    ghost predicate JustAppended(live: multiset<Rec>, n: Rec)
      reads pm, pm.dev
    {
      pm.pageList != [] && Appended(pm.dev.pages, live, n, Current())
    }

    // The index comes last. There is always an entry left for it.
    method WriteIndex(ns: byte, key: string, size: nat, count: byte, start: byte) returns (err: Error)
      requires Valid() && ns != NS_ANY && size <= 127 * 125 * 32 && IndexRoom(key)
      modifies pm.dev, pm.Objects()
      ensures Valid() && pm.pages == old(pm.pages) && err == OK
      ensures Records() == old(Records()) + multiset{IndexRec(ns, key, size, count, start)}
      ensures CutsAppend(old(pm.dev.pages), old(pm.dev.cuts), IndexRec(ns, key, size, count, start), true, true)
      ensures StillApart(old(pm.dev.pages), old(pm.dev.cuts), true)
      ensures JustAppended(old(Records()), IndexRec(ns, key, size, count, start)) && Followed(old(Stage()), Stage())
    {
      hide HashList.Valid, RamsOk, InOrder, Live, PageManager.Wired, PageManager.HashListsOk, WriteVerdict, RecsOf,
        RecOf, ItemsKept, ChunksApart, AppendCut, EndsInItem, NoPairWith, Appended, Followed;
      ghost var rams, img := pm.Rams(), pm.dev.pages;
      IndexFits(CurrentRam(), key, size, count, start);
      CurrentIs(pm.Rams(), pm.dev.pages, pm.pageList, pm.freeList, pm.seqNumber, pm.hashOf);
      IndexIsNoChunk(RecsOf(pm.dev.pages[Current()]), ns, key, size, count, start);
      ghost var recs, live := RecsOf(pm.dev.pages[Current()]), Records();
      err := WriteCurrent(ns, BLOB_IDX, key, Index(size, count, start), CHUNK_ANY, true);
      IsAppended(pm.Rams(), pm.dev.pages, pm.pageList, pm.freeList, pm.seqNumber, pm.hashOf, recs, live,
        IndexRec(ns, key, size, count, start));
      IndexFollows(rams, img, pm.pageList, pm.freeList, pm.seqNumber, pm.hashOf, pm.Rams(), pm.dev.pages, ns, key, size,
        count, start);
    }

    // What the loop over the chunks knows: chunks written so far fill all pages they are on, but
    // for the first, so there are fewer of them than pages.
    ghost predicate Chunking(k: nat)
      reads pm, pm.dev, pm.Objects()
    {
      && Valid() && pm.pageList != [] && Current() < |pm.pages|
      && if k == 0 then Tailroom(CurrentRam()) > 0
         else
           && Fresh(CurrentRam()) && CurrentRam().used < ENTRY_COUNT && k <= |Filled(pm.Rams(), pm.pageList)| + 1
           && Widest(pm.Rams(), pm.pageList, pm.freeList)
    }

    lemma NoneFitsNow(left: nat)
      requires Valid() && pm.pageList != [] && Current() < |pm.pages| && left > 0
      requires Widest(pm.Rams(), pm.pageList, pm.freeList) && Fresh(CurrentRam()) && Tailroom(CurrentRam()) == 0
      ensures !FitsNow(left)
    {
      hide HashList.Valid, InOrder, PageManager.Wired, PageManager.HashListsOk, CanHold, OpenLots, Widest, Fresh,
        Tailroom;
      NothingFits(pm.Rams(), pm.dev.pages, pm.pageList, pm.freeList, pm.seqNumber, pm.hashOf, left);
    }

    lemma ChunkingMeans(k: nat)
      requires Chunking(k)
      ensures Valid() && pm.pageList != [] && Current() < |pm.pages| && (k == 0 ==> Tailroom(CurrentRam()) > 0)
      ensures k > 0 ==> Fresh(CurrentRam()) && CurrentRam().used < ENTRY_COUNT
      ensures k > 0 ==> Widest(pm.Rams(), pm.pageList, pm.freeList)
      ensures k > 0 ==> k <= |Filled(pm.Rams(), pm.pageList)| + 1
    {
      hide HashList.Valid, InOrder, PageManager.Wired, PageManager.HashListsOk, Widest, Fresh, Tailroom, Filled;
    }

    lemma IsChunking(k: nat)
      requires Valid() && pm.pageList != [] && Current() < |pm.pages| && k > 0
      requires Fresh(CurrentRam()) && CurrentRam().used < ENTRY_COUNT && Widest(pm.Rams(), pm.pageList, pm.freeList)
      requires k <= |Filled(pm.Rams(), pm.pageList)| + 1
      ensures Chunking(k)
    {
      hide HashList.Valid, InOrder, PageManager.Wired, PageManager.HashListsOk, Widest, Fresh, Tailroom, Filled;
    }

    lemma NothingAdded(before: multiset<Rec>, n: Rec, clear: bool)
      ensures CutsAdd(pm.dev.cuts, before, n) && StillApart(pm.dev.pages, pm.dev.cuts, clear)
    {
    }

    // The next chunk: as much as fits on the current page. `host` is what that page holds before.
    method WriteNextChunk(ns: byte, key: string, data: seq<byte>, chunkCount: nat, chunk: byte, offset: nat)
      returns (err: Error, wrapped: bool, written: bool, page: nat, piece: seq<byte>, ghost host: seq<Rec>)
      requires chunkCount <= 127 && (chunkCount < 127 ==> chunk != CHUNK_ANY) && ns != NS_ANY && offset <= |data|
      requires Chunking(chunkCount) && (chunkCount > 0 ==> offset < |data|)
      modifies pm, pm.dev, pm.Objects()
      ensures Valid() && pm.pages == old(pm.pages) && err != PAGE_FULL
        && (written ==> page < |pm.pages| && chunkCount < 127)
      ensures (wrapped ==> |pm.pages| > 127 && err == FAIL) && piece <= data[offset..] && (err == OK ==> written)
      ensures err == OK && offset + |piece| < |data| ==> |piece| > 0 && Chunking(chunkCount + 1)
      ensures err == OK ==> IndexRoom(key)
      ensures chunkCount == 0 && |key| > MAX_KEY_LENGTH ==> err == KEY_TOO_LONG
      ensures !wrapped && |key| <= MAX_KEY_LENGTH ==>
        (err == OK || err == NOT_ENOUGH_SPACE) && (old(FitsNow(|data| - offset)) <==>
          err == OK && (offset + |piece| < |data| ==> FitsNow(|data| - offset - |piece|)))
      ensures chunkCount == 127 ==> pm.dev.cuts == old(pm.dev.cuts) && pm.dev.pages == old(pm.dev.pages)
      ensures old(Current()) < |old(pm.dev.pages)| && host == RecsOf(old(pm.dev.pages)[old(Current())])
      ensures StillApart(old(pm.dev.pages), old(pm.dev.cuts), ClearOf(host, ns, key))
      ensures Records() == old(Records()) + if written then multiset{RecOf(ns, BLOB_DATA, key, Variable(piece), chunk)}
        else multiset{}
      ensures chunkCount < 127 ==>
        CutsAdd(old(pm.dev.cuts), old(Records()), RecOf(ns, BLOB_DATA, key, Variable(piece), chunk))
      ensures Followed(old(Stage()), Stage())
    {
      hide HashList.Valid, RamsOk, InOrder, Live, Filled, PageManager.Wired, PageManager.HashListsOk, Tailroom, Fresh,
        RecOf, Recoverable, ChunksApart, ClearOf, RecsOf, Followed, FitsNow, Widest, Partition, CutsAdd, StillApart,
        IndexRoom, NextPiece, Chunking;
      FollowedSame(Stage());
      ChunkingMeans(chunkCount);
      CurrentIs(pm.Rams(), pm.dev.pages, pm.pageList, pm.freeList, pm.seqNumber, pm.hashOf);
      written, page, piece, wrapped, host := false, 0, [], false, RecsOf(pm.dev.pages[Current()]);
      NothingAdded(Records(), RecOf(ns, BLOB_DATA, key, Variable([]), chunk), ClearOf(host, ns, key));
      var tailroom := pm.pages[pm.pageList[|pm.pageList| - 1]].VarDataTailroom();
      if tailroom == 0 {
        NoneFitsNow(|data| - offset);
        err := NOT_ENOUGH_SPACE;
      } else if chunkCount == 127 {
        ListedOnce(pm.Rams(), pm.dev.pages, pm.pageList, pm.freeList, pm.seqNumber, pm.hashOf);
        FilledBound(pm.Rams(), pm.pageList, pm.freeList, |pm.pages|);
        err, wrapped := FAIL, true;
      } else {
        piece := NextPiece(data, offset, tailroom);
        err, written, page, host := WriteChunk(ns, key, piece, chunk, |data| - offset);
        if err == OK && offset + |piece| < |data| {
          IsChunking(chunkCount + 1);
        }
      }
    }

    ghost predicate Tried(img0: seq<FPage>, cuts0: iset<seq<FPage>>, ns: byte, key: string, start: byte, used: nat,
                          tried: seq<seq<byte>>, hosts: seq<seq<Rec>>)
      reads pm.dev
    {
      TriedAt(pm.dev.pages, pm.dev.cuts, img0, cuts0, ns, key, start, used, tried, hosts)
    }

    // One round of the loop over the chunks.
    method TryChunk(ns: byte, key: string, data: seq<byte>, start: byte, chunkCount: nat, chunk: byte, offset: nat,
                    ghost img0: seq<FPage>, ghost cuts0: iset<seq<FPage>>, ghost pieces: seq<seq<byte>>,
                    ghost hosts0: seq<seq<Rec>>)
      returns (err: Error, wrapped: bool, written: bool, page: nat, size: nat,
              ghost tried: seq<seq<byte>>, ghost hosts: seq<seq<Rec>>)
      requires chunkCount == |pieces| <= 127 && start <= VER_1_OFFSET && chunk == start + chunkCount && ns != NS_ANY
        && Chunking(chunkCount)
      requires Chunked(Records(), Live(img0), ns, key, data, start, pieces, offset)
        && (chunkCount > 0 ==> offset < |data|)
      requires Tried(img0, cuts0, ns, key, start, chunkCount, pieces, hosts0)
      modifies pm, pm.dev, pm.Objects()
      ensures Valid() && pm.pages == old(pm.pages) && err != PAGE_FULL
        && (written ==> page < |pm.pages| && chunkCount < 127)
      ensures (wrapped ==> |pm.pages| > 127 && err == FAIL) && (err == OK ==> written)
      ensures Tried(img0, cuts0, ns, key, start, chunkCount + if written then 1 else 0, tried, hosts)
      ensures err == OK ==>
        offset + size <= |data| && Chunked(Records(), Live(img0), ns, key, data, start, tried, offset + size)
      ensures err == OK && offset + size < |data| ==> size > 0 && Chunking(chunkCount + 1)
      ensures err == OK ==> IndexRoom(key) && |tried| == chunkCount + 1
      ensures chunkCount == 0 && |key| > MAX_KEY_LENGTH ==> err == KEY_TOO_LONG
      ensures !wrapped && |key| <= MAX_KEY_LENGTH ==>
        (err == OK || err == NOT_ENOUGH_SPACE) && (old(FitsNow(|data| - offset)) <==>
          err == OK && (offset + size < |data| ==> FitsNow(|data| - offset - size)))
      ensures Followed(old(Stage()), Stage())
    {
      hide HashList.Valid, RamsOk, InOrder, Live, Filled, PageManager.Wired, PageManager.HashListsOk, Tailroom, Fresh,
        Joined, ChunkRecs, RecOf, Recoverable, PartAdded, Storage.Valid, Chunked, ChunksApart, ClearOf, AllClear,
        Chunking, TriedAt, IndexRoom, Followed, RecsOf, Stage, FitsNow;
      ghost var mid, was, live := pm.dev.cuts, pm.dev.pages, Records();
      ghost var host;
      var piece;
      ChunkedMeans(live, Live(img0), ns, key, data, start, pieces, offset);
      err, wrapped, written, page, piece, host := WriteNextChunk(ns, key, data, chunkCount, chunk, offset);
      size := |piece|;
      tried := TriedMore(was, mid, pm.dev.pages, pm.dev.cuts, img0, cuts0, ns, key, start, pieces, hosts0, piece, host,
        written);
      hosts := hosts0 + [host];
      if err == OK {
        assert piece == data[offset..offset + size];
        MoreChunked(live, Live(img0), ns, key, data, start, pieces, offset, size, Records());
      }
    }

    // All chunks. `tried` are the pieces written, and the one that failed.
    method WriteChunks(ns: byte, key: string, data: seq<byte>, start: byte)
      returns (err: Error, wrapped: bool, usedPages: seq<nat>, ghost tried: seq<seq<byte>>, ghost hosts: seq<seq<Rec>>)
      requires Valid() && Chunking(0) && ns != NS_ANY && start <= VER_1_OFFSET
      modifies pm, pm.dev, pm.Objects()
      ensures Valid() && pm.pages == old(pm.pages) && err != PAGE_FULL
        && forall i :: 0 <= i < |usedPages| ==> usedPages[i] < |pm.pages|
      ensures |usedPages| <= 127 && (wrapped ==> |pm.pages| > 127 && err == FAIL)
      ensures Tried(old(pm.dev.pages), old(pm.dev.cuts), ns, key, start, |usedPages|, tried, hosts)
      ensures err == OK ==> 0 < |usedPages| == |tried| && Joined(tried) == data
      ensures err == OK ==> Records() == old(Records()) + multiset(ChunkRecs(ns, key, start, tried))
      ensures err == OK ==> IndexRoom(key)
      ensures !wrapped ==>
        err == if |key| > MAX_KEY_LENGTH then KEY_TOO_LONG else if old(FitsNow(|data|)) then OK else NOT_ENOUGH_SPACE
      ensures Followed(old(Stage()), Stage())
    {
      hide HashList.Valid, RamsOk, InOrder, Live, Filled, PageManager.Wired, PageManager.HashListsOk, Tailroom, Fresh,
        Joined, ChunkRecs, RecOf, Recoverable, PartAdded, Storage.Valid, Chunked, ChunksApart, ClearOf, TriedAt,
        IndexRoom, Chunking, Followed, FitsNow;
      FollowedSame(Stage());
      ghost var img0, cuts0 := pm.dev.pages, pm.dev.cuts;
      err, usedPages, tried, wrapped, hosts := OK, [], [], false, [];
      var offset: nat := 0;
      NoneChunked(Records(), ns, key, data, start);
      NothingTriedYet(img0, cuts0, ns, key, start);
      var more := true;
      while more
        invariant Valid() && pm.pages == old(pm.pages) && err != PAGE_FULL && |usedPages| <= 127
          && (wrapped ==> |pm.pages| > 127 && err == FAIL)
        invariant more ==> err == OK && Chunking(|usedPages|) && !wrapped && (|usedPages| > 0 ==> offset < |data|)
        invariant err == OK ==>
          |usedPages| == |tried| && Chunked(Records(), Live(img0), ns, key, data, start, tried, offset)
        invariant err == OK && !more ==> 0 < |usedPages| && offset == |data| && IndexRoom(key)
        invariant forall i :: 0 <= i < |usedPages| ==> usedPages[i] < |pm.pages|
        invariant Tried(img0, cuts0, ns, key, start, |usedPages|, tried, hosts) && Followed(old(Stage()), Stage())
        invariant |key| > MAX_KEY_LENGTH ==> if more then |usedPages| == 0 else err == KEY_TOO_LONG
        invariant !wrapped && |key| <= MAX_KEY_LENGTH ==>
          (err == OK || err == NOT_ENOUGH_SPACE) && offset <= |data|
            && (old(FitsNow(|data|)) <==> err == OK && (more ==> FitsNow(|data| - offset)))
        decreases if more then 1 else 0, |data| - offset, if |usedPages| == 0 then 1 else 0
      {
        var written: bool, page: nat, size: nat;
        ghost var mid := Stage();
        ChunkedMeans(Records(), Live(img0), ns, key, data, start, tried, offset);
        err, wrapped, written, page, size, tried, hosts :=
          TryChunk(ns, key, data, start, |usedPages|, start + |usedPages|, offset, img0, cuts0, tried, hosts);
        FollowedOn(old(Stage()), mid, Stage());
        if written {
          usedPages := usedPages + [page];
        }
        if err == OK {
          offset := offset + size;
        }
        more := err == OK && offset < |data|;
      }
      if err == OK {
        ChunkedAll(Records(), Live(img0), ns, key, data, start, tried);
      }
    }

    // eraseItem on one page, of a part of a blob. `o` is the record that was erased.
    method ErasePartOn(p: nat, q: Query) returns (err: Error, ghost index: nat, ghost o: Option<Rec>)
      requires Valid() && p < |pm.pages| && BlobQuery(q)
      modifies pm.dev, pm.Objects()
      ensures pm.pages == old(pm.pages) && pm.pageList == old(pm.pageList) && pm.freeList == old(pm.freeList)
        && pm.seqNumber == old(pm.seqNumber)
      ensures Valid() && (err == OK <==> o.Some?)
        && p < |pm.dev.pages| == |old(pm.dev.pages)| == |pm.Rams()| == |old(pm.Rams())|
      ensures o.None? ==>
        pm.Rams() == old(pm.Rams()) && pm.dev.pages == old(pm.dev.pages) && pm.dev.cuts == old(pm.dev.cuts)
          && NotTaken(RecsOf(pm.dev.pages[p]), q)
      ensures o.Some? ==> IsAt(old(pm.Rams()), old(pm.dev.pages), p, index, o.value) && Judge(o.value.item, q).Take?
      ensures o.Some? ==> OnlyAt(old(pm.Rams()), pm.Rams(), p) && SameFace(old(pm.Rams())[p], pm.Rams()[p])
      ensures o.Some? ==>
        OnlyPage(old(pm.dev.pages), pm.dev.pages, p)
          && Removed(old(pm.dev.pages)[p].slots, pm.dev.pages[p].slots, pm.Rams()[p].top, index)
      ensures o.Some? ==>
        LessOne(RecsOf(old(pm.dev.pages)[p]), o.value, RecsOf(pm.dev.pages[p]))
          && pm.dev.pages[p].hdr == old(pm.dev.pages)[p].hdr
      ensures Records() == old(Records()) - if o.Some? then multiset{o.value} else multiset{}
      ensures forall c :: c in pm.dev.cuts && c !in old(pm.dev.cuts) ==>
        o.Some? && AllOrAllBut(c, old(Records()), o.value)
      ensures StillApart(old(pm.dev.pages), old(pm.dev.cuts), true)
    {
      hide HashList.Valid, RamsOk, InOrder, Live, FindVia, Recs, RecsIn, Whole, IsAt, ItemEraseCut, AllOrAllBut,
        ChunksApart, Removed, NotTaken, Judge, PageManager.Wired, PageManager.HashListsOk;
      ghost var rams, img, list, free := pm.Rams(), pm.dev.pages, pm.pageList, pm.freeList;
      err := pm.EraseItemAt(p, q);
      index := 0;
      o := PartOn(rams, img, list, free, pm.seqNumber, pm.hashOf, p, q);
      if err == OK {
        index := FindVia(img[p].slots, q, pm.hashOf, 0).index;
        WasAt(rams, img, p, index, o.value);
        ErasedCuts(rams, img, list, free, pm.seqNumber, pm.hashOf, pm.dev.pages, pm.dev.cuts, old(pm.dev.cuts), p,
          index, o.value);
        ErasedLessOne(img, pm.dev.pages, p, index, o.value);
        ErasedInOrder(rams, img, list, free, pm.seqNumber, pm.hashOf, pm.Rams(), pm.dev.pages, p);
      }
    }

    ghost predicate CutsBetween(cuts0: iset<seq<FPage>>, high: multiset<Rec>)
      reads pm.dev
    {
      forall c :: c in pm.dev.cuts && c !in cuts0 ==> Between(c, Records(), high)
    }

    // After a failed write: erases chunks of the pages written to, counted from 0 whatever the version.
    method EraseWritten(ns: byte, key: string, usedPages: seq<nat>, ghost unique: bool)
      requires Valid() && ns != NS_ANY && |usedPages| <= 127
        && (forall i :: 0 <= i < |usedPages| ==> usedPages[i] < |pm.pages|)
      requires unique ==> Unique(Records())
      modifies pm.dev, pm.Objects()
      ensures Valid() && pm.pages == old(pm.pages) && Records() <= old(Records())
      ensures unique ==>
        forall r :: r in Records() <==>
          r in old(Records()) && !Condemned(old(pm.dev.pages), usedPages, |usedPages|, ns, key, r)
      ensures CutsBetween(old(pm.dev.cuts), old(Records())) && StillApart(old(pm.dev.pages), old(pm.dev.cuts), true)
    {
      hide HashList.Valid, RamsOk, InOrder, Live, RecsOf, IsAt, Unique, NotTaken, LessOne, LeftOn, Between, AllOrAllBut,
        Judge, PageManager.Wired, ChunksApart, Condemned, Removed, PageManager.HashListsOk;
      ghost var img0 := pm.dev.pages;
      NothingErased(img0, usedPages, ns, key);
      var ii := 0;
      while ii < |usedPages|
        invariant ii <= |usedPages| && pm.pages == old(pm.pages) && Valid() && Records() <= Live(img0)
        invariant unique ==> LeftOn(img0, pm.dev.pages, usedPages, ii, ns, key)
        invariant CutsBetween(old(pm.dev.cuts), Live(img0)) && StillApart(img0, old(pm.dev.cuts), true)
      {
        ghost var img, cuts := pm.dev.pages, pm.dev.cuts;
        ghost var index, o;
        var err: Error;
        err, index, o := ErasePartOn(usedPages[ii], ChunkQuery(ns, key, ii as byte));
        if unique {
          OneMoreGoneOn(img0, img, pm.dev.pages, usedPages, ii, ns, key, o);
        }
        LessBetween(pm.dev.cuts, cuts, old(pm.dev.cuts), Live(img0), Live(img), Records(), o);
        ii := ii + 1;
      }
      if unique {
        AllGoneOn(img0, pm.dev.pages, usedPages, ns, key);
      }
    }

    // Whether a blob of this size can be stored at all, and where it starts.
    method StartBlob(size: nat) returns (err: Error)
      requires Valid()
      modifies pm, pm.dev, pm.Objects()
      ensures Valid() && pm.pages == old(pm.pages) && Records() == old(Records())
        && (err == OK || err == NOT_ENOUGH_SPACE || err == VALUE_TOO_LONG)
      ensures err == VALUE_TOO_LONG <==> size > 4000 * if |pm.pages| > 128 then 127 else |pm.pages| - 1
      ensures err == VALUE_TOO_LONG ==> pm.dev.pages == old(pm.dev.pages) && pm.dev.cuts == old(pm.dev.cuts)
      ensures err == OK ==> Chunking(0) && size <= 127 * 125 * 32
      ensures err != VALUE_TOO_LONG ==> (err == OK <==> old(CanStart(pm.Rams(), pm.pageList, pm.freeList, size)))
      ensures err != VALUE_TOO_LONG ==>
        (old(BlobRoom(pm.Rams(), pm.pageList, pm.freeList, size)) <==> err == OK && FitsNow(size))
      ensures KeptSafe(old(pm.dev.pages), old(pm.dev.cuts)) && Followed(old(Stage()), Stage())
    {
      hide HashList.Valid, RamsOk, InOrder, Live, Filled, PageManager.Wired, PageManager.HashListsOk, Tailroom, Fresh,
        ChunksApart, Safe, Followed, CanStart, BlobRoom, FitsNow, Widest;
      PageCount(this);
      FollowedSame(Stage());
      var maxPages: nat := if |pm.pages| - 1 > 127 then 127 else |pm.pages| - 1;
      if size > maxPages * CHUNK_MAX_SIZE {
        return VALUE_TOO_LONG;
      }
      err := FindTailroom(size);
    }

    // writeMultiPageBlob: chunks of this version, then the index.
    method WriteMultiPageBlob(ns: byte, key: string, data: seq<byte>, start: byte, ghost unique: bool)
      returns (err: Error, wrapped: bool, ghost t: Attempt)
      requires Valid() && ns != NS_ANY && start <= VER_1_OFFSET
        && (unique ==> Unique(Records()) && VersionFree(Records(), ns, key, start))
      modifies pm, pm.dev, pm.Objects()
      ensures Valid() && pm.pages == old(pm.pages) && err != PAGE_FULL && (wrapped ==> |pm.pages| > 127 && err == FAIL)
      ensures !wrapped ==>
        old(BlobAnswer(err, |pm.pages|, pm.Rams(), pm.pageList, pm.freeList, key, |data|))
      ensures err == VALUE_TOO_LONG ==> pm.dev.pages == old(pm.dev.pages) && pm.dev.cuts == old(pm.dev.cuts)
      ensures Numbered(start, |t.tried|)
      ensures err == OK ==>
        0 < |t.tried| < 128 && Joined(t.tried) == data && |key| <= MAX_KEY_LENGTH && |data| <= 127 * 125 * 32
      ensures err == OK ==>
        Records() == old(Records()) + multiset(ChunkRecs(ns, key, start, t.tried)) + multiset{IndexRec(ns, key, |data|,
          |t.tried|, start)}
      ensures err == OK ==>
        JustAppended(old(Records()) + multiset(ChunkRecs(ns, key, start, t.tried)),
          IndexRec(ns, key, |data|, |t.tried|, start))
      ensures err == OK ==>
        forall c :: c in pm.dev.cuts && c !in old(pm.dev.cuts) ==>
          WritingBlob(c, old(Records()), ChunkRecs(ns, key, start, t.tried),
            IndexRec(ns, key, |data|, |t.tried|, start))
      ensures err != OK ==> Records() <= old(Records()) + multiset(ChunkRecs(ns, key, start, t.tried))
      ensures err != OK && unique ==> Unwritten(old(Records()), Records(), ns, key, start, t)
      ensures err != OK ==>
        forall c :: c in pm.dev.cuts && c !in old(pm.dev.cuts) ==>
          Between(c, old(Records()) * Records(), old(Records()) + multiset(ChunkRecs(ns, key, start, t.tried)))
      ensures StillApart(old(pm.dev.pages), old(pm.dev.cuts), AllClear(t.hosts, ns, key))
      ensures err == OK ==> Followed(old(Stage()), Stage())
    {
      hide HashList.Valid, RamsOk, InOrder, Live, Filled, PageManager.Wired, PageManager.HashListsOk, Tailroom, Fresh,
        Joined, ChunkRecs, RecOf, Recoverable, PartAdded, Appending, AppendCut, IndexRec, Storage.Valid, ChunksApart,
        Between, Safe, Unique, VersionFree, Appended, ClearOf, Condemned, Followed, CanStart, BlobRoom, FitsNow,
        Chunking, IndexRoom, JustAppended;
      ghost var before, img0, cuts0 := Records(), pm.dev.pages, pm.dev.cuts;
      t, wrapped := Attempt([], [], [], img0), false;
      NothingTried(before, ns, key, start);
      err := StartBlob(|data|);
      ghost var mid, pmid := pm.dev.cuts, pm.dev.pages;
      if err != OK {
        t := Attempt([], [], [], pm.dev.pages);
        SafeBetween(img0, mid, cuts0, before, before, before);
        SafeApart(img0, mid, cuts0, before);
        NoAttempt(before, ns, key, start, pm.dev.pages);
        return;
      }
      var usedPages: seq<nat>;
      ghost var tried, hosts, first := [], [], Stage();
      err, wrapped, usedPages, tried, hosts := WriteChunks(ns, key, data, start);
      ghost var cuts, img := pm.dev.cuts, pm.dev.pages;
      t := Attempt(tried, hosts, usedPages, img);
      TailroomThenChunks(img0, mid, cuts0, pmid, img, cuts, ns, key, start, |usedPages|, tried, hosts);
      if err != OK {
        err := UndoWrite(ns, key, err, usedPages, before, start, t, unique);
        PartBetween(pm.dev.cuts, cuts, cuts0, before, ChunkRecs(ns, key, start, tried), Records(), Live(img));
      } else {
        ghost var last := Stage();
        err := WriteIndex(ns, key, |data|, |usedPages|, start);
        FollowedOn(old(Stage()), first, last);
        FollowedOn(old(Stage()), last, Stage());
        WritingCuts(pm.dev.cuts, cuts, cuts0, before, ChunkRecs(ns, key, start, tried), img,
          IndexRec(ns, key, |data|, |tried|, start));
      }
    }

    // The error path of writeMultiPageBlob.
    method UndoWrite(ns: byte, key: string, error: Error, usedPages: seq<nat>, ghost before: multiset<Rec>,
                     ghost start: byte, ghost t: Attempt, ghost unique: bool) returns (err: Error)
      requires Valid() && ns != NS_ANY && |usedPages| <= 127
        && (forall i :: 0 <= i < |usedPages| ==> usedPages[i] < |pm.pages|)
      requires Numbered(start, |t.tried|) && usedPages == t.used && t.img == pm.dev.pages
        && |usedPages| <= |ChunkRecs(ns, key, start, t.tried)| == |t.tried| <= 127
      requires Records() == before + multiset(ChunkRecs(ns, key, start, t.tried)[..|usedPages|])
      requires unique ==> Unique(before) && VersionFree(before, ns, key, start)
      modifies pm.dev, pm.Objects()
      ensures Valid() && pm.pages == old(pm.pages) && err == error
        && Records() <= old(Records()) <= before + multiset(ChunkRecs(ns, key, start, t.tried))
      ensures unique ==> Unwritten(before, Records(), ns, key, start, t)
      ensures CutsBetween(old(pm.dev.cuts), old(Records())) && StillApart(old(pm.dev.pages), old(pm.dev.cuts), true)
    {
      hide HashList.Valid, RamsOk, InOrder, Live, ChunkRecs, Unique, VersionFree, Between, ChunksApart, Condemned,
        PageManager.Wired, PageManager.HashListsOk;
      PrefixCounts(ChunkRecs(ns, key, start, t.tried), |usedPages|);
      if unique {
        LiveWritable(pm.Rams(), pm.dev.pages, pm.pageList, pm.freeList, pm.seqNumber, pm.hashOf);
        UniqueWith(before, ns, key, start, t.tried, |usedPages|);
      }
      EraseWritten(ns, key, usedPages, unique);
      err := error;
    }

    // The data of a chunk, if there is room for it. `r` is the record asked for, if `known`.
    method ReadChunk(ns: byte, key: string, number: nat, left: nat, ghost known: bool, ghost r: Rec)
      returns (err: Error, data: seq<byte>)
      requires Valid() && ns != NS_ANY
      requires known ==>
        number < CHUNK_ANY && OnlyAsked(Records(), ChunkQuery(ns, key, number), Some(r)) && r.item.val.VarLength?
      ensures Valid() && pm.Rams() == old(pm.Rams()) && (err == OK ==> |data| <= left)
      ensures known && r.item.val.dataSize <= left ==>
        err == OK && WholeRec(r) && r.item.typ.BLOB_DATA? && data == DataOf(r)
      ensures number < CHUNK_ANY ==> err == OK || err == NOT_FOUND || err == INVALID_LENGTH
      ensures !known && number < CHUNK_ANY && OnlyAsked(Records(), ChunkQuery(ns, key, number), None) ==>
        err == NOT_FOUND
    {
      hide HashList.Valid, RamsOk, InOrder, Live, FindVia, NoHitBefore, Whole, OnlyAsked, IsAt, WholeRec,
        PageManager.Wired, PageManager.HashListsOk;
      ghost var rams, img := pm.Rams(), pm.dev.pages;
      var chunk: byte := number % 256;
      var at: nat, index: nat, item: Option<Item>;
      err, at, index, item := FindItem(ChunkQuery(ns, key, chunk));
      data := [];
      if known {
        FindsAsked(rams, img, pm.pageList, pm.freeList, pm.seqNumber, pm.hashOf, Records(), ChunkQuery(ns, key, chunk),
          Some(r), err == OK, at, index);
      } else if number < CHUNK_ANY && OnlyAsked(Records(), ChunkQuery(ns, key, number), None) {
        FindsAsked(rams, img, pm.pageList, pm.freeList, pm.seqNumber, pm.hashOf, Records(), ChunkQuery(ns, key, chunk),
          None, err == OK, at, index);
      }
      if err == OK {
        HitOfType(rams, img, pm.pageList, pm.freeList, pm.seqNumber, pm.hashOf, ChunkQuery(ns, key, chunk), at, index);
        if known {
          WasAt(rams, img, pm.pageList[at], index, r);
          AskedIsChunk(Records(), ns, key, chunk, r);
        }
        if item.value.val.dataSize > left {
          return INVALID_LENGTH, data;
        }
        data := pm.ReadVariableAt(pm.pageList[at], item.value, index);
        if number != item.value.chunk {
          err := FAIL;
        }
      }
    }

    // The chunks of a blob one after the other, as far as they are there: all of them if they are cs.
    method ReadChunks(ns: byte, key: string, start: byte, count: byte, size: nat, ghost cs: Option<seq<Rec>>,
                      ghost lost: Option<nat>) returns (err: Error, data: seq<byte>)
      requires Valid() && ns != NS_ANY && (cs.Some? ==> HasPieces(Records(), ns, key, start, cs.value))
      requires cs.Some? ==> count == |cs.value| && size == |DataFrom(cs.value)|
      requires lost.Some? ==> cs.None? && lost.value < count && Lacks(Records(), ns, key, start, lost.value)
      ensures lost.Some? ==> err == NOT_FOUND || err == INVALID_LENGTH
      ensures Valid() && pm.Rams() == old(pm.Rams()) && |data| <= size
      ensures cs.Some? ==> err == OK && data == DataFrom(cs.value)
    {
      hide HashList.Valid, RamsOk, InOrder, Live, HasPieces, DataFrom, WholeRec, DataOf, RecOf, OnlyAsked,
        PageManager.Wired, PageManager.HashListsOk;
      ghost var rams := pm.Rams();
      err, data := OK, [];
      NoPieces(cs);
      var chunkNum := 0;
      while chunkNum < count
        invariant chunkNum <= count && Valid() && pm.Rams() == rams && |data| <= size && err == OK
        invariant lost.Some? ==> chunkNum <= lost.value
        invariant cs.Some? ==> data == DataFrom(cs.value[..chunkNum])
      {
        ghost var r := RecOf(ns, BLOB_DATA, key, Variable([]), 0);
        if cs.Some? {
          PieceMore(Records(), ns, key, start, cs.value, chunkNum);
          r := cs.value[chunkNum];
        }
        var piece: seq<byte>;
        err, piece := ReadChunk(ns, key, start + chunkNum, size - |data|, cs.Some?, r);
        if err != OK {
          return;
        }
        data, chunkNum := data + piece, chunkNum + 1;
      }
      if cs.Some? {
        assert cs.value[..count] == cs.value;
      }
    }

    // The index of a blob, of any version or of this one. `r` is the record asked for, if `known`.
    method FindIndex(ns: byte, key: string, ver: byte, ghost known: bool, ghost r: Option<Rec>)
      returns (err: Error, at: nat, index: nat, val: Val)
      requires Valid() && ns != NS_ANY && (known ==> OnlyAsked(Records(), IndexQuery(ns, key, ver), r))
      ensures Valid() && pm.Rams() == old(pm.Rams()) && (err == OK || err == NOT_FOUND)
      ensures err == OK ==>
        at < |pm.pageList| && IsIndexAt(pm.Rams(), pm.dev.pages, pm.pageList[at], index, val) && val.BlobIndex?
      ensures known ==> err == if r.Some? then OK else NOT_FOUND
      ensures known && r.Some? ==>
        IsAt(pm.Rams(), pm.dev.pages, pm.pageList[at], index, r.value) && val == r.value.item.val
      ensures ver == VER_ANY && Unique(Records()) ==> (err == OK <==> HasAnIndex(Records(), ns, Truncated(key)))
    {
      hide HashList.Valid, RamsOk, InOrder, Live, FindVia, NoHitBefore, Whole, OnlyAsked, IsAt, PageManager.Wired,
        PageManager.HashListsOk, HasAnIndex, Unique, WritableId;
      ghost var rams, img := pm.Rams(), pm.dev.pages;
      LiveWritable(rams, img, pm.pageList, pm.freeList, pm.seqNumber, pm.hashOf);
      var item: Option<Item>;
      err, at, index, item := FindItem(IndexQuery(ns, key, ver));
      val := Scalar([]);
      if ver == VER_ANY && Unique(Records()) {
        UniqueIsIndexedOnly(Records(), ns, Truncated(key));
        FindsAnyIndex(rams, img, pm.pageList, pm.freeList, pm.seqNumber, pm.hashOf, Records(), ns, key, err == OK, at,
          index);
      }
      if known {
        FindsAsked(rams, img, pm.pageList, pm.freeList, pm.seqNumber, pm.hashOf, Records(), IndexQuery(ns, key, ver), r,
          err == OK, at, index);
      }
      if err == OK {
        HitOfType(rams, img, pm.pageList, pm.freeList, pm.seqNumber, pm.hashOf, IndexQuery(ns, key, ver), at, index);
        val := item.value.val;
        if known {
          WasAt(rams, img, pm.pageList[at], index, r.value);
        }
      }
    }

    // What is gone since then are chunks and indices of this name.
    ghost predicate PartsGone(before: multiset<Rec>, ns: byte, key: string)
      reads pm.dev
    {
      GoneAre(before, Records(), ns, key)
    }

    // Erases the next chunk of a name on one page; the search goes on behind it.
    method EraseNextChunk(p: nat, ns: byte, key: string, from: nat, ghost before: multiset<Rec>)
      returns (found: bool, next: nat)
      requires Valid() && p < |pm.pages| && p in pm.pageList && ns != NS_ANY && from < ENTRY_COUNT
      requires PartsGone(before, ns, Truncated(key)) && CursorOn(pm.Rams()[p], pm.dev.pages[p], from)
      requires ScannedTo(pm.Rams()[p], pm.dev.pages[p], from, ns, Truncated(key))
      modifies pm.dev, pm.Objects()
      ensures pm.pages == old(pm.pages) && pm.pageList == old(pm.pageList) && pm.freeList == old(pm.freeList)
        && pm.seqNumber == old(pm.seqNumber)
      ensures Valid() && PartsGone(before, ns, Truncated(key))
      ensures OnlyPage(old(pm.dev.pages), pm.dev.pages, p) && next >= from
      ensures found ==> next > from && CursorOn(pm.Rams()[p], pm.dev.pages[p], next)
      ensures ScannedTo(pm.Rams()[p], pm.dev.pages[p], if found then next else ENTRY_COUNT, ns, Truncated(key))
      ensures StillApart(old(pm.dev.pages), old(pm.dev.cuts), true)
    {
      hide HashList.Valid, RamsOk, InOrder, Live, FindVia, Whole, IsAt, AllOrAllBut, ChunksApart, Removed, GoneAre,
        Boundary, CursorOn, PageManager.Wired, PageManager.HashListsOk, ScannedTo, Superseded, Recoverable;
      ghost var rams, img := pm.Rams(), pm.dev.pages;
      InRange(rams, img, pm.pageList, pm.freeList, pm.seqNumber, pm.hashOf);
      AnyBoundary(rams[p], img[p], from);
      ScanStep(rams, img, pm.hashOf, p, ns, key, from);
      var err, index, item := pm.FindItemAt(p, ChunkQuery(ns, key, CHUNK_ANY), from);
      found, next := err == OK, from;
      if found {
        ghost var o := ChunkHit(rams, img, pm.pageList, pm.freeList, pm.seqNumber, pm.hashOf, p, ns, key, from, index);
        NotSuperseded(img, o, 0);
        EraseRecord(p, index, o, None, 0);
        OneMoreGone(before, Live(img), Records(), o, ns, Truncated(key));
        StillBoundary(img[p].slots, pm.dev.pages[p].slots, pm.Rams()[p], pm.dev.pages[p], index);
        next := index + item.value.span;
        ScanGoesOn(rams, img, pm.Rams(), pm.dev.pages, p, index, ns, key);
      }
    }

    // Erases all chunks of a name on one page.
    method ErasePageChunks(at: nat, ns: byte, key: string, ghost before: multiset<Rec>)
      requires Valid() && at < |pm.pageList| && ns != NS_ANY && PartsGone(before, ns, Truncated(key))
      modifies pm.dev, pm.Objects()
      ensures pm.pages == old(pm.pages) && pm.pageList == old(pm.pageList) && pm.freeList == old(pm.freeList)
        && pm.seqNumber == old(pm.seqNumber)
      ensures Valid() && PartsGone(before, ns, Truncated(key))
      ensures OnlyPage(old(pm.dev.pages), pm.dev.pages, pm.pageList[at])
        && NoChunk(RecsOf(pm.dev.pages[pm.pageList[at]]), ns, Truncated(key))
      ensures StillApart(old(pm.dev.pages), old(pm.dev.cuts), true)
    {
      hide HashList.Valid, RamsOk, InOrder, Live, GoneAre, CursorOn, PageManager.Wired, ChunksApart,
        PageManager.HashListsOk, RecsOf, ScannedTo;
      InRange(pm.Rams(), pm.dev.pages, pm.pageList, pm.freeList, pm.seqNumber, pm.hashOf);
      var p, itemIndex, found := pm.pageList[at], 0, true;
      FirstBoundary(pm.Rams()[p], pm.dev.pages[p]);
      ScannedNone(pm.Rams()[p], pm.dev.pages[p], ns, Truncated(key));
      while found && itemIndex < ENTRY_COUNT
        invariant pm.pages == old(pm.pages) && pm.pageList == old(pm.pageList) && pm.freeList == old(pm.freeList)
          && pm.seqNumber == old(pm.seqNumber)
        invariant Valid() && PartsGone(before, ns, Truncated(key)) && p < |pm.pages|
        invariant p < |pm.dev.pages| && p in pm.pageList
        invariant OnlyPage(old(pm.dev.pages), pm.dev.pages, p)
        invariant found ==> CursorOn(pm.Rams()[p], pm.dev.pages[p], itemIndex)
        invariant ScannedTo(pm.Rams()[p], pm.dev.pages[p], if found then itemIndex else ENTRY_COUNT, ns, Truncated(key))
        invariant StillApart(old(pm.dev.pages), old(pm.dev.cuts), true)
        decreases ENTRY_COUNT - itemIndex, found
      {
        found, itemIndex := EraseNextChunk(p, ns, key, itemIndex, before);
      }
      ScannedMore(pm.Rams()[p], pm.dev.pages[p], if found then itemIndex else ENTRY_COUNT, ns, Truncated(key));
      PageScanned(pm.Rams(), pm.dev.pages, pm.hashOf, p, ns, Truncated(key));
    }

    // Cleans up what is left of a damaged blob: its index, a second one of another version if there
    // is one, and all chunks of its name. Without an index nothing is found.
    method EraseParts(ns: byte, key: string) returns (found: bool)
      requires Valid() && ns != NS_ANY
      modifies pm.dev, pm.Objects()
      ensures pm.pages == old(pm.pages) && pm.pageList == old(pm.pageList) && pm.freeList == old(pm.freeList)
        && pm.seqNumber == old(pm.seqNumber)
      ensures Valid() && PartsGone(old(Records()), ns, Truncated(key))
      ensures IndexedOnly(old(Records()), ns, Truncated(key)) ==>
        (found <==> HasAnIndex(old(Records()), ns, Truncated(key)))
      ensures found && IndexedOnly(old(Records()), ns, Truncated(key)) ==>
        NameGone(old(Records()), Records(), ns, Truncated(key))
      ensures !found ==> pm.dev.pages == old(pm.dev.pages) && pm.dev.cuts == old(pm.dev.cuts)
      ensures StillApart(old(pm.dev.pages), old(pm.dev.cuts), true)
    {
      hide HashList.Valid, RamsOk, InOrder, Live, GoneAre, PageManager.Wired, ChunksApart, PageManager.HashListsOk,
        RecsOf, IndexedOnly, ListScanned, HasAnIndex, WritableId, NameGone, IndexLess;
      ghost var before := Records();
      NoneGone(before, ns, Truncated(key));
      LiveWritable(pm.Rams(), pm.dev.pages, pm.pageList, pm.freeList, pm.seqNumber, pm.hashOf);
      found := EraseAnyIndex(ns, key, before);
      if !found {
        return;
      }
      ghost var one := Records();
      NoneGone(one, ns, Truncated(key));
      if IndexedOnly(before, ns, Truncated(key)) {
        StillIndexedOnly(before, one, ns, Truncated(key));
      }
      var second := EraseAnyIndex(ns, key, one);
      ghost var mid := Records();
      NoneGone(mid, ns, Truncated(key));
      var at := 0;
      NoneScanned(pm.dev.pages, pm.pageList, ns, Truncated(key));
      while at < |pm.pageList|
        invariant at <= |pm.pageList| && Valid() && PartsGone(mid, ns, Truncated(key))
        invariant ListScanned(pm.dev.pages, pm.pageList, at, ns, Truncated(key))
        invariant StillApart(old(pm.dev.pages), old(pm.dev.cuts), true)
        invariant pm.pages == old(pm.pages) && pm.pageList == old(pm.pageList) && pm.freeList == old(pm.freeList)
          && pm.seqNumber == old(pm.seqNumber)
      {
        ghost var img := pm.dev.pages;
        InRange(pm.Rams(), img, pm.pageList, pm.freeList, pm.seqNumber, pm.hashOf);
        ErasePageChunks(at, ns, key, mid);
        OneMoreScanned(img, pm.dev.pages, pm.pageList, at, ns, Truncated(key));
        at := at + 1;
      }
      AllScanned(pm.Rams(), pm.dev.pages, pm.pageList, pm.freeList, pm.seqNumber, pm.hashOf, ns, Truncated(key));
      GoneTwice(before, one, mid, ns, Truncated(key));
      GoneTwice(before, mid, Records(), ns, Truncated(key));
      if IndexedOnly(before, ns, Truncated(key)) {
        NameIsGone(before, mid, Records(), ns, Truncated(key));
      }
    }

    method EraseAnyIndex(ns: byte, key: string, ghost before: multiset<Rec>) returns (found: bool)
      requires Valid() && ns != NS_ANY && PartsGone(before, ns, Truncated(key))
      modifies pm.dev, pm.Objects()
      ensures pm.pages == old(pm.pages) && pm.pageList == old(pm.pageList) && pm.freeList == old(pm.freeList)
        && pm.seqNumber == old(pm.seqNumber)
      ensures Valid() && PartsGone(before, ns, Truncated(key)) && Records() <= old(Records())
      ensures IndexedOnly(old(Records()), ns, Truncated(key)) ==>
        (found <==> HasAnIndex(old(Records()), ns, Truncated(key)))
      ensures found && IndexedOnly(old(Records()), ns, Truncated(key)) ==>
        IndexLess(old(Records()), Records(), ns, Truncated(key))
      ensures !found ==>
        Records() == old(Records()) && pm.dev.pages == old(pm.dev.pages) && pm.dev.cuts == old(pm.dev.cuts)
      ensures StillApart(old(pm.dev.pages), old(pm.dev.cuts), true)
    {
      hide HashList.Valid, RamsOk, InOrder, Live, GoneAre, PageManager.Wired, Locates, IsAt, AllOrAllBut, Removed,
        ChunksApart, PageManager.HashListsOk, HasAnIndex, IndexedOnly, NoHitBefore, WritableId, IndexLess;
      ghost var rams, img, live := pm.Rams(), pm.dev.pages, Records();
      LiveWritable(rams, img, pm.pageList, pm.freeList, pm.seqNumber, pm.hashOf);
      var err, at, index, item := FindItem(IndexQuery(ns, key, VER_ANY));
      found := err == OK;
      if IndexedOnly(live, ns, Truncated(key)) {
        FindsAnyIndex(rams, img, pm.pageList, pm.freeList, pm.seqNumber, pm.hashOf, live, ns, key, found, at, index);
      }
      if found {
        ghost var o := PartHit(rams, img, pm.pageList, pm.freeList, pm.seqNumber, pm.hashOf,
          IndexQuery(ns, key, VER_ANY), at, index);
        EraseRecord(pm.pageList[at], index, o, None, 0);
        OneMoreGone(before, Live(img), Records(), o, ns, Truncated(key));
        if IndexedOnly(live, ns, Truncated(key)) {
          IndexErased(rams, img, pm.pageList[at], index, live, o, ns, Truncated(key));
        }
      }
    }

    // readMultiPageBlob: a blob that is all there is read to the last byte, and nothing is changed,
    // whoever wrote it. If a chunk is missing or too long, what is left of the blob is erased.
    method ReadMultiPageBlob(ns: byte, key: string, size: nat, ghost known: bool, ghost b: Option<Blob>)
      returns (err: Error, data: seq<byte>)
      requires Valid() && ns != NS_ANY && (known ==> FindsIndex(Records(), ns, key, b))
      modifies pm.dev, pm.Objects()
      ensures Valid() && pm.pages == old(pm.pages) && PartsGone(old(Records()), ns, Truncated(key))
      ensures known ==> pm.dev.pages == old(pm.dev.pages) && pm.dev.cuts == old(pm.dev.cuts)
      ensures known && b.None? ==> err == NOT_FOUND
      ensures known && b.Some? ==> if size == |b.value.data| then err == OK && data == b.value.data else err == FAIL
      ensures forall i: Rec, cs: seq<Rec> :: Readable(old(Records()), ns, key, i, cs) && size == |DataFrom(cs)| ==>
        err == OK && data == DataFrom(cs) && pm.dev.pages == old(pm.dev.pages) && pm.dev.cuts == old(pm.dev.cuts)
      ensures forall i: Rec, k: nat :: Misses(old(Records()), ns, key, i, k) && size == i.item.val.totalSize ==>
        && err != OK
        && (IndexedOnly(old(Records()), ns, Truncated(key)) ==>
              NameGone(old(Records()), Records(), ns, Truncated(key)))
      ensures err == OK ==> |data| == size
    {
      hide HashList.Valid, RamsOk, InOrder, Live, GoneAre, PageManager.Wired, HasBlob, OnlyAsked, IsIndexAt, IsAt,
        BlobOk, PageManager.HashListsOk, Misses, Lacks, IndexedOnly, HasAnIndex, NameGone, Readable, HasPieces,
        DataFrom, ChunksOf;
      ghost var live := Records();
      NoneGone(live, ns, Truncated(key));
      ghost var r, lost, cs := None, None, None;
      if known {
        BlobIsAsked(live, ns, key, b);
        WholeMissesNone(live, ns, key, b);
        r := IndexRecOf(ns, key, b);
        cs := PiecesOf(live, ns, key, b);
        if b.None? {
          NothingReadable(live, ns, key);
        }
      } else if exists i: Rec, ds: seq<Rec> :: Readable(live, ns, key, i, ds) {
        ghost var i: Rec, ds: seq<Rec> :| Readable(live, ns, key, i, ds);
        ReadableMissesNone(live, ns, key, i, ds);
        ReadableMeans(live, ns, key, i, ds);
        r, cs := Some(i), Some(ds);
      } else if exists i: Rec, k: nat :: Misses(live, ns, key, i, k) {
        ghost var i: Rec, k: nat :| Misses(live, ns, key, i, k);
        MissesOne(live, ns, key, i, k);
        MissedIndex(pm.Rams(), pm.dev.pages, pm.pageList, pm.freeList, pm.seqNumber, pm.hashOf, live, ns, key, i);
        r, lost := Some(i), Some(k);
      }
      var at: nat, index: nat, val: Val;
      err, at, index, val := FindIndex(ns, key, VER_ANY, known || lost.Some? || cs.Some?, r);
      data := [];
      OnePieces(live, ns, key, r, cs);
      if err != OK {
        return;
      }
      if known {
        IndexMeans(ns, key, b.value);
      }
      if size != val.totalSize {
        return FAIL, data;
      }
      err, data := ReadChunks(ns, key, val.chunkStart, val.chunkCount, size, cs, lost);
      if err == NOT_FOUND || err == INVALID_LENGTH {
        var found := EraseParts(ns, key);
      }
      if |data| != size {
        err := FAIL;
      }
    }

    // Erases a chunk. `r` is the record asked for, if `known`.
    method EraseChunk(ns: byte, key: string, chunk: byte, ghost before: multiset<Rec>, ghost known: bool, ghost r: Rec)
      returns (err: Error)
      requires Valid() && ns != NS_ANY && chunk != CHUNK_ANY && PartsGone(before, ns, Truncated(key))
      requires known ==> OnlyAsked(Records(), ChunkQuery(ns, key, chunk), Some(r))
      modifies pm.dev, pm.Objects()
      ensures pm.pages == old(pm.pages) && pm.pageList == old(pm.pageList) && pm.freeList == old(pm.freeList)
        && pm.seqNumber == old(pm.seqNumber)
      ensures Valid() && PartsGone(before, ns, Truncated(key))
      ensures known ==> err == OK && Records() == old(Records()) - multiset{r}
      ensures known ==> forall c :: c in pm.dev.cuts && c !in old(pm.dev.cuts) ==> AllOrAllBut(c, old(Records()), r)
      ensures StillApart(old(pm.dev.pages), old(pm.dev.cuts), true)
    {
      hide HashList.Valid, RamsOk, InOrder, Live, GoneAre, PageManager.Wired, OnlyAsked, IsAt, FindVia, NoHitBefore,
        Removed, AllOrAllBut, ChunksApart, PageManager.HashListsOk;
      ghost var rams, img := pm.Rams(), pm.dev.pages;
      var at: nat, index: nat, item: Option<Item>;
      err, at, index, item := FindItem(ChunkQuery(ns, key, chunk));
      if known {
        FindsAsked(rams, img, pm.pageList, pm.freeList, pm.seqNumber, pm.hashOf, Records(), ChunkQuery(ns, key, chunk),
          Some(r), err == OK, at, index);
      }
      if err == OK {
        ghost var o := PartHit(rams, img, pm.pageList, pm.freeList, pm.seqNumber, pm.hashOf, ChunkQuery(ns, key, chunk),
          at, index);
        if known {
          WasAt(rams, img, pm.pageList[at], index, r);
          WasAt(rams, img, pm.pageList[at], index, o);
        }
        EraseRecord(pm.pageList[at], index, o, None, 0);
        OneMoreGone(before, Live(img), Records(), o, ns, Truncated(key));
      }
    }

    // The chunks of a blob whose index is gone.
    method EraseChunks(ns: byte, key: string, start: byte, end: byte, ghost before: multiset<Rec>,
                       ghost b: Option<Blob>) returns (err: Error)
      requires Valid() && ns != NS_ANY && PartsGone(before, ns, Truncated(key))
      requires b.Some? ==>
        BlobOk(b.value) && start == b.value.start && end == start + |b.value.pieces|
          && HasChunksFrom(Records(), ns, key, b.value, 0)
      modifies pm.dev, pm.Objects()
      ensures pm.pages == old(pm.pages) && pm.pageList == old(pm.pageList) && pm.freeList == old(pm.freeList)
        && pm.seqNumber == old(pm.seqNumber)
      ensures Valid() && PartsGone(before, ns, Truncated(key))
      ensures b.Some? ==> err == OK && Records() == old(Records()) - multiset(ChunksOf(ns, key, b.value))
      ensures b.Some? ==>
        forall c :: c in pm.dev.cuts && c !in old(pm.dev.cuts) ==>
          PartErased(c, old(Records()), ChunksOf(ns, key, b.value))
      ensures StillApart(old(pm.dev.pages), old(pm.dev.cuts), true)
    {
      hide HashList.Valid, RamsOk, InOrder, Live, GoneAre, PageManager.Wired, ChunkRecs, PartErased, Joined,
        ChunksApart, BlobOk, HasChunksFrom, ChunksErased, PageManager.HashListsOk;
      ghost var live, cuts0 := Records(), pm.dev.cuts;
      err := OK;
      var chunkIndex := start;
      NoChunkErased(ns, key, b);
      while chunkIndex < end
        invariant pm.pages == old(pm.pages) && pm.pageList == old(pm.pageList) && pm.freeList == old(pm.freeList)
          && pm.seqNumber == old(pm.seqNumber)
        invariant Valid() && PartsGone(before, ns, Truncated(key)) && err == OK && start <= chunkIndex
          && (b.Some? ==> chunkIndex <= end)
        invariant ChunksErased(live, cuts0, ns, key, b, chunkIndex - start)
          && StillApart(old(pm.dev.pages), old(pm.dev.cuts), true)
        decreases 256 - chunkIndex
      {
        err := EraseOneChunk(ns, key, chunkIndex, before, b, chunkIndex - start, live, cuts0);
        if err != OK {
          return;
        }
        chunkIndex := chunkIndex + 1;
      }
      AllErased(live, cuts0, ns, key, b, chunkIndex - start);
    }

    // The first k chunks of the blob are erased.
    ghost predicate ChunksErased(live: multiset<Rec>, cuts0: iset<seq<FPage>>, ns: byte, key: string, b: Option<Blob>,
                                 k: nat)
      reads pm, pm.dev
    {
      b.Some? ==>
        && BlobOk(b.value) && k <= |ChunksOf(ns, key, b.value)| && HasChunksFrom(Records(), ns, key, b.value, k)
        && Records() == live - multiset(ChunksOf(ns, key, b.value)[..k])
        && forall c :: c in pm.dev.cuts && c !in cuts0 ==> PartErased(c, live, ChunksOf(ns, key, b.value))
    }

    lemma NoChunkErased(ns: byte, key: string, b: Option<Blob>)
      requires b.Some? ==> BlobOk(b.value) && HasChunksFrom(Records(), ns, key, b.value, 0)
      ensures ChunksErased(Records(), pm.dev.cuts, ns, key, b, 0)
    {
      hide Live, BlobOk, HasChunksFrom, ChunkRecs;
    }

    lemma AllErased(live: multiset<Rec>, cuts0: iset<seq<FPage>>, ns: byte, key: string, b: Option<Blob>, k: nat)
      requires ChunksErased(live, cuts0, ns, key, b, k) && (b.Some? ==> k == |b.value.pieces|)
      ensures b.Some? ==> BlobOk(b.value) && Records() == live - multiset(ChunksOf(ns, key, b.value))
      ensures b.Some? ==>
        forall c :: c in pm.dev.cuts && c !in cuts0 ==> PartErased(c, live, ChunksOf(ns, key, b.value))
    {
      hide Live, HasChunksFrom, PartErased;
      if b.Some? {
        var recs := ChunksOf(ns, key, b.value);
        ChunkCount(ns, Truncated(key), b.value.start, b.value.pieces);
        assert recs[..|recs|] == recs;
      }
    }

    method EraseOneChunk(ns: byte, key: string, chunk: byte, ghost before: multiset<Rec>, ghost b: Option<Blob>,
                         ghost k: nat, ghost live: multiset<Rec>, ghost cuts0: iset<seq<FPage>>) returns (err: Error)
      requires Valid() && ns != NS_ANY && PartsGone(before, ns, Truncated(key)) && chunk != CHUNK_ANY
      requires ChunksErased(live, cuts0, ns, key, b, k)
        && (b.Some? ==> k < |b.value.pieces| && chunk == b.value.start + k)
      modifies pm.dev, pm.Objects()
      ensures pm.pages == old(pm.pages) && pm.pageList == old(pm.pageList) && pm.freeList == old(pm.freeList)
        && pm.seqNumber == old(pm.seqNumber)
      ensures Valid() && PartsGone(before, ns, Truncated(key))
      ensures b.Some? ==> err == OK
      ensures ChunksErased(live, cuts0, ns, key, b, k + 1) || (b.None? && err != OK)
      ensures StillApart(old(pm.dev.pages), old(pm.dev.cuts), true)
    {
      hide HashList.Valid, RamsOk, InOrder, Live, GoneAre, PageManager.Wired, OnlyAsked, AllOrAllBut, HasChunksFrom,
        ChunkRecs, RecOf, Recoverable, PartErased, Joined, ChunksApart, PageManager.HashListsOk;
      ghost var r, mid := RecOf(ns, BLOB_DATA, key, Variable([]), 0), pm.dev.cuts;
      if b.Some? {
        FirstChunkAsked(Records(), ns, key, b.value, k);
        ChunksLess(Records(), ns, key, b.value, k);
        r := ChunksOf(ns, key, b.value)[k];
      }
      err := EraseChunk(ns, key, chunk, before, b.Some?, r);
      if b.Some? {
        OneMoreErased(pm.dev.cuts, mid, live, ChunksOf(ns, key, b.value), k);
      }
    }

    // The index of the blob is what a search for this version finds, and its chunks are there.
    ghost predicate CanErase(ns: byte, key: string, ver: byte, b: Blob)
      reads pm, pm.dev, pm.Objects()
    {
      InReach(pm.Rams(), pm.dev.pages, pm.pageList, pm.hashOf, ns, key, ver, b)
    }

    // Erases the index of a blob. If a new index n that replaces this one has just been written,
    // power that fails meanwhile leaves none but the new one.
    method EraseIndex(ns: byte, key: string, ver: byte, ghost b: Option<Blob>, ghost n: Option<Rec>, ghost p: nat)
      returns (err: Error, count: byte)
      requires Valid() && ns != NS_ANY && (b.Some? ==> CanErase(ns, key, ver, b.value))
      requires n.Some? ==> b.Some? && BlobOk(b.value) && Superseded(pm.dev.pages, IndexOf(ns, key, b.value), n, p)
      modifies pm.dev, pm.Objects()
      ensures pm.pages == old(pm.pages) && pm.pageList == old(pm.pageList) && pm.freeList == old(pm.freeList)
        && pm.seqNumber == old(pm.seqNumber)
      ensures Valid() && PartsGone(old(Records()), ns, Truncated(key))
      ensures b.Some? ==>
        err == OK && BlobOk(b.value) && count == |b.value.pieces|
          && Records() == old(Records()) - multiset{IndexOf(ns, key, b.value)}
      ensures b.Some? ==>
        forall c :: c in pm.dev.cuts && c !in old(pm.dev.cuts) ==>
          AllOrAllBut(c, old(Records()), IndexOf(ns, key, b.value)) && (n.Some? ==> Recoverable(c, Records()))
      ensures StillApart(old(pm.dev.pages), old(pm.dev.cuts), true)
    {
      hide HashList.Valid, RamsOk, InOrder, Live, GoneAre, PageManager.Wired, OnlyAsked, AllOrAllBut, ChunkRecs,
        Recoverable, HasChunks, Superseded, IsAt, NoHitBefore, Locates, Removed, ChunksApart, IndexRec,
        PageManager.HashListsOk, InReach;
      ghost var live := Records();
      NoneGone(live, ns, Truncated(key));
      ghost var rams, img := pm.Rams(), pm.dev.pages;
      var at: nat, index: nat, item: Option<Item>;
      err, at, index, item := FindItem(IndexQuery(ns, key, ver));
      count := 0;
      if b.Some? {
        ReachMeans(rams, img, pm.pageList, pm.hashOf, ns, key, ver, b.value);
      }
      if err != OK {
        return;
      }
      ghost var o := PartHit(rams, img, pm.pageList, pm.freeList, pm.seqNumber, pm.hashOf, IndexQuery(ns, key, ver), at,
        index);
      HitOfType(rams, img, pm.pageList, pm.freeList, pm.seqNumber, pm.hashOf, IndexQuery(ns, key, ver), at, index);
      if b.Some? {
        WasAt(rams, img, pm.pageList[at], index, IndexOf(ns, key, b.value));
        WasAt(rams, img, pm.pageList[at], index, o);
        IndexMeans(ns, key, b.value);
      }
      if n.None? {
        NotSuperseded(img, o, p);
      }
      EraseRecord(pm.pageList[at], index, o, n, p);
      OneMoreGone(live, live, Records(), o, ns, Truncated(key));
      count := item.value.val.chunkCount;
    }

    // eraseMultiPageBlob: the index goes first, then the chunks it counts; for no version in
    // particular, everything of the name.
    method EraseMultiPageBlob(ns: byte, key: string, ver: byte, ghost b: Option<Blob>, ghost n: Option<Rec>,
                              ghost p: nat) returns (err: Error)
      requires Valid() && ns != NS_ANY && (b.Some? ==> CanErase(ns, key, ver, b.value))
      requires n.Some? ==> b.Some? && BlobOk(b.value) && Superseded(pm.dev.pages, IndexOf(ns, key, b.value), n, p)
      modifies pm.dev, pm.Objects()
      ensures pm.pages == old(pm.pages) && pm.pageList == old(pm.pageList) && pm.freeList == old(pm.freeList)
        && pm.seqNumber == old(pm.seqNumber)
      ensures Valid() && PartsGone(old(Records()), ns, Truncated(key))
      ensures b.Some? ==> err == OK && BlobOk(b.value) && Records() == WithoutBlob(old(Records()), ns, key, b.value)
      ensures ver == VER_ANY && IndexedOnly(old(Records()), ns, Truncated(key)) ==>
        err == if HasAnIndex(old(Records()), ns, Truncated(key)) then OK else NOT_FOUND
      ensures ver == VER_ANY && IndexedOnly(old(Records()), ns, Truncated(key)) && err == OK ==>
        NameGone(old(Records()), Records(), ns, Truncated(key))
      ensures ver == VER_ANY && err != OK ==> pm.dev.pages == old(pm.dev.pages) && pm.dev.cuts == old(pm.dev.cuts)
      ensures b.Some? ==>
        forall c :: c in pm.dev.cuts && c !in old(pm.dev.cuts) ==>
          ErasingBlob(c, old(Records()), ns, key, b.value, n.Some?)
      ensures StillApart(old(pm.dev.pages), old(pm.dev.cuts), true)
    {
      hide HashList.Valid, RamsOk, InOrder, Live, GoneAre, PageManager.Wired, OnlyAsked, AllOrAllBut, HasChunksFrom,
        ChunkRecs, RecOf, Recoverable, PartErased, Joined, Superseded, HasChunks, IndexOf, ChunksApart,
        PageManager.HashListsOk, NameGone, HasAnIndex, IndexedOnly, InReach, Finds;
      ghost var live := Records();
      if b.Some? {
        ReachMeans(pm.Rams(), pm.dev.pages, pm.pageList, pm.hashOf, ns, key, ver, b.value);
      }
      if ver == VER_ANY {
        var found := EraseParts(ns, key);
        return if found then OK else NOT_FOUND;
      }
      var count: byte;
      err, count := EraseIndex(ns, key, ver, b, n, p);
      if err != OK {
        return;
      }
      ghost var mid, cuts := Records(), pm.dev.cuts;
      var minChunkIndex: byte := if ver == VER_0_OFFSET || ver == VER_1_OFFSET then ver else VER_ANY;
      var maxChunkIndex: byte := if ver == VER_0_OFFSET || ver == VER_1_OFFSET then (ver + count) % 256 else VER_ANY;
      if b.Some? {
        ChunksWithoutIndex(live, ns, key, b.value);
      }
      err := EraseChunks(ns, key, minChunkIndex, maxChunkIndex, live, b);
      if b.Some? {
        ErasingCuts(pm.dev.cuts, cuts, old(pm.dev.cuts), live, mid, ns, key, b.value, n.Some?);
      }
    }

    // Compares a chunk with the data from `offset` on. `r` is the record asked for, if `known`.
    method CmpChunk(ns: byte, key: string, number: nat, data: seq<byte>, offset: nat, ghost known: bool, ghost r: Rec)
      returns (err: Error, size: nat)
      requires Valid() && ns != NS_ANY && offset <= |data|
      requires known ==>
        number < CHUNK_ANY && OnlyAsked(Records(), ChunkQuery(ns, key, number), Some(r)) && WholeRec(r)
          && r.item.val.VarLength?
      ensures Valid() && pm.Rams() == old(pm.Rams()) && (err == OK ==> offset + size <= |data|)
      ensures known ==> size == r.item.val.dataSize == |DataOf(r)|
      ensures known ==>
        (err == OK <==>
          && offset + size <= |data| && crcOf(data[..size]) == crcOf(DataOf(r))
          && data[offset..offset + size] == DataOf(r))
    {
      hide HashList.Valid, RamsOk, InOrder, Live, FindVia, NoHitBefore, Whole, OnlyAsked, IsAt, WholeRec, CmpAnswers,
        PageManager.Wired, PageManager.HashListsOk;
      ghost var rams, img := pm.Rams(), pm.dev.pages;
      var chunk: byte := number % 256;
      var at: nat, index: nat, item: Option<Item>;
      err, at, index, item := FindItem(ChunkQuery(ns, key, chunk));
      size := 0;
      if known {
        FindsAsked(rams, img, pm.pageList, pm.freeList, pm.seqNumber, pm.hashOf, Records(), ChunkQuery(ns, key, chunk),
          Some(r), err == OK, at, index);
      }
      if err != OK {
        return;
      }
      HitOfType(rams, img, pm.pageList, pm.freeList, pm.seqNumber, pm.hashOf, ChunkQuery(ns, key, chunk), at, index);
      if known {
        WasAt(rams, img, pm.pageList[at], index, r);
        AskedIsChunk(Records(), ns, key, chunk, r);
      }
      size := item.value.val.dataSize;
      var stored := pm.ReadVariableAt(pm.pageList[at], item.value, index);
      if size > |data| - offset {
        return CONTENT_DIFFERS, size;
      }
      if crcOf(data[..size]) != crcOf(stored) {
        return CONTENT_DIFFERS, size;
      }
      err := pm.CmpItemAt(pm.pageList[at], ChunkQuery(ns, key, chunk), data[offset..offset + size]);
      CmpMeansData(err, data[offset..offset + size], img[pm.pageList[at]].slots, index, size);
      if err == OK && number != item.value.chunk {
        err := FAIL;
      }
    }

    // cmpMultiPageBlob.
    method CmpMultiPageBlob(ns: byte, key: string, data: seq<byte>, ghost b: Option<Blob>) returns (err: Error)
      requires Valid() && ns != NS_ANY && (b.Some? ==> HasBlob(Records(), ns, key, b.value))
      ensures Valid() && pm.Rams() == old(pm.Rams())
      ensures b.Some? ==> (err == OK <==> SameBlob(b.value, data, crcOf))
    {
      hide HashList.Valid, RamsOk, InOrder, Live, HasBlob, Joined, WholeRec, RecOf, OnlyAsked, ChunkRecs, IndexOf,
        IsIndexAt, IsAt, SameBlob, SameUpTo, SamePiece, PageManager.Wired, PageManager.HashListsOk;
      ghost var rams, r := pm.Rams(), None;
      if b.Some? {
        BlobIsAsked(Records(), ns, key, b);
        BlobMeans(Records(), ns, key, b.value);
        IndexMeans(ns, key, b.value);
        SameFromStart(b.value, data, crcOf);
        r := Some(IndexOf(ns, key, b.value));
      }
      var at: nat, index: nat, val: Val;
      err, at, index, val := FindIndex(ns, key, VER_ANY, b.Some?, r);
      if err != OK {
        return;
      }
      if |data| != val.totalSize {
        return CONTENT_DIFFERS;
      }
      var chunkNum: nat, offset: nat := 0, 0;
      while chunkNum < val.chunkCount
        invariant chunkNum <= val.chunkCount && Valid() && pm.Rams() == rams && offset <= |data| && err == OK
        invariant b.Some? ==> offset == |Joined(b.value.pieces[..chunkNum])| && SameUpTo(b.value, data, crcOf, chunkNum)
      {
        ghost var c := RecOf(ns, BLOB_DATA, key, Variable([]), 0);
        if b.Some? {
          ChunkIsAsked(Records(), ns, key, b.value, chunkNum);
          c := ChunkOfBlob(ns, key, b.value, chunkNum);
          ChunkData(ns, key, b.value, chunkNum);
          SameBlobMeans(b.value, data, crcOf, chunkNum, offset);
          SamePieceMeans(b.value, data, crcOf, chunkNum, offset);
        }
        var size;
        err, size := CmpChunk(ns, key, val.chunkStart + chunkNum, data, offset, b.Some?, c);
        if err != OK {
          return;
        }
        offset, chunkNum := offset + size, chunkNum + 1;
      }
      if b.Some? {
        SameBlobMeans(b.value, data, crcOf, chunkNum, offset);
      }
      if offset != |data| {
        err := FAIL;
      }
    }

    // The new version of a blob is there: erases the old one.
    method EraseOldBlob(ns: byte, key: string, prevStart: byte, ghost live: multiset<Rec>, ghost b: Blob,
                        ghost n: Blob) returns (err: Error)
      requires Valid() && ns != NS_ANY && OnlyBlob(live, ns, key, Some(b)) && BlobOk(b) && prevStart == b.start
        && BlobOk(n) && n.start != b.start
      requires JustAppended(live + multiset(ChunksOf(ns, key, n)), IndexOf(ns, key, n))
      modifies pm.dev, pm.Objects()
      ensures Valid() && pm.pages == old(pm.pages) && err == OK
        && Records() == Without(live, ns, key, Some(b)) + PartsOf(ns, key, n)
      ensures forall c :: c in pm.dev.cuts && c !in old(pm.dev.cuts) ==>
        ErasingBlob(c, live + PartsOf(ns, key, n), ns, key, b, true)
      ensures StillApart(old(pm.dev.pages), old(pm.dev.cuts), true)
    {
      hide HashList.Valid, RamsOk, InOrder, Live, PageManager.Wired, ChunkRecs, IndexRec, Joined, Recoverable,
        ChunksApart, Unique, Appended, OnlyBlob, ErasingBlob, PartsOf, Superseded, Erasable, BlobOk,
        PageManager.HashListsOk, InReach;
      OldErasable(live, ns, key, b, n);
      NewIndexSupersedes(pm.dev.pages, live, ns, key, b, n, Current());
      ErasableIsInReach(pm.Rams(), pm.dev.pages, pm.pageList, pm.freeList, pm.seqNumber, pm.hashOf, ns, key, prevStart,
        b);
      err := EraseMultiPageBlob(ns, key, prevStart, Some(b), Some(IndexOf(ns, key, n)), Current());
      WithoutIs(live, ns, key, b, n);
    }

    // Writes the new version of a blob, then erases the old one.
    method ReplaceBlob(ns: byte, key: string, data: seq<byte>, matched: bool, prevStart: byte, ghost was: Option<Blob>)
      returns (err: Error, wrapped: bool, ghost now: Blob, ghost t: Attempt)
      requires Valid() && ns != NS_ANY && Unique(Records()) && OnlyBlob(Records(), ns, key, was)
      requires (matched <==> was.Some?) && (matched ==> prevStart == was.value.start)
      modifies pm, pm.dev, pm.Objects()
      ensures Valid() && pm.pages == old(pm.pages) && (wrapped ==> |pm.pages| > 127 && err == FAIL)
        && (was.Some? ==> BlobOk(was.value))
      ensures !wrapped ==>
        old(BlobAnswer(err, |pm.pages|, pm.Rams(), pm.pageList, pm.freeList, key, |data|))
      ensures err == OK ==>
        BlobOk(now) && now.data == data && now.start == Toggled(was)
          && Replaced(old(Records()), Records(), ns, key, was, now)
      ensures err == OK ==>
        forall c :: c in pm.dev.cuts && c !in old(pm.dev.cuts) ==>
          BlobOk(now) && UpdateCut(c, old(Records()), ns, key, was, now)
      ensures StillApart(old(pm.dev.pages), old(pm.dev.cuts), AllClear(t.hosts, ns, key))
      ensures err != OK ==> Unwritten(old(Records()), Records(), ns, key, Toggled(was), t)
      ensures err != OK ==>
        forall c :: c in pm.dev.cuts && c !in old(pm.dev.cuts) ==>
          Between(c, old(Records()) * Records(), old(Records()) + multiset(ChunkRecs(ns, key, Toggled(was), t.tried)))
    {
      hide HashList.Valid, RamsOk, InOrder, Live, PageManager.Wired, PageManager.HashListsOk, ChunkRecs, IndexRec,
        Joined, Recoverable, ChunksApart, Between, Unique, VersionFree, Appended, OnlyBlob, Unwritten, WritingBlob,
        ErasingBlob, PartsOf, UpdateCut, Replaced, AllClear, Superseded, Erasable, BlobOk, BlobAnswer;
      ghost var live, cuts0 := Records(), pm.dev.cuts;
      BeforeUpdate(pm.Rams(), pm.dev.pages, pm.pageList, pm.freeList, pm.seqNumber, pm.hashOf, live, ns, key, was);
      now := Blob(data, 0, []);
      var nextStart: byte := if matched && prevStart == VER_0_OFFSET then VER_1_OFFSET else VER_0_OFFSET;
      err, wrapped, t := WriteMultiPageBlob(ns, key, data, nextStart, true);
      if err != OK {
        return;
      }
      ghost var cuts := pm.dev.cuts;
      now := NewBlob(ns, key, data, nextStart, t.tried);
      AddedIs(live, ns, key, now);
      if matched {
        err := EraseOldBlob(ns, key, prevStart, live, was.value, now);
      }
      IsReplaced(live, ns, key, was, now);
      BlobCuts(pm.dev.cuts, cuts, cuts0, live, ns, key, was, now);
    }

    // Writes the first version of a blob over a single record, then erases that one, wherever it is by
    // then.
    method ReplaceSingle(ns: byte, key: string, data: seq<byte>, page: nat, index: nat, item: Item, ghost o: Rec)
      returns (err: Error, wrapped: bool, ghost now: Blob, ghost t: Attempt)
      requires Valid() && ns != NS_ANY && Single(Records(), ns, key, o) && item == o.item
      requires page < |pm.pages| && IsAt(pm.Rams(), pm.dev.pages, page, index, o)
      modifies pm, pm.dev, pm.Objects()
      ensures Valid() && pm.pages == old(pm.pages) && (wrapped ==> |pm.pages| > 127 && err == FAIL)
      ensures !wrapped ==>
        old(BlobAnswer(err, |pm.pages|, pm.Rams(), pm.pageList, pm.freeList, key, |data|))
      ensures err == OK ==>
        BlobOk(now) && now.data == data && now.start == VER_0_OFFSET
          && Replaced(old(Records()) - multiset{o}, Records(), ns, key, None, now)
      ensures StillApart(old(pm.dev.pages), old(pm.dev.cuts), AllClear(t.hosts, ns, key))
      ensures err != OK ==> Unwritten(old(Records()), Records(), ns, key, VER_0_OFFSET, t)
    {
      hide HashList.Valid, RamsOk, InOrder, Live, PageManager.Wired, PageManager.HashListsOk, ChunkRecs, IndexRec,
        Joined, Recoverable, ChunksApart, Single, Between, Unique, VersionFree, Appended, Unwritten, WritingBlob,
        PartsOf, Replaced, AllClear, BlobOk, Followed, OnTrail, IsAt, AllOrAllBut, WritableId, BlobAnswer;
      ghost var live, rams0, img0 := Records(), pm.Rams(), pm.dev.pages;
      WasAt(rams0, img0, page, index, o);
      LiveWritable(rams0, img0, pm.pageList, pm.freeList, pm.seqNumber, pm.hashOf);
      SingleMeans(live, ns, key, o);
      TrailStarts(rams0, img0, pm.pageList, pm.freeList, pm.seqNumber, pm.hashOf, page, index, o);
      now := Blob(data, 0, []);
      var seqNo := pm.pages[page].seqNo;
      err, wrapped, t := WriteMultiPageBlob(ns, key, data, VER_0_OFFSET, true);
      if err != OK {
        return;
      }
      now := NewBlob(ns, key, data, VER_0_OFFSET, t.tried);
      AddedIs(live, ns, key, now);
      StillOnTrail(old(Stage()), Stage(), Trail(o, page, index, seqNo));
      EraseFollowed(page, index, seqNo, ns, key, item, o, now, live);
      SingleReplaced(live, ns, key, o, now);
    }

    // Erases the single record whose name stands for a blob by now. If its page was moved meanwhile,
    // it is looked for again.
    method EraseFollowed(page: nat, index: nat, seqNo: nat, ns: byte, key: string, item: Item, ghost o: Rec,
                         ghost now: Blob, ghost live: multiset<Rec>)
      requires Valid() && ns != NS_ANY && Single(live, ns, key, o) && item == o.item && BlobOk(now) && page < |pm.pages|
      requires Records() == live + PartsOf(ns, key, now)
        && OnTrail(pm.Rams(), pm.dev.pages, pm.pageList, pm.seqNumber, Trail(o, page, index, seqNo))
      modifies pm.dev, pm.Objects()
      ensures Valid() && pm.pages == old(pm.pages) && Records() == live + PartsOf(ns, key, now) - multiset{o}
      ensures StillApart(old(pm.dev.pages), old(pm.dev.cuts), true)
    {
      hide HashList.Valid, RamsOk, InOrder, Live, PageManager.Wired, PageManager.HashListsOk, ChunksApart, Single,
        PartsOf, BlobOk, IsAt, AllOrAllBut, OnTrail, WritableId, FindVia, NoHitBefore;
      ghost var rams, img, list, free := pm.Rams(), pm.dev.pages, pm.pageList, pm.freeList;
      LiveWritable(rams, img, list, free, pm.seqNumber, pm.hashOf);
      OnlySingle(live, ns, key, o, now);
      var x, i := page, index;
      if (!pm.pages[page].state.ACTIVE? && !pm.pages[page].state.FULL?) || pm.pages[page].seqNo != seqNo {
        var err: Error, at: nat, again: Option<Item>;
        err, at, i, again := FindItem(KeyQuery(ns, item.typ, key));
        TrailEnds(rams, img, list, free, pm.seqNumber, pm.hashOf, Trail(o, page, index, seqNo), ns, key, err == OK, at,
          i);
        x := pm.pageList[at];
      } else {
        StillThere(rams, img, list, free, pm.seqNumber, pm.hashOf, Trail(o, page, index, seqNo));
      }
      NotSuperseded(img, o, 0);
      EraseRecord(x, i, o, None, 0);
    }

    // writeItem for a blob, whose name stands for the blob `was` before, or for the single record o, or
    // for nothing: what compares as equal is not written again; otherwise the other version is
    // written, and then what was there erased. `now` is the blob that was written, and `t` how the
    // attempt went.
    method SetBlob(ns: byte, key: string, data: seq<byte>, ghost was: Option<Blob>, ghost o: Option<Rec>)
      returns (err: Error, wrapped: bool, ghost now: Blob, ghost t: Attempt)
      requires Valid() && ns != NS_ANY && Unique(Records())
        && (if o.Some? then was.None? && Single(Records(), ns, key, o.value) else OnlyBlob(Records(), ns, key, was))
      modifies pm, pm.dev, pm.Objects()
      ensures Valid() && pm.pages == old(pm.pages) && (wrapped ==> |pm.pages| > 127 && err == FAIL)
        && (was.Some? ==> BlobOk(was.value))
      ensures !SameAsBefore(was, data, crcOf) && !wrapped ==>
        old(BlobAnswer(err, |pm.pages|, pm.Rams(), pm.pageList, pm.freeList, key, |data|))
      ensures SameAsBefore(was, data, crcOf) ==>
        err == OK && pm.dev.pages == old(pm.dev.pages) && pm.dev.cuts == old(pm.dev.cuts)
      ensures !SameAsBefore(was, data, crcOf) && err == OK ==>
        BlobOk(now) && now.data == data && now.start == Toggled(was)
        && Replaced(Besides(old(Records()), o), Records(), ns, key, was, now)
      ensures !SameAsBefore(was, data, crcOf) && err == OK && o.None? ==>
        forall c :: c in pm.dev.cuts && c !in old(pm.dev.cuts) ==>
          BlobOk(now) && UpdateCut(c, old(Records()), ns, key, was, now)
      ensures StillApart(old(pm.dev.pages), old(pm.dev.cuts), AllClear(t.hosts, ns, key))
      ensures err != OK ==> Unwritten(old(Records()), Records(), ns, key, Toggled(was), t)
      ensures err != OK && o.None? ==>
        forall c :: c in pm.dev.cuts && c !in old(pm.dev.cuts) ==>
          Between(c, old(Records()) * Records(), old(Records()) + multiset(ChunkRecs(ns, key, Toggled(was), t.tried)))
    {
      hide HashList.Valid, RamsOk, InOrder, Live, PageManager.Wired, ChunkRecs, IndexOf, Recoverable, ChunksApart,
        Between, Unique, OnlyBlob, Unwritten, UpdateCut, Replaced, AllClear, IsIndexAt, IsAt, HasBlob, OnlyAsked,
        BlobOk, SameBlob, PageManager.HashListsOk, Single, HasAnIndex, BlobAnswer;
      ghost var live := Records();
      LiveWritable(pm.Rams(), pm.dev.pages, pm.pageList, pm.freeList, pm.seqNumber, pm.hashOf);
      if o.Some? {
        SingleHasNoIndex(live, ns, key, o.value);
      } else {
        OldBlobOk(live, ns, key, was);
        OnlyBlobIsFound(live, ns, key, was);
        BlobIsAsked(live, ns, key, was);
      }
      now, t, wrapped := Blob(data, 0, []), Attempt([], [], [], pm.dev.pages), false;
      var at: nat, index: nat, val: Val;
      err, at, index, val := FindIndex(ns, key, VER_ANY, o.None?, if o.None? then IndexRecOf(ns, key, was) else None);
      var matched, prevStart := err == OK, VER_0_OFFSET;
      if matched {
        IndexMeans(ns, key, was.value);
        prevStart := val.chunkStart;
        err := CmpMultiPageBlob(ns, key, data, was);
        if err == OK {
          return;
        }
      } else {
        var page, item;
        err, page, index, item := FindOther(ns, key, o);
        if err == OK {
          err, wrapped, now, t := ReplaceSingle(ns, key, data, page, index, item.value, o.value);
          return;
        }
      }
      err, wrapped, now, t := ReplaceBlob(ns, key, data, matched, prevStart, was);
    }

    // The record of any type that has this name, if there is one.
    method FindOther(ns: byte, key: string, ghost o: Option<Rec>)
      returns (err: Error, page: nat, index: nat, item: Option<Item>)
      requires Valid() && ns != NS_ANY && Unique(Records())
        && (if o.Some? then Single(Records(), ns, key, o.value) else OnlyBlob(Records(), ns, key, None))
      ensures Valid() && pm.Rams() == old(pm.Rams()) && err == if o.Some? then OK else NOT_FOUND
      ensures o.Some? ==>
        page < |pm.pages| && IsAt(pm.Rams(), pm.dev.pages, page, index, o.value) && item == Some(o.value.item)
    {
      hide HashList.Valid, InOrder, Live, RamsOk, FindVia, Unique, IsAt, NoHitBefore, Whole, PageManager.Wired,
        PageManager.HashListsOk, Single, WritableId, NoBlob;
      ghost var rams, img, list, free, live := pm.Rams(), pm.dev.pages, pm.pageList, pm.freeList, Records();
      LiveWritable(rams, img, list, free, pm.seqNumber, pm.hashOf);
      var at;
      err, at, index, item := FindItem(KeyQuery(ns, ANY, key));
      page := 0;
      NamedAtMost(live, ns, key, o);
      if err == OK {
        page := pm.pageList[at];
        LocatedIs(rams, img, list, free, pm.seqNumber, pm.hashOf, live, ns, ANY, key, at, index);
        WasAt(rams, img, page, index, RecAt(img[page].slots, index));
      } else {
        NotFoundNamed(rams, img, list, free, pm.seqNumber, pm.hashOf, live, ns, ANY, key);
      }
    }
  }

  lemma PageCount(s: Storage)
    requires s.Valid()
    ensures |s.pm.pages| >= 2
  {
    hide HashList.Valid, RamsOk, PageManager.Wired, PageManager.HashListsOk;
    ListPartition(s.pm.Rams(), s.pm.dev.pages, s.pm.pageList, s.pm.freeList, s.pm.seqNumber, s.pm.hashOf);
  }
}
