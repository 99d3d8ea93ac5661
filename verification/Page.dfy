// One page of the store (nvs_page.cpp): its state in RAM and the operations that change it
// together with flash.
module NvsPage {
  import opened NvsTypes
  import opened PageImage
  import opened PageSteps
  import opened PageRam
  import opened PageWrites
  import opened PageWalk
  import opened PageSearch
  import opened PageErases
  import opened PageLoad
  import opened PageScan
  import opened PageTail
  import opened PageValues
  import opened ItemHashList
  import opened FlashDevice
  import opened PageCuts

  class Page {
    const dev: Flash
    const sector: nat
    const hashOf: Id -> nat
    const hashList: HashList

    var state: PageState
    var seqNo: nat
    var table: seq<EntryState>
    var nextFree: nat
    var firstUsed: nat
    var used: int
    ghost var top: nat

    ghost function Snapshot(): Ram
      reads this, hashList
    {
      Ram(state, seqNo, table, nextFree, firstUsed, used, hashList.nodes, top)
    }

    // The page has its place on flash.
    ghost predicate Placed()
      reads this, dev, hashList
    {
      && sector < |dev.pages| && |dev.pages[sector].slots| == ENTRY_COUNT && hashList.Valid()
    }

    ghost function Image(): FPage
      requires Placed()
      reads this, dev, hashList
    {
      dev.pages[sector]
    }

    ghost predicate Valid()
      reads this, dev, hashList
    {
      Placed() && RamOk(Snapshot(), Image(), hashOf)
    }

    constructor (dev: Flash, sector: nat, hashOf: Id -> nat)
      ensures this.dev == dev && this.sector == sector && this.hashOf == hashOf
      ensures state == INVALID && fresh(hashList) && hashList.Valid()
      ensures Snapshot() ==
        Ram(INVALID, 0xffff_ffff, seq(ENTRY_COUNT, _ => EMPTY), INVALID_ENTRY, INVALID_ENTRY, 0, {}, 0)
    {
      this.dev, this.sector, this.hashOf := dev, sector, hashOf;
      hashList := new HashList(29);
      state, seqNo, table := INVALID, 0xffff_ffff, seq(ENTRY_COUNT, _ => EMPTY);
      nextFree, firstUsed, used, top := INVALID_ENTRY, INVALID_ENTRY, 0, 0;
    }

    // ---------------------------------------------------------------- entry states

    method AlterEntryState(index: nat, st: EntryState)
      requires Placed() && index < ENTRY_COUNT && Synced(table, Image().slots)
      requires AndState(table[index], st) == st
      modifies this`table, dev
      ensures Placed() && Synced(table, Image().slots)
      ensures dev.pages ==
        old(dev.pages)[sector := old(Image()).(slots := RangeSet(old(Image().slots), index, index + 1, st))]
      ensures dev.cuts == old(dev.cuts) + iset{dev.pages}
    {
      hide HashList.Valid;
      table := table[index := st];
      dev.WriteTableWord(sector, index / 16, table);
      assert Image().slots == RangeSet(old(Image().slots), index, index + 1, st);
    }

    // Sets the states from the last entry down and flushes each word of the table as soon as the
    // range leaves it, so at any time a tail of the range is done.
    method AlterEntryRangeState(begin: nat, end: nat, st: EntryState)
      requires Placed() && begin < end <= ENTRY_COUNT && Synced(table, Image().slots)
      requires forall k :: begin <= k < end ==> AndState(table[k], st) == st
      modifies this`table, dev
      ensures Placed() && Synced(table, Image().slots)
      ensures dev.pages ==
        old(dev.pages)[sector := old(Image()).(slots := RangeSet(old(Image().slots), begin, end, st))]
      ensures forall c :: c in dev.cuts && c !in old(dev.cuts) ==>
        RangeCut(old(dev.pages), c, sector, begin, end, st)
      ensures dev.pages in dev.cuts
    {
      hide HashList.Valid, RangeCut;
      ghost var s0 := Image().slots;
      var wordIndex := (end - 1) / 16;
      var i := end - 1;
      ghost var m := end;
      assert RangeSet(s0, end, end, st) == s0;
      assert dev.pages == dev.pages[sector := Image().(slots := s0)];
      while i >= begin
        invariant begin - 1 <= i < end && Placed()
        invariant i >= begin ==> wordIndex == i / 16
        invariant begin <= m <= end
        invariant i + 1 <= m && (forall k :: i < k < m ==> k / 16 == wordIndex) && (i < begin ==> m == begin)
        invariant dev.pages == old(dev.pages)[sector := old(Image()).(slots := RangeSet(s0, m, end, st))]
        invariant |table| == |s0| && forall k :: 0 <= k < |s0| ==> table[k] == if i < k < end then st else s0[k].st
        invariant forall c :: c in dev.cuts ==>
          c in old(dev.cuts) || RangeCut(old(dev.pages), c, sector, begin, end, st)
        invariant m < end ==> dev.pages in dev.cuts
      {
        table := table[i := st];
        var nextWordIndex := if i == begin then -1 else (i - 1) / 16;
        if nextWordIndex != wordIndex {
          FlushWord(s0, m, i, end, st, wordIndex, table);
          dev.WriteTableWord(sector, wordIndex, table);
          m := i;
          RangeSetIsCut(old(dev.pages), dev.pages, sector, begin, m, end, st);
        }
        wordIndex := nextWordIndex;
        i := i - 1;
      }
    }

    // ---------------------------------------------------------------- writing

    method Initialize()
      requires Valid() && state.UNINITIALIZED?
      modifies this`state, this`nextFree, this`table, dev
      ensures Valid() && state.ACTIVE? && nextFree == 0
      ensures dev.pages == old(dev.pages)[sector := FPage(Header(ACTIVE, seqNo), old(Image().slots))]
      ensures forall c :: c in dev.cuts && c !in old(dev.cuts) ==>
        OnlyPage(old(dev.pages), c, sector) && HeaderCut(old(Image()), c[sector], ACTIVE, seqNo)
    {
      hide HashList.Valid, InUse;
      state := ACTIVE;
      dev.WriteHeader(sector, ACTIVE, seqNo);
      nextFree := 0;
      table := seq(ENTRY_COUNT, _ => EMPTY);
      FreshRam(Snapshot(), hashOf);
    }

    // Programs one entry, then its state.
    method WriteEntry(body: Body)
      requires Placed() && Synced(table, Image().slots)
      requires nextFree < ENTRY_COUNT && Image().slots[nextFree] == BLANK_SLOT
      modifies this`table, this`nextFree, this`firstUsed, this`used, dev
      ensures Placed() && Synced(table, Image().slots)
      ensures dev.pages ==
        old(dev.pages)[sector := old(Image()).(slots := old(Image().slots)[old(nextFree) := Slot(WRITTEN, body)])]
      ensures nextFree == old(nextFree) + 1 && used == old(used) + 1
      ensures firstUsed == if old(firstUsed) == INVALID_ENTRY then old(nextFree) else old(firstUsed)
      ensures forall c :: c in dev.cuts && c !in old(dev.cuts) ==>
        EntryCut(old(dev.pages), c, sector, old(nextFree), body)
      ensures dev.pages in dev.cuts
    {
      hide HashList.Valid;
      ghost var s0 := Image().slots;
      dev.WriteBodies(sector, nextFree, [body]);
      ghost var s1 := Image().slots;
      assert s1 == s0[nextFree := Slot(EMPTY, body)];
      forall c: seq<FPage> | c in dev.cuts && c !in old(dev.cuts)
        ensures EntryCut(old(dev.pages), c, sector, nextFree, body)
      {
        assert BodiesCut(old(Image()), c[sector], nextFree, [body]);
        assert c[sector].slots == s0[nextFree := c[sector].slots[nextFree]];
      }
      AlterEntryState(nextFree, WRITTEN);
      assert Image().slots == s0[nextFree := Slot(WRITTEN, body)];
      if firstUsed == INVALID_ENTRY {
        firstUsed := nextFree;
      }
      used := used + 1;
      nextFree := nextFree + 1;
    }

    method ProgramPayload(bodies: seq<Body>)
      requires Placed() && Synced(table, Image().slots)
      requires nextFree + |bodies| <= ENTRY_COUNT
      requires forall k :: nextFree <= k < nextFree + |bodies| ==> Image().slots[k] == BLANK_SLOT
      requires forall k :: 0 <= k < |bodies| ==> bodies[k].Data?
      modifies dev
      ensures Placed() && Synced(table, Image().slots)
      ensures dev.pages ==
        old(dev.pages)[sector := old(Image()).(slots := PutBodies(old(Image().slots), nextFree, bodies))]
      ensures forall c :: c in dev.cuts && c !in old(dev.cuts) ==>
        PayloadCut(old(dev.pages), c, sector, nextFree, bodies)
    {
      hide HashList.Valid;
      dev.WriteBodies(sector, nextFree, bodies);
      forall c: seq<FPage> | c in dev.cuts && c !in old(dev.cuts)
        ensures PayloadCut(old(dev.pages), c, sector, nextFree, bodies)
      {
        BodiesCutIsPayload(old(dev.pages), c, sector, nextFree, bodies);
      }
    }

    // Programs several payload entries in one write, then their states from the last down.
    method WriteEntryData(bodies: seq<Body>)
      requires Placed() && Synced(table, Image().slots)
      requires bodies != [] && nextFree + |bodies| <= ENTRY_COUNT
      requires forall k :: nextFree <= k < nextFree + |bodies| ==> Image().slots[k] == BLANK_SLOT
      requires forall k :: 0 <= k < |bodies| ==> bodies[k].Data?
      modifies this`table, this`nextFree, this`used, dev
      ensures Placed() && Synced(table, Image().slots)
      ensures dev.pages ==
        old(dev.pages)[sector := old(Image()).(slots := PutPayload(old(Image().slots), old(nextFree), bodies))]
      ensures nextFree == old(nextFree) + |bodies| && used == old(used) + |bodies|
      ensures forall c :: c in dev.cuts && c !in old(dev.cuts) ==>
        PayloadCut(old(dev.pages), c, sector, old(nextFree), bodies)
      ensures dev.pages in dev.cuts
    {
      hide HashList.Valid;
      ghost var img := dev.pages;
      ProgramPayload(bodies);
      ghost var mid, midCuts := dev.pages, dev.cuts;
      AlterEntryRangeState(nextFree, nextFree + |bodies|, WRITTEN);
      assert Image().slots == PutPayload(img[sector].slots, nextFree, bodies);
      assert dev.pages == img[sector := img[sector].(slots := Image().slots)];
      forall c: seq<FPage> | c in dev.cuts && c !in midCuts
        ensures PayloadCut(img, c, sector, nextFree, bodies)
      {
        RangeCutIsPayload(img, mid, c, sector, nextFree, bodies);
      }
      used := used + |bodies|;
      nextFree := nextFree + |bodies|;
    }

    // While an item is being written at entry f: n of its entries are final, the others blank.
    ghost predicate Filling(r0: Ram, s0: seq<Slot>, f: nat, rec: Rec, n: nat)
      reads this, dev, hashList
    {
      && Placed() && Synced(table, Image().slots) && state.ACTIVE? && Image().hdr == Header(ACTIVE, seqNo)
      && InUse(r0, s0, hashOf) && r0.top == f == r0.nextFree
      && Filled(s0, Image().slots, f, rec, n) && nextFree == f + n && used == r0.used + n
      && firstUsed == (if r0.firstUsed == INVALID_ENTRY then f else r0.firstUsed)
      && hashList.nodes == r0.nodes + {Node(f, hashOf(IdOf(rec.item)))}
    }

    method PutHead(item: Item, ghost rec: Rec)
      requires Valid() && state.ACTIVE? && WritableId(item) && rec.item == item
      requires nextFree < ENTRY_COUNT && Fits(nextFree, item.span) && Consistent(item, nextFree)
      requires |rec.payload| == rec.item.span - 1 && forall k :: 0 <= k < |rec.payload| ==> Payload(rec.payload[k])
      modifies this`table, this`nextFree, this`firstUsed, this`used, hashList, dev
      ensures Filling(old(Snapshot()), old(Image().slots), old(nextFree), rec, 1) && Placed()
        && Image().hdr == old(Image().hdr)
      ensures OnlyPage(old(dev.pages), dev.pages, sector)
      ensures dev.pages in dev.cuts
        && forall c :: c in dev.cuts && c !in old(dev.cuts) ==> PutCut(old(dev.pages), c, sector, seqNo, rec)
    {
      hide HashList.Valid;
      ghost var f := nextFree;
      hashList.Insert(hashOf(IdOf(item)), nextFree);
      WriteEntry(Head(item));
      PutHeadCuts(old(dev.pages), old(dev.cuts), dev.cuts, sector, seqNo, f, rec);
    }

    method PutData(bodies: seq<Body>, ghost r0: Ram, ghost f: nat, ghost rec: Rec, ghost img: seq<FPage>, ghost n: nat)
      requires sector < |img| && Filling(r0, img[sector].slots, f, rec, n)
      requires bodies != [] && n + |bodies| <= rec.item.span
      requires OnlyPage(img, dev.pages, sector) && img[sector].hdr == Image().hdr
      requires forall k :: 0 <= k < |bodies| ==> rec.payload[n - 1 + k] == Slot(WRITTEN, bodies[k])
      modifies this`table, this`nextFree, this`used, dev
      ensures Filling(r0, img[sector].slots, f, rec, n + |bodies|)
      ensures OnlyPage(img, dev.pages, sector)
      ensures dev.pages in dev.cuts
        && forall c :: c in dev.cuts && c !in old(dev.cuts) ==> PutCut(img, c, sector, seqNo, rec)
    {
      hide HashList.Valid, InUse, Filled, Partial, PutCut;
      FilledMeans(img[sector].slots, Image().slots, f, rec, n);
      FilledMore(img[sector].slots, Image().slots, f, rec, n, bodies);
      WriteEntryData(bodies);
      PutDataCuts(img, old(dev.pages), old(dev.cuts), dev.cuts, sector, seqNo, f, rec, f + n, bodies);
    }

    method PutTail(body: Body, ghost r0: Ram, ghost f: nat, ghost rec: Rec, ghost img: seq<FPage>, ghost n: nat)
      requires sector < |img| && Filling(r0, img[sector].slots, f, rec, n) && n < rec.item.span
      requires OnlyPage(img, dev.pages, sector) && img[sector].hdr == Image().hdr
      requires rec.payload[n - 1] == Slot(WRITTEN, body)
      modifies this`table, this`nextFree, this`firstUsed, this`used, dev
      ensures Filling(r0, img[sector].slots, f, rec, n + 1) && Placed() && Image().hdr == old(Image().hdr)
      ensures OnlyPage(img, dev.pages, sector)
      ensures dev.pages in dev.cuts
        && forall c :: c in dev.cuts && c !in old(dev.cuts) ==> PutCut(img, c, sector, seqNo, rec)
    {
      hide HashList.Valid, InUse, Filled, Partial, PutCut;
      FilledMeans(img[sector].slots, Image().slots, f, rec, n);
      FilledOneMore(img[sector].slots, Image().slots, f, rec, n, body);
      WriteEntry(body);
      PutTailCuts(img, old(dev.pages), old(dev.cuts), dev.cuts, sector, seqNo, f, rec, f + n, body);
    }

    method PutVariable(data: seq<byte>, ghost r0: Ram, ghost f: nat, ghost rec: Rec, ghost img: seq<FPage>)
      requires sector < |img| && Filling(r0, img[sector].slots, f, rec, 1)
      requires OnlyPage(img, dev.pages, sector) && img[sector].hdr == Image().hdr
      requires rec.payload == PayloadOf(Variable(data)) && rec.item.span == 1 + EntriesFor(|data|)
        && dev.pages in dev.cuts
      modifies this`table, this`nextFree, this`firstUsed, this`used, dev
      ensures Filling(r0, img[sector].slots, f, rec, rec.item.span)
      ensures OnlyPage(img, dev.pages, sector)
      ensures dev.pages in dev.cuts
        && forall c :: c in dev.cuts && c !in old(dev.cuts) ==> PutCut(img, c, sector, seqNo, rec)
    {
      hide HashList.Valid, InUse, Filled, Partial, PutCut;
      var rest := |data| % ENTRY_SIZE;
      var left := |data| - rest;
      assert EntriesFor(|data|) == left / ENTRY_SIZE + (if rest > 0 then 1 else 0);
      if left > 0 {
        var bodies := seq(left / ENTRY_SIZE, k requires 0 <= k < left / ENTRY_SIZE => DataBody(data, k));
        PutData(bodies, r0, f, rec, img, 1);
      }
      if rest > 0 {
        PutTail(DataBody(data, left / ENTRY_SIZE), r0, f, rec, img, 1 + left / ENTRY_SIZE);
      }
    }

    // The steps of writeItem after its checks: head, full payload entries, last payload entry.
    method PutItem(item: Item, v: Input)
      requires Valid() && state.ACTIVE? && item.ns != NS_ANY && |item.key| <= MAX_KEY_LENGTH
      requires WellFormed(item.typ, v, item.chunk) && InputSize(v) <= CHUNK_MAX_SIZE
      requires IsVariableLengthType(item.typ) || InputSize(v) <= 8
      requires item == MakeItem(item.ns, item.typ, item.key, v, item.chunk) && Fits(nextFree, item.span)
      modifies this`table, this`nextFree, this`firstUsed, this`used, this`top, hashList, dev
      ensures Valid() && OnlyPage(old(dev.pages), dev.pages, sector)
      ensures Image().hdr == old(Image().hdr)
      ensures top == old(top) + item.span && nextFree == top && used == old(used) + item.span
      ensures Partial(old(Image().slots), Image().slots, old(top), Rec(item, PayloadOf(v)))
      ensures Complete(Image().slots, old(top), Rec(item, PayloadOf(v)))
      ensures Recs(Image().slots) == Recs(old(Image().slots)) + [Rec(item, PayloadOf(v))] && EndsInItem(Image().slots)
      ensures dev.pages in dev.cuts
        && forall c :: c in dev.cuts && c !in old(dev.cuts) ==>
        PutCut(old(dev.pages), c, sector, seqNo, Rec(item, PayloadOf(v)))
    {
      hide HashList.Valid, InUse, Filling, Partial, PutCut, Recs, EndsInItem;
      ghost var r0, img, f, rec := Snapshot(), dev.pages, nextFree, Rec(item, PayloadOf(v));
      PutHead(item, rec);
      if v.Variable? {
        PutVariable(v.data, r0, f, rec, img);
      }
      Seal(r0, img[sector].slots, f, rec);
      WrittenEnds(img[sector].slots, Image().slots, f, rec);
    }

    // All entries of an item are there: the page is in order again and one record richer.
    ghost method Seal(r0: Ram, s0: seq<Slot>, f: nat, rec: Rec)
      requires Filling(r0, s0, f, rec, rec.item.span)
      modifies this`top
      ensures Valid() && top == nextFree == f + rec.item.span && used == r0.used + rec.item.span
      ensures Complete(Image().slots, f, rec) && Recs(Image().slots) == Recs(s0) + [rec]
      ensures Partial(s0, Image().slots, f, rec) && r0.top == f
    {
      FilledIsComplete(s0, Image().slots, f, rec);
      top := nextFree;
      PartialRecs(s0, Image().slots, f, rec);
      WriteKeepsRam(r0, s0, Snapshot(), Image().slots, hashOf, f, rec);
    }

    method WriteItem(ns: byte, typ: ItemType, key: string, v: Input, chunk: byte) returns (err: Error)
      requires Valid() && (state.UNINITIALIZED? || state.ACTIVE? || state.FULL?) && ns != NS_ANY
      requires WellFormed(typ, v, chunk)
      modifies this`state, this`table, this`nextFree, this`firstUsed, this`used, this`top, hashList, dev
      ensures Valid() && OnlyPage(old(dev.pages), dev.pages, sector)
      ensures err == WriteVerdict(old(state), old(nextFree), typ, key, v)
      ensures state == (if old(state).FULL? then FULL else ACTIVE) && Image().hdr == Header(state, seqNo)
      ensures err != OK ==> Image().slots == old(Image().slots) && used == old(used) && top == old(top)
      ensures ItemsKept(old(Image().slots), Image().slots)
      ensures old(state).FULL? ==> dev.pages == old(dev.pages) && dev.cuts == old(dev.cuts)
      ensures err == OK ==>
        state.ACTIVE? && nextFree == top == old(top) + SpanFor(typ, v) && used == old(used) + SpanFor(typ, v)
      ensures err == OK ==> nextFree == (if old(state).UNINITIALIZED? then 0 else old(nextFree)) + SpanFor(typ, v)
      ensures err == OK ==> Partial(old(Image().slots), Image().slots, old(top), RecOf(ns, typ, key, v, chunk))
      ensures err == OK ==> Recs(Image().slots) == Recs(old(Image().slots)) + [RecOf(ns, typ, key, v, chunk)]
      ensures err == OK ==> EndsInItem(Image().slots) && dev.pages in dev.cuts
      ensures forall c :: c in dev.cuts && c !in old(dev.cuts) ==>
        PutCut(old(dev.pages), c, sector, seqNo, RecOf(ns, typ, key, v, chunk))
        && (err != OK ==> NothingPut(old(dev.pages), c, sector))
    {
      hide HashList.Valid, InUse, Partial, PutCut, NothingPut, Recs, ItemsKept, EndsInItem;
      ghost var img, rec := dev.pages, RecOf(ns, typ, key, v, chunk);
      SameKeeps(img[sector].slots);
      if state.UNINITIALIZED? {
        Initialize();
        InitCuts(img[sector], dev.cuts, old(dev.cuts), img, sector, seqNo, rec);
      }
      ghost var mid, midCuts := dev.pages, dev.cuts;
      err := WriteInitialized(ns, typ, key, v, chunk);
      assert OnlyPage(img, dev.pages, sector);
      if err == OK {
        PartialKeeps(img[sector].slots, Image().slots, old(top), rec);
      }
      AfterInitCuts(img[sector], img, mid, dev.cuts, midCuts, sector, seqNo, rec);
    }

    method WriteInitialized(ns: byte, typ: ItemType, key: string, v: Input, chunk: byte) returns (err: Error)
      requires Valid() && (state.ACTIVE? || state.FULL?) && ns != NS_ANY && WellFormed(typ, v, chunk)
      modifies this`table, this`nextFree, this`firstUsed, this`used, this`top, hashList, dev
      ensures Valid() && OnlyPage(old(dev.pages), dev.pages, sector)
      ensures err == WriteVerdict(state, old(nextFree), typ, key, v)
      ensures Image().hdr == old(Image().hdr)
      ensures state.FULL? ==> dev.pages == old(dev.pages) && dev.cuts == old(dev.cuts)
      ensures err != OK ==> Image() == old(Image()) && used == old(used) && top == old(top) && dev.cuts == old(dev.cuts)
      ensures err == OK ==>
        state.ACTIVE? && nextFree == top == old(top) + SpanFor(typ, v) && used == old(used) + SpanFor(typ, v)
      ensures err == OK ==> nextFree == old(nextFree) + SpanFor(typ, v)
      ensures err == OK ==> Partial(old(Image().slots), Image().slots, old(top), RecOf(ns, typ, key, v, chunk))
      ensures err == OK ==> Recs(Image().slots) == Recs(old(Image().slots)) + [RecOf(ns, typ, key, v, chunk)]
      ensures err == OK ==> EndsInItem(Image().slots) && dev.pages in dev.cuts
      ensures forall c :: c in dev.cuts && c !in old(dev.cuts) ==>
        PutCut(old(dev.pages), c, sector, seqNo, RecOf(ns, typ, key, v, chunk))
    {
      hide HashList.Valid, InUse, Partial, PutCut, Recs, EndsInItem;
      if state.FULL? {
        return PAGE_FULL;
      }
      if |key| > MAX_KEY_LENGTH {
        return KEY_TOO_LONG;
      }
      if InputSize(v) > CHUNK_MAX_SIZE {
        return VALUE_TOO_LONG;
      }
      if !IsVariableLengthType(typ) && InputSize(v) > 8 {
        return INVALID_ARG;
      }
      if nextFree == INVALID_ENTRY || !Fits(nextFree, SpanFor(typ, v)) {
        return PAGE_FULL;
      }
      TopIsNextFree(Snapshot(), Image(), hashOf);
      PutItem(MakeItem(ns, typ, key, v, chunk), v);
      err := OK;
    }

    // ---------------------------------------------------------------- erasing

    // Payload taken for a header could read as anything.
    method ReadEntry(index: nat) returns (item: Option<Item>)
      requires Placed() && index < ENTRY_COUNT
      ensures Image().slots[index].body.Head? ==> item == Some(Image().slots[index].body.item)
    {
      if dev.pages[sector].slots[index].body.Head? {
        item := Some(dev.pages[sector].slots[index].body.item);
      } else {
        item := *;
      }
    }

    method UpdateFirstUsedEntry(index: nat, span: nat)
      requires Placed() && Synced(table, Image().slots) && index == firstUsed && index + span <= ENTRY_COUNT
      modifies this`firstUsed
      ensures NextWritten(Image().slots, index + span, nextFree, firstUsed)
    {
      hide HashList.Valid;
      ghost var s := Image().slots;
      firstUsed := INVALID_ENTRY;
      var end := if nextFree > ENTRY_COUNT then ENTRY_COUNT else nextFree;
      var i := index + span;
      while i < end
        invariant index + span <= i <= ENTRY_COUNT && firstUsed == INVALID_ENTRY
        invariant forall k :: index + span <= k < i ==> !s[k].st.WRITTEN?
      {
        if table[i].WRITTEN? {
          firstUsed := i;
          break;
        }
        i := i + 1;
      }
    }

    // Erases an item together with its payload.
    method EraseEntryAndSpan(index: nat, ghost upto: nat)
      requires Placed() && Working(Snapshot(), Image().slots, hashOf, upto)
      requires index < ENTRY_COUNT && IsHead(Image().slots[index])
      modifies this`table, this`nextFree, this`firstUsed, this`used, hashList, dev
      ensures Placed() && Working(Snapshot(), Image().slots, hashOf, upto) && Synced(table, Image().slots)
      ensures OnlyPage(old(dev.pages), dev.pages, sector) && Image().hdr == old(Image().hdr)
      ensures Removed(old(Image().slots), Image().slots, top, index)
      ensures nextFree == if index + SpanAt(old(Image().slots), index) > old(nextFree)
        then index + SpanAt(old(Image().slots), index) else old(nextFree)
      ensures forall c :: c in dev.cuts && c !in old(dev.cuts) ==> ItemEraseCut(old(dev.pages), c, sector, top, index)
    {
      hide Loose, Removed, Indexes, HashList.Valid;
      ghost var r0, s0 := Snapshot(), Image().slots;
      HeadReaches(s0, top, index);
      var item := ReadEntry(index);
      var span := item.value.span;
      EraseItemStates(index, span);
      ghost var s := Image().slots;
      if index == firstUsed {
        UpdateFirstUsedEntry(index, span);
      }
      assert if index == r0.firstUsed
        then NextWritten(s, index + span, r0.nextFree, firstUsed)
        else firstUsed == r0.firstUsed;
      if index + span > nextFree {
        nextFree := index + span;
      }
      ghost var r := Snapshot();
      EraseKeepsRam(r0, s0, r, s, hashOf, upto, index, span);
    }

    method EraseItemStates(index: nat, span: nat)
      requires Placed() && Synced(table, Image().slots) && Loose(Image().slots, top)
      requires index < top && IsHead(Image().slots[index]) && span == SpanAt(Image().slots, index)
        && index + span <= ENTRY_COUNT
      requires span >= 1
      modifies this`table, this`used, hashList, dev
      ensures Placed() && Synced(table, Image().slots)
      ensures OnlyPage(old(dev.pages), dev.pages, sector) && Image().hdr == old(Image().hdr)
      ensures Removed(old(Image().slots), Image().slots, top, index)
      ensures used == old(used) - CountIn(old(Image().slots), index, index + span)
      ensures hashList.nodes == set x | x in old(hashList.nodes) && x.index != index
      ensures forall c :: c in dev.cuts && c !in old(dev.cuts) ==> ItemEraseCut(old(dev.pages), c, sector, top, index)
    {
      hide HashList.Valid;
      var found := hashList.Erase(index);
      CountWritten(index, span);
      EraseStates(index, span);
    }

    method EraseStates(index: nat, span: nat)
      requires Placed() && Synced(table, Image().slots) && Loose(Image().slots, top)
      requires index < top && IsHead(Image().slots[index]) && span == SpanAt(Image().slots, index)
        && index + span <= ENTRY_COUNT
      requires span >= 1
      modifies this`table, dev
      ensures Placed() && Synced(table, Image().slots)
      ensures OnlyPage(old(dev.pages), dev.pages, sector) && Image().hdr == old(Image().hdr)
      ensures Removed(old(Image().slots), Image().slots, top, index)
      ensures forall c :: c in dev.cuts && c !in old(dev.cuts) ==> ItemEraseCut(old(dev.pages), c, sector, top, index)
    {
      hide HashList.Valid;
      if span == 1 {
        AlterEntryState(index, ERASED);
      } else {
        AlterEntryRangeState(index, index + span, ERASED);
      }
      EraseCuts(old(dev.pages), dev.pages, old(dev.cuts), dev.cuts, sector, top, index, span);
    }

    // The counting loop of eraseEntryAndSpan.
    method CountWritten(index: nat, span: nat)
      requires Placed() && Synced(table, Image().slots) && index + span <= ENTRY_COUNT
      modifies this`used
      ensures used == old(used) - CountIn(Image().slots, index, index + span)
    {
      hide HashList.Valid;
      var i := index + span - 1;
      while i >= index
        invariant index - 1 <= i < index + span
        invariant used == old(used) - CountIn(Image().slots, i + 1, index + span)
      {
        CountSplit(Image().slots, i, i + 1, index + span);
        assert CountIn(Image().slots, i, i + 1) ==
          CountIn(Image().slots, i, i) + (if Image().slots[i].st.WRITTEN? then 1 else 0);
        if table[i].WRITTEN? {
          used := used - 1;
        }
        i := i - 1;
      }
    }

    // ---------------------------------------------------------------- moving items to another page

    // The raw 32 bytes of an entry.
    method ReadRaw(index: nat) returns (body: Body)
      requires Placed() && index < ENTRY_COUNT
      ensures body == Image().slots[index].body
    {
      body := dev.pages[sector].slots[index].body;
    }

    // The inner loop of copyItems: one entry at a time, payload included.
    method CopyPayload(src: Page, i: nat, span: nat, ghost r0: Ram, ghost f: nat, ghost rec: Rec, ghost img: seq<FPage>)
      requires src != this && src.dev == dev && src.sector != sector && src.hashList != hashList
      requires src.Placed() && Whole(src.Image().slots, i) && rec == RecAt(src.Image().slots, i)
        && span == rec.item.span
      requires 1 <= span && i + span <= ENTRY_COUNT && sector < |img| && OnlyPage(img, dev.pages, sector)
      requires Filling(r0, img[sector].slots, f, rec, 1) && Placed() && img[sector].hdr == Image().hdr
      modifies this`table, this`nextFree, this`firstUsed, this`used, dev
      ensures Filling(r0, img[sector].slots, f, rec, span)
      ensures OnlyPage(img, dev.pages, sector)
      ensures forall c :: c in dev.cuts && c !in old(dev.cuts) ==> PutCut(img, c, sector, seqNo, rec)
    {
      hide HashList.Valid, Filling, PutCut, Whole, Payload;
      ghost var s := src.Image().slots;
      var j := i + 1;
      while j < i + span
        invariant i < j <= i + span && Filling(r0, img[sector].slots, f, rec, j - i)
        invariant OnlyPage(img, dev.pages, sector) && src.Placed() && src.Image() == img[src.sector]
        invariant Placed() && img[sector].hdr == Image().hdr
        invariant forall c :: c in dev.cuts && c !in old(dev.cuts) ==> PutCut(img, c, sector, seqNo, rec)
      {
        var body := src.ReadRaw(j);
        PayloadAt(s, i, j);
        SlotOfPayload(s[j]);
        PutTail(body, r0, f, rec, img, j - i);
        j := j + 1;
      }
    }

    // Appends the item that starts at entry i of `src`, entry by entry.
    method CopyItem(src: Page, i: nat)
      requires src != this && src.dev == dev && src.sector != sector && src.hashList != hashList && src.hashOf == hashOf
      requires src.Valid() && src.Loaded() && i < ENTRY_COUNT && Whole(src.Image().slots, i)
      requires Valid() && state.ACTIVE? && nextFree == top <= i
      modifies this`table, this`nextFree, this`firstUsed, this`used, this`top, hashList, dev
      ensures Valid() && OnlyPage(old(dev.pages), dev.pages, sector) && Image().hdr == old(Image().hdr)
      ensures src.Valid() && src.Image() == old(src.Image())
      ensures nextFree == top == old(top) + SpanAt(src.Image().slots, i)
      ensures used == old(used) + SpanAt(src.Image().slots, i)
      ensures Recs(Image().slots) == Recs(old(Image().slots)) + [RecAt(src.Image().slots, i)]
      ensures forall c :: c in dev.cuts && c !in old(dev.cuts) ==>
        PutCut(old(dev.pages), c, sector, seqNo, RecAt(src.Image().slots, i))
    {
      hide HashList.Valid, Quiet, Filling, Working, PutCut, Recs, Consistent;
      ghost var r0, img, f, s, rec := Snapshot(), dev.pages, nextFree, src.Image().slots, RecAt(src.Image().slots, i);
      CopyFits(s, src.top, i, nextFree);
      var head := src.ReadRaw(i);
      PutHead(head.item, rec);
      CopyPayload(src, i, head.item.span, r0, f, rec, img);
      Seal(r0, img[sector].slots, f, rec);
    }

    // Copies every item of this page to the fresh page `other`, in order and without gaps.
    method CopyItems(other: Page) returns (err: Error)
      requires other != this && other.dev == dev && other.sector != sector && other.hashList != hashList
        && other.hashOf == hashOf
      requires Valid() && Loaded() && other.Valid() && other.state.UNINITIALIZED?
      modifies other`state, other`table, other`nextFree, other`firstUsed, other`used, other`top, other.hashList, dev
      ensures Valid() && Image() == old(Image()) && other.Valid() && OnlyPage(old(dev.pages), dev.pages, other.sector)
      ensures err == (if firstUsed == INVALID_ENTRY then NOT_FOUND else OK)
      ensures err == NOT_FOUND ==>
        dev.pages == old(dev.pages) && other.Snapshot() == old(other.Snapshot()) && Recs(Image().slots) == []
      ensures err == OK ==> other.state.ACTIVE? && other.nextFree == other.top == other.used
      ensures other.used == used && Recs(other.Image().slots) == Recs(Image().slots)
      ensures forall c :: c in dev.cuts && c !in old(dev.cuts) ==>
        CopyCut(old(dev.pages), c, other.sector, other.seqNo, Recs(Image().slots))
    {
      hide HashList.Valid, Working, Quiet, Recs, CopyCut;
      ghost var s, img := Image().slots, dev.pages;
      BlankIsQuiet();
      if firstUsed == INVALID_ENTRY {
        NothingWritten(Snapshot(), s, hashOf);
        return NOT_FOUND;
      }
      other.Initialize();
      InitIsCopyCut(img, dev.cuts, old(dev.cuts), other.sector, other.seqNo, Recs(s));
      CopyAll(other, img);
      err := OK;
    }

    method CopyAll(other: Page, ghost img: seq<FPage>)
      requires other != this && other.dev == dev && other.sector != sector && other.hashList != hashList
        && other.hashOf == hashOf
      requires Valid() && Loaded() && firstUsed != INVALID_ENTRY
      requires OnlyPage(img, dev.pages, other.sector)
      requires other.Valid() && other.state.ACTIVE? && other.nextFree == other.top == 0
      requires Recs(other.Image().slots) == [] && other.used == 0
      modifies other`table, other`nextFree, other`firstUsed, other`used, other`top, other.hashList, dev
      ensures Valid() && Image() == old(Image()) && OnlyPage(img, dev.pages, other.sector)
      ensures other.Valid() && other.nextFree == other.top == other.used && other.Image().hdr == old(other.Image().hdr)
      ensures other.used == used && Recs(other.Image().slots) == Recs(Image().slots)
      ensures forall c :: c in dev.cuts && c !in old(dev.cuts) ==>
        CopyCut(img, c, other.sector, other.seqNo, Recs(Image().slots))
    {
      hide HashList.Valid, Working, Quiet, Loose, RecsIn, CountIn, CopyCut, Boundary;
      ghost var s := Image().slots;
      var i := firstUsed;
      InUseMeans(Snapshot(), s, hashOf);
      BeforeFirstUsed(s, i);
      while i < ENTRY_COUNT
        invariant firstUsed <= i <= ENTRY_COUNT && Boundary(s, i)
        invariant Placed() && Image() == img[sector] && OnlyPage(img, dev.pages, other.sector)
        invariant other.Valid() && other.state.ACTIVE? && other.nextFree == other.top == other.used <= i
        invariant other.Image().hdr == Header(ACTIVE, other.seqNo)
        invariant Recs(other.Image().slots) == RecsIn(s, 0, i) && other.used == CountIn(s, 0, i)
        invariant forall c :: c in dev.cuts && c !in old(dev.cuts) ==>
          CopyCut(img, c, other.sector, other.seqNo, Recs(s))
      {
        if !table[i].WRITTEN? {
          SkippedEntry(s, i);
          i := i + 1;
          continue;
        }
        i := CopyNext(other, i, img);
      }
    }

    method CopyNext(other: Page, i: nat, ghost img: seq<FPage>) returns (next: nat)
      requires other != this && other.dev == dev && other.sector != sector && other.hashList != hashList
        && other.hashOf == hashOf
      requires Valid() && Loaded() && i < ENTRY_COUNT && Boundary(Image().slots, i) && table[i].WRITTEN?
      requires OnlyPage(img, dev.pages, other.sector)
      requires other.Valid() && other.state.ACTIVE? && other.nextFree == other.top <= i
      requires Recs(other.Image().slots) == RecsIn(Image().slots, 0, i) && other.used == CountIn(Image().slots, 0, i)
      modifies other`table, other`nextFree, other`firstUsed, other`used, other`top, other.hashList, dev
      ensures Placed() && Image() == old(Image()) && OnlyPage(img, dev.pages, other.sector)
      ensures i < next <= ENTRY_COUNT && Boundary(Image().slots, next)
      ensures other.Valid() && other.nextFree == other.top <= next && other.Image().hdr == old(other.Image().hdr)
      ensures other.top - old(other.top) == other.used - old(other.used)
      ensures Recs(other.Image().slots) == RecsIn(Image().slots, 0, next)
        && other.used == CountIn(Image().slots, 0, next)
      ensures forall c :: c in dev.cuts && c !in old(dev.cuts) ==>
        CopyCut(img, c, other.sector, other.seqNo, Recs(Image().slots))
    {
      hide HashList.Valid, Working, Quiet, Loose, RecsIn, CountIn, CopyCut, Boundary, Whole;
      ghost var s := Image().slots;
      InUseMeans(Snapshot(), s, hashOf);
      NextSource(Snapshot(), s, hashOf, i);
      var head := ReadRaw(i);
      ghost var mid := dev.pages;
      other.CopyItem(this, i);
      PutIsCopyCut(img, mid, dev.cuts, old(dev.cuts), other.sector, other.seqNo, s, i);
      next := i + head.item.span;
      NextItem(s, top, i, next);
    }

    // ---------------------------------------------------------------- loading

    // A page object nothing has happened to yet.
    ghost predicate Untouched()
      reads this, hashList
    {
      firstUsed == INVALID_ENTRY == nextFree && hashList.nodes == {}
    }

    // The first pass of mLoadEntryTable: what is written, and where it starts.
    method CountStates()
      requires Placed() && Synced(table, Image().slots) && firstUsed == INVALID_ENTRY
      modifies this`firstUsed, this`used
      ensures used == CountIn(Image().slots, 0, |Image().slots|) && LeastWritten(Image().slots, 0, firstUsed)
    {
      hide HashList.Valid;
      ghost var s := Image().slots;
      used := 0;
      var i := 0;
      while i < ENTRY_COUNT
        invariant i <= ENTRY_COUNT && used == CountIn(s, 0, i)
        invariant if firstUsed == INVALID_ENTRY then forall k :: 0 <= k < i ==> !s[k].st.WRITTEN?
          else 0 <= firstUsed < i && s[firstUsed].st.WRITTEN? && forall k :: 0 <= k < firstUsed ==> !s[k].st.WRITTEN?
      {
        if table[i].WRITTEN? {
          if firstUsed == INVALID_ENTRY {
            firstUsed := i;
          }
          used := used + 1;
        }
        i := i + 1;
      }
    }

    // The second pass: the first entry whose state is EMPTY, if there is one.
    method FindFirstEmpty()
      requires Placed() && Synced(table, Image().slots) && nextFree == INVALID_ENTRY
      modifies this`nextFree
      ensures nextFree < ENTRY_COUNT || nextFree == INVALID_ENTRY
      ensures nextFree < ENTRY_COUNT ==> Image().slots[nextFree].st.EMPTY?
      ensures forall k: nat :: k < ENTRY_COUNT && k < nextFree ==> !Image().slots[k].st.EMPTY?
    {
      hide HashList.Valid;
      var i := 0;
      while i < ENTRY_COUNT
        invariant i <= ENTRY_COUNT && nextFree == INVALID_ENTRY
        invariant forall k: nat :: k < i ==> !Image().slots[k].st.EMPTY?
      {
        if table[i].EMPTY? {
          nextFree := i;
          break;
        }
        i := i + 1;
      }
    }

    method MarkNextErased()
      requires Placed() && Synced(table, Image().slots) && nextFree < ENTRY_COUNT
      modifies this`table, this`nextFree, this`used, dev
      ensures Placed() && Synced(table, Image().slots) && nextFree == old(nextFree) + 1
      ensures used == old(used) - if old(Image().slots)[old(nextFree)].st.WRITTEN? then 1 else 0
      ensures dev.pages == old(dev.pages)[sector := old(Image()).(slots := old(Image().slots)[
        old(nextFree) := Slot(ERASED, old(Image().slots)[old(nextFree)].body)])]
      ensures dev.cuts == old(dev.cuts) + iset{dev.pages}
    {
      hide HashList.Valid;
      ghost var s, g := Image().slots, nextFree;
      var oldState := table[nextFree];
      AlterEntryState(nextFree, ERASED);
      nextFree := nextFree + 1;
      if oldState.WRITTEN? {
        used := used - 1;
      }
      assert Image().slots == s[g := Slot(ERASED, s[g].body)];
    }

    method MarkHalfWritten(ghost s0: seq<Slot>, ghost e: nat, ghost img: seq<FPage>)
      requires Placed() && OnlyPage(img, dev.pages, sector) && Image().hdr == img[sector].hdr
      requires img[sector].hdr.Header? && img[sector].hdr.st.ACTIVE? && Synced(table, Image().slots)
      requires Working(Snapshot(), Image().slots, hashOf, 0)
      requires nextFree < ENTRY_COUNT && Probing(s0, Image().slots, top, e, nextFree)
        && !FirstWordBlank(Image().slots[nextFree].body)
      modifies this`table, this`nextFree, this`used, dev
      ensures Placed() && OnlyPage(img, dev.pages, sector) && Image().hdr == img[sector].hdr
      ensures nextFree == old(nextFree) + 1 && Synced(table, Image().slots)
      ensures Working(Snapshot(), Image().slots, hashOf, 0) && Probing(s0, Image().slots, top, e, nextFree)
      ensures forall c :: c in dev.cuts && c !in old(dev.cuts) ==> StepCut(img, c, sector, Recs(s0), true, hashOf)
    {
      hide HashList.Valid, Working, Probing, Loadable, StageOf, StepCut, Recs;
      ghost var r, s, g := Snapshot(), Image().slots, nextFree;
      MarkNextErased();
      ProbeRam(r, s0, s, e, g, hashOf, Snapshot());
      ProbeIsStep(img, dev.pages, sector, s0, top, e, g + 1, hashOf);
    }

    // The third pass: power may have failed after an entry was programmed and before its state was
    // set. Such entries are recognised by their first word and marked ERASED.
    method Probe(ghost e: nat)
      requires Placed() && state.ACTIVE? && Image().hdr.Header? && Image().hdr.st.ACTIVE?
      requires Working(Snapshot(), Image().slots, hashOf, 0)
      requires Probing(Image().slots, Image().slots, top, e, e)
        && (nextFree == e || (nextFree == INVALID_ENTRY && e == ENTRY_COUNT))
      modifies this`table, this`nextFree, this`used, dev
      ensures Placed() && OnlyPage(old(dev.pages), dev.pages, sector) && Image().hdr == old(Image().hdr)
      ensures Working(Snapshot(), Image().slots, hashOf, 0) && Recs(Image().slots) == Recs(old(Image().slots))
      ensures nextFree <= top || (nextFree == INVALID_ENTRY && top == ENTRY_COUNT)
      ensures Probed(Image().slots, top, if nextFree > ENTRY_COUNT then ENTRY_COUNT else nextFree)
      ensures EndsInItem(Image().slots) <==> EndsInItem(old(Image().slots))
      ensures forall c :: c in dev.cuts && c !in old(dev.cuts) ==>
        StepCut(old(dev.pages), c, sector, Recs(old(Image().slots)), true, hashOf)
      ensures e == top ==> dev.pages == old(dev.pages) && dev.cuts == old(dev.cuts)
    {
      ghost var s0, img := Image().slots, dev.pages;
      hide HashList.Valid, Working, Probing, Probed, Loadable, StageOf, StepCut, EndsInItem, Recs;
      while nextFree < ENTRY_COUNT
        invariant Placed() && OnlyPage(img, dev.pages, sector) && Image().hdr == img[sector].hdr
        invariant nextFree == INVALID_ENTRY ==> e == ENTRY_COUNT && Image().slots == s0
        invariant nextFree != INVALID_ENTRY ==> nextFree <= ENTRY_COUNT
        invariant Probing(s0, Image().slots, top, e, if nextFree > ENTRY_COUNT then ENTRY_COUNT else nextFree)
        invariant Working(Snapshot(), Image().slots, hashOf, 0) && Synced(table, Image().slots)
        invariant forall c :: c in dev.cuts && c !in old(dev.cuts) ==> StepCut(img, c, sector, Recs(s0), true, hashOf)
        invariant nextFree == e ==> dev.pages == img && dev.cuts == old(dev.cuts)
        invariant nextFree == INVALID_ENTRY ==> dev.pages == img && dev.cuts == old(dev.cuts)
      {
        var word := ReadRaw(nextFree);
        if FirstWordBlank(word) {
          break;
        }
        MarkHalfWritten(s0, e, img);
      }
      ProbeEnd(s0, Image().slots, top, e, if nextFree > ENTRY_COUNT then ENTRY_COUNT else nextFree);
    }

    // The inner loop of the scan: whether every payload entry of the item at i is WRITTEN.
    method PayloadWritten(i: nat, span: nat) returns (all: bool)
      requires Placed() && Synced(table, Image().slots) && Loose(Image().slots, top)
      requires i < ENTRY_COUNT && IsHead(Image().slots[i]) && span == SpanAt(Image().slots, i)
      ensures all <==> Whole(Image().slots, i)
    {
      hide HashList.Valid;
      ghost var s := Image().slots;
      assert HeadFits(s, i, top);
      var j := i + 1;
      while j < i + span
        invariant i < j <= i + span
        invariant forall k :: i < k < j ==> Payload(s[k])
      {
        if !table[j].WRITTEN? {
          return false;
        }
        assert Covers(s, i, j);
        j := j + 1;
      }
      all := true;
    }

    // The scan of mLoadEntryTable has reached entry i; it started from the slots s1.
    ghost predicate Scanning(i: nat, img: seq<FPage>, s1: seq<Slot>, dedup: bool)
      reads this, dev, hashList
    {
      && Placed() && OnlyPage(img, dev.pages, sector) && Image().hdr == img[sector].hdr
      && Image().hdr.Header? && LiveState(Image().hdr.st) && (dedup <==> Image().hdr.st.ACTIVE?)
      && Synced(table, Image().slots) && |s1| == ENTRY_COUNT && SoundAt(Image().hdr.st, Image().slots, top)
      && Working(Snapshot(), Image().slots, hashOf, i)
      && Scanned(s1, Image().slots, top, i, dedup, hashOf)
    }

    // Puts the item at i into the hash list.
    method IndexItem(i: nat, ghost img: seq<FPage>, ghost s1: seq<Slot>, ghost dedup: bool) returns (read: Option<Item>)
      requires Scanning(i, img, s1, dedup) && i < ENTRY_COUNT && Image().slots[i].st.WRITTEN?
      modifies hashList
      ensures Placed() && IsHead(Image().slots[i]) && HeadFits(Image().slots, i, top)
        && read == Some(Image().slots[i].body.item)
      ensures Working(Snapshot(), Image().slots, hashOf, i + SpanAt(Image().slots, i))
    {
      ghost var r, s := Snapshot(), Image().slots;
      WrittenAtBoundary(s, top, i);
      read := ReadEntry(i);
      hashList.Insert(hashOf(IdOf(read.value)), i);
      WorkingMore(r, Snapshot(), s, hashOf, i);
    }

    // Erases item a while item i is being checked; afterwards the scan stands at entry j.
    method DropItem(a: nat, i: nat, ghost j: nat, ghost img: seq<FPage>, ghost s1: seq<Slot>, ghost dedup: bool)
      requires Placed() && OnlyPage(img, dev.pages, sector) && Image().hdr == img[sector].hdr
      requires Image().hdr.Header? && LiveState(Image().hdr.st) && (dedup <==> Image().hdr.st.ACTIVE?)
      requires SoundAt(Image().hdr.st, Image().slots, top) && Working(Snapshot(), Image().slots, hashOf, j)
      requires Scanned(s1, Image().slots, top, i, dedup, hashOf) && |s1| == ENTRY_COUNT
      requires a <= i < ENTRY_COUNT && IsHead(Image().slots[i])
      requires j == i + SpanAt(Image().slots, i)
      requires if a == i then !Whole(Image().slots, i)
        else dedup && Whole(Image().slots, i) && FirstWithHash(Image().slots, hashOf, a, i)
      modifies this`table, this`nextFree, this`firstUsed, this`used, hashList, dev
      ensures Scanning(j, img, s1, dedup) && (a < i ==> IsHead(Image().slots[i]))
      ensures a + SpanAt(old(Image().slots), a) <= top
      ensures nextFree == if a + SpanAt(old(Image().slots), a) > old(nextFree) then a + SpanAt(old(Image().slots), a)
        else old(nextFree)
      ensures forall c :: c in dev.cuts && c !in old(dev.cuts) ==> StepCut(img, c, sector, Recs(s1), dedup, hashOf)
    {
      hide HashList.Valid, Working, Scanned, Removed, SoundAt, StepCut, Whole, ItemEraseCut;
      ghost var s, was := Image().slots, dev.pages;
      EraseEntryAndSpan(a, j);
      ghost var t := Image().slots;
      ScanDrops(s1, s, t, top, i, a, dedup, hashOf);
      DropCuts(img, was, dev.cuts, old(dev.cuts), sector, s, t, top, a, Recs(s1), dedup, hashOf);
    }

    // One item of the fourth pass on an active page: it is dropped if it is not all there, and it
    // displaces an earlier item with the same hash.
    method CheckActiveItem(i: nat, ghost img: seq<FPage>, ghost s1: seq<Slot>)
      returns (span: nat, last: nat, item: Item)
      requires Scanning(i, img, s1, true) && i < ENTRY_COUNT && Image().slots[i].st.WRITTEN?
      modifies this`table, this`nextFree, this`firstUsed, this`used, hashList, dev
      ensures span >= 1 && Scanning(i + span, img, s1, true)
      ensures IsHead(s1[i]) && span == SpanAt(s1, i)
      ensures LastAt(s1, Image().slots, i + span, last) && i + span <= top
      ensures last != INVALID_ENTRY ==> last == i && item == s1[i].body.item
      ensures old(nextFree) <= nextFree && (nextFree == old(nextFree) || nextFree <= top)
      ensures OpenItem(s1, i, top) ==> nextFree >= top
      ensures forall c :: c in dev.cuts && c !in old(dev.cuts) ==> StepCut(img, c, sector, Recs(s1), true, hashOf)
      ensures Whole(old(Image().slots), i) && Alone(old(Image().slots), i, hashOf) ==>
        dev.pages == old(dev.pages) && dev.cuts == old(dev.cuts)
    {
      hide HashList.Valid, Working, Scanned, Removed, StepCut, LastAt, Whole, Indexes;
      ghost var s := Image().slots;
      var read := IndexItem(i, img, s1, true);
      item, span, last := read.value, 1, i;
      var dup := hashList.Find(0, hashOf(IdOf(item)));
      FixedIsWhole(s, i, top);
      FirstDuplicate(hashList.nodes, s, hashOf, i, dup);
      if IsVariableLengthType(item.typ) {
        span := item.span;
        var all := PayloadWritten(i, span);
        if !all {
          DropItem(i, i, i + span, img, s1, true);
          LastKnown(s1, s, Image().slots, top, i, true, hashOf);
          return span, INVALID_ENTRY, item;
        }
      }
      if dup < i {
        DropItem(dup, i, i + span, img, s1, true);
      } else {
        ScanKeeps(s1, s, top, i, true, hashOf);
      }
      LastKnown(s1, s, Image().slots, top, i, true, hashOf);
    }

    // The fourth pass on an active page: all items from entry 0 to the next free entry.
    method ScanActive(ghost img: seq<FPage>, ghost s1: seq<Slot>) returns (last: nat, item: Item)
      requires Scanning(0, img, s1, true) && state.ACTIVE? && s1 == Image().slots
      requires nextFree <= top || (nextFree == INVALID_ENTRY && top == ENTRY_COUNT)
      requires Probed(s1, top, if nextFree > ENTRY_COUNT then ENTRY_COUNT else nextFree)
      modifies this`table, this`nextFree, this`firstUsed, this`used, hashList, dev
      ensures Placed() && OnlyPage(img, dev.pages, sector) && Image().hdr == img[sector].hdr
      ensures InUse(Snapshot(), Image().slots, hashOf) && HashesApart(Image().slots, ENTRY_COUNT, hashOf)
      ensures Recs(Image().slots) == Deduped(Recs(s1), hashOf)
      ensures last != INVALID_ENTRY <==> EndsInItem(s1)
      ensures last != INVALID_ENTRY ==> last < top && IsHead(Image().slots[last])
      ensures last != INVALID_ENTRY ==>
        last + SpanAt(Image().slots, last) == top && item == Image().slots[last].body.item
      ensures forall c :: c in dev.cuts && c !in old(dev.cuts) ==> StepCut(img, c, sector, Recs(s1), true, hashOf)
      ensures Quiet(s1, top) && HashesApart(s1, ENTRY_COUNT, hashOf) ==>
        dev.pages == old(dev.pages) && dev.cuts == old(dev.cuts)
    {
      hide HashList.Valid, Working, Scanned, StepCut, LastAt, Loose, Quiet, HashesApart, EndsInItem, Recs, Probed;
      last, item := INVALID_ENTRY, Item(0, ANY, 0, 0, "", VarLength(0));
      var end := if nextFree > ENTRY_COUNT then ENTRY_COUNT else nextFree;
      var i := 0;
      NoLastYet(s1, Image().slots);
      while i < end
        invariant Scanning(i, img, s1, true) && state.ACTIVE? && i <= top && LastAt(s1, Image().slots, i, last)
        invariant last != INVALID_ENTRY ==> last < ENTRY_COUNT && IsHead(s1[last]) && item == s1[last].body.item
        invariant (nextFree == INVALID_ENTRY && top == ENTRY_COUNT) || end <= nextFree <= top
        invariant OpenBelow(s1, top, i) ==> nextFree >= top
        invariant forall c :: c in dev.cuts && c !in old(dev.cuts) ==> StepCut(img, c, sector, Recs(s1), true, hashOf)
        invariant Quiet(s1, top) && HashesApart(s1, ENTRY_COUNT, hashOf) ==>
          dev.pages == old(dev.pages) && dev.cuts == old(dev.cuts)
        decreases end - i
      {
        ScanState(s1, Image().slots, top, end, i, true, hashOf);
        if table[i].ERASED? {
          ErasedStep(s1, Image().slots, top, i, true, hashOf, Snapshot());
          last := INVALID_ENTRY;
          i := i + 1;
          continue;
        }
        var span;
        span, last, item := CheckActiveItem(i, img, s1);
        OnlyStartsAt(s1, Image().slots, top, i, i + span, true, hashOf);
        i := i + span;
      }
      ScanFinished(s1, Image().slots, end, i, last, Snapshot(), hashOf);
    }

    // One item of the scan of a page that is no longer written to.
    method CheckFullItem(i: nat, ghost img: seq<FPage>, ghost s1: seq<Slot>) returns (span: nat)
      requires Scanning(i, img, s1, false) && i < ENTRY_COUNT && Image().slots[i].st.WRITTEN?
        && nextFree == INVALID_ENTRY
      modifies this`table, this`nextFree, this`firstUsed, this`used, hashList, dev
      ensures span >= 1 && i + span <= ENTRY_COUNT && Scanning(i + span, img, s1, false) && nextFree == INVALID_ENTRY
      ensures forall c :: c in dev.cuts && c !in old(dev.cuts) ==> StepCut(img, c, sector, Recs(s1), false, hashOf)
      ensures Whole(old(Image().slots), i) ==> dev.pages == old(dev.pages) && dev.cuts == old(dev.cuts)
    {
      hide HashList.Valid, Working, Scanned, Removed, StepCut, Whole, Indexes;
      ghost var s := Image().slots;
      var read := IndexItem(i, img, s1, false);
      span := read.value.span;
      FixedIsWhole(s, i, top);
      HeadReaches(s, top, i);
      if IsVariableLengthType(read.value.typ) {
        var all := PayloadWritten(i, span);
        if !all {
          DropItem(i, i, i + span, img, s1, false);
          return;
        }
      }
      ScanKeeps(s1, s, top, i, false, hashOf);
    }

    method ScanFull(ghost img: seq<FPage>, ghost s1: seq<Slot>)
      requires Scanning(0, img, s1, false) && s1 == Image().slots && nextFree == INVALID_ENTRY
        && state == Image().hdr.st
      modifies this`table, this`nextFree, this`firstUsed, this`used, hashList, dev
      ensures Placed() && OnlyPage(img, dev.pages, sector) && Image().hdr == img[sector].hdr
      ensures InUse(Snapshot(), Image().slots, hashOf) && Recs(Image().slots) == Recs(s1)
      ensures forall c :: c in dev.cuts && c !in old(dev.cuts) ==> StepCut(img, c, sector, Recs(s1), false, hashOf)
      ensures Quiet(s1, top) ==> dev.pages == old(dev.pages) && dev.cuts == old(dev.cuts)
    {
      hide HashList.Valid, Scanned, StepCut, Loose, Quiet, Recs, Indexes;
      ghost var at := if firstUsed == INVALID_ENTRY then ENTRY_COUNT else firstUsed;
      FullScanStarts(s1, at, Snapshot(), hashOf);
      var i := firstUsed;
      hide Working, SoundAt;
      while i < ENTRY_COUNT
        invariant at == (if i == INVALID_ENTRY then ENTRY_COUNT else i) && at <= ENTRY_COUNT
        invariant Scanning(at, img, s1, false) && nextFree == INVALID_ENTRY && state == Image().hdr.st
        invariant forall c :: c in dev.cuts && c !in old(dev.cuts) ==> StepCut(img, c, sector, Recs(s1), false, hashOf)
        invariant Quiet(s1, top) ==> dev.pages == old(dev.pages) && dev.cuts == old(dev.cuts)
        decreases ENTRY_COUNT - at
      {
        if !table[i].WRITTEN? {
          FullScanOver(s1, Image().slots, top, i, hashOf, Snapshot());
          i, at := i + 1, at + 1;
          continue;
        }
        if Quiet(s1, top) {
          FullScanState(s1, Image().slots, top, i, hashOf);
        }
        var span := CheckFullItem(i, img, s1);
        i, at := i + span, at + span;
      }
      FullScanEnds(s1, Image().slots, state, Snapshot(), hashOf);
    }

    // ---------------------------------------------------------------- searching

    predicate Loaded()
      reads this
    {
      state.ACTIVE? || state.FULL? || state.FREEING?
    }

    method FindItem(q: Query, from: nat) returns (err: Error, index: nat, item: Option<Item>)
      requires Valid() && (Loaded() ==> Boundary(Image().slots, from))
      ensures !Loaded() ==> err == NOT_FOUND
      ensures Loaded() ==> Answers(err, index, item, Image().slots, FindVia(Image().slots, q, hashOf, from))
    {
      hide HashList.Valid, InUse, Loose, Boundary, FindFrom, FindVia, Judge;
      index, item := 0, None;
      ghost var s := Image().slots;
      if !Loaded() || from >= ENTRY_COUNT {
        if from >= ENTRY_COUNT {
          BeyondPage(s, q, hashOf, from);
        }
        return NOT_FOUND, index, item;
      }
      ScanTable(Snapshot(), s, hashOf);
      var start := SearchStart(q, from);
      if start >= ENTRY_COUNT {
        AtEnd(s, q, start);
        return NOT_FOUND, index, item;
      }
      var end := if nextFree > ENTRY_COUNT then ENTRY_COUNT else nextFree;
      var i := start;
      while i < end
        invariant start <= i <= ENTRY_COUNT || i == start
        invariant Boundary(s, i)
        invariant FindFrom(s, q, i) == FindVia(s, q, hashOf, from)
      {
        if !table[i].WRITTEN? {
          OverUnwritten(s, q, i);
          i := i + 1;
          continue;
        }
        AtWritten(s, top, q, i);
        var read := ReadEntry(i);
        var next := if IsVariableLengthType(read.value.typ) then i + read.value.span else i + 1;
        match Judge(read.value, q)
        case Take => return OK, i, read;
        case Mismatch => return TYPE_MISMATCH, i, read;
        case Skip => i := next;
      }
      AtEnd(s, q, i);
      err := NOT_FOUND;
    }

    // Where findItem starts to scan: at the first hash match if the hash list can help.
    method SearchStart(q: Query, from: nat) returns (start: nat)
      requires Valid() && Loaded() && Boundary(Image().slots, from) && from < ENTRY_COUNT
      ensures Boundary(Image().slots, start)
      ensures FindFrom(Image().slots, q, start) == FindVia(Image().slots, q, hashOf, from)
    {
      ghost var s := Image().slots;
      start := firstUsed;
      if from > firstUsed {
        start := from;
      }
      if UsesHash(q) {
        var cached := hashList.Find(start, hashOf(QueryId(q)));
        FoundIsFirst(hashList.nodes, s, hashOf, hashOf(QueryId(q)), from, start, cached);
        if cached < ENTRY_COUNT {
          start := cached;
          HeadIsBoundary(s, top, start);
        } else {
          start := cached;
        }
      } else {
        FindSkips(s, q, from, start);
      }
    }

    // ---------------------------------------------------------------- erasing an item by what it is

    // eraseEntryAndSpan on a page between two operations.
    method EraseItemAt(index: nat)
      requires Valid() && Loaded() && index < ENTRY_COUNT && IsHead(Image().slots[index])
      modifies this`table, this`nextFree, this`firstUsed, this`used, hashList, dev
      ensures Valid() && OnlyPage(old(dev.pages), dev.pages, sector) && Image().hdr == old(Image().hdr)
      ensures nextFree == old(nextFree) && Removed(old(Image().slots), Image().slots, top, index)
      ensures Recs(Image().slots) ==
        RecsIn(old(Image().slots), 0, index) + RecsIn(old(Image().slots), index + 1, ENTRY_COUNT)
      ensures forall c :: c in dev.cuts && c !in old(dev.cuts) ==> ItemEraseCut(old(dev.pages), c, sector, top, index)
    {
      hide HashList.Valid, Working, Removed, Quiet, ItemEraseCut, RecsIn, Recs;
      ghost var r0, s0 := Snapshot(), Image().slots;
      EraseEntryAndSpan(index, ENTRY_COUNT);
      EraseKeepsOrder(r0, s0, Snapshot(), Image().slots, hashOf, index);
    }

    method EraseItem(q: Query) returns (err: Error)
      requires Valid()
      modifies this`table, this`nextFree, this`firstUsed, this`used, hashList, dev
      ensures Valid() && OnlyPage(old(dev.pages), dev.pages, sector) && Image().hdr == old(Image().hdr)
      ensures err == OK <==> Loaded() && FindVia(old(Image().slots), q, hashOf, 0).Hit?
      ensures err != OK ==> dev.pages == old(dev.pages) && dev.cuts == old(dev.cuts) && Snapshot() == old(Snapshot())
      ensures err == OK ==>
        Removed(old(Image().slots), Image().slots, top, FindVia(old(Image().slots), q, hashOf, 0).index)
      ensures err == OK ==> Whole(old(Image().slots), FindVia(old(Image().slots), q, hashOf, 0).index)
      ensures err == OK ==> var h := FindVia(old(Image().slots), q, hashOf, 0).index;
        Recs(Image().slots) == RecsIn(old(Image().slots), 0, h) + RecsIn(old(Image().slots), h + 1, ENTRY_COUNT)
      ensures top == old(top) && nextFree == old(nextFree)
      ensures forall c :: c in dev.cuts && c !in old(dev.cuts) ==>
        err == OK && ItemEraseCut(old(dev.pages), c, sector, top, FindVia(old(Image().slots), q, hashOf, 0).index)
    {
      hide HashList.Valid, Working, Removed, Quiet, ItemEraseCut, RecsIn, Recs, FindVia;
      var index, item;
      err, index, item := FindItem(q, 0);
      if err != OK {
        return;
      }
      QuietIsWhole(Image().slots, top, index);
      EraseItemAt(index);
    }

    // ---------------------------------------------------------------- loading, continued

    // The last pass on an active page: the last item must not be a duplicate.
    method DropLastDuplicate(item: Item, last: nat)
      requires Valid() && state.ACTIVE? && AtTail(Image().slots, top, last, hashOf)
        && item == Image().slots[last].body.item
      modifies this`table, this`nextFree, this`firstUsed, this`used, hashList, dev
      ensures Valid() && OnlyPage(old(dev.pages), dev.pages, sector) && Image().hdr == old(Image().hdr)
      ensures Recs(Image().slots) == ChunkDropped(Recs(old(Image().slots)))
      ensures HashesApart(Image().slots, ENTRY_COUNT, hashOf)
      ensures forall c :: c in dev.cuts && c !in old(dev.cuts) ==>
        TailCut(old(dev.pages), c, sector)
      ensures !ChunkShadowed(Recs(old(Image().slots))) ==> dev.pages == old(dev.pages) && dev.cuts == old(dev.cuts)
    {
      hide HashList.Valid, Working, Removed, Quiet, ItemEraseCut, RecsIn, Recs, FindVia, HashesApart, TailCut,
        ChunkDropped, ChunkShadowed;
      ghost var s, q := Image().slots, TailQuery(item);
      TailDropped(s, top, last, hashOf);
      TailUnshadowed(s, top, last, hashOf);
      var err, index, found := FindItem(TailQuery(item), 0);
      if err == OK {
        if index < last {
          EraseItemAt(index);
          RemovedKeepsApart(s, Image().slots, top, index, hashOf);
          TailCuts(old(dev.pages), dev.pages, dev.cuts, old(dev.cuts), sector, top, index);
        }
      }
    }

    // The second and third pass.
    method FindNextFree(ghost img: seq<FPage>)
      requires Placed() && state.ACTIVE? && img == dev.pages
      requires Image().hdr == Header(ACTIVE, seqNo) && Loose(Image().slots, top)
      requires Working(Snapshot(), Image().slots, hashOf, 0) && nextFree == INVALID_ENTRY
      modifies this`table, this`nextFree, this`used, dev
      ensures Placed() && Scanning(0, img, Image().slots, true)
      ensures nextFree <= top || (nextFree == INVALID_ENTRY && top == ENTRY_COUNT)
      ensures Probed(Image().slots, top, if nextFree > ENTRY_COUNT then ENTRY_COUNT else nextFree)
      ensures Recs(Image().slots) == Recs(img[sector].slots)
        && (EndsInItem(Image().slots) <==> EndsInItem(img[sector].slots))
      ensures forall c :: c in dev.cuts && c !in old(dev.cuts) ==>
        StepCut(img, c, sector, Recs(img[sector].slots), true, hashOf)
      ensures Quiet(img[sector].slots, top) ==> dev.pages == img && dev.cuts == old(dev.cuts)
    {
      hide HashList.Valid, StageOf, StepCut, Recs, Probing, Probed, Scanned, Indexes, EndsInItem;
      FindFirstEmpty();
      ghost var s0 := Image().slots;
      ghost var e := if nextFree == INVALID_ENTRY then ENTRY_COUNT else nextFree;
      ProbeStarts(s0, top, e);
      HeadsBeforeEmpty(s0, top, e);
      Probe(e);
      ScanStarts(Image().slots, top, true, hashOf);
    }

    method LoadActive(ghost img: seq<FPage>)
      requires Placed() && state.ACTIVE? && img == dev.pages
      requires Image().hdr == Header(ACTIVE, seqNo) && Loose(Image().slots, top)
      requires Working(Snapshot(), Image().slots, hashOf, 0) && nextFree == INVALID_ENTRY
      modifies this`table, this`nextFree, this`firstUsed, this`used, hashList, dev
      ensures Valid() && OnlyPage(img, dev.pages, sector) && Image().hdr == img[sector].hdr
      ensures Recs(Image().slots) == LoadedRecs(Recs(img[sector].slots), EndsInItem(img[sector].slots), hashOf)
      ensures HashesApart(Image().slots, ENTRY_COUNT, hashOf)
      ensures forall c :: c in dev.cuts && c !in old(dev.cuts) ==> LoadCut(img, c, sector, hashOf)
      ensures Clean(img[sector], hashOf) ==> dev.pages == img && dev.cuts == old(dev.cuts)
    {
      hide HashList.Valid, StageOf, StepCut, TailCut, LoadCut, Recs, Probed, Scanned, Working, Indexes, EndsInItem,
        Clean, Loose, Quiet, HashesApart, ChunkDropped, ChunkShadowed, Deduped, SoundAt;
      CleanMeans(img[sector], top, hashOf);
      FindNextFree(img);
      ghost var s1, cuts1 := Image().slots, dev.cuts;
      var last, item := ScanActive(img, s1);
      ghost var mid, cuts2 := dev.pages, dev.cuts;
      if last != INVALID_ENTRY {
        DropLastDuplicate(item, last);
      }
      LoadCuts(img, mid, dev.cuts, cuts2, old(dev.cuts), sector, hashOf);
    }

    method ReadTable()
      requires Placed()
      modifies this`table
      ensures Synced(table, Image().slots)
    {
      hide HashList.Valid;
      var slots := dev.pages[sector].slots;
      table := seq(|slots|, k requires 0 <= k < |slots| => slots[k].st);
    }

    // mLoadEntryTable.
    method LoadEntryTable()
      requires Untouched() && Placed() && Loadable(Image()) && Image().hdr == Header(state, seqNo)
      modifies this`table, this`nextFree, this`firstUsed, this`used, this`top, hashList, dev
      ensures Valid() && OnlyPage(old(dev.pages), dev.pages, sector) && Image().hdr == old(Image().hdr)
      ensures Recs(Image().slots) == LoadedRecsOf(old(Image()), hashOf)
      ensures state.ACTIVE? ==> HashesApart(Image().slots, ENTRY_COUNT, hashOf)
      ensures forall c :: c in dev.cuts && c !in old(dev.cuts) ==> LoadCut(old(dev.pages), c, sector, hashOf)
      ensures Clean(old(Image()), hashOf) ==> dev.pages == old(dev.pages) && dev.cuts == old(dev.cuts)
    {
      hide HashList.Valid, StageOf, Recs, Loose, Quiet, Working, Indexes, EndsInItem, Clean, LoadCut, Deduped, Scanned,
        HashesApart, StepCut, TailCut;
      ghost var nf: nat :| SoundAt(state, Image().slots, nf);
      top := nf;
      ReadTable();
      CountStates();
      FreshlyCounted(Snapshot(), Image().slots, hashOf);
      if state.ACTIVE? {
        LoadActive(dev.pages);
      } else {
        CleanMeans(Image(), top, hashOf);
        ScanStarts(Image().slots, top, false, hashOf);
        ScanFull(dev.pages, Image().slots);
        LoadCuts(old(dev.pages), dev.pages, dev.cuts, dev.cuts, old(dev.cuts), sector, hashOf);
      }
    }

    // Whether every entry still reads as erased flash.
    method IsBlank() returns (blank: bool)
      requires Placed()
      ensures blank <==> Image().slots == BlankPage()
    {
      hide HashList.Valid;
      var i := 0;
      while i < ENTRY_COUNT
        invariant i <= ENTRY_COUNT
        invariant forall k :: 0 <= k < i ==> Image().slots[k] == BLANK_SLOT
      {
        if dev.pages[sector].slots[i] != BLANK_SLOT {
          return false;
        }
        i := i + 1;
      }
      blank := true;
    }

    // Brings a page object that nothing has happened to yet in line with what is on flash.
    method Load()
      requires Untouched() && state.INVALID? && top == 0 && Placed() && Loadable(Image())
      modifies this, hashList, dev
      ensures Valid() && OnlyPage(old(dev.pages), dev.pages, sector) && Image().hdr == old(Image().hdr)
      ensures !Image().hdr.Header? ==> dev.pages == old(dev.pages) && dev.cuts == old(dev.cuts)
      ensures !Image().hdr.Header? ==> state == if Image() == ErasedPage() then UNINITIALIZED else CORRUPT
      ensures Image().hdr.Header? ==>
        state == Image().hdr.st && Recs(Image().slots) == LoadedRecsOf(old(Image()), hashOf)
      ensures state.ACTIVE? ==> HashesApart(Image().slots, ENTRY_COUNT, hashOf)
      ensures forall c :: c in dev.cuts && c !in old(dev.cuts) ==> LoadCut(old(dev.pages), c, sector, hashOf)
      ensures Clean(old(Image()), hashOf) ==> dev.pages == old(dev.pages) && dev.cuts == old(dev.cuts)
    {
      hide HashList.Valid, InUse, Recs, LoadCut, Clean, HashesApart, LoadedRecs;
      used := 0;
      match dev.pages[sector].hdr
      case NoHeader =>
        var blank := IsBlank();
        state := if blank then UNINITIALIZED else CORRUPT;
      case BadHeader =>
        state := CORRUPT;
      case Header(st, n) =>
        state, seqNo := st, n;
        LoadEntryTable();
    }

    // ---------------------------------------------------------------- reading and comparing values

    // readVariableLengthItemData.
    method ReadVariable(item: Item, index: nat) returns (data: seq<byte>)
      requires Placed() && index < ENTRY_COUNT && Whole(Image().slots, index) && item == Image().slots[index].body.item
      requires IsVariableLengthType(item.typ) && WholeRec(RecAt(Image().slots, index))
      ensures data == DataOf(RecAt(Image().slots, index))
    {
      hide HashList.Valid, BytesOf;
      ghost var p := RecAt(Image().slots, index).payload;
      data := [];
      var left := item.val.dataSize;
      var i := index + 1;
      while i < index + item.span
        invariant index < i <= index + item.span
        invariant left == LeftAfter(item.val.dataSize, i - index - 1)
        invariant |data| == item.val.dataSize - left && data == BytesOf(p)[..|data|]
      {
        var body := ReadRaw(i);
        BytesAt(p, i - index - 1);
        var willCopy := if left < ENTRY_SIZE then left else ENTRY_SIZE;
        NextBytes(BytesOf(p), item.val.dataSize, i - index - 1, body.bytes, willCopy);
        data := data + body.bytes[..willCopy];
        left := left - willCopy;
        i := i + 1;
      }
    }

    // readItem, for a buffer of `size` bytes.
    method ReadItem(q: Query, size: nat) returns (err: Error, data: seq<byte>)
      requires Valid() && !q.typ.ANY? && !q.typ.BLOB_IDX?
      ensures Loaded() ==> ReadAnswers(err, data, Image().slots, FindVia(Image().slots, q, hashOf, 0), q.typ, size)
      ensures !Loaded() ==> err == NOT_FOUND
    {
      hide HashList.Valid, Working, Quiet, FindVia;
      data := [];
      var index, item;
      err, index, item := FindItem(q, 0);
      if err != OK {
        return;
      }
      QuietIsWhole(Image().slots, top, index);
      FoundType(Image().slots, top, q, hashOf);
      if !IsVariableLengthType(q.typ) {
        if size != AlignmentForType(q.typ) {
          return TYPE_MISMATCH, [];
        }
        return OK, item.value.val.bytes[..size];
      }
      if size < item.value.val.dataSize {
        return INVALID_LENGTH, [];
      }
      data := ReadVariable(item.value, index);
    }

    // cmpItem: whether the item that is found holds `data`.
    method CmpItem(q: Query, data: seq<byte>) returns (err: Error)
      requires Valid() && !q.typ.ANY? && !q.typ.BLOB_IDX?
      ensures Loaded() ==> CmpAnswers(err, data, Image().slots, FindVia(Image().slots, q, hashOf, 0), q.typ)
      ensures !Loaded() ==> err == NOT_FOUND
    {
      hide HashList.Valid, Working, Quiet, FindVia;
      var index, item;
      err, index, item := FindItem(q, 0);
      if err != OK {
        return;
      }
      QuietIsWhole(Image().slots, top, index);
      FoundType(Image().slots, top, q, hashOf);
      if !IsVariableLengthType(q.typ) {
        if |data| != AlignmentForType(q.typ) {
          return TYPE_MISMATCH;
        }
        return if item.value.val.bytes[..|data|] != data then CONTENT_DIFFERS else OK;
      }
      if |data| < item.value.val.dataSize {
        return INVALID_LENGTH;
      }
      var same := SameData(item.value, index, data);
      err := if same then OK else CONTENT_DIFFERS;
    }

    // The comparing loop of cmpItem.
    method SameData(item: Item, index: nat, data: seq<byte>) returns (same: bool)
      requires Placed() && index < ENTRY_COUNT && Whole(Image().slots, index) && item == Image().slots[index].body.item
      requires IsVariableLengthType(item.typ) && WholeRec(RecAt(Image().slots, index)) && |data| >= item.val.dataSize
      ensures same <==> data[..item.val.dataSize] == DataOf(RecAt(Image().slots, index))
    {
      hide HashList.Valid, BytesOf;
      ghost var p := RecAt(Image().slots, index).payload;
      var left := item.val.dataSize;
      var i := index + 1;
      while i < index + item.span
        invariant index < i <= index + item.span
        invariant left == LeftAfter(item.val.dataSize, i - index - 1) <= item.val.dataSize
        invariant data[..item.val.dataSize - left] == BytesOf(p)[..item.val.dataSize - left]
      {
        var body := ReadRaw(i);
        BytesAt(p, i - index - 1);
        var willCopy := if left < ENTRY_SIZE then left else ENTRY_SIZE;
        var dst := item.val.dataSize - left;
        NextSame(data, BytesOf(p), item.val.dataSize, i - index - 1, body.bytes, willCopy);
        if data[dst..dst + willCopy] != body.bytes[..willCopy] {
          return false;
        }
        left := left - willCopy;
        i := i + 1;
      }
      same := true;
    }

    // ---------------------------------------------------------------- page states

    // The page with another state, on flash and in RAM; everything else stays.
    method AlterPageState(st: PageState)
      requires Valid() && (state.ACTIVE? || state.FULL?) && LiveState(st) && Rank(st) < Rank(state)
      modifies this`state, dev
      ensures Valid() && Snapshot() == old(Snapshot()).(state := st)
      ensures dev.pages == old(dev.pages)[sector := FPage(Header(st, seqNo), old(Image().slots))]
      ensures dev.cuts == old(dev.cuts) + iset{dev.pages}
    {
      hide HashList.Valid, Working, Quiet;
      InUseInState(Snapshot(), Image().slots, hashOf, st);
      dev.WritePageState(sector, st);
      state := st;
    }

    method MarkFreeing() returns (err: Error)
      requires Valid()
      modifies this`state, dev
      ensures Valid() && err == if old(state).FULL? || old(state).ACTIVE? then OK else INVALID_STATE
      ensures err == OK ==> Snapshot() == old(Snapshot()).(state := FREEING)
      ensures err == OK ==> dev.pages == old(dev.pages)[sector := FPage(Header(FREEING, seqNo), old(Image().slots))]
      ensures err == OK ==> dev.cuts == old(dev.cuts) + iset{dev.pages}
      ensures err != OK ==> Snapshot() == old(Snapshot()) && dev.pages == old(dev.pages) && dev.cuts == old(dev.cuts)
    {
      hide HashList.Valid, Working, Quiet;
      if !state.FULL? && !state.ACTIVE? {
        return INVALID_STATE;
      }
      AlterPageState(FREEING);
      err := OK;
    }

    method MarkFull() returns (err: Error)
      requires Valid()
      modifies this`state, dev
      ensures Valid() && err == if old(state).ACTIVE? then OK else INVALID_STATE
      ensures err == OK ==> Snapshot() == old(Snapshot()).(state := FULL)
      ensures err == OK ==> dev.pages == old(dev.pages)[sector := FPage(Header(FULL, seqNo), old(Image().slots))]
      ensures err == OK ==> dev.cuts == old(dev.cuts) + iset{dev.pages}
      ensures err != OK ==> Snapshot() == old(Snapshot()) && dev.pages == old(dev.pages) && dev.cuts == old(dev.cuts)
    {
      hide HashList.Valid, Working, Quiet;
      if !state.ACTIVE? {
        return INVALID_STATE;
      }
      AlterPageState(FULL);
      err := OK;
    }

    // Erases the sector: the page is fresh again.
    method Erase()
      requires Placed()
      modifies this`state, this`nextFree, this`firstUsed, this`used, this`top, hashList, dev
      ensures Valid() && state.UNINITIALIZED? && seqNo == old(seqNo)
      ensures dev.pages == old(dev.pages)[sector := ErasedPage()]
      ensures dev.cuts == old(dev.cuts) + iset{dev.pages}
    {
      dev.EraseSector(sector);
      used, firstUsed, nextFree, top := 0, INVALID_ENTRY, INVALID_ENTRY, 0;
      state := UNINITIALIZED;
      hashList.Clear();
    }

    method SetSeqNumber(n: nat) returns (err: Error)
      requires Valid()
      modifies this`seqNo
      ensures Valid() && err == if state.UNINITIALIZED? then OK else INVALID_STATE
      ensures Snapshot() == if err == OK then old(Snapshot()).(seqNo := n) else old(Snapshot())
    {
      hide HashList.Valid, Working, Quiet;
      if !state.UNINITIALIZED? {
        return INVALID_STATE;
      }
      seqNo := n;
      err := OK;
    }

    // Room for the data of one more item of variable length, not counting its header.
    function VarDataTailroom(): (n: nat)
      reads this, hashList
      ensures n == Tailroom(Snapshot())
    {
      if state.UNINITIALIZED? then CHUNK_MAX_SIZE
      else if state.FULL? then 0
      else if nextFree < ENTRY_COUNT - 1 then (ENTRY_COUNT - nextFree - 1) * ENTRY_SIZE else 0
    }
  }
}
