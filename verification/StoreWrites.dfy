// Adding a record to the store: what the current page, the lists and the images on flash look like
// before, while and after it is written.
module StoreWrites {
  import opened NvsTypes
  import opened PageImage
  import opened PageRam
  import opened PageTwins
  import opened PageScan
  import opened PageValues
  import opened FlashDevice
  import opened PageCuts
  import opened StoreImage
  import opened Recovery
  import opened PageLists
  import opened StoreSearch

  // ---------------------------------------------------------------- images with one record more

  // The record n has just been written, as the last of the active page p.
  ghost predicate Appended(c: seq<FPage>, live: multiset<Rec>, n: Rec, p: nat) {
    && Sound(c) && NoneFreeing(c) && Spare(c) && p < |c| && InState(c[p], ACTIVE)
    && RecsOf(c[p]) != [] && RecsOf(c[p])[|RecsOf(c[p])| - 1] == n
    && Live(c) == live + multiset{n}
  }

  // What a power cut leaves of adding n: n or not, and surely not if it was not added.
  ghost predicate AppendCut(c: seq<FPage>, live: multiset<Rec>, n: Rec, ok: bool) {
    if ok then Appending(c, live, n) else Recoverable(c, live)
  }

  // Nothing of n counts yet, or all of it.
  ghost predicate Appending(c: seq<FPage>, live: multiset<Rec>, n: Rec) {
    Recoverable(c, live) || exists p :: 0 <= p < |c| && Appended(c, live, n, p)
  }

  // The records once n has taken the place of the record it supersedes, if there is one.
  ghost function Updated(live: multiset<Rec>, o: Option<Rec>, n: Rec): multiset<Rec> {
    match o
    case None => live + multiset{n}
    case Some(r) => live - multiset{r} + multiset{n}
  }

  // While n is being added, a power cut leaves the old records or the new ones.
  lemma AppendingIsRecoverable(c: seq<FPage>, live: multiset<Rec>, n: Rec, o: Option<Rec>)
    requires Appending(c, live, n)
    requires o.Some? ==> o.value in live && o.value != n && Twins(n, o.value)
    ensures Recoverable(c, live) || Recoverable(c, Updated(live, o, n))
  {
    hide RecsOf, Sound, Spare, NoneFreeing, Live;
    if !Recoverable(c, live) {
      var p :| 0 <= p < |c| && Appended(c, live, n, p);
      match o
      case None =>
        assert Stable(c, live + multiset{n});
      case Some(r) =>
        var q := PageOf(c, r);
        AppendedIsDoubled(c, live, n, p, q, r);
    }
  }

  lemma AppendedIsDoubled(c: seq<FPage>, live: multiset<Rec>, n: Rec, p: nat, q: nat, o: Rec)
    requires Appended(c, live, n, p) && o in live && o != n && Twins(n, o) && q < |c| && o in RecsOf(c[q])
    ensures Doubled(c, live - multiset{o} + multiset{n}, p, q, o)
  {
    hide RecsOf, Sound, Spare, NoneFreeing, Live;
    var recs := RecsOf(c[p]);
    if p == q {
      var k :| 0 <= k < |recs| && recs[k] == o;
      assert recs[..|recs| - 1][k] == o;
    }
    assert live - multiset{o} + multiset{n} + multiset{o} == live + multiset{n};
  }

  // ---------------------------------------------------------------- writing to the current page

  lemma PutKeepsChunks(img: seq<FPage>, c: seq<FPage>, p: nat, n: Rec)
    requires ChunksApart(img) && OnlyPage(img, c, p) && NoPairWith(RecsOf(img[p]), n)
    requires RecsOf(c[p]) == RecsOf(img[p]) || RecsOf(c[p]) == RecsOf(img[p]) + [n] || RecsOf(c[p]) == []
    ensures ChunksApart(c)
  {
    hide RecsOf;
    assert NoChunkPairs(RecsOf(img[p]));
    assert NoChunkPairs(RecsOf(c[p])) by {
      var r := RecsOf(c[p]);
      assert forall i :: 0 <= i < |RecsOf(img[p])| && r != [] ==> r[i] == RecsOf(img[p])[i];
    }
  }

  // Headers after a page has been put to use, or not.
  lemma PutOrdered(rams: seq<Ram>, img: seq<FPage>, list: seq<nat>, free: seq<nat>, next: nat, hashOf: Id -> nat,
                   c: seq<FPage>, p: nat)
    requires InOrder(rams, img, list, free, next, hashOf) && p == list[|list| - 1] && p < |img| && !rams[p].state.FULL?
    requires OnlyPage(img, c, p) && Loadable(c[p])
    requires !c[p].hdr.Header? || c[p].hdr == Header(ACTIVE, rams[p].seqNo)
    ensures Sound(c) && NoneFreeing(c) && Spare(c)
  {
    hide RamOk, Loadable, RecsOf;
    HeadersAre(rams, img, hashOf);
    assert free[0] != p && !img[free[0]].hdr.Header? && c[free[0]] == img[free[0]];
    forall q: nat | q < |img| && q != p && c[q].hdr.Header?
      ensures c[q].hdr == img[q].hdr && c[q].hdr.seqNo < rams[p].seqNo && c[q].hdr.st.FULL?
    {
      var k := Place(rams, list, free, q);
      assert k < |list| - 1;
    }
    ListedOrdered(rams, img, list, free);
    assert list[0] != free[0];
  }

  lemma PutCutIs(rams: seq<Ram>, img: seq<FPage>, list: seq<nat>, free: seq<nat>, next: nat, hashOf: Id -> nat,
                 c: seq<FPage>, p: nat, n: Rec)
    requires InOrder(rams, img, list, free, next, hashOf) && p == list[|list| - 1] && p < |img| && !rams[p].state.FULL?
    requires PutCut(img, c, p, rams[p].seqNo, n)
    ensures Appending(c, Live(img), n) && (NoPairWith(RecsOf(img[p]), n) && ChunksApart(img) ==> ChunksApart(c))
    ensures NothingPut(img, c, p) ==> Recoverable(c, Live(img))
  {
    hide RamOk, Recs, Sound, Spare, NoneFreeing, Live, Rest, Loose, ChunksApart, NoPairWith;
    HeadersAre(rams, img, hashOf);
    CurrentPage(rams, img, hashOf, p);
    PutIsLoadable(img, c, p, rams[p].seqNo, n);
    PutOrdered(rams, img, list, free, next, hashOf, c, p);
    LiveChange(img, c, p);
    if NoPairWith(RecsOf(img[p]), n) && ChunksApart(img) {
      PutKeepsChunks(img, c, p, n);
    }
    if RecsOf(c[p]) == RecsOf(img[p]) {
      assert Stable(c, Live(img));
    } else {
      assert multiset(RecsOf(img[p]) + [n]) == multiset(RecsOf(img[p])) + multiset{n};
      assert Appended(c, Live(img), n, p);
    }
  }

  // The current page is in use, or fresh.
  lemma CurrentPage(rams: seq<Ram>, img: seq<FPage>, hashOf: Id -> nat, p: nat)
    requires RamsOk(rams, img, hashOf) && p < |img|
    ensures rams[p].state.UNINITIALIZED? ==> img[p] == ErasedPage() && RecsOf(img[p]) == [] && Recs(img[p].slots) == []
    ensures LiveState(rams[p].state) ==> RecsOf(img[p]) == Recs(img[p].slots)
  {
    if rams[p].state.UNINITIALIZED? {
      BlankIsQuiet();
    }
  }

  lemma PutIsLoadable(img: seq<FPage>, c: seq<FPage>, p: nat, seqNo: nat, n: Rec)
    requires PutCut(img, c, p, seqNo, n) && (img[p].hdr.NoHeader? || img[p].hdr == Header(ACTIVE, seqNo))
    ensures Loadable(c[p]) && (!c[p].hdr.Header? || c[p].hdr == Header(ACTIVE, seqNo))
    ensures RecsOf(c[p]) == [] || RecsOf(c[p]) == Recs(c[p].slots)
    ensures !c[p].hdr.Header? ==> img[p].hdr.NoHeader?
  {
    if c[p].hdr.Header? {
      var nf: nat :| Loose(c[p].slots, nf);
      assert SoundAt(ACTIVE, c[p].slots, nf);
    }
  }

  // The current page has been written to or marked full: the order is the same.
  lemma WroteInOrder(rams: seq<Ram>, img: seq<FPage>, list: seq<nat>, free: seq<nat>, next: nat, hashOf: Id -> nat,
                     rams': seq<Ram>, img': seq<FPage>)
    requires InOrder(rams, img, list, free, next, hashOf) && RamsOk(rams', img', hashOf)
    requires OnlyAt(rams, rams', list[|list| - 1]) && rams'[list[|list| - 1]].seqNo == rams[list[|list| - 1]].seqNo
    requires rams'[list[|list| - 1]].state.FULL? || rams'[list[|list| - 1]].state.ACTIVE?
    ensures InOrder(rams', img', list, free, next, hashOf)
  {
    hide RamOk;
  }

  // An item of some page has been erased.
  lemma ErasedInOrder(rams: seq<Ram>, img: seq<FPage>, list: seq<nat>, free: seq<nat>, next: nat, hashOf: Id -> nat,
                      rams': seq<Ram>, img': seq<FPage>, x: nat)
    requires InOrder(rams, img, list, free, next, hashOf) && RamsOk(rams', img', hashOf)
    requires OnlyAt(rams, rams', x) && SameFace(rams[x], rams'[x])
    ensures InOrder(rams', img', list, free, next, hashOf)
  {
    hide RamOk;
  }

  // What a write to the current page does to the records.
  lemma WroteRecords(img: seq<FPage>, c: seq<FPage>, p: nat, more: seq<Rec>)
    requires OnlyPage(img, c, p) && RecsOf(c[p]) == RecsOf(img[p]) + more
    ensures Live(c) == Live(img) + multiset(more)
  {
    hide RecsOf;
    LiveChange(img, c, p);
  }

  lemma CurrentIs(rams: seq<Ram>, img: seq<FPage>, list: seq<nat>, free: seq<nat>, next: nat, hashOf: Id -> nat)
    requires InOrder(rams, img, list, free, next, hashOf)
    ensures list != [] && free != []
    ensures var p := list[|list| - 1];
      p < |rams| == |img| && (rams[p].state.UNINITIALIZED? || rams[p].state.ACTIVE? || rams[p].state.FULL?)
    ensures RecsOf(img[list[|list| - 1]]) == Recs(img[list[|list| - 1]].slots)
  {
    hide RamOk, Recs;
    CurrentPage(rams, img, hashOf, list[|list| - 1]);
  }

  lemma WroteCuts(rams: seq<Ram>, img: seq<FPage>, list: seq<nat>, free: seq<nat>, next: nat, hashOf: Id -> nat,
                  img': seq<FPage>, cuts: iset<seq<FPage>>, cuts0: iset<seq<FPage>>, p: nat, n: Rec, ok: bool,
                  apart: bool)
    requires InOrder(rams, img, list, free, next, hashOf) && p == list[|list| - 1] && p < |img| == |rams|
    requires apart ==> NoPairWith(RecsOf(img[p]), n)
    requires OnlyPage(img, img', p) && RecsOf(img'[p]) == RecsOf(img[p]) + if ok then [n] else []
    requires if rams[p].state.FULL? then img' == img && cuts == cuts0
      else forall c :: c in cuts && c !in cuts0 ==> PutCut(img, c, p, rams[p].seqNo, n) && (ok || NothingPut(img, c, p))
    ensures forall c :: c in cuts && c !in cuts0 ==>
      AppendCut(c, Live(img), n, ok) && (apart && ChunksApart(img) ==> ChunksApart(c))
    ensures apart && ChunksApart(img) ==> ChunksApart(img')
  {
    hide InOrder, RecsOf, PutCut, NothingPut, Appending, Recoverable, ChunksApart, NoPairWith;
    if !rams[p].state.FULL? {
      forall c: seq<FPage> | c in cuts && c !in cuts0
        ensures AppendCut(c, Live(img), n, ok) && (apart && ChunksApart(img) ==> ChunksApart(c))
      {
        PutCutIs(rams, img, list, free, next, hashOf, c, p, n);
      }
      if apart && ChunksApart(img) {
        PutKeepsChunks(img, img', p, n);
      }
    }
  }

  // ---------------------------------------------------------------- making room

  // The current page counts as full now; nothing else is different.
  ghost predicate MarkedFull(rams: seq<Ram>, img: seq<FPage>, p: nat, rams': seq<Ram>, img': seq<FPage>) {
    && p < |rams| == |img| && rams' == rams[p := rams[p].(state := FULL)]
    && img' == img[p := FPage(Header(FULL, rams[p].seqNo), img[p].slots)]
  }

  lemma AlreadyFull(rams: seq<Ram>, img: seq<FPage>, hashOf: Id -> nat, p: nat)
    requires RamsOk(rams, img, hashOf) && p < |rams| && rams[p].state.FULL?
    ensures MarkedFull(rams, img, p, rams, img)
  {
  }

  lemma MarkedFullKeeps(rams: seq<Ram>, img: seq<FPage>, list: seq<nat>, free: seq<nat>, next: nat, hashOf: Id -> nat,
                        rams': seq<Ram>, img': seq<FPage>)
    requires InOrder(rams, img, list, free, next, hashOf) && RamsOk(rams', img', hashOf)
    requires MarkedFull(rams, img, list[|list| - 1], rams', img') && LiveState(rams[list[|list| - 1]].state)
    ensures InOrder(rams', img', list, free, next, hashOf) && Live(img') == Live(img)
      && (ChunksApart(img) ==> ChunksApart(img'))
    ensures Safe(img, img', Live(img))
  {
    hide RamOk, Recs, NoChunkPairs, Live;
    var p := list[|list| - 1];
    HeadersAre(rams, img, hashOf);
    WroteInOrder(rams, img, list, free, next, hashOf, rams', img');
    LiveChange(img, img', p);
    InOrderIsStable(rams', img', list, free, next, hashOf);
    StableIsSafe(img, img', Live(img));
  }

  lemma IsMarkedFull(rams: seq<Ram>, img: seq<FPage>, p: nat, rams': seq<Ram>, img': seq<FPage>)
    requires p < |rams| == |img| && rams' == rams[p := rams[p].(state := FULL)]
    requires img' == img[p := FPage(Header(FULL, rams[p].seqNo), img[p].slots)]
    ensures MarkedFull(rams, img, p, rams', img')
  {
  }

  lemma MarkedIsFull(rams: seq<Ram>, img: seq<FPage>, p: nat, rams': seq<Ram>, img': seq<FPage>)
    requires MarkedFull(rams, img, p, rams', img')
    ensures |rams'| == |rams| && |img'| == |img| && rams'[p].state.FULL?
  {
  }

  lemma RoomCutsSafe(img0: seq<FPage>, img: seq<FPage>, cuts: iset<seq<FPage>>, mid: iset<seq<FPage>>,
                     cuts0: iset<seq<FPage>>)
    requires Live(img) == Live(img0) && (ChunksApart(img0) ==> ChunksApart(img)) && Safe(img0, img, Live(img0))
    requires forall c :: c in mid && c !in cuts0 ==> c == img
    requires forall c :: c in cuts && c !in mid ==> Safe(img, c, Live(img))
    ensures forall c :: c in cuts && c !in cuts0 ==> Safe(img0, c, Live(img0))
  {
    hide Live, Recoverable, ChunksApart;
  }

  // ---------------------------------------------------------------- when there is room

  // What the checks of writeItem before the one for space let through: keys of up to 15 characters, and
  // values of up to 4000 bytes, or of 8 if their length is fixed.
  predicate SizeOk(typ: ItemType, key: string, v: Input) {
    |key| <= 15 && InputSize(v) <= 4000 && (IsVariableLengthType(typ) || InputSize(v) <= 8)
  }

  // A value of variable length is too long exactly if it does not fit on an empty page.
  lemma TooLongForAPage(typ: ItemType, key: string, data: seq<byte>)
    requires IsVariableLengthType(typ) && |key| <= 15
    ensures SizeOk(typ, key, Variable(data)) <==> SpanFor(typ, Variable(data)) <= 126
  {
  }

  // What they answer.
  function SizeError(key: string, v: Input): Error {
    if |key| > 15 then KEY_TOO_LONG else if InputSize(v) > 4000 then VALUE_TOO_LONG else INVALID_ARG
  }

  // Two free pages, or a listed page of which m entries are not in use.
  ghost predicate Room(rams: seq<Ram>, list: seq<nat>, free: seq<nat>, m: nat) {
    && (forall k :: 0 <= k < |list| ==> list[k] < |rams|)
    && (|free| >= 2 || exists k :: 0 <= k < |list| && rams[list[k]].used + m <= ENTRY_COUNT)
  }

  // What a write answers that is not skipped. On a page that is full already the size is not looked at
  // before there is another page.
  ghost predicate WriteAnswer(err: Error, rams: seq<Ram>, list: seq<nat>, free: seq<nat>, typ: ItemType, key: string,
                              v: Input) {
    if SizeOk(typ, key, v) then err == if Room(rams, list, free, SpanFor(typ, v)) then OK else NOT_ENOUGH_SPACE
    else err == if FullUp(rams, list, free) then NOT_ENOUGH_SPACE else SizeError(key, v)
  }

  ghost predicate FullUp(rams: seq<Ram>, list: seq<nat>, free: seq<nat>) {
    list != [] && list[|list| - 1] < |rams| && rams[list[|list| - 1]].state.FULL? && !Room(rams, list, free, 1)
  }

  lemma AnswerFits(rams: seq<Ram>, list: seq<nat>, free: seq<nat>, typ: ItemType, key: string, v: Input)
    requires WriteAnswer(OK, rams, list, free, typ, key, v)
    ensures |key| <= MAX_KEY_LENGTH && SizeOk(typ, key, v)
  {
  }

  lemma SpanBounds(typ: ItemType, key: string, v: Input)
    requires SizeOk(typ, key, v)
    ensures 1 <= SpanFor(typ, v) <= ENTRY_COUNT
  {
  }

  // Entries in use lie below the next free one.
  lemma UsedBelow(rams: seq<Ram>, img: seq<FPage>, hashOf: Id -> nat, p: nat)
    requires RamsOk(rams, img, hashOf) && p < |rams|
    ensures rams[p].state.UNINITIALIZED? ==> rams[p].used == 0
    ensures rams[p].state.ACTIVE? ==> rams[p].used <= rams[p].nextFree
  {
    if rams[p].state.ACTIVE? {
      var s, top := img[p].slots, rams[p].top;
      CountSplit(s, 0, top, |s|);
      CountAll(s, top, |s|, false);
      CountBelow(s, top);
    }
  }

  lemma {:induction false} CountBelow(s: seq<Slot>, n: nat)
    requires n <= |s|
    ensures CountIn(s, 0, n) <= n
  {
    if n > 0 {
      CountBelow(s, n - 1);
    }
  }

  // A write that succeeds on the current page had room.
  lemma FitsIsRoom(rams: seq<Ram>, img: seq<FPage>, list: seq<nat>, free: seq<nat>, next: nat, hashOf: Id -> nat,
                   typ: ItemType, key: string, v: Input)
    requires InOrder(rams, img, list, free, next, hashOf)
    requires WriteVerdict(rams[list[|list| - 1]].state, rams[list[|list| - 1]].nextFree, typ, key, v) == OK
    ensures SizeOk(typ, key, v) && Room(rams, list, free, SpanFor(typ, v))
  {
    hide RamOk;
    var p := list[|list| - 1];
    UsedBelow(rams, img, hashOf, p);
    SpanBounds(typ, key, v);
    assert rams[list[|list| - 1]].used + SpanFor(typ, v) <= ENTRY_COUNT;
  }

  // When no new page can be had there is no room.
  lemma NoPageNoRoom(rams: seq<Ram>, list: seq<nat>, free: seq<nat>, m: nat)
    requires m >= 1 && |free| < 2 && (forall k :: 0 <= k < |list| ==> list[k] < |rams|)
    requires forall k :: 0 <= k < |list| ==> rams[list[k]].used >= ENTRY_COUNT
    ensures !Room(rams, list, free, m)
  {
  }

  lemma RoomForOne(rams: seq<Ram>, list: seq<nat>, free: seq<nat>)
    requires forall k :: 0 <= k < |list| ==> list[k] < |rams|
    ensures Room(rams, list, free, 1) <==>
      |free| >= 2 || exists k :: 0 <= k < |list| && rams[list[k]].used < ENTRY_COUNT
  {
    if exists k :: 0 <= k < |list| && rams[list[k]].used < ENTRY_COUNT {
      var k :| 0 <= k < |list| && rams[list[k]].used < ENTRY_COUNT;
      assert rams[list[k]].used + 1 <= ENTRY_COUNT;
    }
  }

  // What a write answers for which another page was asked for.
  ghost predicate NewPageAnswer(err: Error, rams: seq<Ram>, list: seq<nat>, free: seq<nat>, typ: ItemType, key: string,
                                v: Input) {
    if SizeOk(typ, key, v) then err == if Room(rams, list, free, SpanFor(typ, v)) then OK else NOT_ENOUGH_SPACE
    else err == if Room(rams, list, free, 1) then SizeError(key, v) else NOT_ENOUGH_SPACE
  }

  lemma NewPageAnswers(rams0: seq<Ram>, img0: seq<FPage>, list: seq<nat>, free: seq<nat>, p: nat, rams: seq<Ram>,
                       img: seq<FPage>, typ: ItemType, key: string, v: Input, made: bool, err: Error)
    requires MarkedFull(rams0, img0, p, rams, img) && forall k :: 0 <= k < |list| ==> list[k] < |rams|
    requires made <==> |free| >= 2 || exists k :: 0 <= k < |list| && rams[list[k]].used < ENTRY_COUNT
    requires made && SizeOk(typ, key, v) ==>
      err == if Room(rams, list, free, SpanFor(typ, v)) then OK else NOT_ENOUGH_SPACE
    requires made && !SizeOk(typ, key, v) ==> err == SizeError(key, v)
    requires !made ==> err == NOT_ENOUGH_SPACE
    ensures NewPageAnswer(err, rams0, list, free, typ, key, v)
  {
    hide Room, SizeOk, SpanFor, SizeError;
    MarkedIsFull(rams0, img0, p, rams, img);
    RoomAfterMark(rams0, img0, list, free, SpanFor(typ, v), p, rams, img);
    RoomAfterMark(rams0, img0, list, free, 1, p, rams, img);
    RoomForOne(rams, list, free);
    if !made {
      NoPageIsNoRoom(rams, list, free, typ, key, v);
    }
  }

  lemma OkIsNotFull(st: PageState, nextFree: nat, typ: ItemType, key: string, v: Input)
    requires WriteVerdict(st, nextFree, typ, key, v) == OK
    ensures !st.FULL?
  {
  }

  // What the current page alone decides, and what it leaves to another.
  lemma IsWriteAnswer(rams0: seq<Ram>, img0: seq<FPage>, list: seq<nat>, free: seq<nat>, next: nat, hashOf: Id -> nat,
                      rams: seq<Ram>, typ: ItemType, key: string, v: Input, err: Error)
    requires InOrder(rams0, img0, list, free, next, hashOf) && OnlyAt(rams0, rams, list[|list| - 1])
    requires var p := list[|list| - 1]; var first := WriteVerdict(rams0[p].state, rams0[p].nextFree, typ, key, v);
      if first != PAGE_FULL then err == first
      else rams[p].used == rams0[p].used && NewPageAnswer(err, rams, list, free, typ, key, v)
    ensures WriteAnswer(err, rams0, list, free, typ, key, v)
  {
    hide RamsOk, Partition;
    FirstVerdict(rams0, img0, list, free, next, hashOf, typ, key, v);
    var r := rams0[list[|list| - 1]];
    if WriteVerdict(r.state, r.nextFree, typ, key, v) == PAGE_FULL {
      hide WriteVerdict, SpanFor;
      SameRoom(rams0, list, free, rams, SpanFor(typ, v));
      SameRoom(rams0, list, free, rams, 1);
    }
  }

  lemma SameRoom(rams0: seq<Ram>, list: seq<nat>, free: seq<nat>, rams: seq<Ram>, m: nat)
    requires list != [] && OnlyAt(rams0, rams, list[|list| - 1])
      && rams[list[|list| - 1]].used == rams0[list[|list| - 1]].used
    ensures Room(rams, list, free, m) <==> Room(rams0, list, free, m)
  {
    if forall k :: 0 <= k < |list| ==> list[k] < |rams| {
      assert forall k :: 0 <= k < |list| ==> rams[list[k]].used == rams0[list[k]].used;
      if Room(rams, list, free, m) && |free| < 2 {
        var k :| 0 <= k < |list| && rams[list[k]].used + m <= ENTRY_COUNT;
        assert rams0[list[k]].used + m <= ENTRY_COUNT;
      }
      if Room(rams0, list, free, m) && |free| < 2 {
        var k :| 0 <= k < |list| && rams0[list[k]].used + m <= ENTRY_COUNT;
        assert rams[list[k]].used + m <= ENTRY_COUNT;
      }
    }
  }

  // On the new page a write succeeds exactly if there was room, unless its size is refused.
  lemma NewPageVerdict(rams: seq<Ram>, img: seq<FPage>, list: seq<nat>, free: seq<nat>, rams': seq<Ram>,
                       img': seq<FPage>, list': seq<nat>, free': seq<nat>, freed: nat, typ: ItemType, key: string,
                       v: Input)
    requires Relocated(rams, img, list, free, rams', img', list', free', freed)
    ensures list' != [] && list'[|list'| - 1] == free[0] < |rams'| && !rams'[free[0]].state.FULL?
    ensures var r := rams'[free[0]]; var err := WriteVerdict(r.state, r.nextFree, typ, key, v);
      if SizeOk(typ, key, v) then err == (if Room(rams, list, free, SpanFor(typ, v)) then OK else PAGE_FULL)
      else err == SizeError(key, v)
  {
    hide Relocated, SpanFor;
    NewPageUse(rams, img, list, free, rams', img', list', free', freed, SpanFor(typ, v));
    if SizeOk(typ, key, v) {
      SpanBounds(typ, key, v);
    }
  }

  // The new current page, and how much of it is in use.
  lemma NewPageUse(rams: seq<Ram>, img: seq<FPage>, list: seq<nat>, free: seq<nat>, rams': seq<Ram>, img': seq<FPage>,
                   list': seq<nat>, free': seq<nat>, freed: nat, m: nat)
    requires Relocated(rams, img, list, free, rams', img', list', free', freed)
    ensures list' != [] && free != [] && list'[|list'| - 1] == free[0] < |rams'| && Fresh(rams'[free[0]])
    ensures 1 <= m <= ENTRY_COUNT ==> (Room(rams, list, free, m) <==> rams'[free[0]].used + m <= ENTRY_COUNT)
  {
    hide RecsOf, Fresh;
    if |free| == 1 {
      var at :| 0 <= at < |list| && list[at] == freed;
      assert rams[list[at]].used == rams'[free[0]].used;
    }
  }

  // ---------------------------------------------------------------- where records are afterwards

  // Page x is where it was, and so are its items.
  ghost predicate Stayed(rams: seq<Ram>, img: seq<FPage>, rams': seq<Ram>, img': seq<FPage>, x: nat) {
    && x < |rams| == |img| && |rams'| == |rams| && |img'| == |img|
    && (rams'[x].state.ACTIVE? || rams'[x].state.FULL?) && rams'[x].seqNo == rams[x].seqNo
    && ItemsKept(img[x].slots, img'[x].slots)
  }

  // Page x has been erased; its records are on the current page, before the new one.
  ghost predicate MovedTo(img: seq<FPage>, rams': seq<Ram>, img': seq<FPage>, x: nat, p: nat, n: Rec) {
    && x < |img| == |img'| && p < |img'| && x < |rams'| && rams'[x].state.UNINITIALIZED?
    && RecsOf(img'[p]) == RecsOf(img[x]) + [n]
  }

  ghost predicate Traced(rams: seq<Ram>, img: seq<FPage>, rams': seq<Ram>, img': seq<FPage>, p: nat, n: Rec) {
    && |rams| == |img| && |rams'| == |rams| && |img'| == |img|
    && forall x :: 0 <= x < |rams| && LiveState(rams[x].state) ==>
      Stayed(rams, img, rams', img', x) || MovedTo(img, rams', img', x, p, n)
  }

  // All pages with records are where they were, with the same records.
  ghost predicate AllStayed(rams: seq<Ram>, img: seq<FPage>, rams': seq<Ram>, img': seq<FPage>) {
    && |rams| == |img| && |rams'| == |rams| && |img'| == |img|
    && forall x :: 0 <= x < |rams| && LiveState(rams[x].state) ==>
         Stayed(rams, img, rams', img', x) && RecsOf(img'[x]) == RecsOf(img[x])
  }

  // A write to the current page, successful or not.
  lemma WriteTraced(rams: seq<Ram>, img: seq<FPage>, list: seq<nat>, free: seq<nat>, next: nat, hashOf: Id -> nat,
                    rams': seq<Ram>, img': seq<FPage>, n: Rec, ok: bool)
    requires InOrder(rams, img, list, free, next, hashOf) && |rams'| == |rams|
    requires var p := list[|list| - 1];
      OnlyAt(rams, rams', p) && OnlyPage(img, img', p) && rams'[p].seqNo == rams[p].seqNo
    requires var p := list[|list| - 1];
      (rams'[p].state.ACTIVE? || rams'[p].state.FULL?) && ItemsKept(img[p].slots, img'[p].slots)
    requires var p := list[|list| - 1]; RecsOf(img'[p]) == RecsOf(img[p]) + if ok then [n] else []
    ensures if ok then Traced(rams, img, rams', img', list[|list| - 1], n) else AllStayed(rams, img, rams', img')
  {
    hide RamOk, RecsOf, ItemsKept;
    var p := list[|list| - 1];
    forall x: nat | x < |rams| && LiveState(rams[x].state)
      ensures Stayed(rams, img, rams', img', x) && (x != p || !ok ==> RecsOf(img'[x]) == RecsOf(img[x]))
    {
      var k := Place(rams, list, free, x);
      SameKeeps(img[x].slots);
    }
  }

  // The old records, then the move, then the write to the new page.
  lemma MoveTraced(rams: seq<Ram>, img: seq<FPage>, ramsB: seq<Ram>, imgB: seq<FPage>, list: seq<nat>, free: seq<nat>,
                   ramsC: seq<Ram>, imgC: seq<FPage>, list': seq<nat>, free': seq<nat>, freed: nat,
                   ramsD: seq<Ram>, imgD: seq<FPage>, n: Rec)
    requires AllStayed(rams, img, ramsB, imgB) && Relocated(ramsB, imgB, list, free, ramsC, imgC, list', free', freed)
      && |free| >= 1
    requires free[0] < |rams| && FreeState(rams[free[0]].state)
    requires OnlyAt(ramsC, ramsD, free[0]) && OnlyPage(imgC, imgD, free[0])
      && RecsOf(imgD[free[0]]) == RecsOf(imgC[free[0]]) + [n]
    ensures Traced(rams, img, ramsD, imgD, free[0], n)
  {
    hide RecsOf, ItemsKept;
    forall x: nat | x < |rams| && LiveState(rams[x].state)
      ensures Stayed(rams, img, ramsD, imgD, x) || MovedTo(img, ramsD, imgD, x, free[0], n)
    {
      assert x != free[0] && Stayed(rams, img, ramsB, imgB, x);
      if x == freed {
        assert |free| == 1;
      }
    }
  }

  // What writing a record to the store comes to.
  ghost predicate Stored(rams: seq<Ram>, img: seq<FPage>, rams': seq<Ram>, img': seq<FPage>, p: nat, n: Rec) {
    && Traced(rams, img, rams', img', p, n) && p < |img'| && RecsOf(img'[p]) != []
    && RecsOf(img'[p])[|RecsOf(img'[p])| - 1] == n
    && InState(img'[p], ACTIVE)
  }

  lemma MarkedStayed(rams: seq<Ram>, img: seq<FPage>, hashOf: Id -> nat, p: nat, rams': seq<Ram>, img': seq<FPage>)
    requires RamsOk(rams, img, hashOf)
      && (forall x :: 0 <= x < |rams| && LiveState(rams[x].state) ==> rams[x].state.ACTIVE? || rams[x].state.FULL?)
    requires MarkedFull(rams, img, p, rams', img') && LiveState(rams[p].state)
    ensures AllStayed(rams, img, rams', img')
  {
    hide RamOk, Recs;
    HeadersAre(rams, img, hashOf);
    forall x: nat | x < |rams| && LiveState(rams[x].state)
      ensures Stayed(rams, img, rams', img', x) && RecsOf(img'[x]) == RecsOf(img[x])
    {
      SameKeeps(img[x].slots);
    }
  }

  // Between two operations pages with records are active or full.
  lemma NoneIsFreeing(rams: seq<Ram>, img: seq<FPage>, list: seq<nat>, free: seq<nat>, next: nat, hashOf: Id -> nat)
    requires InOrder(rams, img, list, free, next, hashOf)
    ensures |rams| == |img|
      && forall x :: 0 <= x < |rams| && LiveState(rams[x].state) ==> rams[x].state.ACTIVE? || rams[x].state.FULL?
    ensures free[0] < |rams| && FreeState(rams[free[0]].state)
  {
    hide RamOk;
    forall x: nat | x < |rams| && LiveState(rams[x].state) ensures rams[x].state.ACTIVE? || rams[x].state.FULL? {
      var k := Place(rams, list, free, x);
    }
  }

  lemma StayedThenStored(rams: seq<Ram>, img: seq<FPage>, ramsA: seq<Ram>, imgA: seq<FPage>, rams': seq<Ram>,
                         img': seq<FPage>, p: nat, n: Rec)
    requires AllStayed(rams, img, ramsA, imgA) && Stored(ramsA, imgA, rams', img', p, n)
    ensures Stored(rams, img, rams', img', p, n)
  {
    hide RecsOf;
    forall x: nat | x < |rams| && LiveState(rams[x].state)
      ensures Stayed(rams, img, rams', img', x) || MovedTo(img, rams', img', x, p, n)
    {
      assert Stayed(rams, img, ramsA, imgA, x);
    }
  }

  lemma RoomAfterMark(rams: seq<Ram>, img: seq<FPage>, list: seq<nat>, free: seq<nat>, m: nat, p: nat, rams': seq<Ram>,
                      img': seq<FPage>)
    requires MarkedFull(rams, img, p, rams', img') && forall k :: 0 <= k < |list| ==> list[k] < |rams|
    ensures Room(rams, list, free, m) <==> Room(rams', list, free, m)
  {
    assert forall k :: 0 <= k < |list| ==> rams'[list[k]].used == rams[list[k]].used;
    if Room(rams, list, free, m) && |free| < 2 {
      var k :| 0 <= k < |list| && rams[list[k]].used + m <= ENTRY_COUNT;
      assert rams'[list[k]].used + m <= ENTRY_COUNT;
    }
    if Room(rams', list, free, m) && |free| < 2 {
      var k :| 0 <= k < |list| && rams'[list[k]].used + m <= ENTRY_COUNT;
      assert rams[list[k]].used + m <= ENTRY_COUNT;
    }
  }

  // The record is the last of the current page.
  lemma NewIsLast(img: seq<FPage>, p: nat, before: seq<Rec>, n: Rec, r: Ram)
    requires p < |img| && RecsOf(img[p]) == before + [n] && img[p].hdr == Header(r.state, r.seqNo) && r.state.ACTIVE?
    ensures RecsOf(img[p]) != [] && RecsOf(img[p])[|RecsOf(img[p])| - 1] == n && InState(img[p], ACTIVE)
  {
  }

  lemma NoPageIsNoRoom(rams: seq<Ram>, list: seq<nat>, free: seq<nat>, typ: ItemType, key: string, v: Input)
    requires |free| < 2 && (forall k :: 0 <= k < |list| ==> list[k] < |rams|)
    requires forall k :: 0 <= k < |list| ==> rams[list[k]].used >= ENTRY_COUNT
    ensures (SizeOk(typ, key, v) ==> !Room(rams, list, free, SpanFor(typ, v))) && !Room(rams, list, free, 1)
  {
    NoPageNoRoom(rams, list, free, 1);
    if SizeOk(typ, key, v) {
      SpanBounds(typ, key, v);
      NoPageNoRoom(rams, list, free, SpanFor(typ, v));
    }
  }

  lemma StoredOnNewPage(rams: seq<Ram>, img: seq<FPage>, list: seq<nat>, free: seq<nat>, next: nat, hashOf: Id -> nat,
                        p: nat, ramsB: seq<Ram>, imgB: seq<FPage>, ramsC: seq<Ram>, imgC: seq<FPage>, list': seq<nat>,
                        free': seq<nat>, freed: nat, ramsD: seq<Ram>, imgD: seq<FPage>, n: Rec)
    requires InOrder(rams, img, list, free, next, hashOf) && p < |rams| && LiveState(rams[p].state)
    requires MarkedFull(rams, img, p, ramsB, imgB)
      && Relocated(ramsB, imgB, list, free, ramsC, imgC, list', free', freed)
    requires OnlyAt(ramsC, ramsD, free[0]) && OnlyPage(imgC, imgD, free[0])
      && RecsOf(imgD[free[0]]) == RecsOf(imgC[free[0]]) + [n]
    requires RamsOk(ramsD, imgD, hashOf) && free[0] < |ramsD| && ramsD[free[0]].state.ACTIVE?
    ensures Stored(rams, img, ramsD, imgD, free[0], n)
  {
    hide RamOk, RecsOf, ItemsKept, AllStayed, Relocated, MarkedFull, Traced;
    NoneIsFreeing(rams, img, list, free, next, hashOf);
    MarkedStayed(rams, img, hashOf, p, ramsB, imgB);
    MoveTraced(rams, img, ramsB, imgB, list, free, ramsC, imgC, list', free', freed, ramsD, imgD, n);
    HeadersAre(ramsD, imgD, hashOf);
    NewIsLast(imgD, free[0], RecsOf(imgC[free[0]]), n, ramsD[free[0]]);
  }

  // Cuts while room was made, then cuts while the record was written.
  lemma LaterCuts(img0: seq<FPage>, img: seq<FPage>, cuts: iset<seq<FPage>>, mid: iset<seq<FPage>>,
                  cuts0: iset<seq<FPage>>, n: Rec, ok: bool)
    requires Live(img) == Live(img0) && (ChunksApart(img0) ==> ChunksApart(img))
    requires forall c :: c in mid && c !in cuts0 ==> Safe(img0, c, Live(img0))
    requires forall c :: c in cuts && c !in mid ==>
      AppendCut(c, Live(img), n, ok) && (ChunksApart(img) ==> ChunksApart(c))
    ensures forall c :: c in cuts && c !in cuts0 ==>
      AppendCut(c, Live(img0), n, ok) && (ChunksApart(img0) ==> ChunksApart(c))
  {
    hide Live, Recoverable, ChunksApart, Appended;
  }

  lemma StoredHere(rams: seq<Ram>, img: seq<FPage>, list: seq<nat>, free: seq<nat>, next: nat, hashOf: Id -> nat,
                   rams': seq<Ram>, img': seq<FPage>, n: Rec)
    requires InOrder(rams, img, list, free, next, hashOf) && RamsOk(rams', img', hashOf)
    requires var p := list[|list| - 1];
      OnlyAt(rams, rams', p) && OnlyPage(img, img', p) && rams'[p].seqNo == rams[p].seqNo
    requires var p := list[|list| - 1]; rams'[p].state.ACTIVE? && ItemsKept(img[p].slots, img'[p].slots)
    requires var p := list[|list| - 1]; RecsOf(img'[p]) == RecsOf(img[p]) + [n]
    ensures Stored(rams, img, rams', img', list[|list| - 1], n)
  {
    hide RamOk, RecsOf, ItemsKept, Traced;
    var p := list[|list| - 1];
    WriteTraced(rams, img, list, free, next, hashOf, rams', img', n, true);
    HeadersAre(rams', img', hashOf);
    NewIsLast(img', p, RecsOf(img[p]), n, rams'[p]);
  }

  // The write that found no room left everything as it was.
  lemma FailedWrite(rams: seq<Ram>, img: seq<FPage>, list: seq<nat>, free: seq<nat>, next: nat, hashOf: Id -> nat,
                    rams': seq<Ram>, img': seq<FPage>, n: Rec)
    requires InOrder(rams, img, list, free, next, hashOf)
    requires var p := list[|list| - 1];
      OnlyAt(rams, rams', p) && OnlyPage(img, img', p) && rams'[p].seqNo == rams[p].seqNo
    requires var p := list[|list| - 1]; rams'[p].state.ACTIVE? || rams'[p].state.FULL?
    requires var p := list[|list| - 1]; ItemsKept(img[p].slots, img'[p].slots) && RecsOf(img'[p]) == RecsOf(img[p])
    ensures AllStayed(rams, img, rams', img')
  {
    hide RamOk, RecsOf, ItemsKept;
    WriteTraced(rams, img, list, free, next, hashOf, rams', img', n, false);
  }

  // What the current page alone decides.
  lemma FirstVerdict(rams: seq<Ram>, img: seq<FPage>, list: seq<nat>, free: seq<nat>, next: nat, hashOf: Id -> nat,
                     typ: ItemType, key: string, v: Input)
    requires InOrder(rams, img, list, free, next, hashOf)
    ensures var r := rams[list[|list| - 1]]; var err := WriteVerdict(r.state, r.nextFree, typ, key, v);
      (err == OK ==> SizeOk(typ, key, v) && Room(rams, list, free, SpanFor(typ, v)) && !r.state.FULL?)
      && (err != OK && err != PAGE_FULL ==> !SizeOk(typ, key, v) && err == SizeError(key, v) && !r.state.FULL?)
      && (err == PAGE_FULL && !SizeOk(typ, key, v) ==> r.state.FULL?)
  {
    hide RamOk;
    var r := rams[list[|list| - 1]];
    if WriteVerdict(r.state, r.nextFree, typ, key, v) == OK {
      FitsIsRoom(rams, img, list, free, next, hashOf, typ, key, v);
    }
  }

  lemma MoreCuts(img0: seq<FPage>, img: seq<FPage>, cuts: iset<seq<FPage>>, mid: iset<seq<FPage>>,
                 cuts0: iset<seq<FPage>>, n: Rec, ok: bool)
    requires Live(img) == Live(img0) && (ChunksApart(img0) ==> ChunksApart(img))
    requires forall c :: c in mid && c !in cuts0 ==>
      AppendCut(c, Live(img0), n, false) && (ChunksApart(img0) ==> ChunksApart(c))
    requires forall c :: c in cuts && c !in mid ==>
      AppendCut(c, Live(img), n, ok) && (ChunksApart(img) ==> ChunksApart(c))
    ensures forall c :: c in cuts && c !in cuts0 ==>
      AppendCut(c, Live(img0), n, ok) && (ChunksApart(img0) ==> ChunksApart(c))
  {
    hide Live, Recoverable, Appended, ChunksApart;
  }
}
