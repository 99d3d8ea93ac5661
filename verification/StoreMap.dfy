// The store as a map from names to values: what writing and erasing do to it, and what reading sees.
module StoreMap {
  import opened NvsTypes
  import opened PageImage
  import opened PageErases
  import opened PageTwins
  import opened PageRam
  import opened PageSearch
  import opened PageScan
  import opened PageValues
  import opened FlashDevice
  import opened PageCuts
  import opened StoreImage
  import opened Recovery
  import opened PageLists
  import opened Startup
  import opened StoreSearch
  import opened StoreWrites
  import opened StoreUpdates

  // ---------------------------------------------------------------- writing

  // The store as a map: the name stands for n now, and every other name for what it stood for.
  ghost predicate MapUpdate(live: multiset<Rec>, now: multiset<Rec>, n: Rec, ns: byte, key: string) {
    && Unique(now) && NoBlob(now, ns, key) && (forall o :: RecordOf(now, ns, key, o) <==> o == Some(n))
    && (forall ns': byte, key': string, o :: (ns', key') != (ns, key) ==>
         (RecordOf(now, ns', key', o) <==> RecordOf(live, ns', key', o)))
    && forall ns': byte, key': string :: (ns', key') != (ns, key) ==>
         (NoBlob(now, ns', key') <==> NoBlob(live, ns', key'))
  }

  lemma UpdatedHas(live: multiset<Rec>, was: Option<Rec>, n: Rec, ns: byte, key: string)
    requires Unique(live) && RecordOf(live, ns, key, was) && OfName(n, ns, key) && n !in live && PlainType(n.item.typ)
    requires was.Some? ==> Displaces(live, was.value, n, ns, key)
    ensures n in Updated(live, was, n) && Unique(Updated(live, was, n))
    ensures forall r :: r in Updated(live, was, n) && r != n <==> r in live && !OfName(r, ns, key)
  {
    var now := Updated(live, was, n);
    assert now[n] == 1;
    assert forall r :: r in live && !OfName(r, ns, key) ==> now[r] == live[r];
  }

  // After a write the name stands for the new record, and every other name for what it stood for.
  lemma WriteIsMapUpdate(live: multiset<Rec>, was: Option<Rec>, n: Rec, ns: byte, key: string)
    requires Unique(live) && RecordOf(live, ns, key, was) && OfName(n, ns, key) && n !in live && PlainType(n.item.typ)
    requires was.Some? ==> Displaces(live, was.value, n, ns, key)
    ensures MapUpdate(live, Updated(live, was, n), n, ns, key)
  {
    hide SameValue, Displaces, Unique, Updated;
    UpdatedHas(live, was, n, ns, key);
    OtherNames(live, Updated(live, was, n), ns, key);
  }

  // Names other than this one stand for what they stood for.
  lemma OtherNames(live: multiset<Rec>, now: multiset<Rec>, ns: byte, key: string)
    requires forall r :: !OfName(r, ns, key) ==> (r in now <==> r in live)
    ensures forall ns': byte, key': string, o :: (ns', key') != (ns, key) ==>
      (RecordOf(now, ns', key', o) <==> RecordOf(live, ns', key', o))
    ensures forall ns': byte, key': string :: (ns', key') != (ns, key) ==>
      (NoBlob(now, ns', key') <==> NoBlob(live, ns', key'))
  {
    forall ns': byte, key': string, o | (ns', key') != (ns, key)
      ensures RecordOf(now, ns', key', o) <==> RecordOf(live, ns', key', o) {
      assert forall r :: OfName(r, ns', key') ==> (r in now <==> r in live);
    }
    forall ns': byte, key': string | (ns', key') != (ns, key)
      ensures NoBlob(now, ns', key') <==> NoBlob(live, ns', key') {
      assert forall r :: OfName(r, ns', key') ==> (r in now <==> r in live);
    }
  }

  // ---------------------------------------------------------------- reading

  // What reading a name answers that stands for `was`, into a buffer of `size` bytes.
  ghost predicate ReadsAs(was: Option<Rec>, typ: ItemType, size: nat, err: Error, data: seq<byte>) {
    match was
    case None => err == NOT_FOUND
    case Some(r) => if r.item.typ == typ then WholeRec(r) && ReadsRecord(r, size, err, data) else err == NOT_FOUND
  }

  ghost predicate ReadsRecord(r: Rec, size: nat, err: Error, data: seq<byte>)
    requires WholeRec(r)
  {
    if IsVariableLengthType(r.item.typ) then
      if size < r.item.val.dataSize then err == INVALID_LENGTH else err == OK && data == DataOf(r)
    else if !OfWidth(r.item.typ, size) then err == TYPE_MISMATCH
    else err == OK && size <= |ValueOf(r)| && data == ValueOf(r)[..size]
  }

  // What has been written is what is read, to the byte.
  lemma ReadsWhatWasWritten(ns: byte, typ: ItemType, key: string, v: Input, size: nat, err: Error, data: seq<byte>)
    requires PlainType(typ) && !typ.ANY? && WellFormed(typ, v, CHUNK_ANY)
      && (v.Primitive? ==> OfWidth(typ, |v.bytes|))
    requires if v.Primitive? then size == |v.bytes| else size >= InputSize(v)
    requires ReadsAs(Some(RecOf(ns, typ, key, v, CHUNK_ANY)), typ, size, err, data)
    ensures err == OK && data == InputBytes(v)
  {
    match v
    case Variable(bytes) =>
      ReadsBack(ns, typ, key, bytes, CHUNK_ANY);
    case Primitive(bytes) =>
      assert Padded(bytes)[..|bytes|] == bytes;
  }

  // A scalar is read back into a buffer of exactly its own width.
  lemma ReadsScalar(ns: byte, typ: ItemType, key: string, bytes: seq<byte>, size: nat, err: Error, data: seq<byte>)
    requires || ((typ.U8? || typ.I8?) && |bytes| == 1) || ((typ.U16? || typ.I16?) && |bytes| == 2)
      || ((typ.U32? || typ.I32?) && |bytes| == 4) || ((typ.U64? || typ.I64?) && |bytes| == 8)
    requires ReadsAs(Some(RecOf(ns, typ, key, Primitive(bytes), CHUNK_ANY)), typ, size, err, data)
    ensures if size == |bytes| then err == OK && data == bytes else err == TYPE_MISMATCH
  {
    assert Padded(bytes)[..|bytes|] == bytes;
  }

  // The record of a name, whichever it is.
  ghost function NameRecord(live: multiset<Rec>, ns: byte, key: string): (o: Option<Rec>)
    ensures RecordOf(live, ns, key, o)
  {
    if r :| r in live && OfName(r, ns, key) then Some(r) else None
  }

  lemma IsNameRecord(live: multiset<Rec>, ns: byte, key: string, r: Rec)
    requires r in live && OfName(r, ns, key) && Unique(live) && NoBlob(live, ns, key)
      && forall q :: q in live ==> WritableId(q.item)
    ensures NameRecord(live, ns, key) == Some(r)
  {
    var o := NameRecord(live, ns, key);
    assert o.Some? && o.value in live && OfName(o.value, ns, key);
  }

  lemma OtherReads(was: Option<Rec>, typ: ItemType, size: nat)
    requires was.Some? ==> was.value.item.typ != typ
    ensures ReadsAs(was, typ, size, NOT_FOUND, [])
  {
  }

  lemma FoundReads(err: Error, data: seq<byte>, s: seq<Slot>, index: nat, typ: ItemType, size: nat)
    requires ReadAnswers(err, data, s, Hit(index), typ, size)
    ensures Whole(s, index) && ReadsAs(Some(RecAt(s, index)), typ, size, err, data)
  {
  }

  // ---------------------------------------------------------------- erasing

  ghost predicate AllOrAllBut(c: seq<FPage>, live: multiset<Rec>, o: Rec) {
    Recoverable(c, live) || Recoverable(c, live - multiset{o})
  }

  // Losing power while an item is erased leaves it, or all the others.
  lemma {:induction false} ErasedCuts(rams: seq<Ram>, img: seq<FPage>, list: seq<nat>, free: seq<nat>, next: nat,
                                      hashOf: Id -> nat, c: seq<FPage>, cuts: iset<seq<FPage>>, cuts0: iset<seq<FPage>>,
                                      x: nat, i: nat, o: Rec)
    requires InOrder(rams, img, list, free, next, hashOf) && IsAt(rams, img, x, i, o)
    requires OnlyPage(img, c, x) && c[x].hdr == img[x].hdr
    requires Recs(c[x].slots) == RecsIn(img[x].slots, 0, i) + RecsIn(img[x].slots, i + 1, ENTRY_COUNT)
    requires forall d :: d in cuts && d !in cuts0 ==> ItemEraseCut(img, d, x, rams[x].top, i)
    ensures Live(c) == Live(img) - multiset{o} && (ChunksApart(img) ==> ChunksApart(c))
    ensures forall d :: d in cuts && d !in cuts0 ==>
      AllOrAllBut(d, Live(img), o) && (ChunksApart(img) ==> ChunksApart(d))
  {
    hide RamOk, Recs, RecsIn, Whole, EraseCut, Sound, NoneFreeing, Spare, Live, Rest, SoundAt, ChunksApart, Recoverable;
    InOrderIsStable(rams, img, list, free, next, hashOf);
    RamsOkAt(rams, img, hashOf, x);
    PageIsSound(rams[x], img[x], hashOf);
    SplitAt(img[x].slots, i);
    var before, after := RecsIn(img[x].slots, 0, i), RecsIn(img[x].slots, i + 1, ENTRY_COUNT);
    WithoutOne(img, c, x, before, o, after);
    forall d: seq<FPage> | d in cuts && d !in cuts0
      ensures AllOrAllBut(d, Live(img), o) && (ChunksApart(img) ==> ChunksApart(d))
    {
      OneErasedCut(img, d, x, rams[x].top, i, o);
    }
  }

  // The record n, if given, has just been written, as the last of page p, to replace o.
  ghost predicate Superseded(img: seq<FPage>, o: Rec, n: Option<Rec>, p: nat) {
    n.Some? ==>
      o != n.value && Twins(n.value, o) && o in Live(img) - multiset{n.value}
      && Appended(img, Live(img) - multiset{n.value}, n.value, p)
  }

  lemma NotSuperseded(img: seq<FPage>, o: Rec, p: nat)
    ensures Superseded(img, o, None, p)
  {
  }

  lemma {:induction false} SupersededErased(rams: seq<Ram>, img: seq<FPage>, hashOf: Id -> nat, c: seq<FPage>,
                                            cuts: iset<seq<FPage>>, cuts0: iset<seq<FPage>>, x: nat, i: nat, o: Rec,
                                            n: Rec, p: nat)
    requires RamsOk(rams, img, hashOf) && Superseded(img, o, Some(n), p) && IsAt(rams, img, x, i, o)
    requires OnlyPage(img, c, x) && c[x].hdr == img[x].hdr
    requires Recs(c[x].slots) == RecsIn(img[x].slots, 0, i) + RecsIn(img[x].slots, i + 1, ENTRY_COUNT)
    requires forall d :: d in cuts && d !in cuts0 ==> ItemEraseCut(img, d, x, rams[x].top, i)
    ensures forall d :: d in cuts && d !in cuts0 ==> Recoverable(d, Live(c))
  {
    hide RamOk, Recs, RecsIn, Whole, EraseCut, Live, ItemEraseCut, Recoverable, IsAt, Sound, NoneFreeing, Spare;
    OldErased(rams, img, hashOf, c, cuts, cuts0, x, i, o, n, p, Live(img) - multiset{n});
  }

  lemma WithoutOne(img: seq<FPage>, c: seq<FPage>, x: nat, before: seq<Rec>, o: Rec, after: seq<Rec>)
    requires OnlyPage(img, c, x) && RecsOf(img[x]) == before + [o] + after && RecsOf(c[x]) == before + after
    ensures Live(c) == Live(img) - multiset{o} && (ChunksApart(img) ==> ChunksApart(c))
  {
    hide RecsOf, Live, Rest;
    LiveChange(img, c, x);
    assert multiset(before + [o] + after) == multiset(before + after) + multiset{o};
    if ChunksApart(img) {
      PairsWithout(before, o, after);
      assert forall q :: 0 <= q < |c| && q != x ==> c[q] == img[q];
    }
  }

  lemma OneErasedCut(img: seq<FPage>, d: seq<FPage>, x: nat, nf: nat, i: nat, o: Rec)
    requires Stable(img, Live(img)) && x < |img| && |img[x].slots| == ENTRY_COUNT && i < ENTRY_COUNT
      && Whole(img[x].slots, i)
    requires RecAt(img[x].slots, i) == o && img[x].hdr.Header? && SoundAt(img[x].hdr.st, img[x].slots, nf)
    requires ItemEraseCut(img, d, x, nf, i)
    ensures Recoverable(d, Live(img)) || Recoverable(d, Live(img) - multiset{o})
    ensures ChunksApart(img) ==> ChunksApart(d)
  {
    hide Recs, RecsIn, Sound, ChunksApart, NoChunkPairs, SoundAt, EraseCut, Loadable, Live, Rest, Whole, Spare,
      NoneFreeing;
    EraseCutRecs(img[x].hdr.st, img[x].slots, d[x].slots, nf, i);
    SoundIsLoadable(img, d, x, nf);
    OnePageSound(img, d, x);
    if Recs(d[x].slots) == Recs(img[x].slots) {
      OnePageSameView(img, d, x);
      SameViewSound(img, d);
      assert Stable(d, Live(img));
    } else {
      WithoutOne(img, d, x, RecsIn(img[x].slots, 0, i), o, RecsIn(img[x].slots, i + 1, |img[x].slots|));
      assert Stable(d, Live(img) - multiset{o});
    }
  }

  // After erasing, the name stands for nothing, and every other name for what it stood for.
  lemma EraseIsMapRemoval(live: multiset<Rec>, o: Rec, ns: byte, key: string)
    requires Unique(live) && o in live && OfName(o, ns, key)
    requires forall r :: r in live && OfName(r, ns, key) ==> r == o
    ensures Unique(live - multiset{o}) && RecordOf(live - multiset{o}, ns, key, None)
    ensures forall ns': byte, key': string, r :: (ns', key') != (ns, key) ==>
      (RecordOf(live - multiset{o}, ns', key', r) <==> RecordOf(live, ns', key', r))
  {
    var now := live - multiset{o};
    assert forall r :: r in now <==> r in live && r != o;
    OtherNames(live, now, ns, key);
  }
}
