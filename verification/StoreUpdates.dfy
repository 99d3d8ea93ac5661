// Replacing a record: when a write is skipped, where the old record is once the new one is there, and
// what is left when it has been erased.
module StoreUpdates {
  import opened NvsTypes
  import opened PageImage
  import opened PageErases
  import opened PageRam
  import opened PageSearch
  import opened PageTwins
  import opened PageScan
  import opened PageValues
  import opened FlashDevice
  import opened PageCuts
  import opened StoreImage
  import opened Recovery
  import opened PageLists
  import opened Startup
  import opened StoreSearch
  import opened StoreWrites

  // ---------------------------------------------------------------- writes that are skipped

  function InputBytes(v: Input): seq<byte> {
    match v
    case Primitive(bytes) => bytes
    case Index(_, _, _) => []
    case Variable(data) => data
  }

  // What the comparison before a write takes for the same value: of a value of variable length only
  // as many bytes are compared as are stored.
  ghost predicate SameValue(r: Rec, typ: ItemType, data: seq<byte>) {
    && r.item.typ == typ && WholeRec(r)
    && if IsVariableLengthType(typ) then |data| >= r.item.val.dataSize && data[..r.item.val.dataSize] == DataOf(r)
       else |ValueOf(r)| == 8 && OfWidth(typ, |data|) && |data| <= 8 && ValueOf(r)[..|data|] == data
  }

  // The write has nothing to change.
  ghost predicate Skips(was: Option<Rec>, typ: ItemType, v: Input) {
    was.Some? && SameValue(was.value, typ, InputBytes(v))
  }

  lemma OtherType(was: Option<Rec>, typ: ItemType, v: Input)
    requires was.Some? ==> was.value.item.typ != typ
    ensures !Skips(was, typ, v)
  {
  }

  lemma CmpMeans(err: Error, data: seq<byte>, s: seq<Slot>, index: nat, typ: ItemType)
    requires !typ.ANY? && CmpAnswers(err, data, s, Hit(index), typ)
    ensures Whole(s, index) && (err == OK <==> SameValue(RecAt(s, index), typ, data))
  {
  }

  // A value compares as equal to the record made of it.
  lemma SameAsItself(ns: byte, typ: ItemType, key: string, v: Input)
    requires PlainType(typ) && !typ.ANY? && WellFormed(typ, v, CHUNK_ANY)
      && (v.Primitive? ==> OfWidth(typ, |v.bytes|))
    ensures SameValue(RecOf(ns, typ, key, v, CHUNK_ANY), typ, InputBytes(v))
  {
    match v
    case Variable(data) =>
      ReadsBack(ns, typ, key, data, CHUNK_ANY);
      assert data[..|data|] == data;
    case Primitive(bytes) =>
      assert Padded(bytes)[..|bytes|] == bytes;
  }

  // A scalar is skipped exactly if nothing changes.
  lemma ScalarSkips(ns: byte, typ: ItemType, key: string, w: seq<byte>, v: seq<byte>)
    requires OfWidth(typ, |w|) && OfWidth(typ, |v|) && !typ.BLOB_IDX?
    ensures Skips(Some(RecOf(ns, typ, key, Primitive(w), CHUNK_ANY)), typ, Primitive(v)) <==> v == w
  {
    assert Padded(w)[..|w|] == w;
  }

  predicate NulTerminated(s: seq<byte>) {
    |s| > 0 && s[|s| - 1] == 0 && forall i :: 0 <= i < |s| - 1 ==> s[i] != 0
  }

  // For strings the skipped write is one that would have changed nothing.
  lemma SkippedIsEqual(r: Rec, data: seq<byte>)
    requires r.item.typ.SZ? && WholeRec(r) && NulTerminated(data) && NulTerminated(DataOf(r))
    ensures SameValue(r, SZ, data) <==> DataOf(r) == data
  {
    var n := r.item.val.dataSize;
    if SameValue(r, SZ, data) {
      assert data[n - 1] == DataOf(r)[n - 1];
      assert n == |data|;
      assert data[..n] == data;
    }
    assert DataOf(r) == data ==> data[..n] == data;
  }

  // Bytes without a terminator are another matter: a longer value that starts like the stored one is
  // taken for it. Exactly then a change is lost.
  lemma SkippedIffPrefix(r: Rec, data: seq<byte>)
    requires IsVariableLengthType(r.item.typ) && WholeRec(r)
    ensures SameValue(r, r.item.typ, data) && DataOf(r) != data <==> DataOf(r) < data
  {
    var n := r.item.val.dataSize;
    if DataOf(r) < data {
      assert data[..n] == DataOf(r);
    }
    if SameValue(r, r.item.typ, data) && DataOf(r) != data {
      assert data[..|data|] == data;
    }
  }

  // ---------------------------------------------------------------- the old record once the new one is there

  // Searching a page whose last record is the new one finds the old one first.
  lemma OldBeforeNew(s: seq<Slot>, h: nat, before: seq<Rec>, o: Rec, n: Rec, ns: byte, key: string)
    requires FirstNamed(s, h, ns, key) && Recs(s) == before + [n] && o in before && OfName(o, ns, key)
    requires forall r :: r in before && OfName(r, ns, key) ==> r == o
    ensures RecAt(s, h) == o
  {
    RecsAround(s, h);
    var a, b := RecsIn(s, 0, h), RecsIn(s, h + 1, |s|);
    assert Recs(s) == a + [RecAt(s, h)] + b;
    assert Recs(s)[|a|] == RecAt(s, h);
    assert |a| < |before| by {
      var k :| 0 <= k < |before| && before[k] == o;
      assert Recs(s)[k] == o && o !in a;
      assert forall i :: 0 <= i < |a| ==> Recs(s)[i] in a;
    }
    assert before[|a|] == Recs(s)[|a|];
  }

  ghost predicate OnlyOn(img: seq<FPage>, p: nat, ns: byte, key: string) {
    forall x :: 0 <= x < |img| && x != p ==> NoneNamed(RecsOf(img[x]), ns, key)
  }

  // Old and new record are on the same page, so no other page has one of that name.
  lemma BothHere(img: seq<FPage>, live: multiset<Rec>, p: nat, before: seq<Rec>, o: Rec, n: Rec, ns: byte, key: string)
    requires p < |img| && RecsOf(img[p]) == before + [n] && o in before && Live(img) == live + multiset{n}
    requires live[o] == 1 && n !in live && o != n
    requires forall r :: r in live && OfName(r, ns, key) ==> r == o
    ensures OnlyOn(img, p, ns, key)
    ensures forall r :: r in before && OfName(r, ns, key) ==> r == o
  {
    hide RecsOf;
    LiveAround(img, p);
    assert n in RecsOf(img[p]) && o in RecsOf(img[p]);
    forall x: nat, r | x < |img| && x != p && r in RecsOf(img[x]) ensures !OfName(r, ns, key) {
      RestAround(img, p, x);
      assert r in Rest(img, p);
      Counted(Rest(img, p), multiset(RecsOf(img[p])), live, n, o, r);
    }
    forall r | r in before && OfName(r, ns, key) ensures r == o {
      assert multiset(before + [n]) == multiset(before) + multiset{n};
      assert r in multiset(before);
      Cancel(Rest(img, p) + multiset(before), live, n);
      assert r in Rest(img, p) + multiset(before);
    }
  }

  lemma Counted(rest: multiset<Rec>, here: multiset<Rec>, live: multiset<Rec>, n: Rec, o: Rec, r: Rec)
    requires rest + here == live + multiset{n} && n in here && o in here && r in rest && live[o] == 1 && n !in live
      && o != n
    ensures r != o && r != n && r in live
  {
    assert (rest + here)[n] == 1 && (rest + here)[o] == 1;
    assert (rest + here)[r] == (live + multiset{n})[r];
  }

  // The move took the old record to page p, and the new one has been added there.
  ghost predicate Together(img: seq<FPage>, live: multiset<Rec>, p: nat, before: seq<Rec>, o: Rec, n: Rec, ns: byte,
                           key: string) {
    && p < |img| && img[p].hdr.Header? && RecsOf(img[p]) == before + [n] && o in before
    && Live(img) == live + multiset{n}
    && live[o] == 1 && n !in live && o != n && OfName(o, ns, key) && PlainType(o.item.typ) && PlainType(n.item.typ)
    && forall r :: r in live && OfName(r, ns, key) ==> r == o
  }

  lemma SearchTogether(rams: seq<Ram>, img: seq<FPage>, list: seq<nat>, free: seq<nat>, next: nat, hashOf: Id -> nat,
                       live: multiset<Rec>, p: nat, before: seq<Rec>, o: Rec, n: Rec, ns: byte, key: string, y: nat)
    requires InOrder(rams, img, list, free, next, hashOf) && ns != NS_ANY && |key| <= MAX_KEY_LENGTH
    requires Together(img, live, p, before, o, n, ns, key) && y < |img| && img[y].hdr.Header?
    ensures |rams| == |img| && y in list && LiveState(rams[y].state)
    ensures var f := FindVia(img[y].slots, KeyQuery(ns, o.item.typ, key), hashOf, 0);
      if y == p then f.Hit? && IsAt(rams, img, p, f.index, o) else f == Nothing
  {
    hide RamOk, Quiet, FindVia, Recs, InOrder;
    BothHere(img, live, p, before, o, n, ns, key);
    RecordPage(rams, img, list, free, next, hashOf, y);
    var s := img[y].slots;
    forall r | r in Recs(s) && OfName(r, ns, Truncated(key)) ensures !r.item.typ.BLOB_DATA? {
      assert r in RecsOf(img[y]);
      assert y == p;
      assert r in before || r == n;
    }
    SearchByName(s, rams[y].top, hashOf, ns, o.item.typ, key);
    if y == p {
      assert o in Recs(s);
      var h := FindVia(s, KeyQuery(ns, o.item.typ, key), hashOf, 0).index;
      OldBeforeNew(s, h, before, o, n, ns, key);
      InRecs(s, h);
    } else {
      var f := FindVia(s, KeyQuery(ns, o.item.typ, key), hashOf, 0);
      if !f.Nothing? {
        InRecs(s, f.index);
      }
    }
  }

  lemma RelocatedIs(rams: seq<Ram>, img: seq<FPage>, list: seq<nat>, free: seq<nat>, next: nat, hashOf: Id -> nat,
                    live: multiset<Rec>, p: nat, before: seq<Rec>, o: Rec, n: Rec, ns: byte, key: string, found: bool,
                    at: nat, index: nat)
    requires InOrder(rams, img, list, free, next, hashOf) && ns != NS_ANY && |key| <= MAX_KEY_LENGTH
    requires Together(img, live, p, before, o, n, ns, key)
    requires found ==> Locates(rams, img, list, KeyQuery(ns, o.item.typ, key), hashOf, at, index)
    requires !found ==> NoHitBefore(rams, img, list, KeyQuery(ns, o.item.typ, key), hashOf, |list|)
    ensures found && IsAt(rams, img, list[at], index, o)
  {
    hide RamOk, Quiet, FindVia, Recs, InOrder, Together;
    TogetherPage(img, live, p, before, o, n, ns, key);
    SearchTogether(rams, img, list, free, next, hashOf, live, p, before, o, n, ns, key, p);
    if found {
      LocatedHeader(rams, img, list, free, next, hashOf, list[at]);
      SearchTogether(rams, img, list, free, next, hashOf, live, p, before, o, n, ns, key, list[at]);
    }
  }

  lemma TogetherPage(img: seq<FPage>, live: multiset<Rec>, p: nat, before: seq<Rec>, o: Rec, n: Rec, ns: byte,
                     key: string)
    requires Together(img, live, p, before, o, n, ns, key)
    ensures p < |img| && img[p].hdr.Header?
  {
  }

  lemma LocatedHeader(rams: seq<Ram>, img: seq<FPage>, list: seq<nat>, free: seq<nat>, next: nat, hashOf: Id -> nat,
                      x: nat)
    requires InOrder(rams, img, list, free, next, hashOf) && x < |img| && x < |rams| && LiveState(rams[x].state)
    ensures img[x].hdr.Header?
  {
    hide RamOk;
    HeadersAre(rams, img, hashOf);
  }

  // ---------------------------------------------------------------- erasing the old record

  lemma StoredIsAppended(rams: seq<Ram>, img: seq<FPage>, list: seq<nat>, free: seq<nat>, next: nat, hashOf: Id -> nat,
                         rams0: seq<Ram>, img0: seq<FPage>, live: multiset<Rec>, n: Rec, p: nat)
    requires InOrder(rams, img, list, free, next, hashOf) && Stored(rams0, img0, rams, img, p, n)
      && Live(img) == live + multiset{n}
    ensures Appended(img, live, n, p)
  {
    hide RamOk, RecsOf, Traced, Live;
    InOrderIsStable(rams, img, list, free, next, hashOf);
  }

  lemma {:induction false} OldErased(rams: seq<Ram>, img: seq<FPage>, hashOf: Id -> nat, c: seq<FPage>,
                                     cuts: iset<seq<FPage>>, cuts0: iset<seq<FPage>>, x: nat, i: nat, o: Rec, n: Rec,
                                     p: nat, live: multiset<Rec>)
    requires RamsOk(rams, img, hashOf) && Appended(img, live, n, p) && IsAt(rams, img, x, i, o) && o in live && o != n
    requires OnlyPage(img, c, x) && c[x].hdr == img[x].hdr
    requires Recs(c[x].slots) == RecsIn(img[x].slots, 0, i) + RecsIn(img[x].slots, i + 1, ENTRY_COUNT)
    requires forall d :: d in cuts && d !in cuts0 ==> ItemEraseCut(img, d, x, rams[x].top, i)
    ensures Live(c) == live - multiset{o} + multiset{n} && (ChunksApart(img) ==> ChunksApart(c))
    ensures Twins(n, o) ==>
      forall d :: d in cuts && d !in cuts0 ==>
        Recoverable(d, live - multiset{o} + multiset{n}) && (ChunksApart(img) ==> ChunksApart(d))
  {
    hide RamOk, Recs, RecsIn, Whole, EraseCut, Sound, NoneFreeing, Spare, Live, Rest, SoundAt, ChunksApart;
    RamsOkAt(rams, img, hashOf, x);
    PageIsSound(rams[x], img[x], hashOf);
    SplitAt(img[x].slots, i);
    var before, after := RecsIn(img[x].slots, 0, i), RecsIn(img[x].slots, i + 1, ENTRY_COUNT);
    ErasedRecords(img, c, x, before, o, after, live, n);
    if Twins(n, o) {
      AppendedIsDoubled(img, live, n, p, x, o);
      forall d: seq<FPage> | d in cuts && d !in cuts0
        ensures Recoverable(d, live - multiset{o} + multiset{n}) && (ChunksApart(img) ==> ChunksApart(d))
      {
        EraseOld(img, d, x, rams[x].top, i, p, live - multiset{o} + multiset{n});
      }
    }
  }

  lemma ErasedRecords(img: seq<FPage>, c: seq<FPage>, x: nat, before: seq<Rec>, o: Rec, after: seq<Rec>,
                      live: multiset<Rec>, n: Rec)
    requires OnlyPage(img, c, x) && RecsOf(img[x]) == before + [o] + after && RecsOf(c[x]) == before + after
    requires Live(img) == live + multiset{n} && o in live && o != n
    ensures Live(c) == live - multiset{o} + multiset{n} && (ChunksApart(img) ==> ChunksApart(c))
  {
    hide RecsOf, Live, Rest;
    LiveChange(img, c, x);
    assert multiset(before + [o] + after) == multiset(before + after) + multiset{o};
    assert live - multiset{o} + multiset{n} + multiset{o} == live + multiset{n};
    Cancel(Live(c), live - multiset{o} + multiset{n}, o);
    if ChunksApart(img) {
      PairsWithout(before, o, after);
      assert forall q :: 0 <= q < |c| && q != x ==> c[q] == img[q];
    }
  }

  // ---------------------------------------------------------------- one record of a name for another

  // The stored value [1] and the new value [1, 2], without terminators.
  lemma PrefixIsSkipped(key: string)
    ensures var r := RecOf(1, SZ, key, Variable([1]), CHUNK_ANY);
      WholeRec(r) && SameValue(r, SZ, [1, 2]) && DataOf(r) == [1]
  {
    ReadsBack(1, SZ, key, [1], CHUNK_ANY);
    assert [1, 2][..1] == [1];
  }

  // A key of 16 characters names the record of its first 15; if the value is the same it is skipped,
  // though the key could not be written.
  lemma LongKeyIsSkipped(key: string, v: Input)
    requires |key| == MAX_KEY_LENGTH + 1 && WellFormed(SZ, v, CHUNK_ANY)
    ensures var r := RecOf(1, SZ, Truncated(key), v, CHUNK_ANY);
      RecordOf(multiset{r}, 1, Truncated(key), Some(r)) && Skips(Some(r), SZ, v) && !SizeOk(SZ, key, v)
  {
    SameAsItself(1, SZ, Truncated(key), v);
  }

  // o is the only record of the name; n, of the same name, is none yet.
  ghost predicate Displaces(live: multiset<Rec>, o: Rec, n: Rec, ns: byte, key: string) {
    && live[o] == 1 && n !in live && o != n && OfName(o, ns, key) && PlainType(o.item.typ) && PlainType(n.item.typ)
    && (n.item.typ == o.item.typ ==> Twins(n, o))
    && forall r :: r in live && OfName(r, ns, key) ==> r == o
  }

  lemma DisplacesSame(live: multiset<Rec>, o: Rec, n: Rec, ns: byte, key: string)
    requires Displaces(live, o, n, ns, key) && n.item.typ == o.item.typ
    ensures Twins(n, o)
  {
  }

  // A value that does not compare as equal makes a record that is not there yet.
  lemma NewRecord(rams: seq<Ram>, img: seq<FPage>, list: seq<nat>, free: seq<nat>, next: nat, hashOf: Id -> nat,
                  live: multiset<Rec>, ns: byte, typ: ItemType, key: string, v: Input, was: Option<Rec>)
    requires Keeps(rams, img, list, free, next, hashOf, live) && Unique(live) && |key| <= MAX_KEY_LENGTH
    requires NoBlob(live, ns, key) && RecordOf(live, ns, key, was) && PlainType(typ) && !typ.ANY?
      && WellFormed(typ, v, CHUNK_ANY)
    requires v.Primitive? ==> OfWidth(typ, |v.bytes|)
    requires was.Some? ==> !SameValue(was.value, typ, InputBytes(v))
    ensures var n := RecOf(ns, typ, key, v, CHUNK_ANY);
      OfName(n, ns, key) && n !in live && (was.Some? ==> Displaces(live, was.value, n, ns, key))
  {
    hide InOrder, RamOk, SameValue, RecsOf, Quiet;
    var n := RecOf(ns, typ, key, v, CHUNK_ANY);
    SameAsItself(ns, typ, key, v);
    match was
    case None =>
    case Some(o) =>
      var p := PageOf(img, o);
      RecordPage(rams, img, list, free, next, hashOf, p);
      RecWritable(img[p].slots, rams[p].top, o);
      forall r | r in live && OfName(r, ns, key) ensures r == o {
        OneOfName(rams, img, list, free, next, hashOf, live, ns, key, r, o);
      }
  }

  lemma MovedIsTogether(rams0: seq<Ram>, img0: seq<FPage>, rams: seq<Ram>, img: seq<FPage>, x: nat, i: nat, p: nat,
                        live: multiset<Rec>, o: Rec, n: Rec, ns: byte, key: string)
    requires MovedTo(img0, rams, img, x, p, n) && IsAt(rams0, img0, x, i, o) && img[p].hdr.Header?
    requires Displaces(live, o, n, ns, key) && Live(img) == live + multiset{n}
    ensures Together(img, live, p, RecsOf(img0[x]), o, n, ns, key)
  {
    hide RecsOf, Live, Whole;
  }

  lemma StayedIsAt(rams0: seq<Ram>, img0: seq<FPage>, rams: seq<Ram>, img: seq<FPage>, hashOf: Id -> nat, x: nat,
                   i: nat, o: Rec)
    requires Stayed(rams0, img0, rams, img, x) && IsAt(rams0, img0, x, i, o) && RamsOk(rams, img, hashOf)
    ensures IsAt(rams, img, x, i, o)
  {
    hide RamOk, Whole, Recs;
    HeadersAre(rams, img, hashOf);
    assert Whole(img0[x].slots, i);
    InRecs(img[x].slots, i);
  }

  // A page with records is where it was exactly if it is still in use under the same number.
  lemma StayedOrMoved(rams0: seq<Ram>, img0: seq<FPage>, rams: seq<Ram>, img: seq<FPage>, p: nat, n: Rec, x: nat)
    requires Traced(rams0, img0, rams, img, p, n) && x < |rams0| && LiveState(rams0[x].state)
    ensures |rams| == |rams0|
    ensures if (rams[x].state.ACTIVE? || rams[x].state.FULL?) && rams[x].seqNo == rams0[x].seqNo
      then Stayed(rams0, img0, rams, img, x)
      else MovedTo(img0, rams, img, x, p, n)
  {
    hide ItemsKept, RecsOf;
  }

  // What losing power during a write leaves on flash: the old records or the new ones, and if the write
  // fails for want of space surely the old ones. Whether they all come up again, `Kept` tells.
  ghost predicate OldOrNew(c: seq<FPage>, live: multiset<Rec>, o: Option<Rec>, n: Rec, ok: bool) {
    Recoverable(c, live) || (ok && Recoverable(c, Updated(live, o, n)))
  }

  lemma AppendCuts(img: seq<FPage>, cuts: iset<seq<FPage>>, cuts0: iset<seq<FPage>>, ns: byte, key: string,
                   o: Option<Rec>, n: Rec, ok: bool)
    requires forall c :: c in cuts && c !in cuts0 ==>
      AppendCut(c, Live(img), n, ok) && (ChunksApart(img) ==> ChunksApart(c))
    requires ok && o.Some? ==> Displaces(Live(img), o.value, n, ns, key) && n.item.typ == o.value.item.typ
    ensures forall c :: c in cuts && c !in cuts0 ==>
      OldOrNew(c, Live(img), o, n, ok) && (ChunksApart(img) ==> ChunksApart(c))
  {
    hide Live, Recoverable, ChunksApart, Appending;
    forall c: seq<FPage> | c in cuts && c !in cuts0 ensures OldOrNew(c, Live(img), o, n, ok) {
      if ok {
        AppendingIsRecoverable(c, Live(img), n, o);
      }
    }
  }

  lemma UpdateCuts(img0: seq<FPage>, img: seq<FPage>, cuts: iset<seq<FPage>>, mid: iset<seq<FPage>>,
                   cuts0: iset<seq<FPage>>, o: Rec, n: Rec)
    requires forall c :: c in mid && c !in cuts0 ==>
      OldOrNew(c, Live(img0), Some(o), n, true) && (ChunksApart(img0) ==> ChunksApart(c))
    requires ChunksApart(img0) ==> ChunksApart(img)
    requires forall c :: c in cuts && c !in mid ==>
      Recoverable(c, Live(img0) - multiset{o} + multiset{n}) && (ChunksApart(img) ==> ChunksApart(c))
    ensures forall c :: c in cuts && c !in cuts0 ==>
      OldOrNew(c, Live(img0), Some(o), n, true) && (ChunksApart(img0) ==> ChunksApart(c))
  {
    hide Live, Recoverable, ChunksApart;
  }

  lemma WasAt(rams: seq<Ram>, img: seq<FPage>, x: nat, i: nat, o: Rec)
    requires IsAt(rams, img, x, i, o)
    ensures x < |rams| == |img| && LiveState(rams[x].state) && i < ENTRY_COUNT == |img[x].slots| && img[x].hdr.Header?
    ensures Whole(img[x].slots, i) && RecAt(img[x].slots, i) == o
  {
  }
}
