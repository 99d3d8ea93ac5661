// What page operations write, and what a power cut in the middle of one can leave on the page.
module PageCuts {
  import opened NvsTypes
  import opened PageImage
  import opened PageSteps
  import opened PageRam
  import opened PageWrites
  import opened PageWalk
  import opened PageSearch
  import opened PageErases
  import opened PageLoad
  import opened PageScan
  import opened PageValues
  import opened ItemHashList
  import opened FlashDevice

  // Entries [m, end) of s with their state ANDed with st.
  function RangeSet(s: seq<Slot>, m: nat, end: nat, st: EntryState): (t: seq<Slot>)
    requires m <= end <= |s|
    ensures |t| == |s|
    ensures forall k :: 0 <= k < |s| ==> t[k] == if m <= k < end then Slot(AndState(s[k].st, st), s[k].body) else s[k]
  {
    seq(|s|, k requires 0 <= k < |s| => if m <= k < end then Slot(AndState(s[k].st, st), s[k].body) else s[k])
  }

  // ---------------------------------------------------------------- what gets written

  // What writeItem answers on a page in state `st` whose next free entry is `nextFree`.
  function WriteVerdict(st: PageState, nextFree: nat, typ: ItemType, key: string, v: Input): Error {
    if st.FULL? then PAGE_FULL
    else if |key| > MAX_KEY_LENGTH then KEY_TOO_LONG
    else if InputSize(v) > CHUNK_MAX_SIZE then VALUE_TOO_LONG
    else if !IsVariableLengthType(typ) && InputSize(v) > 8 then INVALID_ARG
    else if !Fits(if st.UNINITIALIZED? then 0 else nextFree, SpanFor(typ, v)) then PAGE_FULL
    else OK
  }

  // An item on its way to a page with the image `before`: nothing of it counts until all is there.
  ghost predicate WriteCut(before: FPage, c: FPage, seqNo: nat, rec: Rec) {
    && |before.slots| == ENTRY_COUNT && |c.slots| == ENTRY_COUNT
    && (c.hdr == before.hdr || (before.hdr.NoHeader? && (c.hdr.BadHeader? || c.hdr == Header(ACTIVE, seqNo))))
    && (!c.hdr.Header? ==> c.slots == before.slots)
    && LooseImage(c.slots)
    && (Recs(c.slots) == Recs(before.slots) || Recs(c.slots) == Recs(before.slots) + [rec])
  }

  // Items stay where they are.
  ghost predicate ItemsKept(s: seq<Slot>, t: seq<Slot>) {
    forall i: nat :: Whole(s, i) ==> Whole(t, i) && RecAt(t, i) == RecAt(s, i)
  }

  lemma SameKeeps(s: seq<Slot>)
    ensures ItemsKept(s, s)
  {
  }

  lemma PartialKeeps(s0: seq<Slot>, s: seq<Slot>, f: nat, rec: Rec)
    requires Partial(s0, s, f, rec)
    ensures ItemsKept(s0, s)
  {
    forall i: nat | Whole(s0, i) ensures Whole(s, i) && RecAt(s, i) == RecAt(s0, i) {
      assert HeadFits(s0, i, f);
    }
  }

  ghost predicate LooseImage(s: seq<Slot>) {
    exists nf: nat :: Loose(s, nf)
  }

  // Flushing the word the range is about to leave brings flash up to the table in RAM.
  lemma FlushWord(s: seq<Slot>, m: nat, i: nat, end: nat, st: EntryState, w: nat, table: seq<EntryState>)
    requires i < m <= end <= |s| && |table| == |s|
    requires forall k :: i <= k < m ==> k / 16 == w && AndState(s[k].st, st) == st
    requires forall k :: m <= k < end ==> AndState(s[k].st, st) == st
    requires forall k :: 0 <= k < |s| ==> table[k] == if i <= k < end then st else s[k].st
    ensures PutWord(RangeSet(s, m, end, st), w, table) == RangeSet(s, i, end, st)
  {
  }

  ghost predicate EntryCut(img: seq<FPage>, c: seq<FPage>, p: nat, i: nat, body: Body) {
    && OnlyPage(img, c, p) && c[p].hdr == img[p].hdr && i < |img[p].slots|
    && |c[p].slots| == |img[p].slots| && c[p].slots == img[p].slots[i := c[p].slots[i]]
    && (c[p].slots[i] == Slot(WRITTEN, body) || (c[p].slots[i].st.EMPTY? && CutBody(body, c[p].slots[i].body)))
  }

  // From entry i on these bodies are on their way: an entry counts as WRITTEN only once all are there.
  ghost predicate PayloadCut(img: seq<FPage>, c: seq<FPage>, p: nat, i: nat, bodies: seq<Body>) {
    && OnlyPage(img, c, p) && c[p].hdr == img[p].hdr && i + |bodies| <= |img[p].slots|
    && |c[p].slots| == |img[p].slots|
    && (forall k :: 0 <= k < |img[p].slots| && !(i <= k < i + |bodies|) ==> c[p].slots[k] == img[p].slots[k])
    && (forall k :: i <= k < i + |bodies| ==> c[p].slots[k].st.EMPTY? || c[p].slots[k] == Slot(WRITTEN, bodies[k - i]))
  }

  // ---------------------------------------------------------------- power cuts while an item is written

  ghost predicate PutCut(img: seq<FPage>, c: seq<FPage>, p: nat, seqNo: nat, rec: Rec) {
    OnlyPage(img, c, p) && WriteCut(img[p], c[p], seqNo, rec)
  }

  // The item has not made it to the page.
  ghost predicate NothingPut(img: seq<FPage>, c: seq<FPage>, p: nat) {
    OnlyPage(img, c, p) && Recs(c[p].slots) == Recs(img[p].slots)
  }

  lemma PartialIsPutCut(img: seq<FPage>, c: seq<FPage>, p: nat, seqNo: nat, f: nat, rec: Rec)
    requires OnlyPage(img, c, p) && c[p].hdr == img[p].hdr && img[p].hdr.Header?
    requires Partial(img[p].slots, c[p].slots, f, rec)
    ensures PutCut(img, c, p, seqNo, rec)
  {
    PartialRecs(img[p].slots, c[p].slots, f, rec);
  }

  // Behind an item that has just been written there is nothing.
  lemma WrittenEnds(s0: seq<Slot>, s: seq<Slot>, f: nat, rec: Rec)
    requires Partial(s0, s, f, rec) && Complete(s, f, rec)
    ensures EndsInItem(s)
  {
    PartialRecs(s0, s, f, rec);
    assert EndsAt(s, f, |s|);
  }

  lemma PutHeadCuts(img: seq<FPage>, cuts0: iset<seq<FPage>>, cuts: iset<seq<FPage>>, p: nat, seqNo: nat, f: nat,
                    rec: Rec)
    requires p < |img| && img[p].hdr.Header? && Quiet(img[p].slots, f) && f < ENTRY_COUNT
    requires WritableId(rec.item) && Consistent(rec.item, f) && f + rec.item.span <= ENTRY_COUNT
    requires |rec.payload| == rec.item.span - 1 && forall k :: 0 <= k < |rec.payload| ==> Payload(rec.payload[k])
    requires forall c :: c in cuts && c !in cuts0 ==> EntryCut(img, c, p, f, Head(rec.item))
    ensures forall c :: c in cuts && c !in cuts0 ==> PutCut(img, c, p, seqNo, rec)
  {
    forall c: seq<FPage> | c in cuts && c !in cuts0 ensures PutCut(img, c, p, seqNo, rec) {
      assert EntryCut(img, c, p, f, Head(rec.item));
      var x := c[p].slots[f];
      if x.st.WRITTEN? {
        PartialIsPutCut(img, c, p, seqNo, f, rec);
      } else {
        BodyProgrammed(img[p].slots, f, x.body);
        assert x == Slot(EMPTY, x.body);
      }
    }
  }

  lemma PutDataCuts(img: seq<FPage>, was: seq<FPage>, cuts0: iset<seq<FPage>>, cuts: iset<seq<FPage>>, p: nat,
                    seqNo: nat, f: nat, rec: Rec, i: nat, bodies: seq<Body>)
    requires OnlyPage(img, was, p) && was[p].hdr == img[p].hdr && img[p].hdr.Header?
    requires Partial(img[p].slots, was[p].slots, f, rec) && f < i && i + |bodies| <= f + rec.item.span
    requires forall k :: 0 <= k < |bodies| ==> rec.payload[i - f - 1 + k] == Slot(WRITTEN, bodies[k])
    requires forall c :: c in cuts && c !in cuts0 ==> PayloadCut(was, c, p, i, bodies)
    ensures forall c :: c in cuts && c !in cuts0 ==> PutCut(img, c, p, seqNo, rec)
  {
    forall c: seq<FPage> | c in cuts && c !in cuts0 ensures PutCut(img, c, p, seqNo, rec) {
      assert PayloadCut(was, c, p, i, bodies);
      assert Partial(img[p].slots, c[p].slots, f, rec);
      PartialIsPutCut(img, c, p, seqNo, f, rec);
    }
  }

  lemma PutTailCuts(img: seq<FPage>, was: seq<FPage>, cuts0: iset<seq<FPage>>, cuts: iset<seq<FPage>>, p: nat,
                    seqNo: nat, f: nat, rec: Rec, i: nat, body: Body)
    requires OnlyPage(img, was, p) && was[p].hdr == img[p].hdr && img[p].hdr.Header?
    requires Partial(img[p].slots, was[p].slots, f, rec) && f < i < f + rec.item.span
    requires rec.payload[i - f - 1] == Slot(WRITTEN, body)
    requires forall c :: c in cuts && c !in cuts0 ==> EntryCut(was, c, p, i, body)
    ensures forall c :: c in cuts && c !in cuts0 ==> PutCut(img, c, p, seqNo, rec)
  {
    forall c: seq<FPage> | c in cuts && c !in cuts0 ensures PutCut(img, c, p, seqNo, rec) {
      assert EntryCut(was, c, p, i, body);
      assert Partial(img[p].slots, c[p].slots, f, rec);
      PartialIsPutCut(img, c, p, seqNo, f, rec);
    }
  }

  lemma InitCuts(before: FPage, cuts: iset<seq<FPage>>, cuts0: iset<seq<FPage>>, img: seq<FPage>, p: nat, seqNo: nat,
                 rec: Rec)
    requires p < |img| && img[p] == before && before == ErasedPage()
    requires forall c :: c in cuts && c !in cuts0 ==> OnlyPage(img, c, p) && HeaderCut(before, c[p], ACTIVE, seqNo)
    ensures forall c :: c in cuts && c !in cuts0 ==> PutCut(img, c, p, seqNo, rec) && NothingPut(img, c, p)
  {
    BlankIsQuiet();
  }

  lemma AfterInitCuts(before: FPage, img: seq<FPage>, mid: seq<FPage>, cuts: iset<seq<FPage>>,
                      midCuts: iset<seq<FPage>>, p: nat, seqNo: nat, rec: Rec)
    requires p < |img| && img[p] == before && OnlyPage(img, mid, p) && mid[p].slots == before.slots
    requires mid[p].hdr == (if before.hdr.NoHeader? then Header(ACTIVE, seqNo) else before.hdr) && mid[p].hdr.Header?
    requires forall c :: c in cuts && c !in midCuts ==> PutCut(mid, c, p, seqNo, rec)
    ensures forall c :: c in cuts && c !in midCuts ==> PutCut(img, c, p, seqNo, rec)
  {
    forall c: seq<FPage> | c in cuts && c !in midCuts ensures PutCut(img, c, p, seqNo, rec) {
      assert PutCut(mid, c, p, seqNo, rec);
    }
  }

  ghost predicate ItemEraseCut(img: seq<FPage>, c: seq<FPage>, p: nat, nf: nat, a: nat) {
    OnlyPage(img, c, p) && c[p].hdr == img[p].hdr && EraseCut(img[p].slots, c[p].slots, nf, a)
  }

  lemma RemovedIsEraseCut(img: seq<FPage>, c: seq<FPage>, p: nat, nf: nat, a: nat)
    requires OnlyPage(img, c, p) && c[p].hdr == img[p].hdr && Removed(img[p].slots, c[p].slots, nf, a)
    ensures ItemEraseCut(img, c, p, nf, a)
  {
  }

  lemma RangeSetIsEraseCut(s: seq<Slot>, nf: nat, a: nat, span: nat, m: nat)
    requires Loose(s, nf) && a < nf && IsHead(s[a]) && span == SpanAt(s, a) && a <= m <= a + span <= ENTRY_COUNT
    ensures EraseCut(s, RangeSet(s, m, a + span, ERASED), nf, a)
    ensures m == a ==> Removed(s, RangeSet(s, m, a + span, ERASED), nf, a)
  {
    assert forall k :: 0 <= k < |s| ==> AndState(s[k].st, ERASED) == ERASED;
  }

  lemma EraseCuts(img: seq<FPage>, now: seq<FPage>, cuts0: iset<seq<FPage>>, cuts: iset<seq<FPage>>, p: nat,
                  nf: nat, a: nat, span: nat)
    requires p < |img| && Loose(img[p].slots, nf) && a < nf && IsHead(img[p].slots[a])
      && span == SpanAt(img[p].slots, a)
    requires a + span <= ENTRY_COUNT && span >= 1
    requires now == img[p := img[p].(slots := RangeSet(img[p].slots, a, a + span, ERASED))]
    requires forall c :: c in cuts && c !in cuts0 ==> c == now || RangeCut(img, c, p, a, a + span, ERASED)
    ensures Removed(img[p].slots, now[p].slots, nf, a)
    ensures forall c :: c in cuts && c !in cuts0 ==> ItemEraseCut(img, c, p, nf, a)
  {
    RangeSetIsEraseCut(img[p].slots, nf, a, span, a);
    forall c: seq<FPage> | c in cuts && c !in cuts0 ensures ItemEraseCut(img, c, p, nf, a) {
      if c != now {
        var m: nat :| a <= m <= a + span && c[p].slots == RangeSet(img[p].slots, m, a + span, ERASED);
        RangeSetIsEraseCut(img[p].slots, nf, a, span, m);
      }
    }
  }

  // ---------------------------------------------------------------- power cuts while a page is loaded

  ghost predicate StepCut(img: seq<FPage>, c: seq<FPage>, p: nat, recs: seq<Rec>, dedup: bool, hashOf: Id -> nat) {
    && OnlyPage(img, c, p) && c[p].hdr == img[p].hdr && Loadable(c[p])
    && StageOf(recs, Recs(c[p].slots), dedup, hashOf)
  }

  lemma DropCuts(img: seq<FPage>, was: seq<FPage>, cuts: iset<seq<FPage>>, cuts0: iset<seq<FPage>>, p: nat,
                 s: seq<Slot>, t: seq<Slot>, nf: nat, a: nat, recs: seq<Rec>, dedup: bool, hashOf: Id -> nat)
    requires OnlyPage(img, was, p) && was[p].hdr == img[p].hdr && img[p].hdr.Header? && was[p].slots == s
    requires LiveState(img[p].hdr.st) && SoundAt(img[p].hdr.st, s, nf) && Removed(s, t, nf, a)
    requires StageOf(recs, Recs(s), dedup, hashOf) && StageOf(recs, Recs(t), dedup, hashOf)
    requires forall c :: c in cuts && c !in cuts0 ==> ItemEraseCut(was, c, p, nf, a)
    ensures forall c :: c in cuts && c !in cuts0 ==> StepCut(img, c, p, recs, dedup, hashOf)
    ensures SoundAt(img[p].hdr.st, t, nf)
  {
    EraseStage(img[p].hdr.st, s, t, t, nf, a, recs, dedup, hashOf);
    forall c: seq<FPage> | c in cuts && c !in cuts0 ensures StepCut(img, c, p, recs, dedup, hashOf) {
      assert ItemEraseCut(was, c, p, nf, a);
      EraseStage(img[p].hdr.st, s, t, c[p].slots, nf, a, recs, dedup, hashOf);
    }
  }

  lemma {:induction false} TailCuts(img: seq<FPage>, now: seq<FPage>, cuts: iset<seq<FPage>>, cuts0: iset<seq<FPage>>,
                                    p: nat, nf: nat, a: nat)
    requires p < |img| && img[p].hdr.Header? && img[p].hdr.st.ACTIVE? && Quiet(img[p].slots, nf)
    requires forall c :: c in cuts && c !in cuts0 ==> ItemEraseCut(img, c, p, nf, a)
    requires a < ENTRY_COUNT
      && ChunkDropped(Recs(img[p].slots)) == RecsIn(img[p].slots, 0, a) + RecsIn(img[p].slots, a + 1, ENTRY_COUNT)
    ensures forall c :: c in cuts && c !in cuts0 ==> TailCut(img, c, p)
  {
    forall c: seq<FPage> | c in cuts && c !in cuts0 ensures TailCut(img, c, p) {
      assert ItemEraseCut(img, c, p, nf, a);
      EraseCutIsLoose(img[p].slots, c[p].slots, nf, a);
      assert SoundAt(ACTIVE, c[p].slots, nf);
    }
  }

  // An active page that lost power while its last duplicate was being dropped.
  ghost predicate TailCut(img: seq<FPage>, c: seq<FPage>, p: nat) {
    && OnlyPage(img, c, p) && c[p].hdr == img[p].hdr && Loadable(c[p])
    && (Recs(c[p].slots) == Recs(img[p].slots) || Recs(c[p].slots) == ChunkDropped(Recs(img[p].slots)))
  }

  // The records loading leaves on a page.
  ghost function LoadedRecsOf(fp: FPage, hashOf: Id -> nat): seq<Rec>
    requires fp.hdr.Header?
  {
    if fp.hdr.st.ACTIVE? then LoadedRecs(Recs(fp.slots), EndsInItem(fp.slots), hashOf) else Recs(fp.slots)
  }

  // A page that lost power while it was being loaded.
  ghost predicate LoadCut(img: seq<FPage>, c: seq<FPage>, p: nat, hashOf: Id -> nat) {
    && OnlyPage(img, c, p) && c[p].hdr == img[p].hdr && c[p].hdr.Header? && Loadable(c[p])
    && (Recs(c[p].slots) == LoadedRecsOf(img[p], hashOf)
        || StageOf(Recs(img[p].slots), Recs(c[p].slots), img[p].hdr.st.ACTIVE?, hashOf))
  }

  // A page that loading has nothing to repair on.
  ghost predicate Clean(fp: FPage, hashOf: Id -> nat) {
    && fp.hdr.Header? && (exists nf: nat :: Quiet(fp.slots, nf))
    && (fp.hdr.st.ACTIVE? ==>
      HashesApart(fp.slots, ENTRY_COUNT, hashOf) && !(EndsInItem(fp.slots) && ChunkShadowed(Recs(fp.slots))))
  }

  lemma LoadCuts(img: seq<FPage>, mid: seq<FPage>, cuts: iset<seq<FPage>>, cuts2: iset<seq<FPage>>,
                 cuts0: iset<seq<FPage>>, p: nat, hashOf: Id -> nat)
    requires OnlyPage(img, mid, p) && mid[p].hdr == img[p].hdr && img[p].hdr.Header?
    requires forall c :: c in cuts2 && c !in cuts0 ==>
      StepCut(img, c, p, Recs(img[p].slots), img[p].hdr.st.ACTIVE?, hashOf)
    requires cuts != cuts2 ==>
      img[p].hdr.st.ACTIVE? && EndsInItem(img[p].slots) && Recs(mid[p].slots) == Deduped(Recs(img[p].slots), hashOf)
    requires forall c :: c in cuts && c !in cuts2 ==> TailCut(mid, c, p)
    ensures forall c :: c in cuts && c !in cuts0 ==> LoadCut(img, c, p, hashOf)
  {
    hide Recs, EndsInItem, Deduped, ChunkDropped;
    var r := Recs(img[p].slots);
    assert Deduped(r, hashOf) == Checked(r[..|r|], true, hashOf) + r[|r|..] by {
      assert r[..|r|] == r;
    }
    forall c: seq<FPage> | c in cuts && c !in cuts0 ensures LoadCut(img, c, p, hashOf) {
      if c in cuts2 {
        assert StepCut(img, c, p, r, img[p].hdr.st.ACTIVE?, hashOf);
      } else {
        assert TailCut(mid, c, p);
      }
    }
  }

  lemma CleanMeans(fp: FPage, nf: nat, hashOf: Id -> nat)
    requires Loose(fp.slots, nf)
    ensures Clean(fp, hashOf) ==> Quiet(fp.slots, nf)
    ensures Clean(fp, hashOf) && fp.hdr.st.ACTIVE? ==>
      HashesApart(fp.slots, ENTRY_COUNT, hashOf) && !(EndsInItem(fp.slots) && ChunkShadowed(Recs(fp.slots)))
  {
    if Clean(fp, hashOf) {
      var nf': nat :| Quiet(fp.slots, nf');
      EndIsUnique(fp.slots, nf, nf');
    }
  }

  lemma ProbeIsStep(img: seq<FPage>, c: seq<FPage>, p: nat, s0: seq<Slot>, nf: nat, e: nat, g: nat, hashOf: Id -> nat)
    requires OnlyPage(img, c, p) && c[p].hdr == img[p].hdr && img[p].hdr.Header? && img[p].hdr.st.ACTIVE?
    requires Probing(s0, c[p].slots, nf, e, g)
    ensures StepCut(img, c, p, Recs(s0), true, hashOf)
  {
    assert SoundAt(ACTIVE, c[p].slots, nf);
    assert Recs(s0) == Checked(Recs(s0)[..0], true, hashOf) + Recs(s0)[0..];
  }

  // ---------------------------------------------------------------- moving items to another page

  // A page that lost power while it was being filled with copies holds the first few of them.
  ghost predicate CopyCut(img: seq<FPage>, c: seq<FPage>, p: nat, seqNo: nat, recs: seq<Rec>) {
    && OnlyPage(img, c, p) && |c[p].slots| == ENTRY_COUNT
    && (c[p].hdr.NoHeader? || c[p].hdr.BadHeader? || c[p].hdr == Header(ACTIVE, seqNo))
    && (!c[p].hdr.Header? ==> c[p].slots == img[p].slots)
    && LooseImage(c[p].slots) && Recs(c[p].slots) <= recs
  }

  lemma InitIsCopyCut(img: seq<FPage>, cuts: iset<seq<FPage>>, cuts0: iset<seq<FPage>>, p: nat, seqNo: nat,
                      recs: seq<Rec>)
    requires p < |img| && img[p] == ErasedPage()
    requires forall c :: c in cuts && c !in cuts0 ==> OnlyPage(img, c, p) && HeaderCut(img[p], c[p], ACTIVE, seqNo)
    ensures forall c :: c in cuts && c !in cuts0 ==> CopyCut(img, c, p, seqNo, recs)
  {
    BlankIsQuiet();
  }

  lemma {:induction false} PutIsCopyCut(img: seq<FPage>, mid: seq<FPage>, cuts: iset<seq<FPage>>,
                                        midCuts: iset<seq<FPage>>, p: nat, seqNo: nat, s: seq<Slot>, i: nat)
    requires OnlyPage(img, mid, p) && mid[p].hdr == Header(ACTIVE, seqNo) && i < |s| && Whole(s, i)
    requires Recs(mid[p].slots) == RecsIn(s, 0, i)
    requires forall c :: c in cuts && c !in midCuts ==> PutCut(mid, c, p, seqNo, RecAt(s, i))
    ensures forall c :: c in cuts && c !in midCuts ==> CopyCut(img, c, p, seqNo, Recs(s))
  {
    forall c: seq<FPage> | c in cuts && c !in midCuts ensures CopyCut(img, c, p, seqNo, Recs(s)) {
      assert PutCut(mid, c, p, seqNo, RecAt(s, i));
      RecsAround(s, i);
    }
  }

  lemma FreshRam(r: Ram, hashOf: Id -> nat)
    requires r.state.ACTIVE? && r.nextFree == 0 && r.firstUsed == INVALID_ENTRY && r.used == 0 && r.nodes == {}
      && r.top == 0
    requires r.table == seq(ENTRY_COUNT, _ => EMPTY)
    ensures InUse(r, BlankPage(), hashOf)
  {
    BlankIsQuiet();
    CountAll(BlankPage(), 0, |BlankPage()|, false);
  }

  // Going from item to item, a written entry starts a whole one.
  lemma NextSource(r: Ram, s: seq<Slot>, hashOf: Id -> nat, i: nat)
    requires InUse(r, s, hashOf) && Boundary(s, i) && i < |r.table| && r.table[i].WRITTEN?
    ensures i < |s| && IsHead(s[i]) && Whole(s, i)
  {
    WrittenAtBoundary(s, r.top, i);
  }

  lemma NothingWritten(r: Ram, s: seq<Slot>, hashOf: Id -> nat)
    requires InUse(r, s, hashOf) && r.firstUsed == INVALID_ENTRY
    ensures Recs(s) == [] && r.used == 0
  {
    RecsNone(s, 0, |s|);
    CountAll(s, 0, |s|, false);
  }

  // ---------------------------------------------------------------- searching

  ghost predicate Answers(err: Error, index: nat, item: Option<Item>, s: seq<Slot>, f: Found) {
    match f
    case Nothing => err == NOT_FOUND
    case Hit(i) => err == OK && index == i && i < |s| && IsHead(s[i]) && item == Some(s[i].body.item)
    case WrongType(i) => err == TYPE_MISMATCH
  }

  // What readItem answers, given what the search finds.
  ghost predicate ReadAnswers(err: Error, data: seq<byte>, s: seq<Slot>, f: Found, typ: ItemType, size: nat) {
    match f
    case Nothing => err == NOT_FOUND
    case WrongType(_) => err == TYPE_MISMATCH
    case Hit(i) =>
      Whole(s, i) && WholeRec(RecAt(s, i)) && RecAt(s, i).item.typ == typ && (
        var r := RecAt(s, i);
        if IsVariableLengthType(typ) then
          if size < r.item.val.dataSize then err == INVALID_LENGTH else err == OK && data == DataOf(r)
        else
          if !OfWidth(typ, size) then err == TYPE_MISMATCH
          else err == OK && size <= |ValueOf(r)| && data == ValueOf(r)[..size])
  }

  ghost predicate CmpAnswers(err: Error, data: seq<byte>, s: seq<Slot>, f: Found, typ: ItemType)
    requires !typ.ANY?
  {
    match f
    case Nothing => err == NOT_FOUND
    case WrongType(_) => err == TYPE_MISMATCH
    case Hit(i) =>
      Whole(s, i) && WholeRec(RecAt(s, i)) && RecAt(s, i).item.typ == typ && (
        var r := RecAt(s, i);
        if IsVariableLengthType(typ) then
          err == if |data| < r.item.val.dataSize then INVALID_LENGTH
                 else if data[..r.item.val.dataSize] == DataOf(r) then OK else CONTENT_DIFFERS
        else
          && |ValueOf(r)| == 8
          && err == if !OfWidth(typ, |data|) then TYPE_MISMATCH
                    else if ValueOf(r)[..|data|] == data then OK else CONTENT_DIFFERS)
  }

  predicate HeadIs(s: seq<Slot>, i: nat, typ: ItemType) {
    && i < |s| && IsHead(s[i]) && s[i].body.item.typ == typ
    && (!IsVariableLengthType(typ) ==> s[i].body.item.val.Scalar? && |s[i].body.item.val.bytes| == 8)
  }

  lemma FoundType(s: seq<Slot>, nf: nat, q: Query, hashOf: Id -> nat)
    requires Quiet(s, nf) && !q.typ.ANY? && !q.typ.BLOB_IDX?
    ensures var f := FindVia(s, q, hashOf, 0);
      f.Hit? ==> HeadIs(s, f.index, q.typ)
  {
    var from := if UsesHash(q) then FirstHash(s, hashOf, hashOf(QueryId(q)), 0) else 0;
    FindMeans(s, q, from);
    var f := FindVia(s, q, hashOf, 0);
    assert f.Hit? ==> HeadFits(s, f.index, nf);
  }

  // As much of the data as has been compared is the same, and now the next bytes are or are not.
  lemma NextSame(data: seq<byte>, b: seq<byte>, size: nat, k: nat, bytes: seq<byte>, take: nat)
    requires (k + 1) * ENTRY_SIZE <= |b| && bytes == b[k * ENTRY_SIZE..(k + 1) * ENTRY_SIZE] && size <= |data|
      && size <= |b|
    requires take == if LeftAfter(size, k) < ENTRY_SIZE then LeftAfter(size, k) else ENTRY_SIZE
    requires data[..size - LeftAfter(size, k)] == b[..size - LeftAfter(size, k)]
    ensures LeftAfter(size, k) <= size && LeftAfter(size, k + 1) == LeftAfter(size, k) - take && take <= |bytes|
    ensures var at := size - LeftAfter(size, k);
      at + take <= size && (data[at..at + take] == bytes[..take] ==> data[..at + take] == b[..at + take])
    ensures var at := size - LeftAfter(size, k); data[at..at + take] != bytes[..take] ==> data[..size] != b[..size]
  {
    NextBytes(b, size, k, bytes, take);
    var at := size - LeftAfter(size, k);
    assert data[..at + take] == data[..at] + data[at..at + take];
    if data[at..at + take] != bytes[..take] {
      DiffersAt(data, b, at, take, size);
    }
  }

  lemma DiffersAt(data: seq<byte>, b: seq<byte>, dst: nat, n: nat, size: nat)
    requires dst + n <= size <= |data| && size <= |b| && data[dst..dst + n] != b[dst..dst + n]
    ensures data[..size] != b[..size]
  {
    assert data[..size][dst..dst + n] == data[dst..dst + n];
    assert b[..size][dst..dst + n] == b[dst..dst + n];
  }

  lemma {:induction false} FoundIsFirst(nodes: set<Node>, s: seq<Slot>, hashOf: Id -> nat, hash: nat, from: nat,
                                        start: nat, cached: nat)
    requires Indexes(nodes, s, hashOf, ENTRY_COUNT) && |s| == ENTRY_COUNT && from < ENTRY_COUNT && from <= start
    requires forall k: nat :: from <= k < start && k < |s| ==> !IsHead(s[k])
    requires cached == NO_ENTRY ==> forall n :: n in nodes ==> !Matches(n, start, hash)
    requires cached != NO_ENTRY ==> cached >= start && Node(cached, hash) in nodes
    requires cached != NO_ENTRY ==> forall n :: n in nodes && Matches(n, start, hash) ==> cached <= n.index
    ensures FirstHash(s, hashOf, hash, from) == if cached < ENTRY_COUNT then cached else ENTRY_COUNT
    ensures cached < ENTRY_COUNT ==> IsHead(s[cached])
  {
    var r := FirstHash(s, hashOf, hash, from);
    forall k: nat | from <= k < |s| && HasHash(s, k, hashOf, hash)
      ensures cached != NO_ENTRY && cached <= k
    {
      assert NodeAt(s, k, hashOf) in nodes && Matches(NodeAt(s, k, hashOf), start, hash);
    }
    if cached < ENTRY_COUNT {
      assert HasHash(s, cached, hashOf, hash);
    }
  }

  lemma BodiesCutIsPayload(img: seq<FPage>, c: seq<FPage>, p: nat, i: nat, bodies: seq<Body>)
    requires OnlyPage(img, c, p) && i + |bodies| <= |img[p].slots| && BodiesCut(img[p], c[p], i, bodies)
    requires forall k :: i <= k < i + |bodies| ==> img[p].slots[k] == BLANK_SLOT
    ensures PayloadCut(img, c, p, i, bodies)
  {
  }

  lemma RangeCutIsPayload(img: seq<FPage>, mid: seq<FPage>, c: seq<FPage>, p: nat, i: nat, bodies: seq<Body>)
    requires p < |img| && i + |bodies| <= |img[p].slots|
    requires mid == img[p := img[p].(slots := PutBodies(img[p].slots, i, bodies))]
    requires RangeCut(mid, c, p, i, i + |bodies|, WRITTEN)
    requires forall k :: i <= k < i + |bodies| ==> img[p].slots[k] == BLANK_SLOT
    ensures PayloadCut(img, c, p, i, bodies)
  {
    var m: nat :| i <= m <= i + |bodies| && c[p].slots == RangeSet(mid[p].slots, m, i + |bodies|, WRITTEN);
    assert OnlyPage(img, c, p);
  }

  lemma RangeSetIsCut(img: seq<FPage>, c: seq<FPage>, p: nat, begin: nat, m: nat, end: nat, st: EntryState)
    requires p < |img| && begin <= m <= end <= |img[p].slots|
    requires c == img[p := img[p].(slots := RangeSet(img[p].slots, m, end, st))]
    ensures RangeCut(img, c, p, begin, end, st)
  {
  }

  ghost predicate RangeCut(img: seq<FPage>, c: seq<FPage>, p: nat, begin: nat, end: nat, st: EntryState) {
    && OnlyPage(img, c, p) && c[p].hdr == img[p].hdr && begin <= end <= |img[p].slots|
    && exists m: nat :: begin <= m <= end && c[p].slots == RangeSet(img[p].slots, m, end, st)
  }
}
