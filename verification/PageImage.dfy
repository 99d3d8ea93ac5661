// One 4 KiB page as it lies on flash: a header and 126 entries, each with a two-bit state and a
// 32-byte body. The records of a page are defined by its image alone; everything the engine
// keeps in RAM has to agree with them.
module PageImage {
  import opened NvsTypes

  datatype EntryState = EMPTY | WRITTEN | ERASED | ILLEGAL

  // EMPTY is 0b11, WRITTEN 0b10, ERASED 0b00 and ILLEGAL 0b01: programming flash ANDs the bits.
  function AndState(a: EntryState, b: EntryState): EntryState {
    if a.EMPTY? then b
    else if b.EMPTY? || a == b then a
    else ERASED
  }

  function EntryBits(st: EntryState): bv2 {
    match st
    case EMPTY => 3
    case WRITTEN => 2
    case ERASED => 0
    case ILLEGAL => 1
  }

  lemma StatesAreAnded(a: EntryState, b: EntryState)
    ensures EntryBits(AndState(a, b)) == EntryBits(a) & EntryBits(b)
  {
  }

  // A body is blank, an item header with its CRC right, payload, or what is left of a write that
  // power loss cut short. Payload may happen to look like a header (a blob can hold anything, even
  // an NVS dump), so nothing is known about what the engine reads if it takes payload for one.
  datatype Body =
    | Blank
    | Head(item: Item)
    | Data(bytes: EntryBytes)
    | Cut(wordBlank: bool)

  datatype Slot = Slot(st: EntryState, body: Body)

  const BLANK_SLOT := Slot(EMPTY, Blank)

  function AndBody(a: Body, b: Body): Body {
    if a.Blank? then b
    else if b.Blank? then a
    else Cut(false)
  }

  // A body can be written once. What is written over it leaves neither, until the sector is erased.
  lemma WrittenOnce(a: Body, b: Body)
    ensures AndBody(Blank, b) == b && AndBody(a, Blank) == a
    ensures !a.Blank? && !b.Blank? ==> AndBody(a, b).Cut?
  {
  }

  // Whether the first 32-bit word of the body still reads 0xffffffff.
  predicate FirstWordBlank(b: Body) {
    match b
    case Blank => true
    case Head(_) => false
    case Data(bytes) => bytes[0] == bytes[1] == bytes[2] == bytes[3] == 255
    case Cut(w) => w
  }

  // What a byte prefix of a write of `whole` can leave in a blank body.
  predicate CutBody(whole: Body, b: Body) {
    || b == whole
    || b.Blank?
    || (b.Cut? && (b.wordBlank ==>
          (whole.Head? && whole.item.ns == 255) || (whole.Data? && whole.bytes[0] == 255)
          || whole.Blank? || whole.Cut?))
  }

  // ---------------------------------------------------------------- items and records

  predicate IsHead(x: Slot) {
    x.st.WRITTEN? && x.body.Head?
  }

  // Entries an item takes, 0 where no item starts.
  function SpanAt(s: seq<Slot>, i: nat): nat {
    if i < |s| && IsHead(s[i]) then s[i].body.item.span else 0
  }

  predicate Payload(x: Slot) {
    x.st.WRITTEN? && x.body.Data?
  }

  // An item starts at i and all of its payload is there.
  predicate Whole(s: seq<Slot>, i: nat) {
    && i < |s| && IsHead(s[i])
    && 1 <= SpanAt(s, i) && i + SpanAt(s, i) <= |s|
    && forall j :: i < j < i + SpanAt(s, i) ==> Payload(s[j])
  }

  // An item with its payload entries, wherever on flash it lies.
  datatype Rec = Rec(item: Item, payload: seq<Slot>)

  function RecAt(s: seq<Slot>, i: nat): Rec
    requires Whole(s, i)
  {
    Rec(s[i].body.item, s[i + 1..i + SpanAt(s, i)])
  }

  function ItemAt(s: seq<Slot>, i: nat): seq<Rec> {
    if Whole(s, i) then [RecAt(s, i)] else []
  }

  // The whole items that start in [lo, hi), in entry order.
  function RecsIn(s: seq<Slot>, lo: nat, hi: nat): seq<Rec>
    requires lo <= hi <= |s|
    decreases |s|, hi - lo
  {
    if lo == hi then [] else RecsIn(s, lo, hi - 1) + ItemAt(s, hi - 1)
  }

  function Recs(s: seq<Slot>): seq<Rec> {
    RecsIn(s, 0, |s|)
  }

  lemma {:induction false} RecsSplit(s: seq<Slot>, lo: nat, mid: nat, hi: nat)
    requires lo <= mid <= hi <= |s|
    ensures RecsIn(s, lo, hi) == RecsIn(s, lo, mid) + RecsIn(s, mid, hi)
    decreases hi
  {
    if mid < hi {
      RecsSplit(s, lo, mid, hi - 1);
    }
  }

  // Where two images hold the same whole items they hold the same records.
  ghost predicate SameItems(s: seq<Slot>, t: seq<Slot>, lo: nat, hi: nat) {
    && lo <= hi <= |s| && hi <= |t|
    && (forall i :: lo <= i < hi ==> Whole(s, i) == Whole(t, i))
    && (forall i :: lo <= i < hi && Whole(s, i) && Whole(t, i) ==> RecAt(s, i) == RecAt(t, i))
  }

  lemma {:induction false} RecsSame(s: seq<Slot>, t: seq<Slot>, lo: nat, hi: nat)
    requires SameItems(s, t, lo, hi)
    ensures RecsIn(s, lo, hi) == RecsIn(t, lo, hi)
    decreases hi
  {
    if lo < hi {
      RecsSame(s, t, lo, hi - 1);
    }
  }

  lemma {:induction false} RecsNone(s: seq<Slot>, lo: nat, hi: nat)
    requires lo <= hi <= |s|
    requires forall i :: lo <= i < hi ==> !Whole(s, i)
    ensures RecsIn(s, lo, hi) == []
    decreases hi
  {
    if lo < hi {
      RecsNone(s, lo, hi - 1);
    }
  }

  lemma {:induction false} RecsOne(s: seq<Slot>, i: nat)
    requires i < |s|
    ensures RecsIn(s, i, i + 1) == ItemAt(s, i)
  {
    assert RecsIn(s, i, i) == [];
  }

  // Records of a page, cut at one of its items.
  lemma {:induction false} RecsAround(s: seq<Slot>, a: nat)
    requires a < |s|
    ensures Recs(s) == RecsIn(s, 0, a) + ItemAt(s, a) + RecsIn(s, a + 1, |s|)
  {
    RecsSplit(s, 0, a + 1, |s|);
    assert RecsIn(s, 0, a + 1) == RecsIn(s, 0, a) + ItemAt(s, a);
  }

  // ---------------------------------------------------------------- counting written entries

  function CountIn(s: seq<Slot>, lo: nat, hi: nat): nat
    requires lo <= hi <= |s|
    decreases |s|, hi - lo
  {
    if lo == hi then 0 else CountIn(s, lo, hi - 1) + (if s[hi - 1].st.WRITTEN? then 1 else 0)
  }

  lemma {:induction false} CountSplit(s: seq<Slot>, lo: nat, mid: nat, hi: nat)
    requires lo <= mid <= hi <= |s|
    ensures CountIn(s, lo, hi) == CountIn(s, lo, mid) + CountIn(s, mid, hi)
    decreases hi
  {
    if mid < hi {
      CountSplit(s, lo, mid, hi - 1);
    }
  }

  lemma {:induction false} CountSame(s: seq<Slot>, t: seq<Slot>, lo: nat, hi: nat)
    requires lo <= hi <= |s| && hi <= |t|
    requires forall i :: lo <= i < hi ==> s[i].st.WRITTEN? == t[i].st.WRITTEN?
    ensures CountIn(s, lo, hi) == CountIn(t, lo, hi)
    decreases hi
  {
    if lo < hi {
      CountSame(s, t, lo, hi - 1);
    }
  }

  lemma {:induction false} CountAll(s: seq<Slot>, lo: nat, hi: nat, written: bool)
    requires lo <= hi <= |s|
    requires forall i :: lo <= i < hi ==> s[i].st.WRITTEN? == written
    ensures CountIn(s, lo, hi) == if written then hi - lo else 0
    decreases hi
  {
    if lo < hi {
      CountAll(s, lo, hi - 1, written);
    }
  }

  // ---------------------------------------------------------------- well-formed images

  predicate Covers(s: seq<Slot>, h: nat, j: nat) {
    h < j < h + SpanAt(s, h)
  }

  ghost predicate Covered(s: seq<Slot>, j: nat) {
    exists h: nat :: Covers(s, h, j)
  }

  // No item that starts before i reaches i.
  ghost predicate Boundary(s: seq<Slot>, i: nat) {
    forall h: nat :: h < i ==> h + SpanAt(s, h) <= i
  }

  // In searches, namespace 255 stands for any namespace and chunk index 255 for any chunk; no item
  // is written with the first, and exactly the items that are not blob chunks carry the second.
  predicate HeadFits(s: seq<Slot>, i: nat, nf: nat) {
    && i < ENTRY_COUNT && i < |s| && IsHead(s[i]) && WritableId(s[i].body.item)
    && Consistent(s[i].body.item, i)
    && i + SpanAt(s, i) <= nf
  }

  predicate WritableId(it: Item) {
    it.ns != NS_ANY && |it.key| <= MAX_KEY_LENGTH && (it.typ.BLOB_DATA? <==> it.chunk != CHUNK_ANY) && !it.typ.ANY?
  }

  // A page image any sequence of engine steps can leave, also one cut short by power loss: items
  // lie one after another below nf, nothing was touched from nf on. Payload of an item may already
  // be erased; only the last item may have payload that is not written yet, or else the entry just
  // below nf may be programmed without its state having been set.
  ghost predicate Loose(s: seq<Slot>, nf: nat) {
    && |s| == ENTRY_COUNT && nf <= ENTRY_COUNT
    && (forall i :: nf <= i < ENTRY_COUNT ==> s[i] == BLANK_SLOT)
    && (forall i :: 0 <= i < nf ==> !s[i].st.ILLEGAL?)
    && (forall i :: 0 <= i < nf && s[i].st.WRITTEN? ==> s[i].body.Head? || s[i].body.Data?)
    && (forall i :: 0 <= i < nf && IsHead(s[i]) ==> HeadFits(s, i, nf))
    && (forall h: nat, j: nat :: h < |s| && j < |s| && Covers(s, h, j) ==> !IsHead(s[j]))
    && (forall j: nat :: j < nf && Payload(s[j]) ==> Covered(s, j))
    && (forall j: nat :: j < nf && s[j].st.EMPTY? ==> Open(s, j, nf) || Dirty(s, j, nf))
  }

  // Entry j belongs to the last item of the page.
  ghost predicate Open(s: seq<Slot>, j: nat, nf: nat) {
    exists h: nat :: Covers(s, h, j) && h + SpanAt(s, h) == nf
  }

  // The half-written entry: its body is programmed, its state is still EMPTY.
  predicate Dirty(s: seq<Slot>, j: nat, nf: nat) {
    j < |s| && j + 1 == nf && s[j].st.EMPTY? && !FirstWordBlank(s[j].body)
  }

  // A page between two operations: loose, with every item whole and every entry accounted for.
  ghost predicate Quiet(s: seq<Slot>, nf: nat) {
    && Loose(s, nf)
    && (forall i: nat :: i < nf ==> !s[i].st.EMPTY?)
    && (forall i: nat :: i < nf && IsHead(s[i]) ==> Whole(s, i))
  }

  function BlankPage(): (s: seq<Slot>)
    ensures |s| == ENTRY_COUNT && forall i :: 0 <= i < ENTRY_COUNT ==> s[i] == BLANK_SLOT
  {
    seq(ENTRY_COUNT, _ => BLANK_SLOT)
  }

  lemma BlankIsQuiet()
    ensures Quiet(BlankPage(), 0) && Recs(BlankPage()) == []
  {
    RecsNone(BlankPage(), 0, |BlankPage()|);
  }
}
