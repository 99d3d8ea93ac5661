// The flash partition (idf_host_shim.cpp:135-172): programming ANDs bits into what is there, an
// erase sets one sector to ones. `cuts` collects every image that losing power during or right
// after an operation can leave behind; 4-byte words and sector erases are atomic.
module FlashDevice {
  import opened PageImage

  datatype PageState = UNINITIALIZED | ACTIVE | FULL | FREEING | CORRUPT | INVALID

  // Each page state clears one more bit of the state word than the one before.
  function Rank(st: PageState): nat {
    match st
    case UNINITIALIZED => 5 case ACTIVE => 4 case FULL => 3 case FREEING => 2 case CORRUPT => 1 case INVALID => 0
  }

  // A page in one of these states has records.
  predicate LiveState(st: PageState) {
    st.ACTIVE? || st.FULL? || st.FREEING?
  }

  function AndPageState(a: PageState, b: PageState): PageState {
    if Rank(a) <= Rank(b) then a else b
  }

  function StateWord(st: PageState): bv32 {
    match st
    case UNINITIALIZED => 0xffff_ffff
    case ACTIVE => 0xffff_fffe
    case FULL => 0xffff_fffc
    case FREEING => 0xffff_fff8
    case CORRUPT => 0xffff_fff0
    case INVALID => 0
  }

  lemma StateWordsAreAnded(a: PageState, b: PageState)
    ensures StateWord(AndPageState(a, b)) == StateWord(a) & StateWord(b)
  {
  }

  // The 32-byte page header: blank, with a CRC that does not match (a header write that was cut
  // short), or intact.
  datatype Header = NoHeader | BadHeader | Header(st: PageState, seqNo: nat)

  datatype FPage = FPage(hdr: Header, slots: seq<Slot>)

  function ErasedPage(): FPage {
    FPage(NoHeader, BlankPage())
  }

  function PutBodies(s: seq<Slot>, i: nat, bodies: seq<Body>): (t: seq<Slot>)
    requires i + |bodies| <= |s|
    ensures |t| == |s|
    ensures forall k :: 0 <= k < |s| ==>
      t[k] == if i <= k < i + |bodies| then Slot(s[k].st, AndBody(s[k].body, bodies[k - i])) else s[k]
  {
    seq(|s|, k requires 0 <= k < |s| =>
      if i <= k < i + |bodies| then Slot(s[k].st, AndBody(s[k].body, bodies[k - i])) else s[k])
  }

  // Word w of the entry state table holds the states of entries 16w to 16w+15.
  function PutWord(s: seq<Slot>, w: nat, table: seq<EntryState>): (t: seq<Slot>)
    requires |s| == |table|
    ensures |t| == |s|
    ensures forall k :: 0 <= k < |s| ==>
      t[k] == if k / 16 == w then Slot(AndState(s[k].st, table[k]), s[k].body) else s[k]
  {
    seq(|s|, k requires 0 <= k < |s| => if k / 16 == w then Slot(AndState(s[k].st, table[k]), s[k].body) else s[k])
  }

  // c differs from img at most in page p.
  ghost predicate OnlyPage(img: seq<FPage>, c: seq<FPage>, p: nat) {
    p < |img| && |c| == |img| && c == img[p := c[p]]
  }

  // A header write that was cut short, or not.
  ghost predicate HeaderCut(before: FPage, c: FPage, st: PageState, seqNo: nat) {
    c.slots == before.slots
      && (c.hdr == before.hdr || c.hdr.BadHeader? || (before.hdr.NoHeader? && c.hdr == Header(st, seqNo)))
  }

  // A write of several bodies that was cut short after the first `t`.
  ghost predicate BodiesCut(before: FPage, c: FPage, i: nat, bodies: seq<Body>) {
    && c.hdr == before.hdr && |c.slots| == |before.slots| && i + |bodies| <= |before.slots|
    && (forall k :: 0 <= k < |c.slots| ==> c.slots[k].st == before.slots[k].st)
    && (forall k :: 0 <= k < |c.slots| && !(i <= k < i + |bodies|) ==> c.slots[k] == before.slots[k])
    && exists t: nat :: t <= |bodies| && BodiesCutAt(before.slots, c.slots, i, bodies, t)
  }

  ghost predicate BodiesCutAt(s: seq<Slot>, c: seq<Slot>, i: nat, bodies: seq<Body>, t: nat)
    requires |c| == |s| && i + |bodies| <= |s| && t <= |bodies|
  {
    && (forall k :: i <= k < i + t ==> c[k].body == AndBody(s[k].body, bodies[k - i]))
    && (t < |bodies| ==> exists b :: CutBody(bodies[t], b) && c[i + t].body == AndBody(s[i + t].body, b))
    && (forall k :: i + t < k < i + |bodies| ==> c[k].body == s[k].body)
  }

  class Flash {
    var pages: seq<FPage>
    ghost var cuts: iset<seq<FPage>>

    constructor (pages: seq<FPage>)
      ensures this.pages == pages && cuts == iset{}
    {
      this.pages := pages;
      cuts := iset{};
    }

    // A page header, programmed in one write.
    method WriteHeader(p: nat, st: PageState, seqNo: nat)
      requires p < |pages|
      modifies this
      ensures pages ==
        old(pages)[p := old(pages)[p].(hdr := if old(pages)[p].hdr.NoHeader? then Header(st, seqNo) else BadHeader)]
      ensures forall c :: c in cuts <==>
        c in old(cuts) || (OnlyPage(old(pages), c, p) && HeaderCut(old(pages)[p], c[p], st, seqNo))
    {
      ghost var was := pages;
      var hdr := if pages[p].hdr.NoHeader? then Header(st, seqNo) else BadHeader;
      pages := pages[p := pages[p].(hdr := hdr)];
      cuts := cuts + iset c | OnlyPage(was, c, p) && HeaderCut(was[p], c[p], st, seqNo);
    }

    // The state word of a page.
    method WritePageState(p: nat, st: PageState)
      requires p < |pages| && pages[p].hdr.Header?
      modifies this
      ensures pages ==
        old(pages)[p := old(pages)[p].(hdr := old(pages)[p].hdr.(st := AndPageState(old(pages)[p].hdr.st, st)))]
      ensures cuts == old(cuts) + iset{pages}
    {
      pages := pages[p := pages[p].(hdr := pages[p].hdr.(st := AndPageState(pages[p].hdr.st, st)))];
      cuts := cuts + iset{pages};
    }

    // The bodies of consecutive entries, in one write.
    method WriteBodies(p: nat, i: nat, bodies: seq<Body>)
      requires p < |pages| && i + |bodies| <= |pages[p].slots|
      modifies this
      ensures pages == old(pages)[p := old(pages)[p].(slots := PutBodies(old(pages)[p].slots, i, bodies))]
      ensures forall c :: c in cuts <==>
        c in old(cuts) || (OnlyPage(old(pages), c, p) && BodiesCut(old(pages)[p], c[p], i, bodies))
    {
      ghost var was := pages;
      pages := pages[p := pages[p].(slots := PutBodies(pages[p].slots, i, bodies))];
      cuts := cuts + iset c | OnlyPage(was, c, p) && BodiesCut(was[p], c[p], i, bodies);
    }

    // One 32-bit word of the entry state table: entries 16w to 16w+15.
    method WriteTableWord(p: nat, w: nat, table: seq<EntryState>)
      requires p < |pages| && |pages[p].slots| == |table|
      modifies this
      ensures pages == old(pages)[p := old(pages)[p].(slots := PutWord(old(pages)[p].slots, w, table))]
      ensures cuts == old(cuts) + iset{pages}
    {
      pages := pages[p := pages[p].(slots := PutWord(pages[p].slots, w, table))];
      cuts := cuts + iset{pages};
    }

    method EraseSector(p: nat)
      requires p < |pages|
      modifies this
      ensures pages == old(pages)[p := ErasedPage()]
      ensures cuts == old(cuts) + iset{pages}
    {
      pages := pages[p := ErasedPage()];
      cuts := cuts + iset{pages};
    }
  }
}
