// What a Page object keeps in RAM about its page, and how that has to agree with flash.
module PageRam {
  import opened NvsTypes
  import opened PageImage
  import opened ItemHashList
  import opened FlashDevice

  datatype Ram = Ram(state: PageState, seqNo: nat, table: seq<EntryState>, nextFree: nat, firstUsed: nat,
                     used: int, nodes: set<Node>, top: nat)

  ghost predicate Synced(table: seq<EntryState>, s: seq<Slot>) {
    |table| == |s| && forall i :: 0 <= i < |s| ==> table[i] == s[i].st
  }

  // The least written entry at or after `from`.
  ghost predicate LeastWritten(s: seq<Slot>, from: nat, i: nat) {
    if i == INVALID_ENTRY then forall k :: from <= k < |s| ==> !s[k].st.WRITTEN?
    else from <= i < |s| && s[i].st.WRITTEN? && forall k :: from <= k < i ==> !s[k].st.WRITTEN?
  }

  ghost function NodeAt(s: seq<Slot>, i: nat, hashOf: Id -> nat): Node
    requires i < |s| && IsHead(s[i])
  {
    Node(i, hashOf(IdOf(s[i].body.item)))
  }

  // The hash list knows exactly the items that start below `upto`.
  ghost predicate Indexes(nodes: set<Node>, s: seq<Slot>, hashOf: Id -> nat, upto: nat) {
    && (forall n :: n in nodes ==>
         n.index < upto && n.index < |s| && IsHead(s[n.index]) && n == NodeAt(s, n.index, hashOf))
    && (forall i: nat :: i < upto && i < |s| && IsHead(s[i]) ==> NodeAt(s, i, hashOf) in nodes)
  }

  // RAM while items are being added, erased or loaded: `upto` is how far loading has come.
  ghost predicate Working(r: Ram, s: seq<Slot>, hashOf: Id -> nat, upto: nat) {
    && Loose(s, r.top) && Synced(r.table, s)
    && r.used == CountIn(s, 0, |s|)
    && LeastWritten(s, 0, r.firstUsed)
    && Indexes(r.nodes, s, hashOf, upto)
    && (forall i: nat :: i < |s| && IsHead(s[i]) ==> i < r.nextFree)
  }

  // The next free entry as the engine knows it: a page that was loaded without an empty entry, or
  // loaded when full, has none.
  ghost predicate NextFreeOk(r: Ram) {
    r.nextFree == r.top || (r.nextFree == INVALID_ENTRY && (r.top == ENTRY_COUNT || !r.state.ACTIVE?))
  }

  ghost predicate InUse(r: Ram, s: seq<Slot>, hashOf: Id -> nat) {
    && Working(r, s, hashOf, ENTRY_COUNT) && Quiet(s, r.top) && NextFreeOk(r)
  }

  ghost predicate RamOk(r: Ram, fp: FPage, hashOf: Id -> nat) {
    && !r.state.INVALID?
    && (r.state.CORRUPT? ==> |fp.slots| == ENTRY_COUNT && !fp.hdr.Header? && fp != ErasedPage())
    && (r.state.UNINITIALIZED? ==>
          fp == ErasedPage() && r.nodes == {} && r.used == 0 && r.firstUsed == INVALID_ENTRY && r.top == 0)
    && (r.state.ACTIVE? || r.state.FULL? || r.state.FREEING? ==>
          fp.hdr == Header(r.state, r.seqNo) && InUse(r, fp.slots, hashOf))
  }

  // What a page in use has in RAM, seen from its slots.
  lemma {:induction false} InUseMeans(r: Ram, s: seq<Slot>, hashOf: Id -> nat)
    requires InUse(r, s, hashOf)
    ensures |s| == ENTRY_COUNT && r.top <= ENTRY_COUNT && Loose(s, r.top) && Synced(r.table, s)
    ensures r.used == CountIn(s, 0, |s|) && LeastWritten(s, 0, r.firstUsed)
  {
  }

  lemma TopIsNextFree(r: Ram, fp: FPage, hashOf: Id -> nat)
    requires RamOk(r, fp, hashOf)
    ensures r.state.UNINITIALIZED? ==> r.top == 0
    ensures r.state.ACTIVE? && r.nextFree <= ENTRY_COUNT ==> r.nextFree == r.top
  {
  }

  lemma InUseInState(r: Ram, s: seq<Slot>, hashOf: Id -> nat, st: PageState)
    requires InUse(r, s, hashOf) && !st.ACTIVE?
    ensures InUse(r.(state := st), s, hashOf)
  {
  }

  // Where the next item goes on a page that is not full.
  function FirstFree(r: Ram): nat {
    if r.state.UNINITIALIZED? then 0 else r.nextFree
  }

  // Room for the data of one more item of variable length, not counting its header.
  function Tailroom(r: Ram): nat {
    if r.state.UNINITIALIZED? then CHUNK_MAX_SIZE
    else if r.state.FULL? then 0
    else if r.nextFree < ENTRY_COUNT - 1 then (ENTRY_COUNT - r.nextFree - 1) * ENTRY_SIZE else 0
  }

  // Where a page may take an item of m entries.
  predicate Fits(nextFree: nat, m: nat) {
    nextFree + m <= ENTRY_COUNT
  }
}
