// A record on its way to a page: what the page image, the counters and the hash list make of it
// while it is only partly there, and once it is complete.
module PageWrites {
  import opened NvsTypes
  import opened PageImage
  import opened PageSteps
  import opened PageRam
  import opened ItemHashList

  // Entries from i on are WRITTEN and hold these bodies.
  function PutPayload(s: seq<Slot>, i: nat, bodies: seq<Body>): (t: seq<Slot>)
    requires i + |bodies| <= |s|
    ensures |t| == |s|
    ensures forall k :: 0 <= k < |s| ==> t[k] == if i <= k < i + |bodies| then Slot(WRITTEN, bodies[k - i]) else s[k]
  {
    seq(|s|, k requires 0 <= k < |s| => if i <= k < i + |bodies| then Slot(WRITTEN, bodies[k - i]) else s[k])
  }

  // The record is being written at entry f of the quiet image s0: its head is there, each payload
  // entry is either unfinished or final.
  ghost predicate Partial(s0: seq<Slot>, s: seq<Slot>, f: nat, rec: Rec) {
    && Growing(s0, s, f, rec.item)
    && |rec.payload| == rec.item.span - 1
    && (forall k :: 0 <= k < |rec.payload| ==> Payload(rec.payload[k]))
    && (forall j :: f < j < f + rec.item.span ==> s[j].st.EMPTY? || s[j] == rec.payload[j - f - 1])
  }

  lemma SlotOfPayload(x: Slot)
    requires Payload(x)
    ensures x == Slot(WRITTEN, x.body)
  {
  }

  lemma PayloadAt(s: seq<Slot>, i: nat, j: nat)
    requires Whole(s, i) && i < j < i + RecAt(s, i).item.span
    ensures j < |s| && Payload(s[j]) && j - i - 1 < |RecAt(s, i).payload| && RecAt(s, i).payload[j - i - 1] == s[j]
  {
  }

  // An item fits wherever it fits further down a page.
  lemma CopyFits(s: seq<Slot>, nf: nat, i: nat, f: nat)
    requires Quiet(s, nf) && i < |s| && Whole(s, i) && f <= i
    ensures WritableId(s[i].body.item) && Consistent(s[i].body.item, f) && 1 <= SpanAt(s, i)
      && i + SpanAt(s, i) <= ENTRY_COUNT
    ensures var r := RecAt(s, i);
      |r.payload| == r.item.span - 1 && forall k :: 0 <= k < |r.payload| ==> Payload(r.payload[k])
  {
    assert HeadFits(s, i, nf);
    var r := RecAt(s, i);
    forall k | 0 <= k < |r.payload| ensures Payload(r.payload[k]) {
      assert r.payload[k] == s[i + 1 + k];
    }
  }

  // Of the record at f, n entries are final and the others still blank.
  ghost predicate Filled(s0: seq<Slot>, s: seq<Slot>, f: nat, rec: Rec, n: nat) {
    && Partial(s0, s, f, rec) && 1 <= n <= rec.item.span
    && (forall j :: f < j < f + n ==> s[j] == rec.payload[j - f - 1])
    && (forall j :: f + n <= j < f + rec.item.span ==> s[j] == BLANK_SLOT)
  }

  lemma FilledMeans(s0: seq<Slot>, s: seq<Slot>, f: nat, rec: Rec, n: nat)
    requires Filled(s0, s, f, rec, n)
    ensures Partial(s0, s, f, rec) && |s| == ENTRY_COUNT && f < ENTRY_COUNT
    ensures |rec.payload| == rec.item.span - 1 && 1 <= n <= rec.item.span && f + rec.item.span <= ENTRY_COUNT
    ensures forall k :: f + n <= k < f + rec.item.span ==> s[k] == BLANK_SLOT
  {
  }

  lemma FilledMore(s0: seq<Slot>, s: seq<Slot>, f: nat, rec: Rec, n: nat, bodies: seq<Body>)
    requires Filled(s0, s, f, rec, n) && n + |bodies| <= rec.item.span
    requires forall k :: 0 <= k < |bodies| ==> rec.payload[n - 1 + k] == Slot(WRITTEN, bodies[k])
    ensures forall k :: 0 <= k < |bodies| ==> bodies[k].Data?
    ensures Filled(s0, PutPayload(s, f + n, bodies), f, rec, n + |bodies|)
  {
    forall k | 0 <= k < |bodies| ensures bodies[k].Data? {
      assert Payload(rec.payload[n - 1 + k]);
    }
    var t := PutPayload(s, f + n, bodies);
    forall j | f + n <= j < f + n + |bodies| ensures t[j] == rec.payload[j - f - 1] {
      assert t[j] == Slot(WRITTEN, bodies[j - f - n]);
      assert rec.payload[n - 1 + (j - f - n)] == t[j];
    }
  }

  lemma FilledOneMore(s0: seq<Slot>, s: seq<Slot>, f: nat, rec: Rec, n: nat, body: Body)
    requires Filled(s0, s, f, rec, n) && n < rec.item.span && rec.payload[n - 1] == Slot(WRITTEN, body)
    ensures Filled(s0, s[f + n := Slot(WRITTEN, body)], f, rec, n + 1)
  {
    assert Payload(rec.payload[n - 1]);
  }

  lemma FilledIsComplete(s0: seq<Slot>, s: seq<Slot>, f: nat, rec: Rec)
    requires Filled(s0, s, f, rec, rec.item.span)
    ensures Complete(s, f, rec)
  {
    forall j | f < j < f + rec.item.span ensures !s[j].st.EMPTY? {
      assert Payload(rec.payload[j - f - 1]);
    }
  }

  ghost predicate Complete(s: seq<Slot>, f: nat, rec: Rec) {
    && f + rec.item.span <= |s|
    && forall j :: f < j < f + rec.item.span ==> !s[j].st.EMPTY?
  }

  lemma PartialRecs(s0: seq<Slot>, s: seq<Slot>, f: nat, rec: Rec)
    requires Partial(s0, s, f, rec)
    ensures Loose(s, f + rec.item.span)
    ensures Recs(s) == Recs(s0) + if Complete(s, f, rec) then [rec] else []
    ensures Complete(s, f, rec) ==> Quiet(s, f + rec.item.span) && Whole(s, f) && RecAt(s, f) == rec
  {
    GrowingIsLoose(s0, s, f, rec.item);
    GrowingRecs(s0, s, f, rec.item);
    if Complete(s, f, rec) {
      assert s[f + 1..f + rec.item.span] == rec.payload;
    } else {
      var j :| f < j < f + rec.item.span && s[j].st.EMPTY?;
      assert !Payload(s[j]);
    }
  }

  // The counters and the hash list follow a completed write.
  lemma WriteKeepsRam(r0: Ram, s0: seq<Slot>, r: Ram, s: seq<Slot>, hashOf: Id -> nat, f: nat, rec: Rec)
    requires InUse(r0, s0, hashOf) && r0.top == f && r0.nextFree == f
    requires Partial(s0, s, f, rec) && Complete(s, f, rec) && Synced(r.table, s)
    requires r.state.ACTIVE? && r.top == f + rec.item.span && r.nextFree == f + rec.item.span
    requires r.used == r0.used + rec.item.span
    requires r.firstUsed == if r0.firstUsed == INVALID_ENTRY then f else r0.firstUsed
    requires r.nodes == r0.nodes + {Node(f, hashOf(IdOf(rec.item)))}
    ensures InUse(r, s, hashOf)
  {
    PartialRecs(s0, s, f, rec);
    forall j | f < j < f + rec.item.span ensures s[j].st.WRITTEN? {
      assert Payload(rec.payload[j - f - 1]);
    }
    GrowingCount(s0, s, f, f + rec.item.span);
    GrowingNodes(r0.nodes, s0, r.nodes, s, hashOf, f, rec.item);
  }

  lemma {:induction false} GrowingCount(s0: seq<Slot>, s: seq<Slot>, f: nat, g: nat)
    requires |s0| == |s| && f <= g <= |s|
    requires forall j :: 0 <= j < f ==> s[j] == s0[j]
    requires forall j :: f <= j < |s| ==> !s0[j].st.WRITTEN?
    requires forall j :: f <= j < |s| ==> s[j].st.WRITTEN? == (j < g)
    ensures CountIn(s, 0, |s|) == CountIn(s0, 0, |s0|) + g - f
  {
    CountSplit(s, 0, f, |s|);
    CountSplit(s, f, g, |s|);
    CountSame(s0, s, 0, f);
    CountSplit(s0, 0, f, |s0|);
    CountAll(s0, f, |s0|, false);
    CountAll(s, f, g, true);
    CountAll(s, g, |s|, false);
  }

  lemma GrowingNodes(n0: set<Node>, s0: seq<Slot>, n: set<Node>, s: seq<Slot>, hashOf: Id -> nat, f: nat, it: Item)
    requires Indexes(n0, s0, hashOf, ENTRY_COUNT) && Growing(s0, s, f, it)
    requires n == n0 + {Node(f, hashOf(IdOf(it)))}
    ensures Indexes(n, s, hashOf, ENTRY_COUNT)
  {
    forall i: nat | i < |s| && IsHead(s[i]) ensures NodeAt(s, i, hashOf) in n {
      if i < f {
        assert NodeAt(s0, i, hashOf) in n0;
      }
    }
  }
}
