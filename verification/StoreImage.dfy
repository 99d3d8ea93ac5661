// The whole partition as it lies on flash: which records it holds, and which images can be
// recovered to hold exactly the records `live`.
module StoreImage {
  import opened NvsTypes
  import opened PageImage
  import opened PageLoad
  import opened PageTwins
  import opened PageScan
  import opened FlashDevice

  // ---------------------------------------------------------------- the records of a partition

  ghost function RecsOf(fp: FPage): seq<Rec> {
    if fp.hdr.Header? then Recs(fp.slots) else []
  }

  ghost function LiveIn(img: seq<FPage>, n: nat): multiset<Rec>
    requires n <= |img|
    decreases |img|, n
  {
    if n == 0 then multiset{} else LiveIn(img, n - 1) + multiset(RecsOf(img[n - 1]))
  }

  ghost function Live(img: seq<FPage>): multiset<Rec> {
    LiveIn(img, |img|)
  }

  // The records outside page p.
  ghost function Rest(img: seq<FPage>, p: nat): multiset<Rec>
    requires p < |img|
  {
    Live(img[p := ErasedPage()])
  }

  lemma {:induction false} LiveInWith(img: seq<FPage>, p: nat, fp: FPage, n: nat)
    requires p < |img| && n <= |img|
    ensures LiveIn(img[p := fp], n) ==
      LiveIn(img[p := ErasedPage()], n) + (if p < n then multiset(RecsOf(fp)) else multiset{})
  {
    hide RecsOf;
    if n > 0 {
      LiveInWith(img, p, fp, n - 1);
      var a, b := img[p := fp], img[p := ErasedPage()];
      assert LiveIn(a, n) == LiveIn(a, n - 1) + multiset(RecsOf(a[n - 1]));
      assert LiveIn(b, n) == LiveIn(b, n - 1) + multiset(RecsOf(b[n - 1]));
      ErasedHasNone();
    }
  }

  lemma ErasedHasNone()
    ensures RecsOf(ErasedPage()) == []
  {
  }

  lemma LiveWith(img: seq<FPage>, p: nat, fp: FPage)
    requires p < |img|
    ensures Live(img[p := fp]) == Rest(img, p) + multiset(RecsOf(fp))
  {
    LiveInWith(img, p, fp, |img|);
  }

  lemma LiveAround(img: seq<FPage>, p: nat)
    requires p < |img|
    ensures Live(img) == Rest(img, p) + multiset(RecsOf(img[p]))
  {
    LiveWith(img, p, img[p]);
    assert img[p := img[p]] == img;
  }

  // Records of different pages are different records.
  lemma RestAround(img: seq<FPage>, p: nat, q: nat)
    requires p < |img| && q < |img| && p != q
    ensures multiset(RecsOf(img[q])) <= Rest(img, p)
  {
    LiveAround(img[p := ErasedPage()], q);
  }

  lemma LiveChange(img: seq<FPage>, c: seq<FPage>, p: nat)
    requires OnlyPage(img, c, p)
    ensures Live(c) == Rest(img, p) + multiset(RecsOf(c[p])) && Live(img) == Rest(img, p) + multiset(RecsOf(img[p]))
  {
    LiveWith(img, p, c[p]);
    LiveAround(img, p);
  }

  // ---------------------------------------------------------------- what the records have to be like

  // No two records have the same namespace, key and chunk index.
  ghost predicate Unique(live: multiset<Rec>) {
    && (forall r :: r in live ==> live[r] == 1)
    && (forall r, q :: r in live && q in live && IdOf(r.item) == IdOf(q.item) ==> r == q)
  }

  // A name with blob chunks stands for nothing but a blob.
  ghost predicate NoStrays(live: multiset<Rec>) {
    forall r, c :: r in live && c in live && ChunkOf(c, r.item) ==> r.item.typ.BLOB_DATA? || r.item.typ.BLOB_IDX?
  }

  ghost predicate Identified(live: multiset<Rec>) {
    Unique(live) && NoStrays(live)
  }

  lemma IdentifiedWithin(live: multiset<Rec>, kept: multiset<Rec>)
    requires Identified(live) && kept <= live
    ensures Identified(kept)
  {
    assert forall r :: r in kept ==> r in live && kept[r] <= live[r];
  }

  // No two records share a hash, let alone what the hash is computed from.
  ghost predicate Sparse(live: multiset<Rec>, hashOf: Id -> nat) {
    && (forall r :: r in live ==> live[r] == 1)
    && (forall r, q :: r in live && q in live && HashOfRec(r, hashOf) == HashOfRec(q, hashOf) ==> r == q)
  }

  // No page holds two chunks of blobs of the same key.
  predicate ChunkPair(r: Rec, q: Rec) {
    r.item.typ.BLOB_DATA? && ChunkOf(q, r.item)
  }

  // The record n would be the first chunk of its key among these.
  ghost predicate NoPairWith(recs: seq<Rec>, n: Rec) {
    forall q :: q in recs ==> !ChunkPair(n, q)
  }

  lemma NoChunkNoPair(recs: seq<Rec>, n: Rec)
    requires !n.item.typ.BLOB_DATA?
    ensures NoPairWith(recs, n)
  {
  }

  ghost predicate NoChunkPairs(recs: seq<Rec>) {
    forall i, j :: 0 <= i < j < |recs| ==> !ChunkPair(recs[j], recs[i])
  }

  ghost predicate ChunksApart(img: seq<FPage>) {
    forall p :: 0 <= p < |img| ==> NoChunkPairs(RecsOf(img[p]))
  }

  lemma SparseIsDistinct(recs: seq<Rec>, live: multiset<Rec>, hashOf: Id -> nat)
    requires Sparse(live, hashOf) && multiset(recs) <= live
    ensures DistinctHashes(recs, hashOf)
  {
    forall i, j | 0 <= i < j < |recs| ensures HashOfRec(recs[i], hashOf) != HashOfRec(recs[j], hashOf) {
      assert recs[i] in multiset(recs) && recs[j] in multiset(recs);
      if recs[i] == recs[j] {
        TwiceCounted(recs, i, j);
      }
    }
  }

  lemma TwiceCounted(recs: seq<Rec>, i: nat, j: nat)
    requires i < j < |recs| && recs[i] == recs[j]
    ensures multiset(recs)[recs[i]] >= 2
  {
    assert recs == recs[..j] + recs[j..];
    assert recs[..j][i] == recs[i] && recs[j..][0] == recs[j];
  }

  // ---------------------------------------------------------------- headers

  predicate InState(fp: FPage, st: PageState) {
    fp.hdr.Header? && fp.hdr.st == st
  }

  // Sequence numbers differ, the active page has the greatest, one page at most is being freed.
  ghost predicate Ordered(img: seq<FPage>) {
    && (forall p, q :: 0 <= p < |img| && 0 <= q < |img| && p != q && img[p].hdr.Header? && img[q].hdr.Header?
         ==> img[p].hdr.seqNo != img[q].hdr.seqNo)
    && (forall p, q :: 0 <= p < |img| && 0 <= q < |img| && p != q && InState(img[p], ACTIVE) && img[q].hdr.Header?
         ==> img[q].hdr.seqNo < img[p].hdr.seqNo)
    && (forall p, q :: 0 <= p < |img| && 0 <= q < |img| && InState(img[p], FREEING) && InState(img[q], FREEING) ==>
         p == q)
  }

  ghost predicate Sound(img: seq<FPage>) {
    && |img| >= 2 && Ordered(img)
    && forall p :: 0 <= p < |img| ==> Loadable(img[p])
  }

  ghost predicate Spare(img: seq<FPage>) {
    exists p :: 0 <= p < |img| && !img[p].hdr.Header?
  }

  ghost predicate NoneFreeing(img: seq<FPage>) {
    forall p :: 0 <= p < |img| ==> !InState(img[p], FREEING)
  }

  ghost predicate NoneActive(img: seq<FPage>) {
    forall p :: 0 <= p < |img| ==> !InState(img[p], ACTIVE)
  }

  // ---------------------------------------------------------------- images that can be recovered

  // Between two operations: the records are `live`, and a page is in reserve.
  ghost predicate Stable(img: seq<FPage>, live: multiset<Rec>) {
    Sound(img) && NoneFreeing(img) && Spare(img) && Live(img) == live
  }

  // Page e is being freed; nothing has been copied yet.
  ghost predicate Freeing(img: seq<FPage>, live: multiset<Rec>, e: nat) {
    && Sound(img) && e < |img| && InState(img[e], FREEING) && NoneActive(img) && Spare(img)
    && Live(img) == live
  }

  ghost predicate Part(r: seq<Rec>, recs: seq<Rec>) {
    forall x :: x in r ==> x in recs
  }

  // Page e is being freed; page t holds copies of some of its records.
  ghost predicate Copying(img: seq<FPage>, live: multiset<Rec>, e: nat, t: nat) {
    && Sound(img) && e < |img| && t < |img| && InState(img[e], FREEING) && InState(img[t], ACTIVE)
    && Part(RecsOf(img[t]), RecsOf(img[e])) && Rest(img, t) == live
  }

  // A record and the one it replaces are both there: the new one is the last of the active page p,
  // the old one, o, is on page q.
  ghost predicate Doubled(img: seq<FPage>, live: multiset<Rec>, p: nat, q: nat, o: Rec) {
    && Sound(img) && NoneFreeing(img) && Spare(img)
    && p < |img| && q < |img| && InState(img[p], ACTIVE) && o in RecsOf(img[q])
    && Replaces(RecsOf(img[p]), o) && RecsOf(img[p])[|RecsOf(img[p])| - 1] in live
    && (p == q ==> o in RecsOf(img[p])[..|RecsOf(img[p])| - 1])
    && Live(img) == live + multiset{o}
  }

  ghost predicate Replaces(recs: seq<Rec>, o: Rec) {
    recs != [] && Twins(recs[|recs| - 1], o)
  }

  // These records are all on flash, at most a page half moved or one old version left over. The store
  // comes up with exactly them if and only if the page in use also comes through being loaded (Kept).
  ghost predicate Recoverable(img: seq<FPage>, live: multiset<Rec>) {
    || Stable(img, live)
    || (exists e :: 0 <= e < |img| && Freeing(img, live, e))
    || (exists e, t :: 0 <= e < |img| && 0 <= t < |img| && Copying(img, live, e, t))
    || (exists p, q, o :: 0 <= p < |img| && 0 <= q < |img| && Doubled(img, live, p, q, o))
  }

  // Loading the page in use loses nothing; if a page is being freed, its copies are made anew anyway.
  ghost predicate PageKept(img: seq<FPage>, p: nat, hashOf: Id -> nat)
    requires p < |img|
  {
    || (exists e :: 0 <= e < |img| && InState(img[e], FREEING))
    || KeptRecs(RecsOf(img[p]), EndsInItem(img[p].slots), hashOf)
  }

  ghost predicate Kept(img: seq<FPage>, hashOf: Id -> nat) {
    forall p :: 0 <= p < |img| && InState(img[p], ACTIVE) ==> PageKept(img, p, hashOf)
  }

  // ---------------------------------------------------------------- steps that change no record

  // What a page without records has for a header does not matter.
  predicate SameHeader(h: Header, g: Header) {
    h == g || (!h.Header? && !g.Header?)
  }

  // Headers and records are the same; slots may differ.
  ghost predicate SameView(img: seq<FPage>, c: seq<FPage>) {
    && |c| == |img|
    && forall p :: 0 <= p < |img| ==>
         SameHeader(c[p].hdr, img[p].hdr) && RecsOf(c[p]) == RecsOf(img[p]) && Loadable(c[p])
  }

  lemma {:induction false} SameViewLive(img: seq<FPage>, c: seq<FPage>, n: nat)
    requires SameView(img, c) && n <= |img|
    ensures LiveIn(c, n) == LiveIn(img, n)
  {
    hide RecsOf, Loadable;
    if n > 0 {
      SameViewLive(img, c, n - 1);
    }
  }

  lemma SameViewRest(img: seq<FPage>, c: seq<FPage>, t: nat)
    requires SameView(img, c) && t < |img|
    ensures Rest(c, t) == Rest(img, t)
  {
    hide RecsOf;
    assert SameView(img[t := ErasedPage()], c[t := ErasedPage()]) by {
      assert Loadable(ErasedPage());
    }
    SameViewLive(img[t := ErasedPage()], c[t := ErasedPage()], |img|);
  }

  lemma SameViewSound(img: seq<FPage>, c: seq<FPage>)
    requires SameView(img, c) && Sound(img)
    ensures Sound(c) && Live(c) == Live(img)
    ensures NoneFreeing(img) ==> NoneFreeing(c)
    ensures NoneActive(img) ==> NoneActive(c)
    ensures Spare(img) ==> Spare(c)
    ensures ChunksApart(img) ==> ChunksApart(c)
  {
    hide RecsOf, Loadable, NoChunkPairs;
    SameViewLive(img, c, |img|);
    if Spare(img) {
      var p :| 0 <= p < |img| && !img[p].hdr.Header?;
      assert !c[p].hdr.Header?;
    }
  }

  lemma SameViewRecoverable(img: seq<FPage>, c: seq<FPage>, live: multiset<Rec>)
    requires SameView(img, c) && Recoverable(img, live)
    ensures Recoverable(c, live)
  {
    hide RecsOf, Loadable, Sound, Live, Rest, Spare, NoneFreeing, NoneActive, Replaces;
    RecoverableIsSound(img, live);
    SameViewSound(img, c);
    if Stable(img, live) {
    } else if e :| 0 <= e < |img| && Freeing(img, live, e) {
      assert Freeing(c, live, e);
    } else if e, t :| 0 <= e < |img| && 0 <= t < |img| && Copying(img, live, e, t) {
      SameViewRest(img, c, t);
      assert Copying(c, live, e, t);
    } else {
      var p, q, o :| 0 <= p < |img| && 0 <= q < |img| && Doubled(img, live, p, q, o);
      assert Doubled(c, live, p, q, o);
    }
  }

  lemma RecoverableIsSound(img: seq<FPage>, live: multiset<Rec>)
    requires Recoverable(img, live)
    ensures Sound(img)
  {
  }

  // A power cut that leaves `c` of `img` leaves all records on flash.
  ghost predicate Safe(img: seq<FPage>, c: seq<FPage>, live: multiset<Rec>) {
    Recoverable(c, live) && (ChunksApart(img) ==> ChunksApart(c))
  }
}
