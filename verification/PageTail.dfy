// The last check when an active page is loaded: a search for the last item, which looks for any
// chunk number. For everything but blob chunks it can only find the item itself.
module PageTail {
  import opened NvsTypes
  import opened PageImage
  import opened PageSearch
  import opened PageLoad
  import opened PageScan

  function TailQuery(it: Item): Query {
    Query(it.ns, it.typ, Some(it.key), CHUNK_ANY, VER_ANY)
  }

  // Item `last` ends where the page is in use.
  ghost predicate AtTail(s: seq<Slot>, nf: nat, last: nat, hashOf: Id -> nat) {
    && Quiet(s, nf) && HashesApart(s, ENTRY_COUNT, hashOf)
    && last < |s| && IsHead(s[last]) && last + SpanAt(s, last) == nf
  }

  lemma NoHeadAfter(s: seq<Slot>, nf: nat, last: nat)
    requires Loose(s, nf) && last < |s| && IsHead(s[last]) && last + SpanAt(s, last) == nf
    ensures forall k: nat :: last < k < |s| ==> !IsHead(s[k])
  {
    forall k: nat | last < k < |s| ensures !IsHead(s[k]) {
      if k < nf {
        assert Covers(s, last, k);
      }
    }
  }

  predicate ChunkAt(s: seq<Slot>, k: nat, it: Item) {
    k < |s| && IsHead(s[k]) && s[k].body.item.typ.BLOB_DATA? && s[k].body.item.ns == it.ns
      && s[k].body.item.key == it.key
  }

  // Looking for a blob chunk of any number finds the first one of the key.
  lemma ChunkSearch(s: seq<Slot>, nf: nat, last: nat, hashOf: Id -> nat)
    requires AtTail(s, nf, last, hashOf) && s[last].body.item.typ.BLOB_DATA?
    ensures var f := FindVia(s, TailQuery(s[last].body.item), hashOf, 0);
      f.Hit? && f.index <= last && ChunkAt(s, f.index, s[last].body.item)
      && forall k: nat :: k < f.index ==> !ChunkAt(s, k, s[last].body.item)
  {
    var it := s[last].body.item;
    assert HeadFits(s, last, nf);
    FindMeans(s, TailQuery(it), 0);
    forall k: nat | k < |s| && IsHead(s[k])
      ensures !Judge(s[k].body.item, TailQuery(it)).Mismatch?
      ensures ChunkAt(s, k, it) <==> Judge(s[k].body.item, TailQuery(it)).Take?
    {
      assert HeadFits(s, k, nf);
    }
    NoHeadAfter(s, nf, last);
  }

  // Looking for anything else finds no earlier item.
  lemma OtherSearch(s: seq<Slot>, nf: nat, last: nat, hashOf: Id -> nat)
    requires AtTail(s, nf, last, hashOf) && !s[last].body.item.typ.BLOB_DATA?
    ensures var f := FindVia(s, TailQuery(s[last].body.item), hashOf, 0); f.Hit? ==> f.index >= last
  {
    var it := s[last].body.item;
    assert HeadFits(s, last, nf);
    var q := TailQuery(it);
    var from := if UsesHash(q) then FirstHash(s, hashOf, hashOf(QueryId(q)), 0) else 0;
    FindMeans(s, q, from);
    var f := FindFrom(s, q, from);
    if f.Hit? && f.index < last {
      assert HeadFits(s, f.index, nf);
      assert IdOf(s[f.index].body.item) == IdOf(it);
      assert HasHash(s, last, hashOf, hashOf(IdOf(it)));
    }
  }

  lemma {:induction false} FirstChunkAt(a: seq<Rec>, r: Rec, b: seq<Rec>, it: Item)
    requires ChunkOf(r, it) && forall x :: x in a ==> !ChunkOf(x, it)
    ensures FirstChunk(a + [r] + b, it) == |a|
  {
    if a == [] {
      assert (a + [r] + b)[0] == r;
    } else {
      FirstChunkAt(a[1..], r, b, it);
      assert (a + [r] + b)[1..] == a[1..] + [r] + b;
    }
  }

  lemma ChunkDroppedAt(a: seq<Rec>, r: Rec, b: seq<Rec>, it: Item)
    requires ChunkOf(r, it) && (forall x :: x in a ==> !ChunkOf(x, it))
    requires (a + [r] + b)[|a + [r] + b| - 1].item == it && it.typ.BLOB_DATA?
    ensures ChunkDropped(a + [r] + b) == if b != [] then a + b else a + [r] + b
  {
    FirstChunkAt(a, r, b, it);
    assert (a + [r] + b)[..|a|] == a && (a + [r] + b)[|a| + 1..] == b;
  }

  lemma {:induction false} NoChunkIn(s: seq<Slot>, i: nat, it: Item)
    requires i <= |s| && forall k: nat :: k < i ==> !ChunkAt(s, k, it)
    ensures forall r :: r in RecsIn(s, 0, i) ==> !ChunkOf(r, it)
  {
    if i > 0 {
      NoChunkIn(s, i - 1, it);
      assert !ChunkAt(s, i - 1, it);
    }
  }

  lemma {:induction false} LastRec(s: seq<Slot>, last: nat)
    requires last < |s| && Whole(s, last) && forall k: nat :: last < k < |s| ==> !IsHead(s[k])
    ensures Recs(s) == RecsIn(s, 0, last) + [RecAt(s, last)]
  {
    RecsAround(s, last);
    RecsNone(s, last + 1, |s|);
  }

  // What dropping the item that the search found does to the records.
  lemma {:induction false} TailDropped(s: seq<Slot>, nf: nat, last: nat, hashOf: Id -> nat)
    requires AtTail(s, nf, last, hashOf)
    ensures var f := FindVia(s, TailQuery(s[last].body.item), hashOf, 0);
      ChunkDropped(Recs(s)) == if f.Hit? && f.index < last then RecsIn(s, 0, f.index) + RecsIn(s, f.index + 1, |s|)
        else Recs(s)
  {
    var it := s[last].body.item;
    var f := FindVia(s, TailQuery(it), hashOf, 0);
    NoHeadAfter(s, nf, last);
    assert Whole(s, last);
    if it.typ.BLOB_DATA? {
      ChunkSearch(s, nf, last, hashOf);
      assert Whole(s, f.index);
      ChunkTail(s, last, f.index, it);
    } else {
      OtherSearch(s, nf, last, hashOf);
      LastRec(s, last);
    }
  }

  lemma {:induction false} ChunkTail(s: seq<Slot>, last: nat, h: nat, it: Item)
    requires h <= last < |s| && Whole(s, h) && Whole(s, last) && it == s[last].body.item && it.typ.BLOB_DATA?
    requires ChunkAt(s, h, it) && (forall k: nat :: k < h ==> !ChunkAt(s, k, it))
    requires forall k: nat :: last < k < |s| ==> !IsHead(s[k])
    ensures ChunkDropped(Recs(s)) == if h < last then RecsIn(s, 0, h) + RecsIn(s, h + 1, |s|) else Recs(s)
  {
    NoChunkIn(s, h, it);
    hide Whole, RecsIn;
    LastRec(s, last);
    RecsAround(s, h);
    ChunkDroppedAt(RecsIn(s, 0, h), RecAt(s, h), RecsIn(s, h + 1, |s|), it);
    if h < last {
      LastIsBehind(s, h, last);
    } else {
      RecsNone(s, h + 1, |s|);
    }
  }

  lemma LastIsBehind(s: seq<Slot>, h: nat, last: nat)
    requires h < last < |s| && Whole(s, last)
    ensures RecsIn(s, h + 1, |s|) != []
  {
    RecsSplit(s, h + 1, last + 1, |s|);
  }

  // The search finds an earlier item exactly when the page ends in a blob chunk that is not the
  // first of its key.
  lemma TailUnshadowed(s: seq<Slot>, nf: nat, last: nat, hashOf: Id -> nat)
    requires AtTail(s, nf, last, hashOf)
    ensures var f := FindVia(s, TailQuery(s[last].body.item), hashOf, 0);
      ChunkShadowed(Recs(s)) <==> f.Hit? && f.index < last
  {
    TailDropped(s, nf, last, hashOf);
    var f := FindVia(s, TailQuery(s[last].body.item), hashOf, 0);
    if f.Hit? && f.index < last {
      FindMeans(s, TailQuery(s[last].body.item), 0);
      OtherOrChunk(s, nf, last, hashOf);
      RecsAround(s, f.index);
    }
  }

  lemma OtherOrChunk(s: seq<Slot>, nf: nat, last: nat, hashOf: Id -> nat)
    requires AtTail(s, nf, last, hashOf)
    ensures var f := FindVia(s, TailQuery(s[last].body.item), hashOf, 0); f.Hit? && f.index < last ==> Whole(s, f.index)
  {
    if s[last].body.item.typ.BLOB_DATA? {
      ChunkSearch(s, nf, last, hashOf);
    } else {
      OtherSearch(s, nf, last, hashOf);
    }
  }
}
