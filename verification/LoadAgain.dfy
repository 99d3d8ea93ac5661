// Loading a page again: when that changes nothing.
module LoadAgain {
  import opened NvsTypes
  import opened PageImage
  import opened PageLoad

  // ---------------------------------------------------------------- loading a page twice

  // Two chunks of the last record's key come before it.
  predicate TwoShadowed(recs: seq<Rec>) {
    exists j, k :: 0 <= j < k < |recs| - 1 && recs[|recs| - 1].item.typ.BLOB_DATA?
      && ChunkOf(recs[j], recs[|recs| - 1].item) && ChunkOf(recs[k], recs[|recs| - 1].item)
  }

  lemma {:induction false} DroppedOne(recs: seq<Rec>, k: nat)
    requires ChunkShadowed(recs) && k == FirstChunk(recs, recs[|recs| - 1].item)
    ensures var d := ChunkDropped(recs);
      |d| == |recs| - 1 && d[|d| - 1] == recs[|recs| - 1]
        && forall i :: 0 <= i < |d| ==> d[i] == recs[if i < k then i else i + 1]
  {
    hide ChunkDropped, FirstChunk, ChunkShadowed;
    ShadowedDrop(recs, k);
  }

  lemma DroppedOnce(recs: seq<Rec>)
    ensures ChunkShadowed(ChunkDropped(recs)) <==> TwoShadowed(recs)
  {
    hide ChunkDropped;
    if ChunkShadowed(recs) {
      var last, d := recs[|recs| - 1].item, ChunkDropped(recs);
      var k := FirstChunk(recs, last);
      DroppedOne(recs, k);
      if ChunkShadowed(d) {
        var m := FirstChunk(d, last);
        assert ChunkOf(recs[k], last) && ChunkOf(recs[m + 1], last) by {
          assert d[m] == recs[if m < k then m else m + 1];
        }
      }
      if TwoShadowed(recs) {
        var j, l :| 0 <= j < l < |recs| - 1 && ChunkOf(recs[j], last) && ChunkOf(recs[l], last);
        assert d[l - 1] == recs[l];
      }
    } else {
      NotDropped(recs);
    }
  }

  // Loading an active page again changes nothing if and only if the page does not end in a blob
  // chunk that two chunks of the same key come before.
  lemma {:induction false} LoadedAgainIff(recs: seq<Rec>, tail: bool, hashOf: Id -> nat)
    ensures var once := LoadedRecs(recs, tail, hashOf);
      LoadedRecs(once, tail, hashOf) == once <==> !(tail && TwoShadowed(Deduped(recs, hashOf)))
  {
    hide Deduped, DistinctHashes, TwoShadowed, ChunkShadowed;
    var d := Deduped(recs, hashOf);
    var once := LoadedRecs(recs, tail, hashOf);
    DedupedIsDistinct(recs, hashOf);
    DroppedOnce(d);
    DropKeepsDistinct(d, hashOf);
    LoadLosesNothingIff(once, tail, hashOf);
  }

  // Three chunks of a key at the end of a page: each load drops the first of those that are left.
  lemma ThreeChunks(a: Rec, b: Rec, c: Rec, hashOf: Id -> nat)
    requires DistinctHashes([a, b, c], hashOf) && c.item.typ.BLOB_DATA? && ChunkOf(a, c.item) && ChunkOf(b, c.item)
    ensures LoadedRecs([a, b, c], true, hashOf) == [b, c] && LoadedRecs([b, c], true, hashOf) == [c]
      && LoadedRecs([c], true, hashOf) == [c]
  {
    hide Deduped, FirstChunk;
    assert HashOfRec([a, b, c][1], hashOf) != HashOfRec([a, b, c][2], hashOf);
    DedupedLength([a, b, c], hashOf);
    DedupedLength([b, c], hashOf);
    DedupedLength([c], hashOf);
    FirstIs([a, b, c], c.item);
    FirstIs([b, c], c.item);
    FirstIs([c], c.item);
  }

  lemma {:induction false} FirstIs(recs: seq<Rec>, it: Item)
    requires recs != [] && ChunkOf(recs[0], it)
    ensures FirstChunk(recs, it) == 0
  {
  }
}
