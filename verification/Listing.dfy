// What a list of keys shows: every name once, for a single value or for a blob of either version.
module Listings {
  import opened NvsTypes
  import opened PageImage
  import opened PageSearch
  import opened ItemHashList
  import opened StoreImage
  import opened PageLists
  import opened PageManagers
  import opened StoreSearch
  import opened StoreWalk
  import opened StoreAccounts
  import opened BlobSearch
  import opened BlobUpdates
  import opened BlobPurge
  import opened Overwrites
  import opened Storages

  predicate Names(it: Item, ns: byte, key: string) {
    it.ns == ns && it.key == key
  }

  // All namespaces but the one of the namespaces themselves, or this one.
  predicate Asks(ns: byte, n: byte) {
    n != 0 && (ns == NS_ANY || ns == n)
  }

  // How often a name occurs in a list.
  function Occurrences(items: seq<Item>, ns: byte, key: string): nat {
    if items == [] then 0
    else Occurrences(items[..|items| - 1], ns, key) + if Names(items[|items| - 1], ns, key) then 1 else 0
  }

  lemma {:induction false} ListedAdds(a: seq<Rec>, b: seq<Rec>)
    ensures Listed(a + b) == Listed(a) + Listed(b)
  {
    hide Listed;
    NothingAhead();
    if a == [] {
      assert a + b == b;
    } else {
      ListedAdds(a[1..], b);
      ListedFirst(a[0], a[1..]);
      ListedFirst(a[0], a[1..] + b);
      assert a == [a[0]] + a[1..] && a + b == [a[0]] + (a[1..] + b);
    }
  }

  // The list of the records of a namespace, one record longer.
  lemma ListedMore(recs: seq<Rec>, r: Rec, ns: byte)
    ensures Listed(OfNs(recs + [r], ns)) ==
      if (ns == NS_ANY || r.item.ns == ns) && Iterable(r.item) then Listed(OfNs(recs, ns)) + [r.item]
      else Listed(OfNs(recs, ns))
  {
    hide Iterable, Sought, Listed;
    OfAdds(recs, [r], NsQuery(ns));
    OfOne(r, NsQuery(ns));
    SoughtInNs(r, ns);
    ListedAdds(OfNs(recs, ns), OfNs([r], ns));
    ListedFirst(r, []);
    NothingAhead();
    assert [r] + [] == [r] && Listed(OfNs(recs, ns)) + [] == Listed(OfNs(recs, ns));
  }

  // A name of which one record is listed, and this once, occurs once.
  lemma {:induction false} OccursOnce(recs: seq<Rec>, ns: byte, n: byte, key: string, r: Rec)
    requires (ns == NS_ANY || ns == n) && Names(r.item, n, key) && Iterable(r.item) && multiset(recs)[r] <= 1
    requires forall q :: q in recs && Names(q.item, n, key) && Iterable(q.item) ==> q == r
    ensures Occurrences(Listed(OfNs(recs, ns)), n, key) == multiset(recs)[r]
  {
    hide Iterable, OfNs, Listed;
    if recs == [] {
      NothingListed(ns);
    } else {
      var front, last := recs[..|recs| - 1], recs[|recs| - 1];
      assert recs == front + [last] && multiset(recs) == multiset(front) + multiset{last} && last in recs;
      OccursOnce(front, ns, n, key, r);
      ListedMore(front, last, ns);
      OccursMore(Listed(OfNs(front, ns)), last.item, n, key);
    }
  }

  lemma NothingListed(ns: byte)
    ensures Listed(OfNs([], ns)) == []
  {
  }

  lemma {:induction false} OccursMore(items: seq<Item>, it: Item, n: byte, key: string)
    ensures Occurrences(items + [it], n, key) == Occurrences(items, n, key) + if Names(it, n, key) then 1 else 0
  {
    assert (items + [it])[..|items|] == items;
  }

  // What is listed is the item of a record of the namespace.
  lemma {:induction false} ListedIsRecord(recs: seq<Rec>, ns: byte, it: Item)
    requires it in Listed(OfNs(recs, ns))
    ensures Iterable(it) && (ns == NS_ANY || it.ns == ns) && exists r :: r in recs && r.item == it
  {
    hide Iterable, OfNs, Listed;
    if recs == [] {
      NothingListed(ns);
    } else {
      var front, last := recs[..|recs| - 1], recs[|recs| - 1];
      assert recs == front + [last];
      ListedMore(front, last, ns);
      if it in Listed(OfNs(front, ns)) {
        ListedIsRecord(front, ns, it);
        var r :| r in front && r.item == it;
        assert r in recs;
      } else {
        assert last in recs;
      }
    }
  }

  // ---------------------------------------------------------------- single values

  // A store between two operations.
  ghost predicate WellKept(live: multiset<Rec>) {
    Unique(live) && Tidy(live) && forall r :: r in live ==> WritableId(r.item)
  }

  lemma {:induction false} SingleOccurs(live: multiset<Rec>, recs: seq<Rec>, ns: byte, n: byte, key: string, o: Rec)
    requires multiset(recs) == live && WellKept(live) && Asks(ns, n)
    requires Single(live, n, key, o)
    ensures Occurrences(Listed(OfNs(recs, ns)), n, Truncated(key)) == 1
  {
    hide Tidy;
    SingleMeans(live, n, key, o);
    forall q | q in recs && Names(q.item, n, Truncated(key)) ensures q == o {
      assert q in live;
    }
    OccursOnce(recs, ns, n, Truncated(key), o);
  }

  // ---------------------------------------------------------------- blobs

  // A name has one record that is no chunk.
  lemma SameUnlessChunk(live: multiset<Rec>, q: Rec, i: Rec)
    requires WellKept(live) && q in live && i in live && SameName(q, i)
    ensures q.item.typ.BLOB_DATA? || i.item.typ.BLOB_DATA? || q == i
  {
    hide Tidy;
    assert q.item.typ.BLOB_DATA? || i.item.typ.BLOB_DATA? || IdOf(q.item) == IdOf(i.item);
  }

  lemma IndexOfChunk(live: multiset<Rec>, q: Rec) returns (i: Rec)
    requires WellKept(live) && q in live && q.item.typ.BLOB_DATA?
    ensures i in live && Matched(live, i) && Counts(i, q) && i.item.typ.BLOB_IDX?
  {
    hide Matched;
    assert Stays(live, q);
    i :| i in live && Matched(live, i) && Counts(i, q);
  }

  // Of a complete blob its first chunk is listed, and no other.
  lemma FirstChunkOnly(live: multiset<Rec>, n: byte, key: string, b: Blob, q: Rec)
    requires WellKept(live) && HasBlob(live, n, key, b) && n != NS_ANY
    requires q in live && Names(q.item, n, Truncated(key)) && Iterable(q.item)
    ensures BlobOk(b) && q == ChunkOfBlob(n, key, b, 0)
  {
    hide HasChunks, ChunkOfBlob, IndexOf, Matched;
    BlobIsAsked(live, n, key, Some(b));
    var i := IndexOf(n, key, b);
    IndexMeans(n, key, b);
    assert i.item.typ.BLOB_IDX? && Names(i.item, n, Truncated(key)) by {
      IndexHasName(n, key, b);
    }
    SameUnlessChunk(live, q, i);
    var j := IndexOfChunk(live, q);
    SameUnlessChunk(live, j, i);
    ChunkIsAsked(live, n, key, b, 0);
    assert Asked(q, ChunkQuery(n, key, b.start));
  }

  lemma IndexHasName(n: byte, key: string, b: Blob)
    requires BlobOk(b)
    ensures var i := IndexOf(n, key, b).item;
      i.typ.BLOB_IDX? && i.chunk == CHUNK_ANY && Names(i, n, Truncated(key))
  {
  }

  lemma {:induction false} BlobOccurs(live: multiset<Rec>, recs: seq<Rec>, ns: byte, n: byte, key: string, b: Blob)
    requires multiset(recs) == live && WellKept(live) && Asks(ns, n)
    requires HasBlob(live, n, key, b) && n != NS_ANY
    ensures Occurrences(Listed(OfNs(recs, ns)), n, Truncated(key)) == 1
  {
    hide Tidy, HasBlob, ChunkOfBlob;
    BlobMeans(live, n, key, b);
    var c := ChunkOfBlob(n, key, b, 0);
    ChunkIsAsked(live, n, key, b, 0);
    AskedIsChunk(live, n, key, b.start, c);
    assert Iterable(c.item) && c in live;
    forall q | q in recs && Names(q.item, n, Truncated(key)) && Iterable(q.item) ensures q == c {
      assert q in live;
      FirstChunkOnly(live, n, key, b, q);
    }
    OccursOnce(recs, ns, n, Truncated(key), c);
  }

  // ---------------------------------------------------------------- nothing else

  // A single value, or a chunk of a blob of which as many chunks and bytes are there as its index says.
  ghost predicate Shown(live: multiset<Rec>, r: Rec) {
    && r in live && r.item.ns != 0 && !r.item.typ.BLOB_IDX? && !r.item.typ.BLOB?
    && if r.item.typ.BLOB_DATA? then exists i :: i in live && Matched(live, i) && Counts(i, r)
       else Single(live, r.item.ns, r.item.key, r)
  }

  lemma OnlyShown(live: multiset<Rec>, r: Rec)
    requires WellKept(live) && r in live && Iterable(r.item)
    ensures Shown(live, r)
  {
    hide Matched, Tidy;
    if r.item.typ.BLOB_DATA? {
      var i := IndexOfChunk(live, r);
    } else {
      forall q | q in live && OfName(q, r.item.ns, r.item.key) ensures q == r {
        NamedIs(live, r, q);
      }
    }
  }

  lemma NamedIs(live: multiset<Rec>, r: Rec, q: Rec)
    requires WellKept(live) && r in live && q in live && SameName(q, r) && !r.item.typ.BLOB_DATA?
      && !r.item.typ.BLOB_IDX?
    ensures q == r
  {
    hide Matched, WellKept;
    if q.item.typ.BLOB_DATA? {
      var i := IndexOfChunk(live, q);
      SameUnlessChunk(live, i, r);
    } else {
      SameUnlessChunk(live, q, r);
    }
  }

  lemma ListedIsShown(live: multiset<Rec>, recs: seq<Rec>, ns: byte, it: Item)
    requires multiset(recs) == live && WellKept(live) && it in Listed(OfNs(recs, ns))
    ensures Asks(ns, it.ns) && exists r :: Shown(live, r) && r.item == it
  {
    hide WellKept, Shown, OfNs, Listed;
    ListedIsRecord(recs, ns, it);
    var r :| r in recs && r.item == it;
    assert r in live;
    OnlyShown(live, r);
  }

  // Lists the keys of a namespace, or of all: each name that stands for a single value and each that
  // stands for a complete blob, of either version, occurs once. Nothing else does, neither names of
  // namespaces nor indices of blobs.
  method ListKeys(s: Storage, ns: byte) returns (items: seq<Item>)
    requires s.Valid() && Unique(s.Records()) && Tidy(s.Records())
    ensures forall n: byte, key: string, o: Rec :: Single(s.Records(), n, key, o) && Asks(ns, n) ==>
      Occurrences(items, n, Truncated(key)) == 1
    ensures forall n: byte, key: string, b: Blob :: HasBlob(s.Records(), n, key, b) && Asks(ns, n) && n < 255 ==>
      Occurrences(items, n, Truncated(key)) == 1
    ensures forall it :: it in items ==> Asks(ns, it.ns) && exists r :: Shown(s.Records(), r) && r.item == it
  {
    hide HashList.Valid, InOrder, RamsOk, PageManager.Wired, PageManager.HashListsOk, Live, Unique, Tidy, Single,
      HasBlob, Shown, Occurrences, OfNs, Listed, RecordList, WritableId;
    ghost var live, recs := s.Records(), RecordList(s.pm.dev.pages, s.pm.pageList);
    LiveWritable(s.pm.Rams(), s.pm.dev.pages, s.pm.pageList, s.pm.freeList, s.pm.seqNumber, s.pm.hashOf);
    items := s.ListItems(ns);
    forall n: byte, key: string, o: Rec | Single(live, n, key, o) && Asks(ns, n)
      ensures Occurrences(items, n, Truncated(key)) == 1
    {
      SingleOccurs(live, recs, ns, n, key, o);
    }
    forall n: byte, key: string, b: Blob | HasBlob(live, n, key, b) && Asks(ns, n) && n < 255
      ensures Occurrences(items, n, Truncated(key)) == 1
    {
      BlobOccurs(live, recs, ns, n, key, b);
    }
    forall it | it in items ensures Asks(ns, it.ns) && exists r :: Shown(live, r) && r.item == it {
      ListedIsShown(live, recs, ns, it);
    }
  }
}
