// Power lost while a scalar or a string is set, or while room is made for it: what the store comes up
// with, and exactly when that is everything.
module Restarts {
  import opened NvsTypes
  import opened PageImage
  import opened PageLoad
  import opened PageTwins
  import opened PageScan
  import opened FlashDevice
  import opened ItemHashList
  import opened StoreImage
  import opened Recovery
  import opened PageLists
  import opened PageManagers
  import opened StoreSearch
  import opened StoreWrites
  import opened StoreUpdates
  import opened Collections
  import opened BlobUpdates
  import opened BlobPurge
  import opened Storages
  import opened StorageInits
  import opened BlobCrash

  // ---------------------------------------------------------------- starting

  // Starts on an image with these records, all of whose blobs are complete. Exactly they are there
  // again if and only if the page in use comes through being loaded; without colliding hashes, if and
  // only if it does not shadow a chunk. If power fails again on the way, it was for the same records.
  method StartOn(c: seq<FPage>, hashOf: Id -> nat, crcOf: seq<byte> -> nat, ghost live: multiset<Rec>)
    returns (s: Storage)
    requires Recoverable(c, live) && Identified(live) && Tidy(live)
    ensures s.Valid() && s.pm.hashOf == hashOf && fresh(s) && fresh(s.pm) && fresh(s.pm.dev) && fresh(s.pm.Objects())
    ensures s.Records() <= live && (s.Records() == live <==> Kept(c, hashOf))
    ensures Sparse(live, hashOf) ==> (s.Records() == live <==> !Shadows(c, live))
    ensures Sparse(live, hashOf) && Shadows(c, live) ==>
      exists d :: d in live && d.item.typ.BLOB_DATA? && d !in s.Records()
    ensures Kept(c, hashOf) ==> forall d :: d in s.pm.dev.cuts ==> Recoverable(d, live)
    ensures Kept(c, hashOf) && ChunksApart(c) ==>
      ChunksApart(s.pm.dev.pages) && forall d :: d in s.pm.dev.cuts ==> ChunksApart(d)
  {
    hide Recoverable, Identified, Tidy, Purged, Live, Kept, LeftBy, Between, Sparse, Shadows, ChunksApart,
      Storage.Valid, PageManager.Valid;
    SelfExtended(live);
    ghost var loaded;
    s, loaded := Boot(c, hashOf, crcOf, live, live);
    PurgedWithin(loaded, s.Records());
    if Kept(c, hashOf) {
      BetweenSame(s.pm.dev.cuts, live);
    }
    if Sparse(live, hashOf) && Shadows(c, live) {
      ghost var d := ShadowedIsMissing(c, live, loaded, hashOf);
    }
  }

  lemma BetweenSame(cuts: iset<seq<FPage>>, live: multiset<Rec>)
    requires forall d :: d in cuts ==> Between(d, live, live)
    ensures forall d :: d in cuts ==> Recoverable(d, live)
  {
    hide Recoverable;
    forall d: seq<FPage> | d in cuts ensures Recoverable(d, live) {
      var x :| live <= x <= live && Recoverable(d, x);
      assert x == live;
    }
  }

  // ---------------------------------------------------------------- writes cut short

  // Replacing a scalar or a string by another does not concern blobs.
  lemma UpdateStaysTidy(live: multiset<Rec>, o: Option<Rec>, n: Rec, ns: byte, key: string)
    requires Identified(live) && Tidy(live) && NoBlob(live, ns, key) && RecordOf(live, ns, key, o)
      && OfName(n, ns, key) && PlainType(n.item.typ)
    requires n !in live && Unique(Updated(live, o, n))
    ensures Identified(Updated(live, o, n)) && Tidy(Updated(live, o, n))
    ensures forall c: Rec :: c.item.typ.BLOB_DATA? ==> (c in Updated(live, o, n) <==> c in live)
  {
    hide Unique, Tidy;
    var now := Updated(live, o, n);
    forall r, c | r in now && c in now && ChunkOf(c, r.item) ensures r.item.typ.BLOB_DATA? || r.item.typ.BLOB_IDX? {
      assert c in live && (r == n ==> OfName(c, ns, key));
      assert r in live;
    }
    forall r: Rec | r.item.typ.BLOB_DATA? || r.item.typ.BLOB_IDX? ensures now[r] == live[r] {
    }
    SameBlobsTidy(live, now);
  }

  lemma RemovalStaysTidy(live: multiset<Rec>, o: Rec)
    requires Identified(live) && Tidy(live) && !o.item.typ.BLOB_DATA? && !o.item.typ.BLOB_IDX?
    ensures Identified(live - multiset{o}) && Tidy(live - multiset{o})
  {
    hide Tidy;
    IdentifiedWithin(live, live - multiset{o});
    SameBlobsTidy(live, live - multiset{o});
  }

  lemma SameBlobsTidy(live: multiset<Rec>, now: multiset<Rec>)
    requires Tidy(live) && forall r: Rec :: r.item.typ.BLOB_DATA? || r.item.typ.BLOB_IDX? ==> now[r] == live[r]
    ensures Tidy(now)
  {
    hide Matched, Counts;
    forall r | r in now ensures Stays(now, r) {
      if r.item.typ.BLOB_DATA? {
        assert now[r] == live[r] && Stays(live, r);
        if !IsIndex(r) {
          var i :| i in live && Matched(live, i) && Counts(i, r);
          MatchedIndex(live, i);
          SameFamily(live, now, i);
          assert now[i] == live[i];
        } else {
          SameFamily(live, now, r);
        }
      } else if IsIndex(r) {
        assert now[r] == live[r] && Stays(live, r);
        SameFamily(live, now, r);
      }
    }
  }

  lemma SameFamily(live: multiset<Rec>, now: multiset<Rec>, i: Rec)
    requires forall r: Rec :: r.item.typ.BLOB_DATA? || r.item.typ.BLOB_IDX? ==> now[r] == live[r]
    ensures Matched(live, i) <==> Matched(now, i)
  {
    hide TotalSize;
    forall c ensures c in Family(now, i) <==> c in Family(live, i) {
      if c.item.typ.BLOB_DATA? {
        assert now[c] == live[c];
      }
    }
    assert Family(now, i) == Family(live, i);
  }

  // Which chunk is shadowed does not depend on scalars and strings.
  lemma SameShadows(c: seq<FPage>, live: multiset<Rec>, now: multiset<Rec>)
    requires forall r: Rec :: r.item.typ.BLOB_DATA? ==> (r in now <==> r in live)
    ensures Shadows(c, live) <==> Shadows(c, now)
  {
    hide RecsOf, EndsInItem, WithoutTwin, NoneFreeing;
    forall p | 0 <= p < |c| ensures DropsFrom(c[p], live) <==> DropsFrom(c[p], now) {
      SameDrops(c[p], live, now);
    }
  }

  lemma SameDrops(fp: FPage, live: multiset<Rec>, now: multiset<Rec>)
    requires forall r: Rec :: r.item.typ.BLOB_DATA? ==> (r in now <==> r in live)
    ensures DropsFrom(fp, live) <==> DropsFrom(fp, now)
  {
    hide RecsOf, EndsInItem, WithoutTwin;
    var w := WithoutTwin(RecsOf(fp));
    if ChunkShadowed(w) {
      var k := FirstChunk(w, w[|w| - 1].item);
      assert w[k].item.typ.BLOB_DATA?;
    }
  }

  // Starts on what losing power during a write of n over o left. Without colliding hashes the old
  // records are there or the new ones, if and only if no chunk is shadowed.
  method BootWrite(c: seq<FPage>, hashOf: Id -> nat, crcOf: seq<byte> -> nat, ghost live: multiset<Rec>,
                   ghost o: Option<Rec>, ghost n: Rec, ghost ok: bool, ghost ns: byte, ghost key: string)
    returns (again: Storage)
    requires OldOrNew(c, live, o, n, ok) && Identified(live) && Tidy(live)
    requires ok ==>
      NoBlob(live, ns, key) && RecordOf(live, ns, key, o) && OfName(n, ns, key) && PlainType(n.item.typ) && n !in live
        && Unique(Updated(live, o, n))
    ensures again.Valid()
    ensures Kept(c, hashOf) ==> again.Records() == live || (ok && again.Records() == Updated(live, o, n))
    ensures Sparse(live, hashOf) && (ok ==> Sparse(Updated(live, o, n), hashOf)) ==>
      (again.Records() == live || (ok && again.Records() == Updated(live, o, n)) <==> !Shadows(c, live))
  {
    hide Recoverable, Identified, Tidy, Live, Kept, Sparse, Shadows, Storage.Valid, Unique, NoBlob, RecordOf, Updated;
    ghost var kept := Recoverable(c, live);
    if ok {
      UpdateStaysTidy(live, o, n, ns, key);
      SameShadows(c, live, Updated(live, o, n));
    }
    again := StartOn(c, hashOf, crcOf, if kept then live else Updated(live, o, n));
  }

  // ---------------------------------------------------------------- collections cut short

  // Makes room, and then power fails. The store comes back with all records if and only if nothing
  // had to move, or the page that was moved does not end, once its gaps are gone, in a chunk with an
  // earlier chunk of its key (nor do two of its records share a hash).
  method CollectThenBoot(s: Storage) returns (err: Error, again: Storage, ghost freed: nat)
    requires s.Valid() && s.pm.Rams()[s.Current()].state.FULL? && Identified(s.Records()) && Tidy(s.Records())
    modifies s.pm, s.pm.dev, s.pm.Objects()
    ensures again.Valid() && s.Records() == old(s.Records()) && again.Records() <= s.Records()
    ensures err == OK && |old(s.pm.freeList)| == 1 ==> s.pm.dev.pages in s.pm.dev.cuts
    ensures err == OK ==>
      (again.Records() == s.Records() <==>
        |old(s.pm.freeList)| >= 2 || MoveKeepsOn(old(s.pm.dev.pages), freed, s.pm.hashOf))
  {
    hide HashList.Valid, InOrder, RamsOk, PageManager.Wired, PageManager.HashListsOk, Live, Identified, Tidy,
      MoveKeepsOn, Kept, Recoverable, Stable, ChunksApart, Relocated, Safe, Sparse, Shadows, Unique;
    IsUnique(s.Records());
    again := s;
    err, freed := s.pm.RequestNewPage();
    if err == OK {
      WrittenStable(s.pm.Rams(), s.pm.dev.pages, s.pm.pageList, s.pm.freeList, s.pm.seqNumber, s.pm.hashOf);
      again := StartOn(s.pm.dev.pages, s.pm.hashOf, s.crcOf, s.Records());
    }
  }
}
