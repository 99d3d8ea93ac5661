// Scalars and strings as a user of the store sees them: what was set is read back.
module RoundTrips {
  import opened NvsTypes
  import opened PageImage
  import opened PageSearch
  import opened PageValues
  import opened ItemHashList
  import opened StoreImage
  import opened PageLists
  import opened PageManagers
  import opened StoreSearch
  import opened StoreWrites
  import opened StoreUpdates
  import opened StoreMap
  import opened BlobSearch
  import opened BlobUpdates
  import opened BlobNames
  import opened Overwrites
  import opened Storages

  // A value as its getters and setters pass it: a scalar of the width of its type, or a string.
  predicate ProperValue(typ: ItemType, v: Input) {
    match typ
    case U8 => v.Primitive? && |v.bytes| == 1
    case I8 => v.Primitive? && |v.bytes| == 1
    case U16 => v.Primitive? && |v.bytes| == 2
    case I16 => v.Primitive? && |v.bytes| == 2
    case U32 => v.Primitive? && |v.bytes| == 4
    case I32 => v.Primitive? && |v.bytes| == 4
    case U64 => v.Primitive? && |v.bytes| == 8
    case I64 => v.Primitive? && |v.bytes| == 8
    case SZ => v.Variable?
    case _ => false
  }

  lemma ProperIsWellFormed(typ: ItemType, v: Input)
    requires ProperValue(typ, v)
    ensures PlainType(typ) && !typ.ANY? && WellFormed(typ, v, CHUNK_ANY)
    ensures if v.Primitive? then OfWidth(typ, |v.bytes|) else typ.SZ?
  {
  }

  // If it is a string it is terminated.
  ghost predicate Terminated(was: Option<Rec>) {
    was.Some? && was.value.item.typ.SZ? && WholeRec(was.value) ==> NulTerminated(DataOf(was.value))
  }

  // The name stands for a string that the new one starts with: then the old one stays.
  ghost predicate KeepsPrefix(was: Option<Rec>, typ: ItemType, v: Input) {
    && was.Some? && v.Variable? && was.value.item.typ == typ && IsVariableLengthType(typ) && WholeRec(was.value)
    && DataOf(was.value) < v.data
  }

  // A terminated string is never the beginning of another.
  lemma TerminatedIsNoPrefix(a: seq<byte>, b: seq<byte>)
    requires NulTerminated(a) && NulTerminated(b)
    ensures !(a < b)
  {
  }

  // Reading a value whose write was skipped.
  lemma ReadsSkipped(was: Option<Rec>, typ: ItemType, v: Input, size: nat, err: Error, data: seq<byte>)
    requires ProperValue(typ, v) && Skips(was, typ, v) && ReadsAs(was, typ, size, err, data)
    requires if v.Primitive? then size == |v.bytes| else size >= |v.data|
    ensures err == OK && data == if KeepsPrefix(was, typ, v) then DataOf(was.value) else InputBytes(v)
  {
    if v.Variable? {
      SkippedIffPrefix(was.value, v.data);
    }
  }

  lemma WhenKept(was: Option<Rec>, typ: ItemType, v: Input)
    ensures KeepsPrefix(was, typ, v) ==> was.Some? && v.Variable? && WholeRec(was.value) && Skips(was, typ, v)
    ensures KeepsPrefix(was, typ, v) && typ.SZ? && NulTerminated(v.data) ==>
      was.value.item.typ.SZ? && !NulTerminated(DataOf(was.value))
  {
    if KeepsPrefix(was, typ, v) {
      SkippedIffPrefix(was.value, v.data);
      if NulTerminated(v.data) && NulTerminated(DataOf(was.value)) {
        TerminatedIsNoPrefix(DataOf(was.value), v.data);
      }
    }
  }

  lemma SkippedName(was: Option<Rec>, typ: ItemType, v: Input)
    requires Skips(was, typ, v)
    ensures was.Some?
  {
  }

  lemma UpdateReads(live: multiset<Rec>, now: multiset<Rec>, n: Rec, ns: byte, key: string)
    requires MapUpdate(live, now, n, ns, key)
    ensures Unique(now) && NoBlob(now, ns, key) && NameRecord(now, ns, key) == Some(n)
  {
    hide Unique, NoBlob, NameRecord;
    assert RecordOf(now, ns, key, NameRecord(now, ns, key));
  }

  // Sets a scalar or a string and reads it back: what is read is what was set, whether it was written or
  // skipped, unless the name stood for a string that the new one starts with. Among terminated strings
  // that cannot be. A name that stood for a blob takes the value too, when the search meets its index.
  method WriteThenRead(s: Storage, ns: byte, typ: ItemType, key: string, v: Input, size: nat, ghost b: Option<Blob>)
    returns (err: Error, readErr: Error, back: seq<byte>, ghost was: Option<Rec>)
    requires s.Valid() && ns != NS_ANY && ProperValue(typ, v) && Unique(s.Records())
    requires if b.None? then NoBlob(s.Records(), ns, Truncated(key)) else OnlyBlob(s.Records(), ns, key, b)
    requires b.Some? ==> !TakesChunk(s.pm.dev.pages, s.pm.pageList, s.pm.hashOf, ns, Truncated(key))
    requires if v.Primitive? then size == |v.bytes| else size >= |v.data|
    modifies s.pm, s.pm.dev, s.pm.Objects()
    ensures s.Valid() && (b.None? ==> RecordOf(old(s.Records()), ns, Truncated(key), was)) && (b.Some? ==> was.None?)
    ensures err == OK ==>
      readErr == OK && back == if KeepsPrefix(was, typ, v) then DataOf(was.value) else InputBytes(v)
    ensures err == OK && v.Primitive? ==> back == v.bytes
    ensures err == OK && v.Variable? && NulTerminated(v.data) && Terminated(was) ==> back == v.data
  {
    hide HashList.Valid, InOrder, RamsOk, PageManager.Wired, PageManager.HashListsOk, Live, Unique, NoBlob, OnlyBlob,
      TakesChunk, Skips, SizeOk, Room, ReadsAs, MapUpdate, NameRecord, BlobOk, Overwritten, Updated, OldOrNew,
      ChunksApart, KeepsPrefix, ProperValue;
    ProperIsWellFormed(typ, v);
    LiveWritable(s.pm.Rams(), s.pm.dev.pages, s.pm.pageList, s.pm.freeList, s.pm.seqNumber, s.pm.hashOf);
    ghost var live, n := s.Records(), RecOf(ns, typ, key, v, CHUNK_ANY);
    err, was := s.WriteItem(ns, typ, key, v, b);
    if err == OK {
      ghost var now := s.Records();
      if b.None? && Skips(was, typ, v) {
        SkippedName(was, typ, v);
        IsNameRecord(live, ns, Truncated(key), was.value);
      } else {
        AnswerFits(old(s.pm.Rams()), old(s.pm.pageList), old(s.pm.freeList), typ, key, v);
        UpdateReads(live, now, n, ns, key);
      }
      readErr, back := s.ReadItem(ns, typ, key, size);
      if b.None? && Skips(was, typ, v) {
        ReadsSkipped(was, typ, v, size, readErr, back);
      } else {
        ReadsWhatWasWritten(ns, typ, key, v, size, readErr, back);
      }
      WhenKept(was, typ, v);
    } else {
      readErr, back := NOT_FOUND, [];
    }
  }
}
