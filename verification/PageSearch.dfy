// What a search on a page looks for, the linear scan that defines its result, and why starting
// the scan at the first hash match gives the same result.
module PageSearch {
  import opened NvsTypes
  import opened PageImage
  import opened PageRam
  import opened PageWalk

  datatype Query = Query(ns: byte, typ: ItemType, key: Option<string>, chunk: byte, ver: byte)

  datatype Verdict = Skip | Take | Mismatch

  datatype Found = Nothing | Hit(index: nat) | WrongType(index: nat)

  function Truncated(key: string): string {
    if |key| > MAX_KEY_LENGTH then key[..MAX_KEY_LENGTH] else key
  }

  // The byte of the data field that a blob index keeps its version in. In a scalar it is the sixth of
  // its eight bytes; in an item of variable length it belongs to the checksum, and counts as no version.
  function ChunkStartOf(v: Val): byte {
    match v
    case BlobIndex(_, _, start) => start
    case Scalar(bytes) => if |bytes| == 8 then bytes[5] else VER_ANY
    case VarLength(_) => VER_ANY
  }

  // The chain of tests of findItem on one item.
  function Judge(it: Item, q: Query): Verdict {
    if q.ns != NS_ANY && it.ns != q.ns then Skip
    else if q.key.Some? && Truncated(q.key.value) != it.key then Skip
    else if q.chunk != CHUNK_ANY && q.typ.BLOB_DATA? && it.chunk != q.chunk then Skip
    else if q.chunk == CHUNK_ANY && q.typ.BLOB_DATA? && !it.typ.BLOB_DATA? then Skip
    else if q.chunk == CHUNK_ANY && q.typ.BLOB? && it.typ.BLOB_IDX? then Mismatch
    else if q.chunk == CHUNK_ANY && q.typ.BLOB? && it.typ.BLOB_DATA? then Skip
    else if q.typ.BLOB_IDX? && it.chunk != CHUNK_ANY then Skip
    else if q.typ.BLOB_IDX? && q.ver != VER_ANY && ChunkStartOf(it.val) != q.ver then Skip
    else if !q.typ.ANY? && it.typ != q.typ then
      (if q.key.None? && q.ns == NS_ANY && q.chunk == CHUNK_ANY then Skip else Mismatch)
    else Take
  }

  // The linear scan: the first item from entry i on that is not skipped.
  function FindFrom(s: seq<Slot>, q: Query, i: nat): Found
    decreases |s|, |s| - i
  {
    if i >= |s| then Nothing
    else if IsHead(s[i]) && !Judge(s[i].body.item, q).Skip? then
      (if Judge(s[i].body.item, q).Take? then Hit(i) else WrongType(i))
    else FindFrom(s, q, i + 1)
  }

  ghost predicate SkippedIn(s: seq<Slot>, q: Query, i: nat, j: nat) {
    forall k: nat :: i <= k < j && k < |s| && IsHead(s[k]) ==> Judge(s[k].body.item, q).Skip?
  }

  lemma {:induction false} FindSkips(s: seq<Slot>, q: Query, i: nat, j: nat)
    requires i <= j
    requires SkippedIn(s, q, i, j)
    ensures FindFrom(s, q, i) == FindFrom(s, q, j)
    decreases j - i
  {
    if i < j {
      FindSkips(s, q, i + 1, j);
    }
  }

  lemma {:induction false} FindMeans(s: seq<Slot>, q: Query, i: nat)
    ensures match FindFrom(s, q, i)
      case Nothing => SkippedIn(s, q, i, |s|)
      case Hit(h) => i <= h < |s| && IsHead(s[h]) && Judge(s[h].body.item, q).Take? && SkippedIn(s, q, i, h)
      case WrongType(h) => i <= h < |s| && IsHead(s[h]) && Judge(s[h].body.item, q).Mismatch? && SkippedIn(s, q, i, h)
    decreases |s| - i
  {
    if i < |s| {
      FindMeans(s, q, i + 1);
    }
  }

  // ---------------------------------------------------------------- starting from the hash list

  predicate UsesHash(q: Query) {
    q.ns != NS_ANY && q.key.Some? && (!q.typ.BLOB_DATA? || q.chunk != CHUNK_ANY)
  }

  function QueryId(q: Query): Id
    requires q.key.Some?
  {
    Id(q.ns, Truncated(q.key.value), q.chunk)
  }

  ghost predicate HasHash(s: seq<Slot>, k: nat, hashOf: Id -> nat, hash: nat) {
    k < |s| && IsHead(s[k]) && hashOf(IdOf(s[k].body.item)) == hash
  }

  // The first item at or after i whose hash is `hash`, or |s| when there is none.
  ghost function FirstHash(s: seq<Slot>, hashOf: Id -> nat, hash: nat, i: nat): (r: nat)
    ensures i <= |s| ==> i <= r <= |s|
    ensures r < |s| ==> HasHash(s, r, hashOf, hash)
    ensures forall k: nat :: i <= k < r ==> !HasHash(s, k, hashOf, hash)
    decreases |s|, |s| - i
  {
    if i >= |s| then |s| else if HasHash(s, i, hashOf, hash) then i else FirstHash(s, hashOf, hash, i + 1)
  }

  // What a search that uses the hash list finds.
  ghost function FindVia(s: seq<Slot>, q: Query, hashOf: Id -> nat, start: nat): Found {
    if UsesHash(q) then FindFrom(s, q, FirstHash(s, hashOf, hashOf(QueryId(q)), start)) else FindFrom(s, q, start)
  }

  // The key has no other chunk on this page than the one asked for.
  ghost predicate NoOtherChunk(s: seq<Slot>, q: Query) {
    forall k: nat :: k < |s| && IsHead(s[k]) && OfKey(s[k].body.item, q) ==> s[k].body.item.chunk == q.chunk
  }

  predicate OfKey(it: Item, q: Query) {
    q.key.Some? && it.ns == q.ns && it.key == Truncated(q.key.value)
  }

  // Whatever hashes collide: a search that starts at the first hash match ends like the scan from
  // `start`, for a blob chunk asked for by number, for a blob index, and for any type when the key
  // has no chunks on the page.
  lemma {:induction false} HashAgreesWithScan(s: seq<Slot>, q: Query, hashOf: Id -> nat, start: nat)
    requires start <= |s|
    requires (q.typ.BLOB_DATA? && q.chunk != CHUNK_ANY) || (q.typ.BLOB_IDX? && q.chunk == CHUNK_ANY)
      || NoOtherChunk(s, q)
    ensures FindVia(s, q, hashOf, start) == FindFrom(s, q, start)
  {
    if UsesHash(q) {
      var i := FirstHash(s, hashOf, hashOf(QueryId(q)), start);
      forall k: nat | start <= k < i && IsHead(s[k]) ensures Judge(s[k].body.item, q).Skip? {
        assert !HasHash(s, k, hashOf, hashOf(QueryId(q)));
        assert IdOf(s[k].body.item) != QueryId(q);
      }
      FindSkips(s, q, start, i);
    }
  }

  // The hash does decide what a search of unspecified type finds for a blob: its index, which has
  // chunk index 255, and never one of the chunks that a plain scan would meet first.
  lemma {:induction false} HashPrefersIndex(s: seq<Slot>, hashOf: Id -> nat, key: string, c: nat, x: nat)
    requires c < x < |s| && IsHead(s[c]) && IsHead(s[x]) && |key| <= MAX_KEY_LENGTH
    requires s[c].body.item.ns == s[x].body.item.ns != NS_ANY && s[c].body.item.key == s[x].body.item.key == key
    requires s[c].body.item.typ.BLOB_DATA? && s[x].body.item.typ.BLOB_IDX?
    requires FirstHash(s, hashOf, hashOf(Id(s[x].body.item.ns, key, CHUNK_ANY)), 0) == x
    requires forall k: nat :: k < c && IsHead(s[k]) ==> s[k].body.item.key != key
    ensures var q := Query(s[x].body.item.ns, ANY, Some(key), CHUNK_ANY, VER_ANY);
      FindVia(s, q, hashOf, 0) == Hit(x) && FindFrom(s, q, 0) == Hit(c)
  {
    var q := Query(s[x].body.item.ns, ANY, Some(key), CHUNK_ANY, VER_ANY);
    FindSkips(s, q, 0, c);
  }

  // ---------------------------------------------------------------- the steps of the scan

  // What the scan relies on in RAM.
  lemma ScanTable(r: Ram, s: seq<Slot>, hashOf: Id -> nat)
    requires InUse(r, s, hashOf)
    ensures |s| == ENTRY_COUNT == |r.table| && Loose(s, r.top) && forall i :: 0 <= i < |s| ==> r.table[i] == s[i].st
    ensures forall k: nat :: r.nextFree <= k && k < |s| ==> !IsHead(s[k])
  {
  }

  lemma OverUnwritten(s: seq<Slot>, q: Query, i: nat)
    requires Boundary(s, i) && i < |s| && !s[i].st.WRITTEN?
    ensures Boundary(s, i + 1) && FindFrom(s, q, i) == FindFrom(s, q, i + 1)
  {
    BoundaryOver(s, i);
  }

  lemma AtWritten(s: seq<Slot>, nf: nat, q: Query, i: nat)
    requires Loose(s, nf) && Boundary(s, i) && i < |s| && s[i].st.WRITTEN?
    ensures IsHead(s[i]) && i < i + SpanAt(s, i) <= |s| && Boundary(s, i + SpanAt(s, i))
    ensures !IsVariableLengthType(s[i].body.item.typ) ==> SpanAt(s, i) == 1
    ensures match Judge(s[i].body.item, q)
      case Take => FindFrom(s, q, i) == Hit(i)
      case Mismatch => FindFrom(s, q, i) == WrongType(i)
      case Skip => FindFrom(s, q, i) == FindFrom(s, q, i + SpanAt(s, i))
  {
    WrittenAtBoundary(s, nf, i);
    BoundaryAfter(s, nf, i);
    if Judge(s[i].body.item, q).Skip? {
      FindSkips(s, q, i, i + SpanAt(s, i));
    }
  }

  lemma BeyondPage(s: seq<Slot>, q: Query, hashOf: Id -> nat, from: nat)
    requires from >= |s|
    ensures FindVia(s, q, hashOf, from) == Nothing
  {
  }

  lemma {:induction false} AtEnd(s: seq<Slot>, q: Query, i: nat)
    requires forall k: nat :: i <= k < |s| ==> !IsHead(s[k])
    ensures FindFrom(s, q, i) == Nothing
  {
    if i < |s| {
      FindSkips(s, q, i, |s|);
    }
  }
}
