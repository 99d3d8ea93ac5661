// Values as items and payload: what the engine writes for a value, and what it reads back.
module PageValues {
  import opened NvsTypes
  import opened PageImage

  datatype Input =
    | Primitive(bytes: seq<byte>)
    | Index(totalSize: nat, chunkCount: byte, chunkStart: byte)
    | Variable(data: seq<byte>)

  function InputSize(v: Input): nat {
    match v
    case Primitive(bytes) => |bytes|
    case Index(_, _, _) => 8
    case Variable(data) => |data|
  }

  // What every caller of writeItem passes for a type.
  predicate WellFormed(typ: ItemType, v: Input, chunk: byte) {
    && (typ.BLOB_DATA? <==> chunk != CHUNK_ANY)
    && if IsVariableLengthType(typ) then v.Variable?
       else if typ.BLOB_IDX? then v.Index? && v.totalSize <= 127 * 125 * 32
       else !typ.ANY? && v.Primitive?
  }

  function EntriesFor(size: nat): nat {
    (size + ENTRY_SIZE - 1) / ENTRY_SIZE
  }

  function SpanFor(typ: ItemType, v: Input): nat {
    if IsVariableLengthType(typ) then 1 + EntriesFor(InputSize(v)) else 1
  }

  // A scalar fills the first bytes of the data field, the others stay ones.
  function Padded(bytes: seq<byte>): seq<byte> {
    if |bytes| < 8 then bytes + seq(8 - |bytes|, _ => 255 as byte) else bytes
  }

  function ValFor(v: Input): Val {
    match v
    case Primitive(bytes) => Scalar(Padded(bytes))
    case Index(totalSize, chunkCount, chunkStart) => BlobIndex(totalSize, chunkCount, chunkStart)
    case Variable(data) => VarLength(|data|)
  }

  function MakeItem(ns: byte, typ: ItemType, key: string, v: Input, chunk: byte): Item {
    Item(ns, typ, SpanFor(typ, v), chunk, key, ValFor(v))
  }

  // The k-th payload entry of `data`; the last one is filled up with ones.
  function DataBody(data: seq<byte>, k: nat): (b: Body)
    requires k < EntriesFor(|data|)
    ensures b.Data?
  {
    if (k + 1) * ENTRY_SIZE <= |data| then Data(data[k * ENTRY_SIZE..(k + 1) * ENTRY_SIZE])
    else Data(data[k * ENTRY_SIZE..] + seq((k + 1) * ENTRY_SIZE - |data|, _ => 255 as byte))
  }

  function PayloadOf(v: Input): seq<Slot> {
    match v
    case Variable(data) => seq(EntriesFor(|data|), k requires 0 <= k < EntriesFor(|data|) => Slot(WRITTEN,
      DataBody(data, k)))
    case _ => []
  }

  function RecOf(ns: byte, typ: ItemType, key: string, v: Input, chunk: byte): Rec {
    Rec(MakeItem(ns, typ, key, v, chunk), PayloadOf(v))
  }

  // ---------------------------------------------------------------- reading back

  ghost predicate AllPayload(payload: seq<Slot>) {
    forall k :: 0 <= k < |payload| ==> Payload(payload[k])
  }

  ghost function BytesOf(payload: seq<Slot>): (b: seq<byte>)
    requires AllPayload(payload)
    ensures |b| == |payload| * ENTRY_SIZE
  {
    if payload == [] then []
    else
      assert forall k :: 0 <= k < |payload| - 1 ==> payload[..|payload| - 1][k] == payload[k];
      assert Payload(payload[|payload| - 1]);
      BytesOf(payload[..|payload| - 1]) + payload[|payload| - 1].body.bytes
  }

  // A record as loading and writing leave it: its payload is as long as its header says.
  ghost predicate WholeRec(r: Rec) {
    && AllPayload(r.payload) && |r.payload| == r.item.span - 1
    && if IsVariableLengthType(r.item.typ) then
         && r.item.val.VarLength?
         && r.item.val.dataSize <= |r.payload| * ENTRY_SIZE < r.item.val.dataSize + ENTRY_SIZE
       else r.payload == [] && !r.item.val.VarLength?
  }

  // The value of a record of variable length.
  ghost function DataOf(r: Rec): seq<byte>
    requires WholeRec(r) && IsVariableLengthType(r.item.typ)
  {
    BytesOf(r.payload)[..r.item.val.dataSize]
  }

  // The value of any record: its data, or the data field of its header.
  ghost function ValueOf(r: Rec): seq<byte>
    requires WholeRec(r)
  {
    if IsVariableLengthType(r.item.typ) then DataOf(r) else if r.item.val.Scalar? then r.item.val.bytes else []
  }

  // The first n payload entries hold the first bytes of the data.
  lemma {:induction false} PayloadIsData(data: seq<byte>, n: nat)
    requires n <= EntriesFor(|data|)
    ensures |PayloadOf(Variable(data))| == EntriesFor(|data|) && AllPayload(PayloadOf(Variable(data))[..n])
    ensures var b := BytesOf(PayloadOf(Variable(data))[..n]);
      if n * ENTRY_SIZE <= |data| then b == data[..n * ENTRY_SIZE] else |b| >= |data| && b[..|data|] == data
  {
    var p := PayloadOf(Variable(data));
    if n > 0 {
      PayloadIsData(data, n - 1);
      hide BytesOf;
      PayloadStep(data, n - 1);
      assert data[..(n - 1) * ENTRY_SIZE] + data[(n - 1) * ENTRY_SIZE..] == data;
    }
  }

  lemma PayloadStep(data: seq<byte>, k: nat)
    requires k < EntriesFor(|data|) && AllPayload(PayloadOf(Variable(data))[..k])
    ensures AllPayload(PayloadOf(Variable(data))[..k + 1])
    ensures BytesOf(PayloadOf(Variable(data))[..k + 1]) ==
      BytesOf(PayloadOf(Variable(data))[..k]) + DataBody(data, k).bytes
  {
    var p := PayloadOf(Variable(data));
    assert p[..k + 1][..k] == p[..k];
    assert p[..k + 1][k] == Slot(WRITTEN, DataBody(data, k));
  }

  // What is written is what is read back, to the byte.
  lemma ReadsBack(ns: byte, typ: ItemType, key: string, data: seq<byte>, chunk: byte)
    requires IsVariableLengthType(typ)
    ensures var r := RecOf(ns, typ, key, Variable(data), chunk); WholeRec(r) && DataOf(r) == data
  {
    PayloadIsData(data, EntriesFor(|data|));
    var p := PayloadOf(Variable(data));
    assert p[..EntriesFor(|data|)] == p;
  }

  // What a value leaves of its last entry, or of the data field of its header, stays ones.
  lemma FilledUp(v: Input)
    requires v.Primitive? ==> |v.bytes| <= 8
    ensures v.Primitive? ==> ValFor(v) == Scalar(v.bytes + seq(8 - |v.bytes|, _ => 255 as byte))
    ensures v.Variable? ==> var p := PayloadOf(v);
      AllPayload(p) && |BytesOf(p)| == 32 * |p| && |v.data| <= 32 * |p| < |v.data| + 32
        && BytesOf(p) == v.data + seq(32 * |p| - |v.data|, _ => 255 as byte)
  {
    if v.Variable? {
      var n, p := EntriesFor(|v.data|), PayloadOf(v);
      PayloadIsData(v.data, n);
      assert p[..n] == p;
      if n > 0 {
        PayloadIsData(v.data, n - 1);
        PayloadStep(v.data, n - 1);
        LastEntryBytes(v.data, BytesOf(p[..n - 1]), BytesOf(p));
      }
    }
  }

  lemma LastEntryBytes(data: seq<byte>, front: seq<byte>, all: seq<byte>)
    requires data != [] && |front| == 32 * (EntriesFor(|data|) - 1) && front == data[..|front|]
    requires all == front + DataBody(data, EntriesFor(|data|) - 1).bytes
    ensures all == data + seq(|all| - |data|, _ => 255 as byte)
  {
    assert data == front + data[|front|..];
  }

  // Every item of a page between two operations is a whole record.
  lemma QuietIsWhole(s: seq<Slot>, nf: nat, i: nat)
    requires Quiet(s, nf) && i < |s| && IsHead(s[i])
    ensures Whole(s, i) && WholeRec(RecAt(s, i))
  {
    assert HeadFits(s, i, nf);
    var r := RecAt(s, i);
    forall k | 0 <= k < |r.payload| ensures Payload(r.payload[k]) {
      assert r.payload[k] == s[i + 1 + k];
    }
  }

  lemma ItemIsWhole(s: seq<Slot>, nf: nat, i: nat)
    requires Quiet(s, nf) && i < |s| && Whole(s, i)
    ensures WholeRec(RecAt(s, i))
    ensures IsVariableLengthType(s[i].body.item.typ) ==>
      s[i].body.item.val.VarLength? && |DataOf(RecAt(s, i))| == s[i].body.item.val.dataSize
  {
    QuietIsWhole(s, nf, i);
  }

  lemma {:induction false} BytesPrefix(payload: seq<Slot>, k: nat)
    requires AllPayload(payload) && k <= |payload|
    ensures AllPayload(payload[..k]) && BytesOf(payload[..k]) == BytesOf(payload)[..k * ENTRY_SIZE]
  {
    if k == |payload| {
      assert payload[..k] == payload;
    } else {
      var front := payload[..|payload| - 1];
      assert forall j :: 0 <= j < |front| ==> front[j] == payload[j];
      BytesPrefix(front, k);
      assert front[..k] == payload[..k];
      assert BytesOf(payload) == BytesOf(front) + payload[|payload| - 1].body.bytes;
    }
  }

  // What is still to be read of `size` bytes after k entries, and how much of the next entry it takes.
  function LeftAfter(size: nat, k: nat): nat {
    if k * ENTRY_SIZE < size then size - k * ENTRY_SIZE else 0
  }

  lemma NextBytes(b: seq<byte>, size: nat, k: nat, bytes: seq<byte>, take: nat)
    requires (k + 1) * ENTRY_SIZE <= |b| && bytes == b[k * ENTRY_SIZE..(k + 1) * ENTRY_SIZE]
    requires take == if LeftAfter(size, k) < ENTRY_SIZE then LeftAfter(size, k) else ENTRY_SIZE
    ensures LeftAfter(size, k) <= size && LeftAfter(size, k + 1) == LeftAfter(size, k) - take && take <= |bytes|
    ensures size - LeftAfter(size, k) + take <= size && size - LeftAfter(size, k) + take <= |b|
    ensures var at := size - LeftAfter(size, k);
      b[at..at + take] == bytes[..take] && b[..at + take] == b[..at] + bytes[..take]
  {
    var at := size - LeftAfter(size, k);
    if take > 0 {
      assert at == k * ENTRY_SIZE;
      assert b[at..at + take] == bytes[..take];
    }
  }

  // The k-th payload entry holds these bytes of the whole.
  lemma {:induction false} BytesAt(payload: seq<Slot>, k: nat)
    requires AllPayload(payload) && k < |payload|
    ensures Payload(payload[k]) && payload[k].body.bytes == BytesOf(payload)[k * ENTRY_SIZE..(k + 1) * ENTRY_SIZE]
  {
    BytesPrefix(payload, k);
    BytesPrefix(payload, k + 1);
    assert Payload(payload[k]);
    assert payload[..k + 1][..k] == payload[..k];
    var b := BytesOf(payload);
    assert b[..(k + 1) * ENTRY_SIZE] == b[..k * ENTRY_SIZE] + payload[k].body.bytes;
  }
}
