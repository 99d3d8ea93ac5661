// Constants, item headers and records of the on-flash format
// (nvs_constants.h, nvs_types.hpp, nvs_types.cpp).
module NvsTypes {

  type byte = b: int | 0 <= b < 256

  datatype Option<+T> = None | Some(value: T)

  // What operations answer (esp_err_t).
  datatype Error = OK | NOT_FOUND | TYPE_MISMATCH | PAGE_FULL | INVALID_STATE | KEY_TOO_LONG | VALUE_TOO_LONG
                 | INVALID_ARG | INVALID_LENGTH | CONTENT_DIFFERS | NOT_ENOUGH_SPACE | NO_FREE_PAGES | FAIL
                 | NOT_INITIALIZED

  const ENTRY_COUNT: nat := 126
  const ENTRY_SIZE: nat := 32
  const CHUNK_MAX_SIZE: nat := 4000
  const INVALID_ENTRY: nat := 0xffff_ffff
  const MAX_KEY_LENGTH: nat := 15
  const CHUNK_ANY: byte := 255
  const NS_INDEX: byte := 0
  const NS_ANY: byte := 255
  const VER_0_OFFSET: byte := 0
  const VER_1_OFFSET: byte := 128
  const VER_ANY: byte := 255

  datatype ItemType = U8 | I8 | U16 | I16 | U32 | I32 | U64 | I64 | SZ | BLOB | BLOB_DATA | BLOB_IDX | ANY

  predicate IsVariableLengthType(t: ItemType) {
    t.BLOB? || t.SZ? || t.BLOB_DATA?
  }

  // The low four bits of the type code: the byte width of a scalar.
  function AlignmentForType(t: ItemType): nat {
    match t
    case U8 => 1 case I8 => 1 case U16 => 2 case I16 => 2
    case U32 => 4 case I32 => 4 case U64 => 8 case I64 => 8
    case SZ => 1 case BLOB => 1 case BLOB_DATA => 2 case BLOB_IDX => 8 case ANY => 15
  }

  // The scalars of one, two, four and eight bytes. The fields of a blob index count as eight.
  predicate OfWidth(t: ItemType, n: nat) {
    || (n == 1 && (t.U8? || t.I8?))
    || (n == 2 && (t.U16? || t.I16?))
    || (n == 4 && (t.U32? || t.I32?))
    || (n == 8 && (t.U64? || t.I64? || t.BLOB_IDX?))
  }

  // What one entry holds.
  type EntryBytes = b: seq<byte> | |b| == 32 witness seq(32, _ => 0)

  // The 8-byte data field of an item header: a union in the source.
  datatype Val =
    | Scalar(bytes: seq<byte>)
    | VarLength(dataSize: nat)
    | BlobIndex(totalSize: nat, chunkCount: byte, chunkStart: byte)

  datatype Item = Item(ns: byte, typ: ItemType, span: nat, chunk: byte, key: string, val: Val)

  // What the 24-bit hash of an item covers: namespace, key and chunk index, but not the type.
  datatype Id = Id(ns: byte, key: string, chunk: byte)

  function IdOf(it: Item): Id {
    Id(it.ns, it.key, it.chunk)
  }

  // Whether the rest of the header agrees with a checked CRC (Item::checkHeaderConsistency).
  predicate Consistent(it: Item, index: nat)
    requires index < ENTRY_COUNT
  {
    match it.typ
    case ANY => false
    case BLOB_IDX =>
      it.span == 1 && it.chunk == CHUNK_ANY && it.val.BlobIndex? && it.val.totalSize <= 127 * 125 * 32
    case SZ => ConsistentLength(it, index)
    case BLOB => ConsistentLength(it, index)
    case BLOB_DATA => it.chunk != CHUNK_ANY && ConsistentLength(it, index)
    case _ => it.span == 1 && it.val.Scalar? && |it.val.bytes| == 8
  }

  predicate ConsistentLength(it: Item, index: nat)
    requires index < ENTRY_COUNT
  {
    && it.val.VarLength?
    && it.val.dataSize <= (ENTRY_COUNT - index - 1) * ENTRY_SIZE
    && it.span <= ENTRY_COUNT - index
    && it.span == (it.val.dataSize + ENTRY_SIZE - 1) / ENTRY_SIZE + 1
  }
}
