/** The wire format of binary_format.py as pure functions: the value type, what
    `serialize` writes for a value, and what `value` reads back from a byte
    stream. The imperative encoder and decoder in module BinaryFormat are proved
    against these definitions, and module WireProofs proves the format's
    properties about them. */
module Wire {
  import opened Wrappers
  import opened LittleEndian

  // The nine tag bytes of the grammar.
  const NONE: byte := 0x01
  const TRUE: byte := 0x02
  const FALSE: byte := 0x03
  const INT: byte := 0x04
  const FLOAT: byte := 0x05
  const STRING: byte := 0x06
  const BYTES: byte := 0x07
  const LIST: byte := 0x08
  const OBJECT: byte := 0x09

  /** The eight bytes of an IEEE 754 binary64, kept opaque. */
  type Binary64 = s: seq<byte> | |s| == 8 witness [0, 0, 0, 0, 0, 0, 0, 0]

  /** A value of the format. A string is held as its UTF-8 bytes. A mapping is
      the sequence of its (key, item) pairs in iteration order; its keys are
      values so that a mapping with a non-string key can be written down. */
  datatype Value =
    | Null
    | Bool(b: bool)
    | Int(i: int)
    | Float(bits: Binary64)
    | Str(utf8: seq<byte>)
    | Bytes(data: seq<byte>)
    | List(items: seq<Value>)
    | Object(entries: seq<(Value, Value)>)

  /** The exceptions `serialize` can raise: `struct.error` for an integer
      outside signed 64 bits or a length outside unsigned 64 bits, `TypeError`
      for a non-string mapping key, `UnicodeEncodeError` for a non-ASCII key. */
  datatype EncodeError = IntOutOfRange | LengthOutOfRange | KeyNotStr | KeyNotAscii

  /** What a call of `serialize` appends to the buffer, and the exception it
      raises, if any, after having appended those bytes. */
  datatype Output = Output(bytes: seq<byte>, err: Option<EncodeError>)

  function Min(a: int, b: int): int
  {
    if a <= b then a else b
  }

  function Zeros(n: nat): (s: seq<byte>)
    ensures |s| == n && forall i :: 0 <= i < n ==> s[i] == 0
  {
    seq(n, _ => 0)
  }

  predicate IsAscii(s: seq<byte>)
  {
    forall i :: 0 <= i < |s| ==> s[i] < 128
  }

  /** The key slot of a mapping entry: `key.encode("ascii")[:4]` followed by
      zero bytes up to four. */
  function KeySlot(k: seq<byte>): (slot: seq<byte>)
    ensures |slot| == 4
  {
    var cut := k[..Min(4, |k|)];
    cut + Zeros(4 - |cut|)
  }

  /** `s.rstrip("\x00")`. */
  function RStripZeros(s: seq<byte>): (r: seq<byte>)
  {
    if s != [] && s[|s| - 1] == 0 then RStripZeros(s[..|s| - 1]) else s
  }

  // ---------------------------------------------------------------------
  // Encoding
  // ---------------------------------------------------------------------

  /** The bytes `serialize(v, buffer)` appends to `buffer`, and the exception
      it ends with. Scalars are a tag and a fixed payload; a container is its
      tag, the u64 length of its body (patched in after the body is written)
      and the body, or, when the body fails, the tag, eight zero bytes and
      what the body wrote before failing. */
  function Written(v: Value): (out: Output)
    ensures |out.bytes| >= 1
    decreases v
  {
    match v
    case Null => Output([NONE], None)
    case Bool(b) => Output([if b then TRUE else FALSE], None)
    case Int(i) =>
      if -TWO_63 <= i < TWO_63 then Output([INT] + PackI64(i), None)
      else Output([INT], Some(IntOutOfRange))
    case Float(bits) => Output([FLOAT] + bits, None)
    case Str(s) => Output([STRING] + s + [0], None)
    case Bytes(d) =>
      if |d| < TWO_64 then Output([BYTES] + PackU64(|d|) + d, None)
      else Output([BYTES], Some(LengthOutOfRange))
    case List(items) => Framed(LIST, WrittenItems(items))
    case Object(entries) => Framed(OBJECT, WrittenEntries(entries))
  }

  /** A container: tag, 8-byte size placeholder, body, then the placeholder
      overwritten by the body's length once the body is complete. */
  function Framed(tag: byte, body: Output): Output
  {
    if body.err.Some? then Output([tag] + Zeros(8) + body.bytes, body.err)
    else if |body.bytes| >= TWO_64 then Output([tag] + Zeros(8) + body.bytes, Some(LengthOutOfRange))
    else Output([tag] + PackU64(|body.bytes|) + body.bytes, None)
  }

  /** Writing init, then, if init did not fail, next. */
  function Extend(init: Output, next: Output): Output
  {
    if init.err.Some? then init else Output(init.bytes + next.bytes, next.err)
  }

  /** The body of a list: its items written one after another, up to and
      including the first that fails. */
  function WrittenItems(items: seq<Value>): Output
    decreases items
  {
    if items == [] then Output([], None)
    else Extend(Written(items[0]), WrittenItems(items[1..]))
  }

  /** One mapping entry: the key check, then its key slot and its item. */
  function EntryWritten(e: (Value, Value)): Output
    decreases e
  {
    if !e.0.Str? then Output([], Some(KeyNotStr))
    else if !IsAscii(e.0.utf8) then Output([], Some(KeyNotAscii))
    else
      var item := Written(e.1);
      Output(KeySlot(e.0.utf8) + item.bytes, item.err)
  }

  /** The body of a mapping: its entries one after another. */
  function WrittenEntries(entries: seq<(Value, Value)>): Output
    decreases entries
  {
    if entries == [] then Output([], None)
    else
      assert entries[0] in entries;
      Extend(EntryWritten(entries[0]), WrittenEntries(entries[1..]))
  }

  /** `serialize` exactly as binary_format.py writes it. Its LIST branch is a
      `try` ... `except TypeError: pass`, meant for a value `iter` refuses,
      which also catches the TypeError that a non-string mapping key raises
      while the list's body is written, however deep below. The innermost
      list around that mapping then returns normally, with its size
      placeholder still zero and its remaining items unwritten, and whatever
      encloses it goes on writing. The mapping branch lies outside the `try`
      and lets every error through. Written is the corrected encoder, in
      which a list lets the error through as well. */
  function AsWritten(v: Value): (out: Output)
    ensures |out.bytes| >= 1
    ensures v.List? ==> out.err != Some(KeyNotStr)
    decreases v
  {
    match v
    case List(items) =>
      var body := AsWrittenItems(items);
      if body.err == Some(KeyNotStr) then Output([LIST] + Zeros(8) + body.bytes, None)
      else Framed(LIST, body)
    case Object(entries) => Framed(OBJECT, AsWrittenEntries(entries))
    case _ => Written(v)
  }

  /** The body of a list as written: its items one after another. */
  function AsWrittenItems(items: seq<Value>): Output
    decreases items
  {
    if items == [] then Output([], None)
    else Extend(AsWritten(items[0]), AsWrittenItems(items[1..]))
  }

  /** One mapping entry as written. */
  function AsWrittenEntry(e: (Value, Value)): Output
    decreases e
  {
    if !e.0.Str? then Output([], Some(KeyNotStr))
    else if !IsAscii(e.0.utf8) then Output([], Some(KeyNotAscii))
    else
      var item := AsWritten(e.1);
      Output(KeySlot(e.0.utf8) + item.bytes, item.err)
  }

  /** The body of a mapping as written. */
  function AsWrittenEntries(entries: seq<(Value, Value)>): Output
    decreases entries
  {
    if entries == [] then Output([], None)
    else
      assert entries[0] in entries;
      Extend(AsWrittenEntry(entries[0]), AsWrittenEntries(entries[1..]))
  }

  /** `pack(v)`: the complete encoding, or the exception raised. */
  function Encode(v: Value): Result<seq<byte>, EncodeError>
  {
    var out := Written(v);
    if out.err.None? then Ok(out.bytes) else Err(out.err.value)
  }

  /** The number of bytes a value occupies, computed from the value alone, as
      the decoder counts it: what a reader skips to pass over the value. */
  function EncodedSize(v: Value): nat
    decreases v
  {
    match v
    case Null => 1
    case Bool(_) => 1
    case Int(_) => 9
    case Float(_) => 9
    case Str(s) => |s| + 2
    case Bytes(d) => |d| + 9
    case List(items) => 9 + ItemsSize(items)
    case Object(entries) => 9 + EntriesSize(entries)
  }

  function ItemsSize(items: seq<Value>): nat
    decreases items
  {
    if items == [] then 0
    else EncodedSize(items[0]) + ItemsSize(items[1..])
  }

  function EntriesSize(entries: seq<(Value, Value)>): nat
    decreases entries
  {
    if entries == [] then 0
    else
      var e := entries[0];
      assert e in entries;
      assert e.1 < e;
      4 + EncodedSize(e.1) + EntriesSize(entries[1..])
  }

  // ---------------------------------------------------------------------
  // Decoding
  // ---------------------------------------------------------------------

  /** The exceptions `value` can raise: a read past the end of the stream
      (`IndexError`, `struct.error`, or the `TypeError` of appending an empty
      read), a tag outside 0x01..0x09 (`TypeError`), a key slot that is not
      ASCII (`UnicodeDecodeError`). */
  datatype DecodeError = Truncated | UnknownTag(tag: byte) | KeyNotDecodable

  /** A decoded value, the byte count `value` reports for it, and the position
      the stream's cursor is left at. */
  datatype Decoded = Decoded(v: Value, consumed: nat, next: nat)

  /** `stream.read(n)` on a BytesIO over data whose cursor is at pos: at most
      n bytes, fewer at the end of the data. */
  function ReadAt(data: seq<byte>, pos: nat, n: nat): (chunk: seq<byte>)
    ensures |chunk| <= n
    ensures pos + n <= |data| ==> chunk == data[pos..pos + n]
  {
    data[Min(pos, |data|)..Min(pos + n, |data|)]
  }

  /** The first zero byte at or after p. */
  function FindZero(data: seq<byte>, p: nat): (z: Option<nat>)
    ensures z.Some? ==> p <= z.value < |data| && data[z.value] == 0
    ensures z.Some? ==> forall j :: p <= j < z.value ==> data[j] != 0
    ensures z.None? ==> forall j :: p <= j < |data| ==> data[j] != 0
    decreases |data| - p
  {
    if p >= |data| then None
    else if data[p] == 0 then Some(p)
    else FindZero(data, p + 1)
  }

  /** Python's `data[key] = item` on an insertion-ordered dict whose entries
      are acc: an existing key keeps its place and takes the new item, a new
      key goes at the end. */
  function Assign(acc: seq<(Value, Value)>, key: Value, item: Value): (r: seq<(Value, Value)>)
    decreases acc
  {
    if acc == [] then [(key, item)]
    else if acc[0].0 == key then [(key, item)] + acc[1..]
    else [acc[0]] + Assign(acc[1..], key, item)
  }

  /** `value(stream)` on a BytesIO over data with its cursor at pos: read the
      tag byte, then the payload the tag selects. */
  function DecodeAt(data: seq<byte>, pos: nat): (r: Result<Decoded, DecodeError>)
    ensures r.Ok? ==> pos < r.value.next <= |data|
    decreases |data| - Min(pos, |data|), 1
  {
    if pos >= |data| then Err(Truncated)
    else DecodePayload(data, data[pos], pos + 1)
  }

  /** The payload selected by the tag read at p - 1. */
  function DecodePayload(data: seq<byte>, tag: byte, p: nat): (r: Result<Decoded, DecodeError>)
    requires p <= |data|
    ensures r.Ok? ==> p <= r.value.next <= |data|
    decreases |data| - p + 1, 0
  {
    if tag == NONE then Ok(Decoded(Null, 1, p))
    else if tag == TRUE then Ok(Decoded(Bool(true), 1, p))
    else if tag == FALSE then Ok(Decoded(Bool(false), 1, p))
    else if tag == INT then DecodeInt(data, p)
    else if tag == FLOAT then DecodeFloat(data, p)
    else if tag == STRING then DecodeString(data, p)
    else if tag == BYTES then DecodeBytes(data, p)
    else if tag == LIST then DecodeList(data, p)
    else if tag == OBJECT then DecodeObject(data, p)
    else Err(UnknownTag(tag))
  }

  /** The INT payload after the tag at p - 1: eight bytes, signed little-endian. */
  function DecodeInt(data: seq<byte>, p: nat): (r: Result<Decoded, DecodeError>)
    ensures r.Ok? ==> r.value.next == p + 8 <= |data|
  {
    if p + 8 > |data| then Err(Truncated)
    else Ok(Decoded(Int(UnpackI64(data[p..p + 8])), 9, p + 8))
  }

  /** The FLOAT payload: eight bytes, kept as they are. */
  function DecodeFloat(data: seq<byte>, p: nat): (r: Result<Decoded, DecodeError>)
    ensures r.Ok? ==> r.value.next == p + 8 <= |data|
  {
    if p + 8 > |data| then Err(Truncated)
    else Ok(Decoded(Float(data[p..p + 8]), 9, p + 8))
  }

  /** The STRING payload: the bytes up to the first zero byte, which is
      consumed too; the count is the string's length plus the tag and the
      terminator. */
  function DecodeString(data: seq<byte>, p: nat): (r: Result<Decoded, DecodeError>)
    ensures r.Ok? ==> p < r.value.next <= |data|
  {
    match FindZero(data, p)
    case None => Err(Truncated)
    case Some(z) => Ok(Decoded(Str(data[p..z]), z - p + 2, z + 1))
  }

  /** The BYTES payload: a u64 length, then a read of that many bytes, which
      comes back short at the end of the stream. */
  function DecodeBytes(data: seq<byte>, p: nat): (r: Result<Decoded, DecodeError>)
    ensures r.Ok? ==> p + 8 <= r.value.next <= |data|
  {
    if p + 8 > |data| then Err(Truncated)
    else
      var size := UnpackU64(data[p..p + 8]);
      var payload := ReadAt(data, p + 8, size);
      Ok(Decoded(Bytes(payload), size + 9, p + 8 + |payload|))
  }

  /** The LIST payload: a u64 size, then items until the size is used up. */
  function DecodeList(data: seq<byte>, p: nat): (r: Result<Decoded, DecodeError>)
    ensures r.Ok? ==> p + 8 <= r.value.next <= |data|
    decreases |data| - Min(p, |data|), 3
  {
    if p + 8 > |data| then Err(Truncated)
    else
      var size := UnpackU64(data[p..p + 8]);
      match ListLoop(data, p + 8, size, [])
      case Err(e) => Err(e)
      case Ok((items, next)) => Ok(Decoded(List(items), size + 9, next))
  }

  /** The OBJECT payload: a u64 size, then entries until the size is used up. */
  function DecodeObject(data: seq<byte>, p: nat): (r: Result<Decoded, DecodeError>)
    ensures r.Ok? ==> p + 8 <= r.value.next <= |data|
    decreases |data| - Min(p, |data|), 4
  {
    if p + 8 > |data| then Err(Truncated)
    else
      var size := UnpackU64(data[p..p + 8]);
      match ObjectLoop(data, p + 8, size, [])
      case Err(e) => Err(e)
      case Ok((entries, next)) => Ok(Decoded(Object(entries), size + 9, next))
  }

  /** The loop `while i > 0` of a list body: decode an item, subtract the count
      it reports from the remainder, append it. */
  function ListLoop(data: seq<byte>, pos: nat, remaining: int, acc: seq<Value>)
    : (r: Result<(seq<Value>, nat), DecodeError>)
    requires pos <= |data|
    ensures r.Ok? ==> pos <= r.value.1 <= |data|
    decreases |data| - pos, 2
  {
    if remaining <= 0 then Ok((acc, pos))
    else
      match DecodeAt(data, pos)
      case Err(e) => Err(e)
      case Ok(d) => ListLoop(data, d.next, remaining - d.consumed, acc + [d.v])
  }

  /** One entry of a mapping body: the key as read, the item, the byte count
      the loop subtracts for it, and the cursor after it. */
  datatype EntryRead = EntryRead(key: Value, item: Value, consumed: nat, next: nat)

  /** One turn of the mapping loop: read a 4-byte key slot, decode it as ASCII
      and strip its trailing zero bytes, then decode the item; the loop
      subtracts 4 plus the item's count. */
  function ReadEntry(data: seq<byte>, pos: nat): (r: Result<EntryRead, DecodeError>)
    requires pos <= |data|
    ensures r.Ok? ==> pos < r.value.next <= |data|
    decreases |data| - pos, 2
  {
    var raw := ReadAt(data, pos, 4);
    if !IsAscii(raw) then Err(KeyNotDecodable)
    else
      match DecodeAt(data, pos + |raw|)
      case Err(e) => Err(e)
      case Ok(d) => Ok(EntryRead(Str(RStripZeros(raw)), d.v, 4 + d.consumed, d.next))
  }

  /** The loop `while i > 0` of a mapping body: read an entry, subtract its
      count from the remainder, assign the item to the key. */
  function ObjectLoop(data: seq<byte>, pos: nat, remaining: int, acc: seq<(Value, Value)>)
    : (r: Result<(seq<(Value, Value)>, nat), DecodeError>)
    requires pos <= |data|
    ensures r.Ok? ==> pos <= r.value.1 <= |data|
    decreases |data| - pos, 3
  {
    if remaining <= 0 then Ok((acc, pos))
    else
      match ReadEntry(data, pos)
      case Err(e) => Err(e)
      case Ok(e) => ObjectLoop(data, e.next, remaining - e.consumed, Assign(acc, e.key, e.item))
  }

  // ---------------------------------------------------------------------
  // What a value reads back as
  // ---------------------------------------------------------------------

  /** The key a mapping entry's key reads back as: cut to four bytes, padded,
      and stripped of trailing zero bytes. */
  function StoredKey(k: Value): seq<byte>
  {
    if k.Str? then RStripZeros(KeySlot(k.utf8)) else []
  }

  /** The value that decoding the encoding of v produces: every mapping key
      replaced by its stored key, and entries whose stored keys coincide merged
      the way dict assignment merges them. */
  function Normalized(v: Value): Value
    decreases v
  {
    match v
    case List(items) => List(NormalizedItems(items))
    case Object(entries) => Object(Collect([], entries))
    case _ => v
  }

  function NormalizedItems(items: seq<Value>): (r: seq<Value>)
    ensures |r| == |items|
    decreases items
  {
    if items == [] then [] else [Normalized(items[0])] + NormalizedItems(items[1..])
  }

  /** The dict built by assigning each entry, in order, on top of acc. */
  function Collect(acc: seq<(Value, Value)>, entries: seq<(Value, Value)>): seq<(Value, Value)>
    decreases entries
  {
    if entries == [] then acc
    else
      var e := entries[0];
      assert e in entries;
      assert e.1 < e;
      Collect(Assign(acc, Str(StoredKey(e.0)), Normalized(e.1)), entries[1..])
  }

  /** No string anywhere in v (mapping keys aside) holds a zero byte: the
      condition for the zero terminator to mark the end of each string. */
  predicate NulFree(v: Value)
    decreases v
  {
    match v
    case Str(s) => forall i :: 0 <= i < |s| ==> s[i] != 0
    case List(items) => ItemsNulFree(items)
    case Object(entries) => EntriesNulFree(entries)
    case _ => true
  }

  predicate ItemsNulFree(items: seq<Value>)
    decreases items
  {
    items != [] ==> NulFree(items[0]) && ItemsNulFree(items[1..])
  }

  predicate EntriesNulFree(entries: seq<(Value, Value)>)
    decreases entries
  {
    entries != [] ==>
      var e := entries[0];
      assert e in entries;
      assert e.1 < e;
      NulFree(e.1) && EntriesNulFree(entries[1..])
  }

  /** A mapping key that survives the 4-byte slot unchanged: a string of at
      most four bytes that does not end in a zero byte. */
  predicate ExactKey(k: Value)
  {
    k.Str? && |k.utf8| <= 4 && (k.utf8 == [] || k.utf8[|k.utf8| - 1] != 0)
  }

  predicate DistinctKeys(entries: seq<(Value, Value)>)
  {
    forall i, j :: 0 <= i < j < |entries| ==> entries[i].0 != entries[j].0
  }

  /** Every mapping in v has exact, pairwise distinct keys. */
  predicate KeysExact(v: Value)
    decreases v
  {
    match v
    case List(items) => ItemsKeysExact(items)
    case Object(entries) => DistinctKeys(entries) && EntriesKeysExact(entries)
    case _ => true
  }

  predicate ItemsKeysExact(items: seq<Value>)
    decreases items
  {
    items != [] ==> KeysExact(items[0]) && ItemsKeysExact(items[1..])
  }

  predicate EntriesKeysExact(entries: seq<(Value, Value)>)
    decreases entries
  {
    entries != [] ==>
      var e := entries[0];
      assert e in entries;
      assert e.1 < e;
      ExactKey(e.0) && KeysExact(e.1) && EntriesKeysExact(entries[1..])
  }

  /** v reads back as itself: no string in it holds a zero byte and every
      mapping in it has exact, pairwise distinct keys. */
  predicate Representable(v: Value)
  {
    NulFree(v) && KeysExact(v)
  }
}
