/** The codec of binary_format.py as it runs: `serialize` appending to a
    growable buffer and backpatching container sizes, `value` reading from a
    cursor over the bytes, `pack`, `unpack` and `seek`. Each method is proved
    against the definitions of module Wire, whose properties module WireProofs
    proves. */
module BinaryFormat {
  import opened Wrappers
  import opened LittleEndian
  import opened Wire
  import WireProofs

  // ---------------------------------------------------------------------
  // The buffer
  // ---------------------------------------------------------------------

  /** A `bytearray`. */
  class ByteArray {
    var bytes: seq<byte>

    constructor()
      ensures bytes == []
    {
      bytes := [];
    }

    /** `buffer.append(b)`. */
    method Append(b: byte)
      modifies this
      ensures bytes == old(bytes) + [b]
    {
      bytes := bytes + [b];
    }

    /** `buffer.extend(s)`. */
    method Extend(s: seq<byte>)
      modifies this
      ensures bytes == old(bytes) + s
    {
      bytes := bytes + s;
    }

    /** `buffer[start : start + len(s)] = s`: the slice is overwritten in place;
        the length and every byte outside the slice stay as they were. */
    method Splice(start: nat, s: seq<byte>)
      requires start + |s| <= |bytes|
      modifies this
      ensures bytes == old(bytes)[..start] + s + old(bytes)[start + |s|..]
      ensures |bytes| == |old(bytes)|
      ensures forall i :: 0 <= i < |bytes| && !(start <= i < start + |s|) ==> bytes[i] == old(bytes)[i]
    {
      bytes := bytes[..start] + s + bytes[start + |s|..];
    }
  }

  // ---------------------------------------------------------------------
  // Encoding
  // ---------------------------------------------------------------------

  /** `serialize(v, buffer)`: appends the encoding of v to buffer and returns
      the exception that ends it, if any; whatever was appended before the
      exception stays in the buffer, and what was there before is untouched. */
  method Serialize(v: Value, buffer: ByteArray) returns (err: Option<EncodeError>)
    modifies buffer
    ensures buffer.bytes == old(buffer.bytes) + Written(v).bytes
    ensures err == Written(v).err
    decreases v, 1
  {
    match v
    case Null =>
      buffer.Append(NONE);
      err := None;
    case Bool(b) =>
      buffer.Append(if b then TRUE else FALSE);
      err := None;
    case Int(i) =>
      buffer.Append(INT);
      if -TWO_63 <= i < TWO_63 {
        buffer.Extend(PackI64(i));
        err := None;
      } else {
        err := Some(IntOutOfRange);
      }
    case Float(bits) =>
      buffer.Append(FLOAT);
      buffer.Extend(bits);
      err := None;
    case Str(s) =>
      buffer.Append(STRING);
      buffer.Extend(s);
      buffer.Append(0);
      err := None;
    case Bytes(d) =>
      buffer.Append(BYTES);
      if |d| < TWO_64 {
        buffer.Extend(PackU64(|d|));
        buffer.Extend(d);
        err := None;
      } else {
        err := Some(LengthOutOfRange);
      }
    case Object(entries) =>
      err := SerializeObject(entries, buffer);
    case List(items) =>
      err := SerializeList(items, buffer);
  }

  /** The tag and the 8-byte size placeholder of a container. */
  method Reserve(tag: byte, buffer: ByteArray)
    modifies buffer
    ensures buffer.bytes == old(buffer.bytes) + [tag] + Zeros(8)
  {
    buffer.Append(tag);
    var k := 0;
    while k < 8
      invariant 0 <= k <= 8
      invariant buffer.bytes == old(buffer.bytes) + [tag] + Zeros(k)
    {
      buffer.Append(0);
      assert Zeros(k) + [0] == Zeros(k + 1);
      k := k + 1;
    }
  }

  /** The size backpatch: `struct.pack("<Q", len(buffer) - length)` written
      over the placeholder that ends at length. */
  method Backpatch(tag: byte, buffer: ByteArray, length: nat, ghost pre: seq<byte>, ghost body: seq<byte>)
    returns (err: Option<EncodeError>)
    requires buffer.bytes == pre + [tag] + Zeros(8) + body && length == |pre| + 9
    modifies buffer
    ensures buffer.bytes == pre + Framed(tag, Output(body, None)).bytes
    ensures err == Framed(tag, Output(body, None)).err
  {
    var size := |buffer.bytes| - length;
    if size >= TWO_64 {
      err := Some(LengthOutOfRange);
    } else {
      buffer.Splice(length - 8, PackU64(size));
      assert (pre + [tag] + Zeros(8) + body)[..length - 8] == pre + [tag];
      assert (pre + [tag] + Zeros(8) + body)[length..] == body;
      err := None;
    }
  }

  /** The LIST branch: tag, placeholder, the items, then the size. */
  method SerializeList(items: seq<Value>, buffer: ByteArray) returns (err: Option<EncodeError>)
    modifies buffer
    ensures buffer.bytes == old(buffer.bytes) + Written(List(items)).bytes
    ensures err == Written(List(items)).err
    decreases items, 1
  {
    ghost var pre := buffer.bytes;
    Reserve(LIST, buffer);
    var length := |buffer.bytes|;
    err := SerializeItems(items, buffer);
    if err.None? {
      err := Backpatch(LIST, buffer, length, pre, WrittenItems(items).bytes);
    }
  }

  /** `for value in it: serialize(value, buffer)`, stopping at the first
      exception. */
  method SerializeItems(items: seq<Value>, buffer: ByteArray) returns (err: Option<EncodeError>)
    modifies buffer
    ensures buffer.bytes == old(buffer.bytes) + WrittenItems(items).bytes
    ensures err == WrittenItems(items).err
    decreases items, 0
  {
    ghost var pre := buffer.bytes;
    var i := 0;
    while i < |items|
      invariant 0 <= i <= |items|
      invariant WrittenItems(items[..i]).err.None?
      invariant buffer.bytes == pre + WrittenItems(items[..i]).bytes
    {
      assert items[i] in items;
      ghost var before := buffer.bytes;
      var e := Serialize(items[i], buffer);
      WireProofs.WrittenItemsStep(items, i, pre, before, buffer.bytes);
      if e.Some? {
        WireProofs.WrittenItemsStops(items, i + 1);
        return e;
      }
      i := i + 1;
    }
    assert items[..i] == items;
    err := None;
  }

  /** The OBJECT branch: tag, placeholder, the entries, then the size. */
  method SerializeObject(entries: seq<(Value, Value)>, buffer: ByteArray) returns (err: Option<EncodeError>)
    modifies buffer
    ensures buffer.bytes == old(buffer.bytes) + Written(Object(entries)).bytes
    ensures err == Written(Object(entries)).err
    decreases entries, 2
  {
    ghost var pre := buffer.bytes;
    Reserve(OBJECT, buffer);
    var length := |buffer.bytes|;
    err := SerializeEntries(entries, buffer);
    if err.None? {
      err := Backpatch(OBJECT, buffer, length, pre, WrittenEntries(entries).bytes);
    }
  }

  /** `for key, item in value.items()`: the key check, the key cut to four
      ASCII bytes and padded with zeros, then the item; stopping at the first
      exception. */
  method SerializeEntries(entries: seq<(Value, Value)>, buffer: ByteArray) returns (err: Option<EncodeError>)
    modifies buffer
    ensures buffer.bytes == old(buffer.bytes) + WrittenEntries(entries).bytes
    ensures err == WrittenEntries(entries).err
    decreases entries, 1
  {
    ghost var pre := buffer.bytes;
    var i := 0;
    while i < |entries|
      invariant 0 <= i <= |entries|
      invariant WrittenEntries(entries[..i]).err.None?
      invariant buffer.bytes == pre + WrittenEntries(entries[..i]).bytes
    {
      assert entries[i] in entries;
      ghost var before := buffer.bytes;
      var e := SerializeEntry(entries[i], buffer);
      WireProofs.WrittenEntriesStep(entries, i, pre, before, buffer.bytes);
      if e.Some? {
        WireProofs.WrittenEntriesStops(entries, i + 1);
        return e;
      }
      i := i + 1;
    }
    assert entries[..i] == entries;
    err := None;
  }

  /** One turn of the entries loop. */
  method SerializeEntry(entry: (Value, Value), buffer: ByteArray) returns (err: Option<EncodeError>)
    modifies buffer
    ensures buffer.bytes == old(buffer.bytes) + EntryWritten(entry).bytes
    ensures err == EntryWritten(entry).err
    decreases entry, 0
  {
    var (key, item) := entry;
    if !key.Str? {
      return Some(KeyNotStr);
    }
    if !IsAscii(key.utf8) {
      return Some(KeyNotAscii);
    }
    var cut := key.utf8[..Min(4, |key.utf8|)];
    buffer.Extend(cut);
    var j := 0;
    while j < 4 - |cut|
      invariant 0 <= j <= 4 - |cut|
      invariant buffer.bytes == old(buffer.bytes) + cut + Zeros(j)
    {
      buffer.Append(0);
      assert Zeros(j) + [0] == Zeros(j + 1);
      j := j + 1;
    }
    assert item < entry;
    err := Serialize(item, buffer);
  }

  /** `pack(v)`: a fresh buffer holding the complete encoding of v, or the
      exception that `serialize` raised. */
  method Pack(v: Value) returns (r: Result<seq<byte>, EncodeError>)
    ensures r == Encode(v)
  {
    var buffer := new ByteArray();
    var err := Serialize(v, buffer);
    assert buffer.bytes == Written(v).bytes;
    if err.None? {
      r := Ok(buffer.bytes);
    } else {
      r := Err(err.value);
    }
  }

  // ---------------------------------------------------------------------
  // Decoding
  // ---------------------------------------------------------------------

  /** A `BytesIO` over data: the bytes and the cursor. */
  class Stream {
    const data: seq<byte>
    var pos: nat

    constructor(data: seq<byte>)
      ensures this.data == data && pos == 0
    {
      this.data := data;
      pos := 0;
    }

    /** `stream.read(n)`: up to n bytes from the cursor, fewer at the end of
        the data; the cursor moves past what was read. */
    method Read(n: nat) returns (chunk: seq<byte>)
      modifies this
      ensures chunk == ReadAt(data, old(pos), n)
      ensures pos == old(pos) + |chunk|
    {
      chunk := ReadAt(data, pos, n);
      pos := pos + |chunk|;
    }

    /** `stream.seek(offset)`: an absolute move, which may go past the end. */
    method SeekTo(offset: nat)
      modifies this
      ensures pos == offset
    {
      pos := offset;
    }
  }

  /** What `value` returns for a decoding: the value and its byte count. */
  function Reported(r: Result<Decoded, DecodeError>): Result<(Value, nat), DecodeError>
  {
    match r
    case Ok(d) => Ok((d.v, d.consumed))
    case Err(e) => Err(e)
  }

  /** `value(stream)`: one value read from the cursor, with the count `value`
      reports for it; on success the cursor is left just after the value. */
  method ReadValue(stream: Stream) returns (r: Result<(Value, nat), DecodeError>)
    modifies stream
    ensures r == Reported(DecodeAt(stream.data, old(stream.pos)))
    ensures r.Ok? ==> stream.pos == DecodeAt(stream.data, old(stream.pos)).value.next
    decreases |stream.data| - Min(stream.pos, |stream.data|), 1
  {
    ghost var p := stream.pos;
    var t := stream.Read(1);
    if |t| == 0 {
      return Err(Truncated);
    }
    var tag := t[0];
    assert tag == stream.data[p] && stream.pos == p + 1;
    assert DecodeAt(stream.data, p) == DecodePayload(stream.data, tag, p + 1);
    r := ReadPayload(stream, tag);
  }

  /** The payload the tag selects, read from the cursor just after the tag. */
  method ReadPayload(stream: Stream, tag: byte) returns (r: Result<(Value, nat), DecodeError>)
    requires stream.pos <= |stream.data|
    modifies stream
    ensures r == Reported(DecodePayload(stream.data, tag, old(stream.pos)))
    ensures r.Ok? ==> stream.pos == DecodePayload(stream.data, tag, old(stream.pos)).value.next
    decreases |stream.data| - stream.pos + 1, 0
  {
    if tag == NONE {
      r := Ok((Null, 1));
    } else if tag == TRUE {
      r := Ok((Bool(true), 1));
    } else if tag == FALSE {
      r := Ok((Bool(false), 1));
    } else if tag == INT {
      r := ReadInt(stream);
    } else if tag == FLOAT {
      r := ReadFloat(stream);
    } else if tag == STRING {
      r := ReadString(stream);
    } else if tag == BYTES {
      r := ReadBytes(stream);
    } else if tag == LIST {
      r := ReadList(stream);
    } else if tag == OBJECT {
      r := ReadObject(stream);
    } else {
      r := Err(UnknownTag(tag));
    }
  }

  /** `u64()`: `struct.unpack("<Q", stream.read(8))`, which fails on a short
      read. */
  method ReadU64(stream: Stream) returns (r: Result<nat, DecodeError>)
    requires stream.pos <= |stream.data|
    modifies stream
    ensures r.Ok? <==> old(stream.pos) + 8 <= |stream.data|
    ensures r.Ok? ==> r.value == UnpackU64(stream.data[old(stream.pos)..old(stream.pos) + 8])
    ensures r.Ok? ==> stream.pos == old(stream.pos) + 8
    ensures r.Err? ==> r.error == Truncated
    ensures stream.pos <= |stream.data|
  {
    var b := stream.Read(8);
    if |b| < 8 {
      return Err(Truncated);
    }
    r := Ok(UnpackU64(b));
  }

  /** The INT payload: `struct.unpack("<q", stream.read(8))`. */
  method ReadInt(stream: Stream) returns (r: Result<(Value, nat), DecodeError>)
    requires stream.pos <= |stream.data|
    modifies stream
    ensures r == Reported(DecodeInt(stream.data, old(stream.pos)))
    ensures r.Ok? ==> stream.pos == DecodeInt(stream.data, old(stream.pos)).value.next
  {
    var b := stream.Read(8);
    if |b| < 8 {
      return Err(Truncated);
    }
    r := Ok((Int(UnpackI64(b)), 9));
  }

  /** The FLOAT payload: eight bytes, kept as they are. */
  method ReadFloat(stream: Stream) returns (r: Result<(Value, nat), DecodeError>)
    requires stream.pos <= |stream.data|
    modifies stream
    ensures r == Reported(DecodeFloat(stream.data, old(stream.pos)))
    ensures r.Ok? ==> stream.pos == DecodeFloat(stream.data, old(stream.pos)).value.next
  {
    var b := stream.Read(8);
    if |b| < 8 {
      return Err(Truncated);
    }
    r := Ok((Float(b), 9));
  }

  /** The STRING payload: `while (byte := stream.read(1)) != b"\x00"` appends
      each byte; a read at the end of the stream is empty, and appending it
      raises. */
  method ReadString(stream: Stream) returns (r: Result<(Value, nat), DecodeError>)
    requires stream.pos <= |stream.data|
    modifies stream
    ensures r == Reported(DecodeString(stream.data, old(stream.pos)))
    ensures r.Ok? ==> stream.pos == DecodeString(stream.data, old(stream.pos)).value.next
  {
    ghost var p := stream.pos;
    var s: seq<byte> := [];
    while true
      invariant p <= stream.pos <= |stream.data|
      invariant s == stream.data[p..stream.pos]
      invariant FindZero(stream.data, stream.pos) == FindZero(stream.data, p)
      decreases |stream.data| - stream.pos
    {
      var b := stream.Read(1);
      if b == [0] {
        return Ok((Str(s), |s| + 2));
      }
      if b == [] {
        return Err(Truncated);
      }
      assert stream.data[p..stream.pos] == s + b;
      s := s + b;
    }
  }

  /** The BYTES payload: `stream.read(u64())`, short at the end of the stream. */
  method ReadBytes(stream: Stream) returns (r: Result<(Value, nat), DecodeError>)
    requires stream.pos <= |stream.data|
    modifies stream
    ensures r == Reported(DecodeBytes(stream.data, old(stream.pos)))
    ensures r.Ok? ==> stream.pos == DecodeBytes(stream.data, old(stream.pos)).value.next
  {
    var size := ReadU64(stream);
    if size.Err? {
      return Err(size.error);
    }
    var payload := stream.Read(size.value);
    r := Ok((Bytes(payload), size.value + 9));
  }

  /** The LIST payload: `while i > 0` reads an item and subtracts its count. */
  method ReadList(stream: Stream) returns (r: Result<(Value, nat), DecodeError>)
    requires stream.pos <= |stream.data|
    modifies stream
    ensures r == Reported(DecodeList(stream.data, old(stream.pos)))
    ensures r.Ok? ==> stream.pos == DecodeList(stream.data, old(stream.pos)).value.next
    decreases |stream.data| - stream.pos, 0
  {
    ghost var p := stream.pos;
    var size := ReadU64(stream);
    if size.Err? {
      return Err(size.error);
    }
    var i: int := size.value;
    var items: seq<Value> := [];
    while i > 0
      invariant p + 8 <= stream.pos <= |stream.data|
      invariant ListLoop(stream.data, stream.pos, i, items) == ListLoop(stream.data, p + 8, size.value, [])
      decreases |stream.data| - stream.pos
    {
      ghost var q := stream.pos;
      var x := ReadValue(stream);
      if x.Err? {
        return Err(x.error);
      }
      i := i - x.value.1;
      items := items + [x.value.0];
      assert stream.pos == DecodeAt(stream.data, q).value.next;
    }
    r := Ok((List(items), size.value + 9));
  }

  /** The OBJECT payload: `while i > 0` reads an entry, subtracts its count
      and assigns its item to its key. */
  method ReadObject(stream: Stream) returns (r: Result<(Value, nat), DecodeError>)
    requires stream.pos <= |stream.data|
    modifies stream
    ensures r == Reported(DecodeObject(stream.data, old(stream.pos)))
    ensures r.Ok? ==> stream.pos == DecodeObject(stream.data, old(stream.pos)).value.next
    decreases |stream.data| - stream.pos, 0
  {
    ghost var p := stream.pos;
    var size := ReadU64(stream);
    if size.Err? {
      return Err(size.error);
    }
    var i: int := size.value;
    var entries: seq<(Value, Value)> := [];
    while i > 0
      invariant p + 8 <= stream.pos <= |stream.data|
      invariant ObjectLoop(stream.data, stream.pos, i, entries) == ObjectLoop(stream.data, p + 8, size.value, [])
      decreases |stream.data| - stream.pos
    {
      var e := ReadObjectEntry(stream);
      if e.Err? {
        return Err(e.error);
      }
      i := i - e.value.consumed;
      entries := Assign(entries, e.value.key, e.value.item);
    }
    r := Ok((Object(entries), size.value + 9));
  }

  /** One turn of the mapping loop: a 4-byte key decoded as ASCII with its
      trailing zero bytes stripped (4 bytes counted), then an item. */
  method ReadObjectEntry(stream: Stream) returns (r: Result<EntryRead, DecodeError>)
    requires stream.pos <= |stream.data|
    modifies stream
    ensures r == ReadEntry(stream.data, old(stream.pos))
    ensures r.Ok? ==> stream.pos == r.value.next
    decreases |stream.data| - stream.pos, 2
  {
    var raw := stream.Read(4);
    if !IsAscii(raw) {
      return Err(KeyNotDecodable);
    }
    var key := RStripZeros(raw);
    var x := ReadValue(stream);
    if x.Err? {
      return Err(x.error);
    }
    r := Ok(EntryRead(Str(key), x.value.0, 4 + x.value.1, stream.pos));
  }

  /** `unpack(data)` for a bytes-like argument: the value read from a fresh
      cursor at the start of the data. */
  method Unpack(data: seq<byte>) returns (r: Result<Value, DecodeError>)
    ensures DecodeAt(data, 0).Ok? ==> r == Ok(DecodeAt(data, 0).value.v)
    ensures DecodeAt(data, 0).Err? ==> r == Err(DecodeAt(data, 0).error)
  {
    var stream := new Stream(data);
    r := UnpackStream(stream);
  }

  /** `unpack(stream)` for a stream argument: `value(stream)[0]`. */
  method UnpackStream(stream: Stream) returns (r: Result<Value, DecodeError>)
    modifies stream
    ensures DecodeAt(stream.data, old(stream.pos)).Ok? ==> r == Ok(DecodeAt(stream.data, old(stream.pos)).value.v)
    ensures DecodeAt(stream.data, old(stream.pos)).Err? ==> r == Err(DecodeAt(stream.data, old(stream.pos)).error)
  {
    var x := ReadValue(stream);
    if x.Ok? {
      r := Ok(x.value.0);
    } else {
      r := Err(x.error);
    }
  }

  // ---------------------------------------------------------------------
  // seek
  // ---------------------------------------------------------------------

  /** One step of a `seek` path: a mapping key or a list index. */
  datatype Selector = Field(name: seq<byte>) | Index(index: int)

  /** The exceptions `seek` raises: `selector[0]` of an empty path or
      `stream.read(1)[0]` at the end of the stream (`IndexError`), an index
      step (`NotImplementedError`), a key that is not ASCII
      (`UnicodeDecodeError`). */
  datatype SeekError = NoSuchItem | NotImplemented | SlotNotAscii

  /** `seek(stream, selector)`, as written: for a key step it skips one byte,
      compares the key with the next three bytes stripped of trailing zeros,
      and on a match reads a tag and, for INT or FLOAT, moves the cursor to the
      absolute position 8; it returns nothing. An index step raises without
      touching the stream. */
  method Seek(stream: Stream, selector: seq<Selector>) returns (r: Result<(), SeekError>)
    modifies stream
    ensures selector == [] ==> r == Err(NoSuchItem) && stream.pos == old(stream.pos)
    ensures selector != [] && selector[0].Index? ==> r == Err(NotImplemented) && stream.pos == old(stream.pos)
    ensures selector != [] && selector[0].Field? ==>
              var p1 := old(stream.pos) + |ReadAt(stream.data, old(stream.pos), 1)|;
              var raw := ReadAt(stream.data, p1, 3);
              var p2 := p1 + |raw|;
              if !IsAscii(raw) then r == Err(SlotNotAscii) && stream.pos == p2
              else if selector[0].name != RStripZeros(raw) then r == Ok(()) && stream.pos == p2
              else if p2 >= |stream.data| then r == Err(NoSuchItem) && stream.pos == p2
              else if stream.data[p2] == INT || stream.data[p2] == FLOAT then r == Ok(()) && stream.pos == 8
              else r == Ok(()) && stream.pos == p2 + 1
  {
    if selector == [] {
      return Err(NoSuchItem);
    }
    match selector[0]
    case Index(_) =>
      r := Err(NotImplemented);
    case Field(name) =>
      var _ := stream.Read(1);
      var raw := stream.Read(3);
      if !IsAscii(raw) {
        return Err(SlotNotAscii);
      }
      if name == RStripZeros(raw) {
        // skip()
        var t := stream.Read(1);
        if |t| == 0 {
          return Err(NoSuchItem);
        }
        if t[0] == INT || t[0] == FLOAT {
          stream.SeekTo(8);
        }
      }
      r := Ok(());
  }
}
