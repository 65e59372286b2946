/** Properties of the wire format: the byte layout of each variant, the
    container size field, the exact consumed counts, key truncation and
    collisions, and the round trip. */
module WireProofs {
  import opened Wrappers
  import opened LittleEndian
  import opened Wire

  // ---------------------------------------------------------------------
  // Splitting a container body
  // ---------------------------------------------------------------------

  /** Writing is associative: a then b then c is a then (b then c). */
  lemma {:induction false} ExtendAssoc(a: Output, b: Output, c: Output)
    ensures Extend(Extend(a, b), c) == Extend(a, Extend(b, c))
  {
    if a.err.None? && b.err.None? {
      assert a.bytes + b.bytes + c.bytes == a.bytes + (b.bytes + c.bytes);
    }
  }

  /** A list body grows by one item at a time: the loop of `serialize` writes
      the items so far, then, unless they failed, the next item. */
  lemma {:induction false} WrittenItemsSnoc(items: seq<Value>, x: Value)
    ensures WrittenItems(items + [x]) == Extend(WrittenItems(items), Written(x))
    decreases items
  {
    if items == [] {
      assert [] + [x] == [x];
      assert [x][1..] == [];
      assert Written(x).bytes + [] == Written(x).bytes;
    } else {
      assert (items + [x])[0] == items[0];
      assert (items + [x])[1..] == items[1..] + [x];
      WrittenItemsSnoc(items[1..], x);
      ExtendAssoc(Written(items[0]), WrittenItems(items[1..]), Written(x));
    }
  }

  /** The same for a mapping body. */
  lemma {:induction false} WrittenEntriesSnoc(entries: seq<(Value, Value)>, e: (Value, Value))
    ensures WrittenEntries(entries + [e]) == Extend(WrittenEntries(entries), EntryWritten(e))
    decreases entries
  {
    if entries == [] {
      assert [] + [e] == [e];
      assert [e][1..] == [];
      assert EntryWritten(e).bytes + [] == EntryWritten(e).bytes;
    } else {
      assert (entries + [e])[0] == entries[0];
      assert (entries + [e])[1..] == entries[1..] + [e];
      WrittenEntriesSnoc(entries[1..], e);
      ExtendAssoc(EntryWritten(entries[0]), WrittenEntries(entries[1..]), EntryWritten(e));
    }
  }

  /** Writing a list body in two parts: the second part is written only if
      the first did not fail. */
  lemma {:induction false} WrittenItemsAppend(a: seq<Value>, b: seq<Value>)
    ensures WrittenItems(a + b) == Extend(WrittenItems(a), WrittenItems(b))
    decreases a
  {
    if a == [] {
      assert [] + b == b;
      assert [] + WrittenItems(b).bytes == WrittenItems(b).bytes;
    } else {
      assert (a + b)[0] == a[0];
      assert (a + b)[1..] == a[1..] + b;
      WrittenItemsAppend(a[1..], b);
      ExtendAssoc(Written(a[0]), WrittenItems(a[1..]), WrittenItems(b));
    }
  }

  /** The same for a mapping body. */
  lemma {:induction false} WrittenEntriesAppend(a: seq<(Value, Value)>, b: seq<(Value, Value)>)
    ensures WrittenEntries(a + b) == Extend(WrittenEntries(a), WrittenEntries(b))
    decreases a
  {
    if a == [] {
      assert [] + b == b;
      assert [] + WrittenEntries(b).bytes == WrittenEntries(b).bytes;
    } else {
      assert (a + b)[0] == a[0];
      assert (a + b)[1..] == a[1..] + b;
      WrittenEntriesAppend(a[1..], b);
      ExtendAssoc(EntryWritten(a[0]), WrittenEntries(a[1..]), WrittenEntries(b));
    }
  }

  /** Once an item fails, the list body is what was written up to and
      including it: `serialize` stops at the first exception. */
  lemma {:induction false} WrittenItemsStops(items: seq<Value>, i: nat)
    requires i <= |items| && WrittenItems(items[..i]).err.Some?
    ensures WrittenItems(items) == WrittenItems(items[..i])
  {
    assert items == items[..i] + items[i..];
    WrittenItemsAppend(items[..i], items[i..]);
  }

  /** The same for a mapping body. */
  lemma {:induction false} WrittenEntriesStops(entries: seq<(Value, Value)>, i: nat)
    requires i <= |entries| && WrittenEntries(entries[..i]).err.Some?
    ensures WrittenEntries(entries) == WrittenEntries(entries[..i])
  {
    assert entries == entries[..i] + entries[i..];
    WrittenEntriesAppend(entries[..i], entries[i..]);
  }

  /** A buffer holding `pre` and then what `w` wrote, extended by what
      `next` writes, holds `pre` and then `Extend(w, next)`, when `w` did
      not fail. */
  lemma ExtendBytes(pre: seq<byte>, w: Output, next: Output, before: seq<byte>, after: seq<byte>)
    requires w.err.None? && before == pre + w.bytes
    requires after == before + next.bytes
    ensures after == pre + Extend(w, next).bytes
    ensures Extend(w, next).err == next.err
  {
    assert Extend(w, next).bytes == w.bytes + next.bytes;
  }

  /** The first `i + 1` items are written as the first `i`, then item `i`. */
  lemma {:induction false} WrittenItemsTake(items: seq<Value>, i: nat)
    requires i < |items|
    ensures WrittenItems(items[..i + 1]) == Extend(WrittenItems(items[..i]), Written(items[i]))
  {
    assert items[..i + 1] == items[..i] + [items[i]];
    WrittenItemsSnoc(items[..i], items[i]);
  }

  /** The same for the first `i + 1` entries of a mapping. */
  lemma {:induction false} WrittenEntriesTake(entries: seq<(Value, Value)>, i: nat)
    requires i < |entries|
    ensures WrittenEntries(entries[..i + 1]) == Extend(WrittenEntries(entries[..i]), EntryWritten(entries[i]))
  {
    assert entries[..i + 1] == entries[..i] + [entries[i]];
    WrittenEntriesSnoc(entries[..i], entries[i]);
  }

  /** One turn of the encoder's list loop: the buffer that held the first
      `i` items, extended by what the next item writes, holds the first
      `i + 1`. */
  lemma {:induction false} WrittenItemsStep(items: seq<Value>, i: nat, pre: seq<byte>, before: seq<byte>, after: seq<byte>)
    requires i < |items| && WrittenItems(items[..i]).err.None?
    requires before == pre + WrittenItems(items[..i]).bytes
    requires after == before + Written(items[i]).bytes
    ensures after == pre + WrittenItems(items[..i + 1]).bytes
    ensures WrittenItems(items[..i + 1]).err == Written(items[i]).err
  {
    WrittenItemsTake(items, i);
    ExtendBytes(pre, WrittenItems(items[..i]), Written(items[i]), before, after);
  }

  /** The same for the mapping loop. */
  lemma {:induction false} WrittenEntriesStep(entries: seq<(Value, Value)>, i: nat, pre: seq<byte>, before: seq<byte>, after: seq<byte>)
    requires i < |entries| && WrittenEntries(entries[..i]).err.None?
    requires before == pre + WrittenEntries(entries[..i]).bytes
    requires after == before + EntryWritten(entries[i]).bytes
    ensures after == pre + WrittenEntries(entries[..i + 1]).bytes
    ensures WrittenEntries(entries[..i + 1]).err == EntryWritten(entries[i]).err
  {
    WrittenEntriesTake(entries, i);
    ExtendBytes(pre, WrittenEntries(entries[..i]), EntryWritten(entries[i]), before, after);
  }

  // ---------------------------------------------------------------------
  // Sizes
  // ---------------------------------------------------------------------

  /** A value written without error occupies exactly EncodedSize(v) bytes. */
  lemma {:induction false} EncodedSizeIsLength(v: Value)
    requires Written(v).err.None?
    ensures |Written(v).bytes| == EncodedSize(v)
    decreases v
  {
    match v
    case List(items) => ItemsSizeIsLength(items);
    case Object(entries) => EntriesSizeIsLength(entries);
    case _ =>
  }

  lemma {:induction false} ItemsSizeIsLength(items: seq<Value>)
    requires WrittenItems(items).err.None?
    ensures |WrittenItems(items).bytes| == ItemsSize(items)
    decreases items
  {
    if items != [] {
      EncodedSizeIsLength(items[0]);
      ItemsSizeIsLength(items[1..]);
    }
  }

  lemma {:induction false} EntriesSizeIsLength(entries: seq<(Value, Value)>)
    requires WrittenEntries(entries).err.None?
    ensures |WrittenEntries(entries).bytes| == EntriesSize(entries)
    decreases entries
  {
    if entries != [] {
      var e := entries[0];
      assert e in entries;
      assert e.1 < e;
      EncodedSizeIsLength(e.1);
      EntriesSizeIsLength(entries[1..]);
    }
  }

  /** The backpatched size field: a container written without error is its
      tag, then the u64 little-endian length of everything after the size
      field, then its body; that length is the sum of the children's sizes
      (plus four bytes of key slot per mapping entry). */
  lemma {:induction false} ContainerFraming(v: Value)
    requires v.List? || v.Object?
    requires Written(v).err.None?
    ensures var b := Written(v).bytes;
            && |b| >= 9
            && b[0] == (if v.List? then LIST else OBJECT)
            && UnpackU64(b[1..9]) == |b| - 9
            && b[9..] == (if v.List? then WrittenItems(v.items).bytes else WrittenEntries(v.entries).bytes)
            && |b| - 9 == (if v.List? then ItemsSize(v.items) else EntriesSize(v.entries))
  {
    var b := Written(v).bytes;
    var body := if v.List? then WrittenItems(v.items).bytes else WrittenEntries(v.entries).bytes;
    assert b == [b[0]] + PackU64(|body|) + body;
    assert b[1..9] == PackU64(|body|);
    U64RoundTrip(|body|);
    EncodedSizeIsLength(v);
  }

  // ---------------------------------------------------------------------
  // Decoding an encoding
  // ---------------------------------------------------------------------

  /** enc[i], under a name of its own: the quantifier of At fires only on
      it, so only the At lemmas below look inside an At. */
  function ByteAt(enc: seq<byte>, i: nat): byte
    requires i < |enc|
  {
    enc[i]
  }

  /** enc sits in data at pos. */
  predicate At(data: seq<byte>, pos: nat, enc: seq<byte>)
  {
    pos + |enc| <= |data| && forall i :: 0 <= i < |enc| ==> data[pos + i] == ByteAt(enc, i)
  }

  /** At is the slice of data at pos being enc. */
  lemma {:induction false} AtSlice(data: seq<byte>, pos: nat, enc: seq<byte>)
    requires At(data, pos, enc)
    ensures data[pos..pos + |enc|] == enc
  {
    var chunk := data[pos..pos + |enc|];
    forall i | 0 <= i < |enc|
      ensures chunk[i] == enc[i]
    {
      assert chunk[i] == data[pos + i] == ByteAt(enc, i);
    }
  }

  lemma {:induction false} AtSplit(data: seq<byte>, pos: nat, a: seq<byte>, b: seq<byte>)
    requires At(data, pos, a + b)
    ensures At(data, pos, a) && At(data, pos + |a|, b)
  {
    forall i | 0 <= i < |a|
      ensures data[pos + i] == ByteAt(a, i)
    {
      assert data[pos + i] == ByteAt(a + b, i) == a[i];
    }
    forall i | 0 <= i < |b|
      ensures data[pos + |a| + i] == ByteAt(b, i)
    {
      assert data[pos + (|a| + i)] == ByteAt(a + b, |a| + i) == b[i];
    }
  }

  lemma {:induction false} AtMiddle(pre: seq<byte>, enc: seq<byte>, post: seq<byte>)
    ensures At(pre + enc + post, |pre|, enc)
  {
    forall i | 0 <= i < |enc|
      ensures (pre + enc + post)[|pre| + i] == ByteAt(enc, i)
    {
    }
  }

  lemma {:induction false} AtFirst(data: seq<byte>, pos: nat, enc: seq<byte>)
    requires At(data, pos, enc) && enc != []
    ensures data[pos] == enc[0]
  {
    assert data[pos + 0] == ByteAt(enc, 0);
  }

  /** A tag byte followed by its payload. */
  lemma {:induction false} AtTag(data: seq<byte>, pos: nat, tag: byte, payload: seq<byte>)
    requires At(data, pos, [tag] + payload)
    ensures data[pos] == tag && At(data, pos + 1, payload)
  {
    AtSplit(data, pos, [tag], payload);
    AtFirst(data, pos, [tag]);
  }

  lemma {:induction false} FindZeroAt(data: seq<byte>, p: nat, z: nat)
    requires p <= z < |data| && data[z] == 0
    requires forall j :: p <= j < z ==> data[j] != 0
    ensures FindZero(data, p) == Some(z)
    decreases z - p
  {
    if p < z {
      FindZeroAt(data, p + 1, z);
    }
  }

  lemma {:induction false} KeySlotAscii(k: seq<byte>)
    requires IsAscii(k)
    ensures IsAscii(KeySlot(k))
  {
    var slot := KeySlot(k);
    forall i | 0 <= i < 4
      ensures slot[i] < 128
    {
      if i < Min(4, |k|) {
        assert slot[i] == slot[..Min(4, |k|)][i] == k[..Min(4, |k|)][i];
      }
    }
  }

  /** Decoding the bytes `serialize` wrote for v, wherever they sit in a
      stream, yields Normalized(v), reports exactly the bytes written, and
      leaves the cursor right after them. */
  lemma {:induction false} DecodeWritten(v: Value, data: seq<byte>, pos: nat)
    requires Written(v).err.None? && NulFree(v) && At(data, pos, Written(v).bytes)
    ensures DecodeAt(data, pos) == Ok(Decoded(Normalized(v), |Written(v).bytes|, pos + |Written(v).bytes|))
    decreases v, 2
  {
    if v.List? {
      DecodeWrittenList(v.items, data, pos);
    } else if v.Object? {
      DecodeWrittenObject(v.entries, data, pos);
    } else {
      DecodeWrittenScalar(v, data, pos);
    }
  }

  /** The same for a value that is not a container. */
  lemma {:induction false} DecodeWrittenScalar(v: Value, data: seq<byte>, pos: nat)
    requires !v.List? && !v.Object?
    requires Written(v).err.None? && NulFree(v) && At(data, pos, Written(v).bytes)
    ensures DecodeAt(data, pos) == Ok(Decoded(v, |Written(v).bytes|, pos + |Written(v).bytes|))
  {
    match v
    case Null =>
      DecodeWrittenTag(v, data, pos);
    case Bool(b) =>
      DecodeWrittenTag(v, data, pos);
    case Int(i) =>
      DecodeWrittenInt(i, data, pos);
    case Float(bits) =>
      DecodeWrittenFloat(bits, data, pos);
    case Str(s) =>
      DecodeWrittenStr(s, data, pos);
    case Bytes(d) =>
      DecodeWrittenBytes(d, data, pos);
  }

  lemma {:induction false} DecodeWrittenTag(v: Value, data: seq<byte>, pos: nat)
    requires v.Null? || v.Bool?
    requires At(data, pos, Written(v).bytes)
    ensures DecodeAt(data, pos) == Ok(Decoded(v, 1, pos + 1))
  {
    AtFirst(data, pos, Written(v).bytes);
    assert DecodePayload(data, Written(v).bytes[0], pos + 1) == Ok(Decoded(v, 1, pos + 1));
  }

  lemma {:induction false} DecodeWrittenFloat(bits: Binary64, data: seq<byte>, pos: nat)
    requires At(data, pos, Written(Float(bits)).bytes)
    ensures DecodeAt(data, pos) == Ok(Decoded(Float(bits), 9, pos + 9))
  {
    AtTag(data, pos, FLOAT, bits);
    DecodeFloatWritten(bits, data, pos + 1);
    assert DecodePayload(data, FLOAT, pos + 1) == DecodeFloat(data, pos + 1);
  }

  lemma {:induction false} DecodeWrittenInt(i: int, data: seq<byte>, pos: nat)
    requires Written(Int(i)).err.None? && At(data, pos, Written(Int(i)).bytes)
    ensures DecodeAt(data, pos) == Ok(Decoded(Int(i), |Written(Int(i)).bytes|, pos + |Written(Int(i)).bytes|))
  {
    AtTag(data, pos, INT, PackI64(i));
    DecodeIntWritten(i, data, pos + 1);
    assert DecodePayload(data, INT, pos + 1) == DecodeInt(data, pos + 1);
  }

  lemma {:induction false} DecodeWrittenStr(s: seq<byte>, data: seq<byte>, pos: nat)
    requires Written(Str(s)).err.None? && NulFree(Str(s)) && At(data, pos, Written(Str(s)).bytes)
    ensures DecodeAt(data, pos) == Ok(Decoded(Str(s), |Written(Str(s)).bytes|, pos + |Written(Str(s)).bytes|))
  {
    assert [STRING] + s + [0] == [STRING] + (s + [0]);
    AtTag(data, pos, STRING, s + [0]);
    DecodeStrWritten(s, data, pos + 1);
    assert DecodePayload(data, STRING, pos + 1) == DecodeString(data, pos + 1);
  }

  lemma {:induction false} DecodeWrittenBytes(d: seq<byte>, data: seq<byte>, pos: nat)
    requires Written(Bytes(d)).err.None? && At(data, pos, Written(Bytes(d)).bytes)
    ensures DecodeAt(data, pos) == Ok(Decoded(Bytes(d), |Written(Bytes(d)).bytes|, pos + |Written(Bytes(d)).bytes|))
  {
    assert [BYTES] + PackU64(|d|) + d == [BYTES] + (PackU64(|d|) + d);
    AtTag(data, pos, BYTES, PackU64(|d|) + d);
    DecodeBytesWritten(d, data, pos + 1);
    assert DecodePayload(data, BYTES, pos + 1) == DecodeBytes(data, pos + 1);
  }

  lemma {:induction false} DecodeWrittenList(items: seq<Value>, data: seq<byte>, pos: nat)
    requires Written(List(items)).err.None? && NulFree(List(items))
    requires At(data, pos, Written(List(items)).bytes)
    ensures DecodeAt(data, pos)
         == Ok(Decoded(Normalized(List(items)), |Written(List(items)).bytes|,
                       pos + |Written(List(items)).bytes|))
    decreases items, 6
  {
    var body := WrittenItems(items).bytes;
    assert [LIST] + PackU64(|body|) + body == [LIST] + (PackU64(|body|) + body);
    AtTag(data, pos, LIST, PackU64(|body|) + body);
    AtSized(data, pos + 1, |body|, body);
    DecodeListWritten(items, data, pos + 1);
    assert DecodePayload(data, LIST, pos + 1) == DecodeList(data, pos + 1);
  }

  lemma {:induction false} DecodeWrittenObject(entries: seq<(Value, Value)>, data: seq<byte>, pos: nat)
    requires Written(Object(entries)).err.None? && NulFree(Object(entries))
    requires At(data, pos, Written(Object(entries)).bytes)
    ensures DecodeAt(data, pos)
         == Ok(Decoded(Normalized(Object(entries)), |Written(Object(entries)).bytes|,
                       pos + |Written(Object(entries)).bytes|))
    decreases entries, 6
  {
    var body := WrittenEntries(entries).bytes;
    assert [OBJECT] + PackU64(|body|) + body == [OBJECT] + (PackU64(|body|) + body);
    AtTag(data, pos, OBJECT, PackU64(|body|) + body);
    AtSized(data, pos + 1, |body|, body);
    DecodeObjectWritten(entries, data, pos + 1);
    assert DecodePayload(data, OBJECT, pos + 1) == DecodeObject(data, pos + 1);
  }

  lemma {:induction false} DecodeIntWritten(i: int, data: seq<byte>, p: nat)
    requires -TWO_63 <= i < TWO_63 && At(data, p, PackI64(i))
    ensures DecodeInt(data, p) == Ok(Decoded(Int(i), 9, p + 8))
  {
    AtSlice(data, p, PackI64(i));
    I64RoundTrip(i);
  }

  lemma {:induction false} DecodeFloatWritten(bits: Binary64, data: seq<byte>, p: nat)
    requires At(data, p, bits)
    ensures DecodeFloat(data, p) == Ok(Decoded(Float(bits), 9, p + 8))
  {
    AtSlice(data, p, bits);
  }

  lemma {:induction false} DecodeStrWritten(s: seq<byte>, data: seq<byte>, p: nat)
    requires forall i :: 0 <= i < |s| ==> s[i] != 0
    requires At(data, p, s + [0])
    ensures DecodeString(data, p) == Ok(Decoded(Str(s), |s| + 2, p + |s| + 1))
  {
    AtSplit(data, p, s, [0]);
    AtFirst(data, p + |s|, [0]);
    AtSlice(data, p, s);
    forall j | p <= j < p + |s|
      ensures data[j] != 0
    {
      assert data[j] == data[p..p + |s|][j - p];
    }
    FindZeroAt(data, p, p + |s|);
  }

  /** A u64 size field followed by a body. */
  lemma {:induction false} AtSized(data: seq<byte>, p: nat, n: nat, body: seq<byte>)
    requires n < TWO_64 && At(data, p, PackU64(n) + body)
    ensures p + 8 <= |data| && UnpackU64(data[p..p + 8]) == n && At(data, p + 8, body)
  {
    AtSplit(data, p, PackU64(n), body);
    AtSlice(data, p, PackU64(n));
    U64RoundTrip(n);
  }

  lemma {:induction false} DecodeBytesWritten(d: seq<byte>, data: seq<byte>, p: nat)
    requires |d| < TWO_64 && At(data, p, PackU64(|d|) + d)
    ensures DecodeBytes(data, p) == Ok(Decoded(Bytes(d), |d| + 9, p + 8 + |d|))
  {
    AtSized(data, p, |d|, d);
    AtSlice(data, p + 8, d);
  }

  /** A list whose size field says n and whose loop yields items. */
  lemma {:induction false} DecodeListFromLoop(data: seq<byte>, p: nat, n: nat, items: seq<Value>, next: nat)
    requires p + 8 <= |data| && UnpackU64(data[p..p + 8]) == n
    requires ListLoop(data, p + 8, n, []) == Ok((items, next))
    ensures DecodeList(data, p) == Ok(Decoded(List(items), n + 9, next))
  {
  }

  /** A mapping whose size field says n and whose loop yields entries. */
  lemma {:induction false} DecodeObjectFromLoop(data: seq<byte>, p: nat, n: nat, entries: seq<(Value, Value)>, next: nat)
    requires p + 8 <= |data| && UnpackU64(data[p..p + 8]) == n
    requires ObjectLoop(data, p + 8, n, []) == Ok((entries, next))
    ensures DecodeObject(data, p) == Ok(Decoded(Object(entries), n + 9, next))
  {
  }

  lemma {:induction false} DecodeListWritten(items: seq<Value>, data: seq<byte>, p: nat)
    requires WrittenItems(items).err.None?
    requires ItemsNulFree(items)
    requires p + 8 <= |data| && UnpackU64(data[p..p + 8]) == |WrittenItems(items).bytes|
    requires At(data, p + 8, WrittenItems(items).bytes)
    ensures DecodeList(data, p)
         == Ok(Decoded(List(NormalizedItems(items)), |WrittenItems(items).bytes| + 9,
                       p + 8 + |WrittenItems(items).bytes|))
    decreases items, 5
  {
    var body := WrittenItems(items).bytes;
    var out := NormalizedItems(items);
    ListLoopWritten(items, [], data, p + 8);
    assert [] + out == out;
    DecodeListFromLoop(data, p, |body|, out, p + 8 + |body|);
  }

  lemma {:induction false} DecodeObjectWritten(entries: seq<(Value, Value)>, data: seq<byte>, p: nat)
    requires WrittenEntries(entries).err.None?
    requires EntriesNulFree(entries)
    requires p + 8 <= |data| && UnpackU64(data[p..p + 8]) == |WrittenEntries(entries).bytes|
    requires At(data, p + 8, WrittenEntries(entries).bytes)
    ensures DecodeObject(data, p)
         == Ok(Decoded(Object(Collect([], entries)), |WrittenEntries(entries).bytes| + 9,
                       p + 8 + |WrittenEntries(entries).bytes|))
    decreases entries, 5
  {
    var body := WrittenEntries(entries).bytes;
    ObjectLoopWritten(entries, [], data, p + 8);
    DecodeObjectFromLoop(data, p, |body|, Collect([], entries), p + 8 + |body|);
  }

  /** One turn of the list loop: an item of n bytes decoded at pos. */
  lemma {:induction false} ListLoopStep(data: seq<byte>, pos: nat, n: nat, m: nat, acc: seq<Value>, v: Value)
    requires pos + n + m <= |data| && n > 0
    requires DecodeAt(data, pos) == Ok(Decoded(v, n, pos + n))
    ensures ListLoop(data, pos, n + m, acc) == ListLoop(data, pos + n, m, acc + [v])
  {
  }

  /** One turn of the mapping loop, whatever entry it reads. */
  lemma {:induction false} ObjectLoopStep(data: seq<byte>, pos: nat, e: EntryRead, m: nat, acc: seq<(Value, Value)>)
    requires pos <= |data| && ReadEntry(data, pos) == Ok(e)
    ensures ObjectLoop(data, pos, e.consumed + m, acc) == ObjectLoop(data, e.next, m, Assign(acc, e.key, e.item))
  {
  }

  /** An entry read from an ASCII key slot at pos followed by an item of n
      bytes. */
  lemma {:induction false} ReadEntryAt(data: seq<byte>, pos: nat, slot: seq<byte>, n: nat, v: Value)
    requires |slot| == 4 && IsAscii(slot) && At(data, pos, slot)
    requires DecodeAt(data, pos + 4) == Ok(Decoded(v, n, pos + 4 + n))
    ensures ReadEntry(data, pos) == Ok(EntryRead(Str(RStripZeros(slot)), v, 4 + n, pos + 4 + n))
  {
    AtSlice(data, pos, slot);
    assert ReadAt(data, pos, 4) == slot;
  }

  /** The first item of a written list body decodes in place. */
  lemma {:induction false} ListItemAt(rest: seq<Value>, data: seq<byte>, pos: nat)
    requires rest != [] && WrittenItems(rest).err.None? && ItemsNulFree(rest)
    requires At(data, pos, WrittenItems(rest).bytes)
    ensures DecodeAt(data, pos) == Ok(Decoded(Normalized(rest[0]), |Written(rest[0]).bytes|, pos + |Written(rest[0]).bytes|))
    ensures WrittenItems(rest[1..]).err.None? && ItemsNulFree(rest[1..])
    ensures At(data, pos + |Written(rest[0]).bytes|, WrittenItems(rest[1..]).bytes)
    ensures |WrittenItems(rest).bytes| == |Written(rest[0]).bytes| + |WrittenItems(rest[1..]).bytes|
    decreases rest, 1
  {
    AtSplit(data, pos, Written(rest[0]).bytes, WrittenItems(rest[1..]).bytes);
    DecodeWritten(rest[0], data, pos);
  }

  /** The first turn of the list loop over a written list body decodes its
      first item and leaves the rest of the body to the loop. */
  lemma {:induction false} ListLoopFirstTurn(rest: seq<Value>, acc: seq<Value>, data: seq<byte>, pos: nat)
    requires rest != [] && WrittenItems(rest).err.None? && ItemsNulFree(rest)
    requires At(data, pos, WrittenItems(rest).bytes)
    ensures WrittenItems(rest[1..]).err.None? && ItemsNulFree(rest[1..])
    ensures At(data, pos + |Written(rest[0]).bytes|, WrittenItems(rest[1..]).bytes)
    ensures |WrittenItems(rest).bytes| == |Written(rest[0]).bytes| + |WrittenItems(rest[1..]).bytes|
    ensures ListLoop(data, pos, |WrittenItems(rest).bytes|, acc)
         == ListLoop(data, pos + |Written(rest[0]).bytes|, |WrittenItems(rest[1..]).bytes|, acc + [Normalized(rest[0])])
    decreases rest, 2
  {
    ListItemAt(rest, data, pos);
    ListLoopStep(data, pos, |Written(rest[0]).bytes|, |WrittenItems(rest[1..]).bytes|, acc, Normalized(rest[0]));
  }

  lemma {:induction false} NormalizedItemsFirst(items: seq<Value>, acc: seq<Value>)
    requires items != []
    ensures acc + [Normalized(items[0])] + NormalizedItems(items[1..]) == acc + NormalizedItems(items)
  {
    assert NormalizedItems(items) == [Normalized(items[0])] + NormalizedItems(items[1..]);
  }

  /** The list loop run over a written list body. */
  lemma {:induction false} ListLoopWritten(rest: seq<Value>, acc: seq<Value>, data: seq<byte>, pos: nat)
    requires WrittenItems(rest).err.None? && ItemsNulFree(rest) && At(data, pos, WrittenItems(rest).bytes)
    ensures ListLoop(data, pos, |WrittenItems(rest).bytes|, acc)
         == Ok((acc + NormalizedItems(rest), pos + |WrittenItems(rest).bytes|))
    decreases rest, 4
  {
    if rest == [] {
      assert acc + NormalizedItems(rest) == acc;
    } else {
      ListLoopWrittenCons(rest, acc, data, pos);
    }
  }

  lemma {:induction false} ListLoopWrittenCons(rest: seq<Value>, acc: seq<Value>, data: seq<byte>, pos: nat)
    requires rest != [] && WrittenItems(rest).err.None? && ItemsNulFree(rest) && At(data, pos, WrittenItems(rest).bytes)
    ensures ListLoop(data, pos, |WrittenItems(rest).bytes|, acc)
         == Ok((acc + NormalizedItems(rest), pos + |WrittenItems(rest).bytes|))
    decreases rest, 3
  {
    var next := pos + |Written(rest[0]).bytes|;
    var acc' := acc + [Normalized(rest[0])];
    ListLoopFirstTurn(rest, acc, data, pos);
    ListLoopWritten(rest[1..], acc', data, next);
    NormalizedItemsFirst(rest, acc);
    assert next + |WrittenItems(rest[1..]).bytes| == pos + |WrittenItems(rest).bytes|;
  }

  /** Three encodings one after another sit in data one after another. */
  lemma {:induction false} AtSplit3(data: seq<byte>, pos: nat, a: seq<byte>, b: seq<byte>, c: seq<byte>)
    requires At(data, pos, a + b + c)
    ensures At(data, pos, a) && At(data, pos + |a|, b) && At(data, pos + |a| + |b|, c)
  {
    AtSplit(data, pos, a + b, c);
    AtSplit(data, pos, a, b);
  }

  /** One turn of the mapping loop reading the key slot `slot` at pos. */
  lemma {:induction false} ObjectSlotStep(data: seq<byte>, pos: nat, slot: seq<byte>, n: nat, m: nat,
                       acc: seq<(Value, Value)>, v: Value)
    requires |slot| == 4 && IsAscii(slot) && At(data, pos, slot)
    requires DecodeAt(data, pos + 4) == Ok(Decoded(v, n, pos + 4 + n))
    ensures ObjectLoop(data, pos, 4 + n + m, acc) == ObjectLoop(data, pos + 4 + n, m, Assign(acc, Str(RStripZeros(slot)), v))
  {
    ReadEntryAt(data, pos, slot, n, v);
    ObjectLoopStep(data, pos, EntryRead(Str(RStripZeros(slot)), v, 4 + n, pos + 4 + n), m, acc);
  }

  /** What the first entry of a written mapping body contributes. */
  lemma {:induction false} EntriesFirst(rest: seq<(Value, Value)>)
    requires rest != [] && WrittenEntries(rest).err.None? && EntriesNulFree(rest)
    ensures rest[0].0.Str? && IsAscii(rest[0].0.utf8) && StoredKey(rest[0].0) == RStripZeros(KeySlot(rest[0].0.utf8))
    ensures Written(rest[0].1).err.None? && NulFree(rest[0].1)
    ensures WrittenEntries(rest[1..]).err.None? && EntriesNulFree(rest[1..])
    ensures WrittenEntries(rest).bytes
         == KeySlot(rest[0].0.utf8) + Written(rest[0].1).bytes + WrittenEntries(rest[1..]).bytes
  {
    assert rest[0] in rest;
  }

  /** The first entry of a written mapping body, as the mapping loop meets
      it: an ASCII key slot, then the first item, which decodes in place. */
  lemma {:induction false} ObjectEntryAt(rest: seq<(Value, Value)>, data: seq<byte>, pos: nat)
    requires rest != [] && WrittenEntries(rest).err.None? && EntriesNulFree(rest)
    requires At(data, pos, WrittenEntries(rest).bytes)
    ensures rest[0].0.Str? && IsAscii(rest[0].0.utf8) && At(data, pos, KeySlot(rest[0].0.utf8))
    ensures StoredKey(rest[0].0) == RStripZeros(KeySlot(rest[0].0.utf8))
    ensures DecodeAt(data, pos + 4)
         == Ok(Decoded(Normalized(rest[0].1), |Written(rest[0].1).bytes|, pos + 4 + |Written(rest[0].1).bytes|))
    ensures WrittenEntries(rest[1..]).err.None? && EntriesNulFree(rest[1..])
    ensures At(data, pos + 4 + |Written(rest[0].1).bytes|, WrittenEntries(rest[1..]).bytes)
    ensures |WrittenEntries(rest).bytes| == 4 + |Written(rest[0].1).bytes| + |WrittenEntries(rest[1..]).bytes|
    decreases rest, 1
  {
    assert rest[0] in rest;
    assert rest[0].1 < rest[0];
    EntriesFirst(rest);
    KeySlotAscii(rest[0].0.utf8);
    AtSplit3(data, pos, KeySlot(rest[0].0.utf8), Written(rest[0].1).bytes, WrittenEntries(rest[1..]).bytes);
    DecodeWritten(rest[0].1, data, pos + 4);
  }

  /** The first turn of the mapping loop over a written mapping body reads
      the first key slot, decodes the first item, and leaves the rest of the
      body to the loop. */
  lemma {:induction false} ObjectLoopFirstTurn(rest: seq<(Value, Value)>, acc: seq<(Value, Value)>,
                                               data: seq<byte>, pos: nat)
    requires rest != [] && WrittenEntries(rest).err.None? && EntriesNulFree(rest)
    requires At(data, pos, WrittenEntries(rest).bytes)
    ensures WrittenEntries(rest[1..]).err.None? && EntriesNulFree(rest[1..])
    ensures At(data, pos + 4 + |Written(rest[0].1).bytes|, WrittenEntries(rest[1..]).bytes)
    ensures |WrittenEntries(rest).bytes| == 4 + |Written(rest[0].1).bytes| + |WrittenEntries(rest[1..]).bytes|
    ensures ObjectLoop(data, pos, |WrittenEntries(rest).bytes|, acc)
         == ObjectLoop(data, pos + 4 + |Written(rest[0].1).bytes|, |WrittenEntries(rest[1..]).bytes|,
                       Assign(acc, Str(StoredKey(rest[0].0)), Normalized(rest[0].1)))
    decreases rest, 2
  {
    ObjectEntryAt(rest, data, pos);
    ObjectSlotStep(data, pos, KeySlot(rest[0].0.utf8), |Written(rest[0].1).bytes|,
                   |WrittenEntries(rest[1..]).bytes|, acc, Normalized(rest[0].1));
  }

  lemma CollectFirst(acc: seq<(Value, Value)>, entries: seq<(Value, Value)>)
    requires entries != []
    ensures Collect(acc, entries) == Collect(Assign(acc, Str(StoredKey(entries[0].0)), Normalized(entries[0].1)), entries[1..])
  {
  }

  /** The mapping loop run over a written mapping body. */
  lemma {:induction false} ObjectLoopWritten(rest: seq<(Value, Value)>, acc: seq<(Value, Value)>,
                                             data: seq<byte>, pos: nat)
    requires WrittenEntries(rest).err.None? && EntriesNulFree(rest) && At(data, pos, WrittenEntries(rest).bytes)
    ensures ObjectLoop(data, pos, |WrittenEntries(rest).bytes|, acc)
         == Ok((Collect(acc, rest), pos + |WrittenEntries(rest).bytes|))
    decreases rest, 4
  {
    if rest != [] {
      ObjectLoopWrittenCons(rest, acc, data, pos);
    }
  }

  lemma {:induction false} ObjectLoopWrittenCons(rest: seq<(Value, Value)>, acc: seq<(Value, Value)>,
                                                 data: seq<byte>, pos: nat)
    requires rest != [] && WrittenEntries(rest).err.None? && EntriesNulFree(rest)
    requires At(data, pos, WrittenEntries(rest).bytes)
    ensures ObjectLoop(data, pos, |WrittenEntries(rest).bytes|, acc)
         == Ok((Collect(acc, rest), pos + |WrittenEntries(rest).bytes|))
    decreases rest, 3
  {
    ObjectLoopFirstTurn(rest, acc, data, pos);
    ObjectLoopWritten(rest[1..], Assign(acc, Str(StoredKey(rest[0].0)), Normalized(rest[0].1)),
                      data, pos + 4 + |Written(rest[0].1).bytes|);
    CollectFirst(acc, rest);
  }

  /** The skip property: a value encoded anywhere in a stream is decoded in
      place, occupies EncodedSize(v) bytes, and leaves the cursor at its end,
      a function of the value alone. */
  lemma {:induction false} SkipValue(v: Value, pre: seq<byte>, post: seq<byte>)
    requires Encode(v).Ok? && NulFree(v)
    ensures DecodeAt(pre + Encode(v).value + post, |pre|)
         == Ok(Decoded(Normalized(v), EncodedSize(v), |pre| + EncodedSize(v)))
  {
    AtMiddle(pre, Written(v).bytes, post);
    DecodeWritten(v, pre + Written(v).bytes + post, |pre|);
    EncodedSizeIsLength(v);
  }

  /** Decoding `pack(v)` yields Normalized(v) and consumes all of it. */
  lemma {:induction false} DecodeEncoding(v: Value)
    requires Encode(v).Ok? && NulFree(v)
    ensures |Encode(v).value| == EncodedSize(v)
    ensures DecodeAt(Encode(v).value, 0) == Ok(Decoded(Normalized(v), EncodedSize(v), EncodedSize(v)))
  {
    var b := Encode(v).value;
    assert At(b, 0, b);
    DecodeWritten(v, b, 0);
    EncodedSizeIsLength(v);
  }

  // ---------------------------------------------------------------------
  // Keys
  // ---------------------------------------------------------------------

  /** rstrip leaves a prefix that is empty or ends in a non-zero byte, and
      removes only zero bytes. */
  lemma {:induction false} RStripZerosShape(s: seq<byte>)
    ensures RStripZeros(s) <= s
    ensures RStripZeros(s) == [] || RStripZeros(s)[|RStripZeros(s)| - 1] != 0
    ensures forall i :: |RStripZeros(s)| <= i < |s| ==> s[i] == 0
    decreases |s|
  {
    if s != [] && s[|s| - 1] == 0 {
      RStripZerosShape(s[..|s| - 1]);
    }
  }

  /** Assigning a key the dict does not hold appends it. */
  lemma {:induction false} AssignNew(acc: seq<(Value, Value)>, key: Value, item: Value)
    requires forall j :: 0 <= j < |acc| ==> acc[j].0 != key
    ensures Assign(acc, key, item) == acc + [(key, item)]
    decreases acc
  {
    if acc != [] {
      assert acc[0].0 != key;
      AssignNew(acc[1..], key, item);
      assert [acc[0]] + (acc[1..] + [(key, item)]) == acc + [(key, item)];
    }
  }

  /** Assigning a key the dict holds at j replaces the entry in place. */
  lemma {:induction false} AssignExisting(acc: seq<(Value, Value)>, key: Value, item: Value, j: nat)
    requires j < |acc| && acc[j].0 == key
    requires forall i :: 0 <= i < j ==> acc[i].0 != key
    ensures Assign(acc, key, item) == acc[j := (key, item)]
    decreases acc
  {
    if j == 0 {
      assert [(key, item)] + acc[1..] == acc[0 := (key, item)];
    } else {
      assert acc[0].0 != key;
      AssignExisting(acc[1..], key, item, j - 1);
      assert [acc[0]] + acc[1..][j - 1 := (key, item)] == acc[j := (key, item)];
    }
  }

  /** Padding with zero bytes does not change what rstrip leaves. */
  lemma {:induction false} RStripZerosPadding(c: seq<byte>, n: nat)
    ensures RStripZeros(c + Zeros(n)) == RStripZeros(c)
    decreases n
  {
    if n > 0 {
      var s := c + Zeros(n);
      assert s[|s| - 1] == 0;
      assert s[..|s| - 1] == c + Zeros(n - 1);
      RStripZerosPadding(c, n - 1);
    } else {
      assert c + Zeros(0) == c;
    }
  }

  /** The stored key is the ASCII key cut to its first four bytes, stripped of
      trailing zero bytes. */
  lemma {:induction false} StoredKeyIsCut(k: seq<byte>)
    ensures StoredKey(Str(k)) == RStripZeros(k[..Min(4, |k|)])
  {
    var cut := k[..Min(4, |k|)];
    RStripZerosPadding(cut, 4 - |cut|);
  }

  /** An exact key reads back as itself. */
  lemma {:induction false} StoredExactKey(k: Value)
    requires ExactKey(k)
    ensures StoredKey(k) == k.utf8
  {
    var u := k.utf8;
    StoredKeyIsCut(u);
    assert u[..Min(4, |u|)] == u;
  }

  /** Two entries whose keys share their stored key: the decoded mapping holds
      one entry, carrying the later item. */
  lemma {:induction false} LaterKeyWins(k1: Value, x1: Value, k2: Value, x2: Value)
    requires StoredKey(k1) == StoredKey(k2)
    ensures Normalized(Object([(k1, x1), (k2, x2)])) == Object([(Str(StoredKey(k2)), Normalized(x2))])
  {
    var key := Str(StoredKey(k2));
    var es := [(k1, x1), (k2, x2)];
    var first := Assign([], key, Normalized(x1));
    assert first == [(key, Normalized(x1))];
    assert es[1..] == [(k2, x2)];
    assert es[1..][1..] == [];
    assert Collect([], es) == Collect(first, es[1..]);
    assert Collect(first, es[1..]) == Collect(Assign(first, key, Normalized(x2)), []);
  }

  /** `data[key]` on the dict whose entries are m: the item of the first
      entry holding key, or None when no entry holds it. */
  function Lookup(m: seq<(Value, Value)>, key: Value): Option<Value>
    decreases m
  {
    if m == [] then None
    else if m[0].0 == key then Some(m[0].1)
    else Lookup(m[1..], key)
  }

  /** After `data[key] = item`, key maps to item and every other key keeps
      what it mapped to. */
  lemma {:induction false} LookupAssign(acc: seq<(Value, Value)>, key: Value, item: Value, k: Value)
    ensures Lookup(Assign(acc, key, item), k) == if k == key then Some(item) else Lookup(acc, k)
    decreases acc
  {
    if acc != [] && acc[0].0 != key {
      LookupAssign(acc[1..], key, item, k);
    }
  }

  /** Entries none of whose keys is stored as K leave what K maps to alone. */
  lemma {:induction false} CollectOtherKeys(acc: seq<(Value, Value)>, entries: seq<(Value, Value)>, K: seq<byte>)
    requires forall i :: 0 <= i < |entries| ==> StoredKey(entries[i].0) != K
    ensures Lookup(Collect(acc, entries), Str(K)) == Lookup(acc, Str(K))
    decreases entries
  {
    if entries != [] {
      var e := entries[0];
      assert StoredKey(e.0) != K;
      LookupAssign(acc, Str(StoredKey(e.0)), Normalized(e.1), Str(K));
      CollectOtherKeys(Assign(acc, Str(StoredKey(e.0)), Normalized(e.1)), entries[1..], K);
    }
  }

  /** In a mapping of any size, the last entry whose key is stored as K
      decides what K maps to after decoding: `data[key] = item` for each
      entry in turn lets the later item win. */
  lemma {:induction false} LastKeyWins(acc: seq<(Value, Value)>, entries: seq<(Value, Value)>, j: nat)
    requires j < |entries|
    requires forall i :: j < i < |entries| ==> StoredKey(entries[i].0) != StoredKey(entries[j].0)
    ensures Lookup(Collect(acc, entries), Str(StoredKey(entries[j].0))) == Some(Normalized(entries[j].1))
    decreases entries
  {
    var e := entries[0];
    var next := Assign(acc, Str(StoredKey(e.0)), Normalized(e.1));
    assert Collect(acc, entries) == Collect(next, entries[1..]);
    if j == 0 {
      var K := StoredKey(e.0);
      forall i | 0 <= i < |entries[1..]|
        ensures StoredKey(entries[1..][i].0) != K
      {
        assert entries[1..][i] == entries[i + 1];
      }
      CollectOtherKeys(next, entries[1..], K);
      LookupAssign(acc, Str(K), Normalized(e.1), Str(K));
    } else {
      forall i | j - 1 < i < |entries[1..]|
        ensures StoredKey(entries[1..][i].0) != StoredKey(entries[1..][j - 1].0)
      {
        assert entries[1..][i] == entries[i + 1];
      }
      LastKeyWins(next, entries[1..], j - 1);
    }
  }

  /** Key collision end to end: encoding a two-entry mapping whose keys share
      their first four bytes and decoding it exposes only the later item. */
  lemma {:induction false} KeyCollision(k1: Value, x1: Value, k2: Value, x2: Value)
    requires StoredKey(k1) == StoredKey(k2)
    requires Encode(Object([(k1, x1), (k2, x2)])).Ok?
    requires NulFree(x1) && NulFree(x2)
    ensures var b := Encode(Object([(k1, x1), (k2, x2)])).value;
            DecodeAt(b, 0) == Ok(Decoded(Object([(Str(StoredKey(k2)), Normalized(x2))]), |b|, |b|))
  {
    var v := Object([(k1, x1), (k2, x2)]);
    var es := [(k1, x1), (k2, x2)];
    assert es[1..][1..] == [];
    assert EntriesNulFree(es[1..][1..]);
    assert EntriesNulFree(es);
    DecodeEncoding(v);
    LaterKeyWins(k1, x1, k2, x2);
  }

  // ---------------------------------------------------------------------
  // Round trip
  // ---------------------------------------------------------------------

  lemma {:induction false} NormalizedIdentity(v: Value)
    requires KeysExact(v)
    ensures Normalized(v) == v
    decreases v
  {
    match v
    case List(items) => NormalizedItemsIdentity(items);
    case Object(entries) =>
      CollectIdentity([], entries);
      assert [] + entries == entries;
    case _ =>
  }

  lemma {:induction false} NormalizedItemsIdentity(items: seq<Value>)
    requires ItemsKeysExact(items)
    ensures NormalizedItems(items) == items
    decreases items
  {
    if items != [] {
      NormalizedIdentity(items[0]);
      NormalizedItemsIdentity(items[1..]);
    }
  }

  /** Assigning exact, pairwise distinct keys in order just appends them. */
  lemma {:induction false} CollectIdentity(acc: seq<(Value, Value)>, rest: seq<(Value, Value)>)
    requires EntriesKeysExact(rest) && DistinctKeys(acc + rest)
    ensures Collect(acc, rest) == acc + rest
    decreases rest
  {
    if rest == [] {
      assert acc + rest == acc;
    } else {
      var e := rest[0];
      assert e in rest;
      assert e.1 < e;
      StoredExactKey(e.0);
      NormalizedIdentity(e.1);
      assert Str(StoredKey(e.0)) == e.0;
      assert (acc + rest)[|acc|] == e;
      forall j | 0 <= j < |acc|
        ensures acc[j].0 != e.0
      {
        assert (acc + rest)[j] == acc[j];
      }
      AssignNew(acc, e.0, e.1);
      assert acc + [e] + rest[1..] == acc + rest;
      CollectIdentity(acc + [e], rest[1..]);
    }
  }

  /** Round trip: for a value `pack` accepts whose strings hold no zero byte
      and whose mappings have exact, distinct keys, `value(pack(v))` is
      `(v, len(pack(v)))`. */
  lemma {:induction false} RoundTrip(v: Value)
    requires Encode(v).Ok? && Representable(v)
    ensures DecodeAt(Encode(v).value, 0) == Ok(Decoded(v, |Encode(v).value|, |Encode(v).value|))
  {
    DecodeEncoding(v);
    NormalizedIdentity(v);
  }

  // ---------------------------------------------------------------------
  // The layout of each variant
  // ---------------------------------------------------------------------

  /** None, True and False are one tag byte each (booleans never take the
      integer tag), and each decodes with a count of 1. */
  lemma ScalarEncodings()
    ensures Encode(Null) == Ok([0x01]) && Encode(Bool(true)) == Ok([0x02]) && Encode(Bool(false)) == Ok([0x03])
    ensures DecodeAt([0x01], 0) == Ok(Decoded(Null, 1, 1))
    ensures DecodeAt([0x02], 0) == Ok(Decoded(Bool(true), 1, 1))
    ensures DecodeAt([0x03], 0) == Ok(Decoded(Bool(false), 1, 1))
  {
  }

  /** An integer is 0x04 and its 8-byte little-endian two's complement, read
      back with a count of 9; outside signed 64 bits it is an error. */
  lemma {:induction false} IntEncoding(i: int)
    ensures -TWO_63 <= i < TWO_63 ==>
              Encode(Int(i)) == Ok([INT] + PackI64(i))
              && DecodeAt([INT] + PackI64(i), 0) == Ok(Decoded(Int(i), 9, 9))
    ensures !(-TWO_63 <= i < TWO_63) ==> Encode(Int(i)) == Err(IntOutOfRange)
  {
    if -TWO_63 <= i < TWO_63 {
      var b := [INT] + PackI64(i);
      assert b[1..9] == PackI64(i);
      I64RoundTrip(i);
    }
  }

  /** A string is 0x06, its bytes, and a zero byte; with no zero byte inside it
      reads back with a count of its length plus 2. */
  lemma {:induction false} StringEncoding(s: seq<byte>)
    ensures Encode(Str(s)) == Ok([STRING] + s + [0])
    ensures (forall i :: 0 <= i < |s| ==> s[i] != 0) ==>
              DecodeAt([STRING] + s + [0], 0) == Ok(Decoded(Str(s), |s| + 2, |s| + 2))
  {
    if forall i :: 0 <= i < |s| ==> s[i] != 0 {
      DecodeEncoding(Str(s));
    }
  }

  /** The empty string is exactly the two bytes 0x06 0x00. */
  lemma EmptyString()
    ensures Encode(Str([])) == Ok([0x06, 0x00])
    ensures DecodeAt([0x06, 0x00], 0) == Ok(Decoded(Str([]), 2, 2))
  {
    StringEncoding([]);
    assert [STRING] + [] + [0] == [0x06, 0x00];
  }

  /** A byte string is 0x07, its u64 length and its bytes, read back with a
      count of its length plus 9. */
  lemma {:induction false} BytesEncoding(d: seq<byte>)
    requires |d| < TWO_64
    ensures Encode(Bytes(d)) == Ok([BYTES] + PackU64(|d|) + d)
    ensures DecodeAt([BYTES] + PackU64(|d|) + d, 0) == Ok(Decoded(Bytes(d), |d| + 9, |d| + 9))
  {
    var e := [BYTES] + PackU64(|d|) + d;
    assert Written(Bytes(d)) == Output(e, None);
    assert |e| == |d| + 9;
    assert At(e, 0, e);
    DecodeWrittenBytes(d, e, 0);
  }

  /** A tag byte outside 0x01..0x09 is an error. */
  lemma {:induction false} UnknownTagIsError(data: seq<byte>, pos: nat)
    requires pos < |data| && !(1 <= data[pos] <= 9)
    ensures DecodeAt(data, pos) == Err(UnknownTag(data[pos]))
  {
    assert DecodePayload(data, data[pos], pos + 1) == Err(UnknownTag(data[pos]));
  }

  /** The entry loop stops at the first bad key: a mapping whose key i fails
      the key check `bad` reports, after its first i entries were written,
      fails with that error, leaving the tag, the size placeholder and those
      entries written. */
  lemma {:induction false} BadKeyStops(entries: seq<(Value, Value)>, i: nat, bad: EncodeError)
    requires i < |entries| && WrittenEntries(entries[..i]).err.None?
    requires EntryWritten(entries[i]) == Output([], Some(bad))
    ensures Written(Object(entries))
         == Output([OBJECT] + Zeros(8) + WrittenEntries(entries[..i]).bytes, Some(bad))
  {
    var done := WrittenEntries(entries[..i]);
    WrittenEntriesTake(entries, i);
    assert done.bytes + [] == done.bytes;
    assert WrittenEntries(entries[..i + 1]) == Output(done.bytes, Some(bad));
    WrittenEntriesStops(entries, i + 1);
  }

  /** A mapping whose key i is not a string fails with the key error once
      its first i entries are written. */
  lemma {:induction false} NonStrKeyIsError(entries: seq<(Value, Value)>, i: nat)
    requires i < |entries| && WrittenEntries(entries[..i]).err.None?
    requires !entries[i].0.Str?
    ensures Written(Object(entries))
         == Output([OBJECT] + Zeros(8) + WrittenEntries(entries[..i]).bytes, Some(KeyNotStr))
  {
    BadKeyStops(entries, i, KeyNotStr);
  }

  /** As written, a mapping with a non-string key fails as it does in the
      corrected encoder, with nothing of its body written. */
  lemma MappingKeyErrorAsWritten(k: Value, x: Value)
    requires !k.Str?
    ensures AsWritten(Object([(k, x)])) == Output([OBJECT] + Zeros(8), Some(KeyNotStr))
  {
    assert AsWrittenEntries([(k, x)]) == Output([], Some(KeyNotStr));
    assert [OBJECT] + Zeros(8) + [] == [OBJECT] + Zeros(8);
  }

  /** Writing first, then a sequence that wrote done before ending with x,
      is writing first and done, then ending with x. */
  lemma ExtendThenStop(first: Output, done: Output, rest: Output, x: Output)
    requires Extend(first, done).err.None?
    requires rest == Output(done.bytes + x.bytes, x.err)
    ensures Extend(first, rest) == Output(Extend(first, done).bytes + x.bytes, x.err)
  {
    assert first.bytes + (done.bytes + x.bytes) == (first.bytes + done.bytes) + x.bytes;
  }

  /** As written, a list body ends at the first item whose write fails, after
      the earlier items and what that item wrote. */
  lemma {:induction false} AsWrittenItemsStops(items: seq<Value>, i: nat)
    requires i < |items| && AsWrittenItems(items[..i]).err.None?
    requires AsWritten(items[i]).err.Some?
    ensures AsWrittenItems(items)
         == Output(AsWrittenItems(items[..i]).bytes + AsWritten(items[i]).bytes, AsWritten(items[i]).err)
    decreases i
  {
    if i == 0 {
      assert items[..0] == [];
    } else {
      var tail := items[1..];
      assert items[..i][0] == items[0] && items[..i][1..] == tail[..i - 1];
      assert tail[i - 1] == items[i];
      AsWrittenItemsStops(tail, i - 1);
      ExtendThenStop(AsWritten(items[0]), AsWrittenItems(tail[..i - 1]), AsWrittenItems(tail), AsWritten(items[i]));
    }
  }

  /** As written, when item i of a list raises the key TypeError, the list
      swallows it: it returns normally with its size field still zero, after
      the earlier items and what item i wrote, and its later items are not
      written. Only a mapping raises that error (AsWritten says no list
      does), so it is the innermost list around the mapping that swallows. */
  lemma {:induction false} ListSwallowsAt(items: seq<Value>, i: nat)
    requires i < |items| && AsWrittenItems(items[..i]).err.None?
    requires AsWritten(items[i]).err == Some(KeyNotStr)
    ensures AsWritten(List(items))
         == Output([LIST] + Zeros(8) + AsWrittenItems(items[..i]).bytes + AsWritten(items[i]).bytes, None)
  {
    AsWrittenItemsStops(items, i);
  }

  /** As written and corrected agree on every value whose corrected write
      does not end in the key TypeError. */
  lemma {:induction false} AsWrittenAgrees(v: Value)
    requires Written(v).err != Some(KeyNotStr)
    ensures AsWritten(v) == Written(v)
    decreases v
  {
    match v
    case List(items) => AsWrittenItemsAgree(items);
    case Object(entries) => AsWrittenEntriesAgree(entries);
    case _ =>
  }

  lemma {:induction false} AsWrittenItemsAgree(items: seq<Value>)
    requires WrittenItems(items).err != Some(KeyNotStr)
    ensures AsWrittenItems(items) == WrittenItems(items)
    decreases items
  {
    if items != [] {
      AsWrittenAgrees(items[0]);
      if Written(items[0]).err.None? {
        AsWrittenItemsAgree(items[1..]);
      }
    }
  }

  lemma {:induction false} AsWrittenEntryAgrees(e: (Value, Value))
    requires EntryWritten(e).err != Some(KeyNotStr)
    ensures AsWrittenEntry(e) == EntryWritten(e)
    decreases e
  {
    if e.0.Str? && IsAscii(e.0.utf8) {
      AsWrittenAgrees(e.1);
    }
  }

  lemma {:induction false} AsWrittenEntriesAgree(entries: seq<(Value, Value)>)
    requires WrittenEntries(entries).err != Some(KeyNotStr)
    ensures AsWrittenEntries(entries) == WrittenEntries(entries)
    decreases entries
  {
    if entries != [] {
      assert entries[0] in entries;
      AsWrittenEntryAgrees(entries[0]);
      if EntryWritten(entries[0]).err.None? {
        AsWrittenEntriesAgree(entries[1..]);
      }
    }
  }

  /** As written, a list holding a mapping with a non-string key, such as
      `[{None: None}]`, packs without an error, and the bytes read back as an
      empty list, nine bytes long, with the mapping's nine bytes left over. */
  lemma ListSwallowsKeyError(k: Value, x: Value)
    requires !k.Str?
    ensures AsWritten(List([Object([(k, x)])])) == Output([LIST] + Zeros(8) + [OBJECT] + Zeros(8), None)
    ensures DecodeAt([LIST] + Zeros(8) + [OBJECT] + Zeros(8), 0) == Ok(Decoded(List([]), 9, 9))
  {
    var items := [Object([(k, x)])];
    MappingKeyErrorAsWritten(k, x);
    assert items[..0] == [];
    ListSwallowsAt(items, 0);
    assert [LIST] + Zeros(8) + [] + [OBJECT] + Zeros(8) == [LIST] + Zeros(8) + [OBJECT] + Zeros(8);
    EmptyListPrefix([OBJECT] + Zeros(8));
  }

  /** As written, a list nested in a list swallows the key error, and the
      outer list goes on: `[[{k: x}], n]` with a non-string key k, such as
      `[[{None: None}], 5]`, packs without an error into 36 bytes whose
      outer size field is 27, while the corrected encoder fails with the
      key's TypeError. */
  lemma NestedListSwallows(k: Value, x: Value, n: int)
    requires !k.Str? && -TWO_63 <= n < TWO_63
    ensures AsWritten(List([List([Object([(k, x)])]), Int(n)]))
         == Output([LIST] + PackU64(27) + [LIST] + Zeros(8) + [OBJECT] + Zeros(8) + [INT] + PackI64(n), None)
    ensures Encode(List([List([Object([(k, x)])]), Int(n)])) == Err(KeyNotStr)
  {
    var inner := [Object([(k, x)])];
    var outer := [List(inner), Int(n)];
    var empty := [LIST] + Zeros(8) + [OBJECT] + Zeros(8);
    var num := [INT] + PackI64(n);
    assert AsWritten(List(outer)) == Output([LIST] + PackU64(27) + empty + num, None) by {
      ListSwallowsKeyError(k, x);
      assert AsWritten(Int(n)) == Output(num, None);
      assert outer[0] == List(inner) && outer[1] == Int(n);
      ListOfTwoAsWritten(outer);
    }
    assert [LIST] + PackU64(27) + empty + num
        == [LIST] + PackU64(27) + [LIST] + Zeros(8) + [OBJECT] + Zeros(8) + [INT] + PackI64(n);
    assert WrittenItems(outer).err == Some(KeyNotStr) by {
      ListPassesKeyError(k, x);
    }
  }

  /** As written, a list of two items that both write without an error. */
  lemma {:induction false} ListOfTwoAsWritten(items: seq<Value>)
    requires |items| == 2 && AsWritten(items[0]).err.None? && AsWritten(items[1]).err.None?
    requires |AsWritten(items[0]).bytes| + |AsWritten(items[1]).bytes| < TWO_64
    ensures AsWritten(List(items))
         == Output([LIST] + PackU64(|AsWritten(items[0]).bytes| + |AsWritten(items[1]).bytes|)
                   + AsWritten(items[0]).bytes + AsWritten(items[1]).bytes, None)
  {
    var a, b := AsWritten(items[0]), AsWritten(items[1]);
    var rest := items[1..];
    assert rest[0] == items[1] && rest[1..] == [];
    assert AsWrittenItems(rest) == Extend(b, Output([], None));
    assert AsWrittenItems(items) == Extend(a, AsWrittenItems(rest));
    FramedPair(a, b);
  }

  /** A container body of two parts that both succeed. */
  lemma FramedPair(a: Output, b: Output)
    requires a.err.None? && b.err.None? && |a.bytes| + |b.bytes| < TWO_64
    ensures Framed(LIST, Extend(a, Extend(b, Output([], None))))
         == Output([LIST] + PackU64(|a.bytes| + |b.bytes|) + a.bytes + b.bytes, None)
  {
    assert Extend(a, Extend(b, Output([], None))) == Output(a.bytes + b.bytes, None);
  }

  /** The 36 bytes binary_format.py writes for `[[{None: None}], 5]` read
      back as `[[], {}, 5]`: the inner list comes back empty, the mapping's
      tag and zero size field become an empty mapping beside it, and then
      the 5. */
  lemma NestedListReadsBack()
    ensures DecodeAt([LIST] + PackU64(27) + [LIST] + Zeros(8) + [OBJECT] + Zeros(8) + [INT] + PackI64(5), 0)
         == Ok(Decoded(List([List([]), Object([]), Int(5)]), 36, 36))
  {
    var data := [LIST] + PackU64(27) + [LIST] + Zeros(8) + [OBJECT] + Zeros(8) + [INT] + PackI64(5);
    NestedListLayout(PackU64(27), PackI64(5));
    EmptyFrameAt(data, 9, LIST);
    EmptyFrameAt(data, 18, OBJECT);
    DecodeWrittenInt(5, data, 27);
    U64RoundTrip(27);
    NestedListBody(data);
  }

  /** Where the parts of NestedListReadsBack's bytes sit. */
  lemma NestedListLayout(size: seq<byte>, num: seq<byte>)
    requires |size| == 8 && |num| == 8
    ensures var data := [LIST] + size + [LIST] + Zeros(8) + [OBJECT] + Zeros(8) + [INT] + num;
      |data| == 36 && data[0] == LIST && data[1..9] == size
      && At(data, 9, [LIST] + Zeros(8)) && At(data, 18, [OBJECT] + Zeros(8)) && At(data, 27, [INT] + num)
  {
    var head, empty, mapping, five := [LIST] + size, [LIST] + Zeros(8), [OBJECT] + Zeros(8), [INT] + num;
    var data := head + empty + mapping + five;
    assert data == [LIST] + size + [LIST] + Zeros(8) + [OBJECT] + Zeros(8) + [INT] + num;
    assert data == head + empty + (mapping + five);
    AtMiddle(head, empty, mapping + five);
    AtMiddle(head + empty, mapping, five);
    assert data == head + empty + mapping + five + [];
    AtMiddle(head + empty + mapping, five, []);
  }

  /** The list loop over the body of NestedListReadsBack's bytes. */
  lemma NestedListBody(data: seq<byte>)
    requires |data| == 36 && data[0] == LIST && UnpackU64(data[1..9]) == 27
    requires DecodeAt(data, 9) == Ok(Decoded(List([]), 9, 18))
    requires DecodeAt(data, 18) == Ok(Decoded(Object([]), 9, 27))
    requires DecodeAt(data, 27) == Ok(Decoded(Int(5), 9, 36))
    ensures DecodeAt(data, 0) == Ok(Decoded(List([List([]), Object([]), Int(5)]), 36, 36))
  {
    var items := [List([]), Object([]), Int(5)];
    ListLoopStep(data, 9, 9, 18, [], List([]));
    ListLoopStep(data, 18, 9, 9, [List([])], Object([]));
    ListLoopStep(data, 27, 9, 0, [List([]), Object([])], Int(5));
    assert [] + [List([])] == [List([])] && [List([])] + [Object([])] == [List([]), Object([])];
    assert [List([]), Object([])] + [Int(5)] == items;
    assert ListLoop(data, 9, 27, []) == Ok((items, 36));
    assert DecodeList(data, 1) == Ok(Decoded(List(items), 36, 36));
  }

  /** Eight zero bytes are the size field of an empty body. */
  lemma ZeroSizeField()
    ensures UnpackU64(Zeros(8)) == 0
  {
    assert Zeros(8) == PackU64(0);
    U64RoundTrip(0);
  }

  /** A list or mapping tag followed by a zero size field, at pos, reads as
      the empty container in 9 bytes. */
  lemma {:induction false} EmptyFrameAt(data: seq<byte>, pos: nat, tag: byte)
    requires tag == LIST || tag == OBJECT
    requires At(data, pos, [tag] + Zeros(8))
    ensures DecodeAt(data, pos) == Ok(Decoded(if tag == LIST then List([]) else Object([]), 9, pos + 9))
  {
    AtTag(data, pos, tag, Zeros(8));
    AtSlice(data, pos + 1, Zeros(8));
    ZeroSizeField();
    assert UnpackU64(data[pos + 1..pos + 9]) == 0;
    if tag == LIST {
      assert DecodeList(data, pos + 1) == Ok(Decoded(List([]), 9, pos + 9));
    } else {
      assert DecodeObject(data, pos + 1) == Ok(Decoded(Object([]), 9, pos + 9));
    }
  }

  /** A list whose size field is zero reads as the empty list, whatever
      follows it. */
  lemma EmptyListPrefix(rest: seq<byte>)
    ensures DecodeAt([LIST] + Zeros(8) + rest, 0) == Ok(Decoded(List([]), 9, 9))
  {
    var data := [LIST] + Zeros(8) + rest;
    assert data[1..9] == Zeros(8) == PackU64(0);
    U64RoundTrip(0);
    assert DecodeList(data, 1) == Ok(Decoded(List([]), 9, 9));
  }

  /** Corrected: the error a list item raises is the list's error, so
      packing a list holding a mapping with a non-string key, such as
      `[{None: None}]`, fails with the key's TypeError. */
  lemma ListPassesKeyError(k: Value, x: Value)
    requires !k.Str?
    ensures Encode(List([Object([(k, x)])])) == Err(KeyNotStr)
  {
    var items := [Object([(k, x)])];
    var es := [(k, x)];
    assert es[..0] == [];
    NonStrKeyIsError(es, 0);
    assert items[..0] == [];
    assert WrittenItems(items).err == Some(KeyNotStr);
  }

  /** A mapping whose key i is a string that is not ASCII fails likewise. */
  lemma {:induction false} NonAsciiKeyIsError(entries: seq<(Value, Value)>, i: nat)
    requires i < |entries| && WrittenEntries(entries[..i]).err.None?
    requires entries[i].0.Str? && !IsAscii(entries[i].0.utf8)
    ensures Written(Object(entries))
         == Output([OBJECT] + Zeros(8) + WrittenEntries(entries[..i]).bytes, Some(KeyNotAscii))
  {
    BadKeyStops(entries, i, KeyNotAscii);
  }

  /** A byte string whose payload is cut short by the end of the stream is not
      an error: whatever part of the payload is there, k bytes of it, comes
      back, with the count of the full size. */
  lemma {:induction false} TruncatedBytesPayload(d: seq<byte>, k: nat)
    requires k < |d| < TWO_64
    ensures var b := [BYTES] + PackU64(|d|) + d;
            DecodeAt(b[..9 + k], 0) == Ok(Decoded(Bytes(d[..k]), |d| + 9, 9 + k))
  {
    var b := [BYTES] + PackU64(|d|) + d;
    var t := b[..9 + k];
    assert t == [BYTES] + PackU64(|d|) + d[..k];
    AtMiddle([BYTES], PackU64(|d|), d[..k]);
    AtSlice(t, 1, PackU64(|d|));
    U64RoundTrip(|d|);
    assert t[9..] == d[..k];
    assert t[0] == BYTES;
    assert ReadAt(t, 9, |d|) == d[..k];
    assert DecodeBytes(t, 1) == Ok(Decoded(Bytes(d[..k]), |d| + 9, 9 + k));
  }

  // ---------------------------------------------------------------------
  // Scenarios
  // ---------------------------------------------------------------------

  const ONE_TWO_THREE: seq<Value> := [Int(1), Int(2), Int(3)]

  /** `[1, 2, 3]` packs into 36 bytes whose size field says 27. */
  lemma ListOfThreeEncodes()
    ensures Encode(List(ONE_TWO_THREE)).Ok? && |Encode(List(ONE_TWO_THREE)).value| == 36
    ensures UnpackU64(Encode(List(ONE_TWO_THREE)).value[1..9]) == 27
  {
    var items := ONE_TWO_THREE;
    assert items[1..][1..][1..] == [];
    assert WrittenItems(items[1..][1..]).err.None?;
    assert WrittenItems(items[1..]).err.None?;
    assert WrittenItems(items).err.None?;
    ContainerFraming(List(items));
    assert ItemsSize(items[1..][1..]) == 9;
    assert ItemsSize(items) == 27;
  }

  /** `[1, 2, 3]` reads back as itself. */
  lemma ListOfThree()
    ensures Encode(List(ONE_TWO_THREE)).Ok?
    ensures DecodeAt(Encode(List(ONE_TWO_THREE)).value, 0) == Ok(Decoded(List(ONE_TWO_THREE), 36, 36))
  {
    ListOfThreeEncodes();
    var items := ONE_TWO_THREE;
    assert items[1..][1..][1..] == [];
    assert ItemsNulFree(items) && ItemsKeysExact(items);
    RoundTrip(List(items));
  }

  /** The sample mapping {"ID": 0, "NAME": "aspizu", "ADMN": True}. */
  const SAMPLE: seq<(Value, Value)> :=
    [(Str([73, 68]), Int(0)),
     (Str([78, 65, 77, 69]), Str([97, 115, 112, 105, 122, 117])),
     (Str([65, 68, 77, 78]), Bool(true))]

  /** The sample mapping packs into 39 bytes: tag, size, and a 30-byte body. */
  lemma SampleEncodes()
    ensures Encode(Object(SAMPLE)).Ok? && |Encode(Object(SAMPLE)).value| == 39
  {
    var es := SAMPLE;
    assert es[1..][1..][1..] == [];
    assert WrittenEntries(es[1..][1..]).err.None?;
    assert WrittenEntries(es[1..]).err.None?;
    assert WrittenEntries(es).err.None?;
    EntriesSizeIsLength(es);
    assert EntriesSize(es[1..][1..]) == 5;
    assert EntriesSize(es[1..]) == 17;
    assert EntriesSize(es) == 30;
  }

  /** Its keys are exact and distinct, and no string in it holds a zero byte. */
  lemma SampleRepresentable()
    ensures Representable(Object(SAMPLE))
  {
    var es := SAMPLE;
    assert es[1..][1..][1..] == [];
    assert EntriesNulFree(es) && EntriesKeysExact(es);
    assert es[0].0.utf8[0] != es[1].0.utf8[0] && es[1].0.utf8[0] != es[2].0.utf8[0] && es[0].0.utf8[0] != es[2].0.utf8[0];
    assert DistinctKeys(es);
  }

  /** The sample mapping reads back as itself. */
  lemma SampleRoundTrip()
    ensures Encode(Object(SAMPLE)).Ok?
    ensures DecodeAt(Encode(Object(SAMPLE)).value, 0) == Ok(Decoded(Object(SAMPLE), 39, 39))
  {
    SampleEncodes();
    SampleRepresentable();
    RoundTrip(Object(SAMPLE));
  }
}
