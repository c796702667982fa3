// pb_encode.c for statically allocated fields.  Every method sends the bytes of its function in
// Encoding to the stream, whether that stream has a buffer or only counts: the sizing pass and
// the writing pass cannot disagree.
module Encoder {
  import opened Options
  import opened Wire
  import opened WireFacts
  import opened Descriptor
  import opened Encoding
  import opened OutputStream

  // Every embedded message is shorter than 2^63 bytes, so that size_t does not wrap around.
  predicate Addressable(d: Desc, m: Message)
    decreases d, 0
  {
    forall i :: 0 <= i < |d.fields| ==> FieldAddressable(d.fields[i], SlotAt(m, d.fields[i]))
  }

  predicate FieldAddressable(f: Field, s: Slot)
    decreases f, 1
  {
    && ValueAddressable(f, ValueOf(f, s))
    && forall k :: 0 <= k < |EntriesOf(s)| ==> ValueAddressable(f, EntriesOf(s)[k])
  }

  predicate ValueAddressable(f: Field, v: Value)
    decreases f, 0
  {
    f.ltype.Submessage? ==>
      var m := AsMessage(f.sub, v);
      (EncodeMessage(f.sub, m).Some? ==> |EncodeMessage(f.sub, m).value| < TWO63) && Addressable(f.sub, m)
  }

  // pb_encode_fixed32 and pb_encode_fixed64.
  method EncFixed(stream: OStream, n: int, width: nat) returns (ok: bool)
    requires stream.Valid() && (width == 4 || width == 8)
    modifies stream, stream.buf
    ensures Emits(old(stream.Sink()), Some(EncodeFixed(n, width)), ok, stream.Sink())
  {
    var data: bytes := [n % 256, n / 0x100 % 256, n / 0x1_0000 % 256, n / 0x100_0000 % 256];
    if width == 8 {
      data := data + [n / 0x1_0000_0000 % 256, n / 0x100_0000_0000 % 256,
                      n / 0x1_0000_0000_0000 % 256, n / 0x100_0000_0000_0000 % 256];
    }
    FixedBytes(n, width);
    ok := stream.Write(data);
  }

  lemma FixedBytes(n: int, width: nat)
    ensures width == 4 ==> EncodeFixed(n, width) == [n % 256, n / 0x100 % 256, n / 0x1_0000 % 256, n / 0x100_0000 % 256]
    ensures width == 8 ==>
      EncodeFixed(n, width) == [n % 256, n / 0x100 % 256, n / 0x1_0000 % 256, n / 0x100_0000 % 256]
      + [n / 0x1_0000_0000 % 256, n / 0x100_0000_0000 % 256, n / 0x1_0000_0000_0000 % 256, n / 0x100_0000_0000_0000 % 256]
  {
    if width == 4 || width == 8 { FourLow(n, width); }
    if width == 8 {
      var high := n / 0x1_0000_0000;
      FourLow(high, width - 4);
      assert high / 0x100 == n / 0x100_0000_0000 && high / 0x1_0000 == n / 0x1_0000_0000_0000
        && high / 0x100_0000 == n / 0x100_0000_0000_0000;
    }
  }

  lemma FourLow(n: int, width: nat)
    requires width >= 4
    ensures EncodeFixed(n, width) ==
      [n % 256, n / 0x100 % 256, n / 0x1_0000 % 256, n / 0x100_0000 % 256] + EncodeFixed(n / 0x1_0000_0000, width - 4)
  {
    var n1 := n / 256; var n2 := n1 / 256; var n3 := n2 / 256;
    assert n2 == n / 0x1_0000 && n3 == n / 0x100_0000 && n3 / 256 == n / 0x1_0000_0000;
    assert EncodeFixed(n, width) == [n % 256] + ([n1 % 256] + EncodeFixed(n2, width - 2));
    assert EncodeFixed(n2, width - 2) == [n2 % 256] + ([n3 % 256] + EncodeFixed(n3 / 256, width - 4));
  }

  // The numeric part of PB_ENCODERS.
  method EncScalar(stream: OStream, f: Field, n: int) returns (ok: bool)
    requires stream.Valid()
    modifies stream, stream.buf
    ensures Emits(old(stream.Sink()), EncodeScalar(f, n), ok, stream.Sink())
  {
    if f.ltype.Bool? {
      var value := if n != 0 then 1 else 0;
      ok := stream.WriteVarint(value);
    } else if f.ltype.Fixed32? {
      ok := EncFixed(stream, n, 4);
    } else if f.ltype.Fixed64? {
      ok := EncFixed(stream, n, 8);
    } else if !VarintSize(f.dataSize) {
      ok := false;
    } else if f.ltype.Svarint? {
      var zigzagged := if n < 0 then -2 * n - 1 else 2 * n;
      ok := stream.WriteVarint(zigzagged % TWO64);
    } else {
      ok := stream.WriteVarint(n % TWO64);
    }
  }

  // pb_enc_string: the search for the terminator.
  method EncString(stream: OStream, f: Field, data: bytes) returns (ok: bool)
    requires stream.Valid() && WellFormedField(f)
    modifies stream, stream.buf
    ensures Emits(old(stream.Sink()), Some(EncodeDelimited(StringBytes(data, f.dataSize))), ok, stream.Sink())
  {
    var size := 0;
    while size < f.dataSize && size < |data| && data[size] != 0
      invariant 0 <= size <= f.dataSize && size <= |data|
      invariant CString(data) == data[..size] + CString(data[size..])
    {
      assert data[size..][1..] == data[size + 1..];
      assert data[..size + 1] == data[..size] + [data[size]];
      size := size + 1;
    }
    assert data[..size] == StringBytes(data, f.dataSize);
    hide CString, StringBytes, EncodeVarint, Emits;
    ok := stream.WriteString(data[..size]);
  }

  // PB_ENCODERS.
  method EncValue(stream: OStream, f: Field, v: Value) returns (ok: bool)
    requires stream.Valid() && WellFormedField(f) && ValueAddressable(f, v)
    modifies stream, stream.buf
    ensures Emits(old(stream.Sink()), EncodeValue(f, v), ok, stream.Sink())
    decreases f, 1
  {
    if f.ltype.Bytes? {
      if |DataOf(v)| > f.dataSize - SIZE_WIDTH { return false; }
      ok := stream.WriteString(DataOf(v));
    } else if f.ltype.String? {
      ok := EncString(stream, f, DataOf(v));
    } else if f.ltype.FixedLengthBytes? {
      ok := stream.WriteString(Exactly(DataOf(v), f.dataSize));
    } else if f.ltype.Submessage? {
      ok := EncodeSubmessage(stream, f.sub, AsMessage(f.sub, v));
    } else {
      ok := EncScalar(stream, f, NumberOf(v));
    }
  }

  // pb_encode_submessage: one pass to count, one to write.  The check "submsg size changed" at
  // the end never fires.
  method EncodeSubmessage(stream: OStream, d: Desc, m: Message) returns (ok: bool)
    requires stream.Valid() && WellFormed(d) && |m| == |d.fields|
    requires Addressable(d, m) && (EncodeMessage(d, m).Some? ==> |EncodeMessage(d, m).value| < TWO63)
    modifies stream, stream.buf
    ensures Emits(old(stream.Sink()), EncodeDelimitedMessage(d, m), ok, stream.Sink())
    decreases d, 3
  {
    hide EncodeMessage, EncodeVarint;
    ghost var s0 := stream.Sink();
    var counted, size := GetEncodedSize(d, m);
    if !counted { return false; }
    ghost var payload := EncodeMessage(d, m).value;
    assert size == |payload| && |payload| % TWO64 == size;
    assert EncodeDelimitedMessage(d, m) == Join(Some(EncodeVarint(size)), Some(payload));
    ok := stream.WriteVarint(size);
    ghost var s1 := stream.Sink();
    if !ok {
      EmitsNone(s0, Some(EncodeVarint(size)), s1, Some(payload));
      return;
    }
    if stream.buf == null {
      stream.Count(size);
      CountedSize(s1, size, Some(payload), stream.Sink());
      ok := true;
    } else {
      ok := EncodePayload(stream, d, m, size);
    }
    EmitsBoth(s0, Some(EncodeVarint(size)), s1, Some(payload), ok, stream.Sink());
  }

  // The writing pass: through a substream that is limited to the size of the first pass.
  method EncodePayload(stream: OStream, d: Desc, m: Message, size: nat) returns (ok: bool)
    requires stream.Valid() && stream.buf != null && WellFormed(d) && Addressable(d, m)
    requires EncodeMessage(d, m).Some? && size == |EncodeMessage(d, m).value| < TWO63
    modifies stream, stream.buf
    ensures Emits(old(stream.Sink()), EncodeMessage(d, m), ok, stream.Sink())
    decreases d, 2
  {
    hide EncodeMessage, EncodeFields;
    ghost var s1, payload := stream.Sink(), EncodeMessage(d, m).value;
    assert stream.bytesWritten + size < TWO64;
    if (stream.bytesWritten + size) % TWO64 > stream.maxSize { return false; }
    var sub := new OStream(stream.buf, stream.pos, size);
    ok := Encode(sub, d, m);
    stream.bytesWritten := stream.bytesWritten + sub.bytesWritten;
    stream.pos := sub.pos;
    SubstreamEmits(s1, payload, ok, sub.Sink(), stream.Sink());
    if sub.bytesWritten != size { return false; }
  }

  // A substream of just the right size takes the payload and is full then, and what is written
  // through it is written to the stream.
  lemma SubstreamEmits(s: Sink, payload: bytes, ok: bool, sub: Sink, s': Sink)
    requires s.Buffer? && s.Valid() && s.written + |payload| <= s.maxSize
    requires Emits(Buffer(s.data, s.pos, |payload|, 0), Some(payload), ok, sub)
    requires s' == Buffer(sub.data, sub.pos, s.maxSize, s.written + sub.written)
    ensures ok && sub.written == |payload| && Emits(s, Some(payload), true, s')
  {
    var limit := s.Limit();
    assert s'.data[limit..] == s.data[s.pos + |payload|..][limit - s.pos - |payload|..] == s.data[limit..];
  }

  // A tag and its value.
  method EncTagged(stream: OStream, f: Field, v: Value) returns (ok: bool)
    requires stream.Valid() && WellFormedField(f) && ValueAddressable(f, v)
    modifies stream, stream.buf
    ensures Emits(old(stream.Sink()), EncodeTagged(f, v), ok, stream.Sink())
    decreases f, 2
  {
    ghost var s0 := stream.Sink();
    ghost var tag := Some(EncodeTag(f.tag, WireTypeOf(f.ltype)));
    ok := stream.WriteTag(WireTypeOf(f.ltype), f.tag);
    ghost var s1 := stream.Sink();
    if !ok {
      EmitsNone(s0, tag, s1, EncodeValue(f, v));
      return;
    }
    ok := EncValue(stream, f, v);
    EmitsBoth(s0, tag, s1, EncodeValue(f, v), ok, stream.Sink());
  }

  // The loop over the data of a packed array, to write it or to count it.
  method EncPacked(stream: OStream, f: Field, entries: seq<Value>) returns (ok: bool)
    requires stream.Valid()
    modifies stream, stream.buf
    ensures Emits(old(stream.Sink()), EncodePacked(f, entries), ok, stream.Sink())
  {
    ghost var s0, done: Option<bytes> := stream.Sink(), Some([]);
    EmitsNothing(s0);
    JoinEmpty(EncodePacked(f, entries));
    var i := 0;
    assert entries[i..] == entries;
    while i < |entries|
      invariant 0 <= i <= |entries| && Emits(s0, done, true, stream.Sink())
      invariant EncodePacked(f, entries) == Join(done, EncodePacked(f, entries[i..]))
    {
      ghost var s1, e, more := stream.Sink(), EncodeScalar(f, NumberOf(entries[i])), EncodePacked(f, entries[i + 1..]);
      assert entries[i..][0] == entries[i] && entries[i..][1..] == entries[i + 1..];
      ok := EncScalar(stream, f, NumberOf(entries[i]));
      EmitsPart(s0, done, s1, e, ok, stream.Sink(), more);
      if !ok { return; }
      done := Join(done, e);
      i := i + 1;
    }
    JoinEmpty(done);
    return true;
  }

  lemma {:induction false} FixedPackedLength(f: Field, entries: seq<Value>)
    requires f.ltype.Fixed32? || f.ltype.Fixed64?
    ensures EncodePacked(f, entries).Some? && |EncodePacked(f, entries).value| == FixedWidth(f.ltype) * |entries|
    decreases |entries|
  {
    if entries != [] { FixedPackedLength(f, entries[1..]); }
  }

  // The size of a packed array: known for fixed-width numbers, counted otherwise.
  method PackedSize(f: Field, entries: seq<Value>) returns (ok: bool, size: nat)
    ensures ok == EncodePacked(f, entries).Some?
    ensures ok ==> size % TWO64 == |EncodePacked(f, entries).value| % TWO64
  {
    if f.ltype.Fixed32? {
      FixedPackedLength(f, entries);
      return true, 4 * |entries|;
    }
    if f.ltype.Fixed64? {
      FixedPackedLength(f, entries);
      return true, 8 * |entries|;
    }
    var sizing := new OStream(null, 0, 0);
    ok := EncPacked(sizing, f, entries);
    size := sizing.bytesWritten;
  }

  // The loop over the entries of an array that is not packed.
  method EncEntries(stream: OStream, f: Field, entries: seq<Value>) returns (ok: bool)
    requires stream.Valid() && WellFormedField(f)
    requires forall k :: 0 <= k < |entries| ==> ValueAddressable(f, entries[k])
    modifies stream, stream.buf
    ensures Emits(old(stream.Sink()), EncodeEntries(f, entries), ok, stream.Sink())
    decreases f, 3
  {
    ghost var s0, done: Option<bytes> := stream.Sink(), Some([]);
    EmitsNothing(s0);
    JoinEmpty(EncodeEntries(f, entries));
    var i := 0;
    assert entries[i..] == entries;
    while i < |entries|
      invariant 0 <= i <= |entries| && Emits(s0, done, true, stream.Sink())
      invariant EncodeEntries(f, entries) == Join(done, EncodeEntries(f, entries[i..]))
    {
      ghost var s1, e, more := stream.Sink(), EncodeTagged(f, entries[i]), EncodeEntries(f, entries[i + 1..]);
      assert entries[i..][0] == entries[i] && entries[i..][1..] == entries[i + 1..];
      ok := EncTagged(stream, f, entries[i]);
      EmitsPart(s0, done, s1, e, ok, stream.Sink(), more);
      if !ok { return; }
      done := Join(done, e);
      i := i + 1;
    }
    JoinEmpty(done);
    return true;
  }

  // encode_array.
  method EncArray(stream: OStream, f: Field, entries: seq<Value>) returns (ok: bool)
    requires stream.Valid() && WellFormedField(f)
    requires forall k :: 0 <= k < |entries| ==> ValueAddressable(f, entries[k])
    modifies stream, stream.buf
    ensures Emits(old(stream.Sink()), EncodeArray(f, entries), ok, stream.Sink())
    decreases f, 4
  {
    hide EncodePacked, EncodeVarint, EncodeEntries, EncodeTag;
    ghost var s0 := stream.Sink();
    if entries == [] {
      EmitsNothing(s0);
      return true;
    }
    if |entries| > f.arraySize { return false; }
    if !Packable(f.ltype) {
      ok := EncEntries(stream, f, entries);
      return;
    }
    ghost var tag, payload := Some(EncodeTag(f.tag, WT_STRING)), EncodePacked(f, entries);
    ok := stream.WriteTag(WT_STRING, f.tag);
    ghost var s1 := stream.Sink();
    if !ok { return; }
    var counted, size := PackedSize(f, entries);
    if !counted { return false; }
    ghost var length := Some(EncodeVarint(|payload.value| % TWO64));
    ok := stream.WriteVarint(size % TWO64);
    ghost var s2 := stream.Sink();
    EmitsBoth(s0, tag, s1, length, ok, s2);
    ghost var head := Join(tag, length);
    assert EncodeArray(f, entries) == Join(head, payload) by {
      assert tag.value + (length.value + payload.value) == (tag.value + length.value) + payload.value;
    }
    if !ok {
      EmitsNone(s0, head, s2, payload);
      return;
    }
    if stream.buf == null {
      stream.Count(size);
      CountedSize(s2, size, payload, stream.Sink());
      EmitsBoth(s0, head, s2, payload, true, stream.Sink());
      return true;
    }
    ok := EncPacked(stream, f, entries);
    EmitsBoth(s0, head, s2, payload, ok, stream.Sink());
  }

  lemma CountedSize(s: Sink, size: nat, payload: Option<bytes>, s': Sink)
    requires s.Sizing? && payload.Some? && size % TWO64 == |payload.value| % TWO64
    requires s' == Sizing((s.written + size) % TWO64)
    ensures Emits(s, payload, true, s')
  {
    ModSum(0, size, s.written);
    ModSum(0, |payload.value|, s.written);
  }

  // encode_basic_field.
  method EncField(stream: OStream, f: Field, s: Slot) returns (ok: bool)
    requires stream.Valid() && WellFormedField(f) && FieldAddressable(f, s)
    modifies stream, stream.buf
    ensures Emits(old(stream.Sink()), EncodeField(f, s), ok, stream.Sink())
    decreases f, 5
  {
    ghost var s0 := stream.Sink();
    EmitsNothing(s0);
    match f.htype
    case Required => ok := EncTagged(stream, f, ValueOf(f, s));
    case Optional =>
      var has := if f.sizeOffset != 0 then s.Maybe? && s.has else !IsDefault(f, s);
      ok := true;
      if has { ok := EncTagged(stream, f, ValueOf(f, s)); }
    case Repeated => ok := EncArray(stream, f, EntriesOf(s));
    case Oneof =>
      ok := true;
      if WhichOf(s) == f.tag { ok := EncTagged(stream, f, ValueOf(f, s)); }
  }

  // pb_encode.
  method Encode(stream: OStream, d: Desc, m: Message) returns (ok: bool)
    requires stream.Valid() && WellFormed(d) && Addressable(d, m)
    modifies stream, stream.buf
    ensures Emits(old(stream.Sink()), EncodeMessage(d, m), ok, stream.Sink())
    decreases d, 1
  {
    ghost var s0, done: Option<bytes> := stream.Sink(), Some([]);
    EmitsNothing(s0);
    JoinEmpty(EncodeMessage(d, m));
    var i := 0;
    while i < |d.fields|
      invariant 0 <= i <= |d.fields| && Emits(s0, done, true, stream.Sink())
      invariant EncodeMessage(d, m) == Join(done, EncodeFields(d, m, i))
    {
      var f := d.fields[i];
      ghost var s1, e, more := stream.Sink(), EncodeField(f, SlotAt(m, f)), EncodeFields(d, m, i + 1);
      ok := EncField(stream, f, SlotAt(m, f));
      EmitsPart(s0, done, s1, e, ok, stream.Sink(), more);
      if !ok { return; }
      done := Join(done, e);
      i := i + 1;
    }
    JoinEmpty(done);
    return true;
  }

  // pb_get_encoded_size.
  method GetEncodedSize(d: Desc, m: Message) returns (ok: bool, size: nat)
    requires WellFormed(d) && Addressable(d, m)
    ensures ok == EncodeMessage(d, m).Some?
    ensures ok ==> size == |EncodeMessage(d, m).value| % TWO64
    decreases d, 2
  {
    var stream := new OStream(null, 0, 0);
    ok := Encode(stream, d, m);
    size := stream.bytesWritten;
  }

  lemma Fits(s: Sink, e: Option<bytes>, ok: bool, s': Sink, size: nat)
    requires s.Buffer? && s.Valid() && Emits(s, e, ok, s') && (e.Some? ==> size == |e.value| < TWO64)
    ensures ok <==> e.Some? && size <= s.maxSize - s.written
    ensures ok ==> s'.written == s.written + size && s'.pos == s.pos + size
    ensures ok ==> s.pos + size <= |s.data| && s'.data == s.data[..s.pos] + e.value + s.data[s.pos..][size..]
  {
    if ok { assert s.data[s.pos..][size..] == s.data[s.pos + size..]; }
  }

  // The sizing pass and then the writing pass: it succeeds exactly when the message can be encoded and
  // the counted size fits what is free in the buffer, and then exactly so many bytes of the encoding
  // are written, and no others.
  method MeasureAndEncode(stream: OStream, d: Desc, m: Message) returns (counted: bool, size: nat, ok: bool)
    requires stream.Valid() && stream.buf != null && WellFormed(d) && Addressable(d, m)
    requires EncodeMessage(d, m).Some? ==> |EncodeMessage(d, m).value| < TWO64
    modifies stream, stream.buf
    ensures stream.Valid() && counted == EncodeMessage(d, m).Some?
    ensures ok <==> counted && size <= old(stream.maxSize) - old(stream.bytesWritten)
    ensures var s, s' := old(stream.Sink()), stream.Sink();
            ok ==> s'.written == s.written + size && s'.pos == s.pos + size
                   && s.pos + size <= |s.data| && s'.data == s.data[..s.pos] + EncodeMessage(d, m).value + s.data[s.pos..][size..]
    ensures Emits(old(stream.Sink()), EncodeMessage(d, m), ok, stream.Sink())
  {
    hide Emits, EncodeMessage, Addressable, WellFormed;
    counted, size := GetEncodedSize(d, m);
    ghost var s := stream.Sink();
    ok := Encode(stream, d, m);
    Fits(s, EncodeMessage(d, m), ok, stream.Sink(), size);
  }
}
