// pb_ostream_t: a buffer with a limit, or a null callback that only counts.
module OutputStream {
  import opened Options
  import opened Wire
  import opened WireFacts
  import opened Encoding

  // What can be observed of an output stream.
  datatype Sink =
    | Sizing(written: nat)
    | Buffer(data: bytes, pos: nat, maxSize: nat, written: nat)
  {
    ghost predicate Valid()
    {
      match this
      case Sizing(w) => w < TWO64
      case Buffer(d, p, m, w) => w <= m < TWO63 && p + (m - w) <= |d|
    }

    // Where the buffer's limit is.
    ghost function Limit(): int requires Buffer? { pos + maxSize - written }
  }

  // From s the encoding e is sent to the stream, which returns ok and becomes s'.  A counting
  // stream fails only when there is no encoding; a buffer also when it has no room for it, and it
  // is never written outside its limits.
  ghost predicate Emits(s: Sink, e: Option<bytes>, ok: bool, s': Sink)
  {
    s'.Valid() &&
    match s
    case Sizing(w) =>
      && s'.Sizing?
      && ok == e.Some?
      && (ok ==> s'.written == (w + |e.value|) % TWO64)
    case Buffer(data, pos, maxSize, w) =>
      && s'.Buffer? && |s'.data| == |data| && s'.maxSize == maxSize
      && 0 <= pos <= s.Limit() <= |data|
      && s'.data[..pos] == data[..pos] && s'.data[s.Limit()..] == data[s.Limit()..]
      && ok == (e.Some? && w + |e.value| <= maxSize)
      && (ok ==>
            && s'.written == w + |e.value| && s'.pos == pos + |e.value|
            && s'.data == data[..pos] + e.value + data[pos + |e.value|..])
  }

  // One encoding after another is the two joined.
  lemma EmitsBoth(s: Sink, a: Option<bytes>, s1: Sink, b: Option<bytes>, ok: bool, s2: Sink)
    requires s.Valid() && Emits(s, a, true, s1) && Emits(s1, b, ok, s2)
    ensures Emits(s, Join(a, b), ok, s2)
  {
    if s.Sizing? {
      if ok { ModSum(s.written, |a.value|, |b.value|); }
    } else {
      var limit := s.Limit();
      assert s1.Limit() == limit;
      assert s2.data[..s.pos] == s2.data[..s1.pos][..s.pos] == s1.data[..s1.pos][..s.pos] == s1.data[..s.pos];
      if ok {
        assert s1.data[..s1.pos] == s.data[..s.pos] + a.value;
        assert s1.data[s1.pos + |b.value|..] == s.data[s1.pos + |b.value|..];
        assert s2.data == s.data[..s.pos] + (a.value + b.value) + s.data[s1.pos + |b.value|..];
      }
    }
  }

  lemma ModSum(w: nat, a: nat, b: nat)
    ensures ((w + a) % TWO64 + b) % TWO64 == (w + (a + b)) % TWO64
  {
    var q := (w + a) / TWO64;
    assert w + a == q * TWO64 + (w + a) % TWO64;
    assert w + (a + b) == q * TWO64 + ((w + a) % TWO64 + b);
    ModMultiple((w + a) % TWO64 + b, q);
  }

  lemma ModMultiple(x: nat, q: nat)
    ensures (q * TWO64 + x) % TWO64 == x % TWO64
  {
    assert x == x / TWO64 * TWO64 + x % TWO64;
    assert q * TWO64 + x == (q + x / TWO64) * TWO64 + x % TWO64;
  }

  // When the first part fails, the whole fails.
  lemma EmitsNone(s: Sink, a: Option<bytes>, s1: Sink, b: Option<bytes>)
    requires s.Valid() && Emits(s, a, false, s1)
    ensures Emits(s, Join(a, b), false, s1)
  {}

  // One more part of an encoding that is sent in parts: `done` before, `more` to come.
  lemma EmitsPart(s: Sink, done: Option<bytes>, s1: Sink, e: Option<bytes>, ok: bool, s2: Sink, more: Option<bytes>)
    requires s.Valid() && Emits(s, done, true, s1) && Emits(s1, e, ok, s2)
    ensures Join(done, Join(e, more)) == Join(Join(done, e), more)
    ensures if ok then Emits(s, Join(done, e), true, s2) else Emits(s, Join(done, Join(e, more)), false, s2)
  {
    EmitsBoth(s, done, s1, e, ok, s2);
    JoinAssociative(done, e, more);
    if !ok { EmitsNone(s, Join(done, e), s2, more); }
  }

  lemma JoinEmpty(a: Option<bytes>)
    ensures Join(a, Some([])) == a && Join(Some([]), a) == a
  {
    if a.Some? { assert a.value + [] == a.value && [] + a.value == a.value; }
  }

  lemma JoinAssociative(a: Option<bytes>, b: Option<bytes>, c: Option<bytes>)
    ensures Join(Join(a, b), c) == Join(a, Join(b, c))
  {
    if a.Some? && b.Some? && c.Some? { assert (a.value + b.value) + c.value == a.value + (b.value + c.value); }
  }

  lemma EmitsNothing(s: Sink)
    requires s.Valid()
    ensures Emits(s, Some([]), true, s)
  {
    if s.Buffer? { assert s.data == s.data[..s.pos] + [] + s.data[s.pos..]; }
  }

  // The sizing pass and the writing pass: a buffer takes the encoding exactly when the counted
  // size fits what is free, and then exactly that many bytes are written.
  lemma PassesAgree(e: Option<bytes>, counted: bool, c: Sink, s: Sink, ok: bool, s': Sink)
    requires Emits(Sizing(0), e, counted, c) && (e.Some? ==> |e.value| < TWO64)
    requires s.Buffer? && s.Valid() && Emits(s, e, ok, s')
    ensures ok <==> counted && c.written <= s.maxSize - s.written
    ensures ok ==> s'.written - s.written == c.written == s'.pos - s.pos
  {}

  lemma VarintStep(v: nat)
    requires v > 0
    ensures EncodeVarint(v) == if v < 128 then [v] else [v % 128 + 128] + EncodeVarint(v / 128)
    ensures v < 128 <==> v / 128 == 0
  {}

  class OStream {
    const buf: array?<byte>  // null: PB_OSTREAM_SIZING
    var pos: nat             // state
    var maxSize: nat
    var bytesWritten: nat

    ghost function Sink(): Sink
      reads this, buf
    {
      if buf == null then Sizing(bytesWritten) else Buffer(buf[..], pos, maxSize, bytesWritten)
    }

    ghost predicate Valid()
      reads this, buf
    {
      Sink().Valid()
    }

    // pb_ostream_from_buffer, PB_OSTREAM_SIZING, and the substream of pb_encode_submessage.
    constructor (buf: array?<byte>, pos: nat, maxSize: nat)
      ensures this.buf == buf && this.pos == pos && this.maxSize == maxSize && bytesWritten == 0
    {
      this.buf, this.pos, this.maxSize, this.bytesWritten := buf, pos, maxSize, 0;
    }

    // pb_write.
    method Write(bs: bytes) returns (ok: bool)
      requires Valid() && |bs| < TWO63
      modifies this, buf
      ensures Emits(old(Sink()), Some(bs), ok, Sink())
    {
      ghost var before := Sink();
      if |bs| > 0 && buf != null {
        if (bytesWritten + |bs|) % TWO64 < bytesWritten || (bytesWritten + |bs|) % TWO64 > maxSize { return false; }
        CopyIn(bs);
      }
      bytesWritten := (bytesWritten + |bs|) % TWO64;
      if bs == [] { EmitsNothing(before); }
      return true;
    }

    // buf_write.
    method CopyIn(bs: bytes)
      requires buf != null && pos + |bs| <= buf.Length
      modifies this`pos, buf
      ensures pos == old(pos) + |bs|
      ensures buf[..] == old(buf[..pos]) + bs + old(buf[pos + |bs|..])
    {
      var i := 0;
      while i < |bs|
        invariant 0 <= i <= |bs| && pos == old(pos)
        invariant buf[..] == old(buf[..pos]) + bs[..i] + old(buf[pos + i..])
      {
        buf[pos + i] := bs[i];
        i := i + 1;
      }
      pos := pos + |bs|;
    }

    // pb_write with a null source, for a stream that only counts.
    method Count(size: nat)
      requires Valid() && buf == null
      modifies this
      ensures Sink() == Sizing((old(bytesWritten) + size) % TWO64)
    {
      bytesWritten := (bytesWritten + size) % TWO64;
    }

    // pb_encode_varint.
    method WriteVarint(value: nat) returns (ok: bool)
      requires Valid() && value < TWO64
      modifies this, buf
      ensures Emits(old(Sink()), Some(EncodeVarint(value)), ok, Sink())
    {
      if value <= 0x7F {
        ok := Write([value]);
        return;
      }
      var buffer := VarintBytes(value);
      ok := Write(buffer);
    }

    // The local buffer of pb_encode_varint.
    static method VarintBytes(value: nat) returns (bs: bytes)
      requires 0 < value < TWO64
      ensures bs == EncodeVarint(value) && |bs| <= 10
    {
      hide EncodeVarint;
      VarintRoundTrip(value, []);
      assert [] + EncodeVarint(value) == EncodeVarint(value);
      var buffer := new byte[10](j => 0);
      var i, v: nat := 0, value;
      while v != 0
        invariant 0 <= i <= 10 && (v == 0 ==> i > 0)
        invariant v != 0 ==> EncodeVarint(value) == buffer[..i] + EncodeVarint(v)
        invariant v == 0 ==> buffer[i - 1] >= 128 && EncodeVarint(value) == buffer[..i - 1] + [buffer[i - 1] % 128]
      {
        ghost var done := buffer[..i];
        buffer[i] := v % 128 + 128;
        assert buffer[..i + 1] == done + [v % 128 + 128] && buffer[..i] == done;
        VarintStep(v);
        v := v / 128;
        i := i + 1;
      }
      buffer[i - 1] := buffer[i - 1] % 128;
      assert buffer[..i] == buffer[..i - 1] + [buffer[i - 1]];
      bs := buffer[..i];
    }

    // pb_encode_tag.
    method WriteTag(wireType: WireType, fieldNumber: nat) returns (ok: bool)
      requires Valid() && fieldNumber < TWO32
      modifies this, buf
      ensures Emits(old(Sink()), Some(EncodeTag(fieldNumber, wireType)), ok, Sink())
    {
      ok := WriteVarint(fieldNumber * 8 + wireType);
    }

    // pb_encode_string.
    method WriteString(data: bytes) returns (ok: bool)
      requires Valid() && |data| < TWO63
      modifies this, buf
      ensures Emits(old(Sink()), Some(EncodeDelimited(data)), ok, Sink())
    {
      ghost var s0 := Sink();
      ok := WriteVarint(|data|);
      ghost var s1 := Sink();
      if !ok {
        EmitsNone(s0, Some(EncodeVarint(|data|)), s1, Some(data));
        return;
      }
      ok := Write(data);
      EmitsBoth(s0, Some(EncodeVarint(|data|)), s1, Some(data), ok, Sink());
    }
  }
}
