// pb_istream_t over a memory buffer, with the readers of pb_decode.c that do not depend on a
// field table.  Each method computes its specification function in Wire on what is left of the
// stream, and moves `pos` and `left` in step.
module InputStream {
  import opened Wire
  import opened WireFacts

  class IStream {
    const buf: array<byte>
    var pos: nat   // state
    var left: nat  // bytes_left

    ghost predicate Valid()
      reads this
    {
      pos + left <= buf.Length
    }

    ghost function Remaining(): (bs: bytes)
      requires Valid()
      reads this, buf
      ensures |bs| == left
    {
      buf[pos..pos + left]
    }

    // Where the stream ends in the buffer.
    ghost function End(): nat
      reads this
    {
      pos + left
    }

    // pb_istream_from_buffer, and the struct copy that makes a substream.
    constructor (buf: array<byte>, pos: nat, left: nat)
      requires pos + left <= buf.Length
      ensures this.buf == buf && this.pos == pos && this.left == left
    {
      this.buf, this.pos, this.left := buf, pos, left;
    }

    // pb_read.  A read to a null destination drops the data.
    method ReadBytes(count: nat) returns (ok: bool, data: bytes)
      requires Valid()
      modifies this
      ensures Valid() && End() == old(End())
      ensures ok == Take(old(Remaining()), count).Read?
      ensures ok ==> data == Take(old(Remaining()), count).value && Remaining() == Take(old(Remaining()), count).rest
      ensures !ok ==> left == old(left)
    {
      data := [];
      if left < count { return false, data; }
      data := buf[pos..pos + count];
      pos := pos + count;
      left := left - count;
      return true, data;
    }

    // pb_readbyte.
    method ReadByte() returns (ok: bool, b: byte)
      requires Valid()
      modifies this
      ensures Valid() && End() == old(End())
      ensures ok == (old(left) > 0)
      ensures !ok ==> left == old(left)
      ensures ok ==> b == old(Remaining())[0] && Remaining() == old(Remaining())[1..] && left == old(left) - 1
    {
      b := 0;
      if left == 0 { return false, b; }
      b := buf[pos];
      pos := pos + 1;
      left := left - 1;
      return true, b;
    }

    // pb_decode_varint32_eof.
    method ReadVarint32Eof() returns (ok: bool, value: nat, eof: bool)
      requires Valid()
      modifies this
      ensures Valid() && End() == old(End())
      ensures ok == DecodeVarint32(old(Remaining())).Read?
      ensures ok ==> value == DecodeVarint32(old(Remaining())).value
      ensures ok ==> Remaining() == DecodeVarint32(old(Remaining())).rest && left < old(left)
      ensures eof <==> old(left) == 0
    {
      value, eof := 0, false;
      var b;
      ok, b := ReadByte();
      if !ok {
        if left == 0 { eof := true; }
        return;
      }
      if b < 128 {
        value := b;
        return;
      }
      var bitpos: nat := 7;
      var result: nat := b % 128;
      var more := true;  // do-while
      while more
        invariant Valid() && End() == old(End()) && left < old(left)
        invariant more ==> DecodeVarint32(old(Remaining())) == Varint32Loop(Remaining(), result, bitpos)
        invariant !more ==>
          DecodeVarint32(old(Remaining())) == (if bitpos == 35 && b / 16 % 8 != 0 then Fail else Read(result, Remaining()))
        decreases left
      {
        ok, b := ReadByte();
        if !ok { return; }
        if bitpos >= 32 {
          var signExtension := if bitpos < 63 then 0xFF else 0x01;
          if b % 128 != 0 && (result / TWO31 == 0 || b != signExtension) { return false, 0, false; }
        } else {
          result := BitOr(result, Shl(b % 128, bitpos) % TWO32);
        }
        bitpos := (bitpos + 7) % 256;
        more := b >= 128;
      }
      if bitpos == 35 && b / 16 % 8 != 0 { return false, 0, false; }
      return true, result, false;
    }

    // pb_decode_varint.
    method ReadVarint() returns (ok: bool, value: nat)
      requires Valid()
      modifies this
      ensures Valid() && End() == old(End())
      ensures ok == DecodeVarint(old(Remaining())).Read?
      ensures ok ==> value == DecodeVarint(old(Remaining())).value
      ensures ok ==> Remaining() == DecodeVarint(old(Remaining())).rest && left < old(left)
    {
      hide BitOr, Shl;
      hide VarintDigits;
      var bitpos: nat, result: nat := 0, 0;
      value := 0;
      ghost var all := Remaining();
      ghost var full: nat := 0;
      ShlZero(1);
      if VarintDigits(all, 0).Read? { ShlZero(VarintDigits(all, 0).value); }
      var more := true;  // do-while
      while more
        invariant Valid() && End() == old(End()) && left <= old(left)
        invariant 0 <= bitpos <= 70 && bitpos % 7 == 0 && full < Shl(1, bitpos) && result == full % TWO64
        invariant more ==> VarintDigits(all, 0) == Shifted(VarintDigits(Remaining(), bitpos), full, bitpos)
        invariant !more ==> VarintDigits(all, 0) == Read(full, Remaining()) && left < old(left)
        decreases left
      {
        NoMoreDigits(Remaining(), bitpos);
        if bitpos >= 64 { return false, 0; }
        var b;
        ghost var here := Remaining();
        ok, b := ReadByte();
        assert ok ==> here == [b] + Remaining();
        if !ok { return false, 0; }
        OrIn64(full, b % 128, bitpos);
        DigitBelow(full, b % 128, bitpos);
        DigitsStep(b, Remaining(), full, bitpos);
        result := BitOr(result, Shl(b % 128, bitpos) % TWO64);
        full := full + Shl(b % 128, bitpos);
        bitpos := bitpos + 7;
        more := b >= 128;
      }
      return true, result;
    }

    // pb_decode_varint32.
    method ReadVarint32() returns (ok: bool, value: nat)
      requires Valid()
      modifies this
      ensures Valid() && End() == old(End())
      ensures ok == DecodeVarint32(old(Remaining())).Read?
      ensures ok ==> value == DecodeVarint32(old(Remaining())).value
      ensures ok ==> Remaining() == DecodeVarint32(old(Remaining())).rest && left < old(left)
    {
      var eof;
      ok, value, eof := ReadVarint32Eof();
    }

    // pb_skip_varint.
    method SkipOverVarint() returns (ok: bool)
      requires Valid()
      modifies this
      ensures Valid() && End() == old(End())
      ensures ok == SkipVarint(old(Remaining())).Read?
      ensures ok ==> Remaining() == SkipVarint(old(Remaining())).rest
    {
      var more := true;  // do-while
      while more
        invariant Valid() && End() == old(End())
        invariant more ==> SkipVarint(old(Remaining())) == SkipVarint(Remaining())
        invariant !more ==> SkipVarint(old(Remaining())) == Read((), Remaining())
        decreases left
      {
        var b;
        ok, b := ReadByte();
        if !ok { return; }
        more := b >= 128;
      }
      return true;
    }

    // pb_skip_string.
    method SkipOverString() returns (ok: bool)
      requires Valid()
      modifies this
      ensures Valid() && End() == old(End())
      ensures ok == LengthDelimited(old(Remaining())).Read?
      ensures ok ==> Remaining() == LengthDelimited(old(Remaining())).rest
    {
      var length, data;
      ok, length := ReadVarint32();
      if !ok { return; }
      ok, data := ReadBytes(length);
    }

    // pb_skip_field.
    method SkipOverField(wireType: WireType) returns (ok: bool)
      requires Valid()
      modifies this
      ensures Valid() && End() == old(End())
      ensures ok == SkipField(wireType, old(Remaining())).Read?
      ensures ok ==> Remaining() == SkipField(wireType, old(Remaining())).rest
    {
      var data;
      match wireType
      case 0 => ok := SkipOverVarint();
      case 1 => ok, data := ReadBytes(8);
      case 2 => ok := SkipOverString();
      case 5 => ok, data := ReadBytes(4);
      case _ => ok := false;
    }

    // pb_decode_tag.
    method ReadTag() returns (ok: bool, wireType: WireType, tag: nat, eof: bool)
      requires Valid()
      modifies this
      ensures Valid() && End() == old(End())
      ensures old(left) > 0 ==>
        match DecodeTag(old(Remaining()))
        case TagFail => !ok && !eof
        case TagZero(rest) => !ok && eof && Remaining() == rest
        case Tag(t, w, rest) => ok && tag == t && wireType == w && Remaining() == rest && left < old(left)
      ensures old(left) == 0 ==> !ok && eof
    {
      wireType, tag := 0, 0;
      var temp;
      ok, temp, eof := ReadVarint32Eof();
      if !ok { return; }
      if temp == 0 {
        eof := true;  // zero-terminated messages
        ok := false;
        return;
      }
      tag := temp / 8;
      wireType := temp % 8;
    }

    // pb_make_string_substream.  Until the substream is closed the stream's cursor stays in front
    // of the payload, while its bytes_left no longer counts it.
    method MakeStringSubstream() returns (ok: bool, sub: IStream)
      requires Valid()
      modifies this
      ensures Valid() && End() <= old(End())
      ensures fresh(sub)
      ensures ok == LengthDelimited(old(Remaining())).Read?
      ensures ok ==> sub.buf == buf && sub.pos == pos && sub.Valid() && Borrowed(sub)
      ensures ok ==> sub.Remaining() == LengthDelimited(old(Remaining())).value && sub.left < old(left)
      ensures ok ==> buf[sub.End()..sub.End() + left] == LengthDelimited(old(Remaining())).rest
      ensures ok ==> sub.End() + left == old(End())
    {
      hide DecodeVarint32;
      var size;
      ok, size := ReadVarint32();
      sub := new IStream(buf, pos, left);
      if !ok { return; }
      if sub.left < size { return false, sub; }
      ghost var here := Remaining();
      sub.left := size;
      left := left - size;
      assert here[..size] == sub.Remaining();
      assert here[size..] == buf[sub.End()..sub.End() + left];
    }

    // The substream's payload is followed by what is left of this stream.
    ghost predicate Borrowed(sub: IStream)
      reads this, sub
    {
      sub.buf == buf && sub.End() + left <= buf.Length
    }

    // pb_close_string_substream: whatever was left of the payload is skipped.  However much of
    // the payload has been read, the stream goes on behind it.
    method CloseStringSubstream(sub: IStream)
      requires sub != this && sub.Valid() && Borrowed(sub)
      modifies this, sub
      ensures Valid() && left == old(left) && pos == old(sub.End()) && sub.left == 0
      ensures Remaining() == old(buf[sub.End()..sub.End() + left])
    {
      if sub.left > 0 {
        var ok, data := sub.ReadBytes(sub.left);
      }
      pos := sub.pos;
    }
  }

  // The digits from bitpos on, in their place above `full`.
  function Shifted(r: Read<nat>, full: nat, bitpos: nat): Read<nat>
  {
    match r case Fail => Fail case Read(high, rest) => Read(full + Shl(high, bitpos), rest)
  }

  lemma NoMoreDigits(bs: bytes, bitpos: nat)
    ensures bitpos >= 64 || bs == [] ==> VarintDigits(bs, bitpos) == Fail
  {
  }

  lemma DigitsStep(b: byte, rest: bytes, full: nat, bitpos: nat)
    requires bitpos < 64
    ensures Shifted(VarintDigits([b] + rest, bitpos), full, bitpos)
         == if b < 128 then Read(full + Shl(b % 128, bitpos), rest)
            else Shifted(VarintDigits(rest, bitpos + 7), full + Shl(b % 128, bitpos), bitpos + 7)
  {
    assert ([b] + rest)[1..] == rest;
    if VarintDigits(rest, bitpos + 7).Read? {
      DigitsAt(b % 128, VarintDigits(rest, bitpos + 7).value, bitpos);
    }
  }
}
