// Single values on the wire: numbers of every field type, zigzag, length-delimited runs and
// tags.  Reading undoes writing, and narrow fields accept exactly the numbers that fit.
module Scalars {
  import opened Options
  import opened Wire
  import opened WireFacts
  import opened Descriptor
  import opened Encoding
  import opened Decoding

  // ----- Fixed-width numbers -----

  lemma {:induction false} FixedRoundTrip(v: nat, width: nat)
    requires v < Shl(1, 8 * width)
    ensures FixedValue(EncodeFixed(v, width)) == v
    decreases width
  {
    if width > 0 {
      var bs := EncodeFixed(v, width);
      assert bs[1..] == EncodeFixed(v / 256, width - 1);
      Shl8(1, 8 * (width - 1));
      FixedRoundTrip(v / 256, width - 1);
    }
  }

  lemma Shl8(x: nat, k: nat)
    ensures Shl(x, k + 8) == 256 * Shl(x, k)
  {
    Shl7(x, k);
    assert Shl(x, k + 8) == 2 * Shl(x, k + 7);
  }

  lemma FixedWidths(width: nat)
    ensures width == 4 ==> Shl(1, 8 * width) == TWO32
    ensures width == 8 ==> Shl(1, 8 * width) == TWO64
  {
    Shl8(1, 0); Shl8(1, 8); Shl8(1, 16); Shl8(1, 24);
    Shl8(1, 32); Shl8(1, 40); Shl8(1, 48); Shl8(1, 56);
  }

  lemma TakeExactly(a: bytes, rest: bytes, count: nat)
    requires |a| == count
    ensures Take(a + rest, count) == Read(a, rest)
  {
    assert (a + rest)[..count] == a && (a + rest)[count..] == rest;
  }

  lemma FixedOnWire(v: nat, width: nat, rest: bytes)
    requires (width == 4 && v < TWO32) || (width == 8 && v < TWO64)
    ensures Take(EncodeFixed(v, width) + rest, width) == Read(EncodeFixed(v, width), rest)
    ensures FixedValue(EncodeFixed(v, width)) == v
  {
    TakeExactly(EncodeFixed(v, width), rest, width);
    FixedWidths(width);
    FixedRoundTrip(v, width);
  }

  // ----- Zigzag -----

  // The zigzag transform is a bijection between the signed and the unsigned 64-bit numbers.
  lemma ZigZagBijective(v: int, u: nat)
    ensures UnZigZag(ZigZag(v)) == v
    ensures ZigZag(UnZigZag(u)) == u
    ensures -TWO63 <= v < TWO63 <==> ZigZag(v) < TWO64
  {}

  // k bytes hold a signed number exactly when it has at most 7k bits with its sign.
  lemma ZigZagLength(v: int, k: nat)
    requires 1 <= k
    ensures |EncodeVarint(ZigZag(v))| <= k <==> -(Shl(1, 7 * k - 1) as int) <= v < Shl(1, 7 * k - 1)
  {
    VarintLength(ZigZag(v), k);
    assert Shl(1, 7 * k) == 2 * Shl(1, 7 * k - 1);
  }

  // ----- Narrow fields -----

  // The value that pb_dec_uvarint and pb_dec_svarint are offered by a decodable varint.
  lemma NarrowingIsExact(f: Field, bs: bytes)
    requires f.ltype.Uvarint? || f.ltype.Svarint?
    requires VarintSize(f.dataSize) && DecodeVarint(bs).Read?
    ensures var n := if f.ltype.Uvarint? then DecodeVarint(bs).value else UnZigZag(DecodeVarint(bs).value);
            DecodeScalar(f, bs) == if InWidth(f, n) then Read(Num(n), DecodeVarint(bs).rest) else Fail
  {}

  // pb_dec_varint looks at 32 bits in narrow fields: it succeeds exactly when those fit.
  lemma SignedNarrowing(f: Field, bs: bytes)
    requires f.ltype.Varint? && VarintSize(f.dataSize) && DecodeVarint(bs).Read?
    ensures var v := DecodeVarint(bs).value;
            DecodeScalar(f, bs) == (if f.dataSize >= 4 || SignedFits(f.dataSize, Signed32(v))
                                    then Read(Num(if f.dataSize == 8 then Signed64(v) else Signed32(v)), DecodeVarint(bs).rest)
                                    else Fail)
  {}

  lemma SignExtension(n: int)
    requires -TWO31 <= n < TWO31
    ensures Signed32(n % TWO64) == n
  {
    if n < 0 {
      assert n % TWO64 == n + TWO64;
      var low := n + TWO32;
      ModAdd(low, 0xFFFF_FFFF);
      assert n + TWO64 == low + 0xFFFF_FFFF * TWO32;
    }
  }

  lemma SignedNumber(f: Field, n: int)
    requires f.ltype.Varint? && VarintSize(f.dataSize) && SignedFits(f.dataSize, n)
    ensures Narrow(f, n % TWO64) == n
  {
    if f.dataSize != 8 { SignExtension(n); }
  }

  lemma FixedScalar(f: Field, n: int, rest: bytes)
    requires (f.ltype.Fixed32? || f.ltype.Fixed64?) && InWidth(f, n)
    ensures DecodeScalar(f, EncodeScalar(f, n).value + rest) == Read(Num(n), rest)
  {
    FixedOnWire(n, FixedWidth(f.ltype), rest);
    FixedDecodes(f, EncodeFixed(n, FixedWidth(f.ltype)), n, rest);
  }

  lemma FixedDecodes(f: Field, bs: bytes, n: nat, rest: bytes)
    requires f.ltype.Fixed32? || f.ltype.Fixed64?
    requires Take(bs + rest, FixedWidth(f.ltype)) == Read(bs, rest) && FixedValue(bs) == n
    ensures DecodeScalar(f, bs + rest) == Read(Num(n), rest)
  {}

  lemma VarintScalar(f: Field, n: int, rest: bytes)
    requires (f.ltype.Varint? || f.ltype.Uvarint? || f.ltype.Svarint?) && VarintSize(f.dataSize) && InWidth(f, n)
    ensures DecodeScalar(f, EncodeScalar(f, n).value + rest) == Read(Num(n), rest)
  {
    hide DecodeVarint, EncodeVarint, ZigZag, UnZigZag;
    if f.ltype.Svarint? {
      ZigZagBijective(n, 0);
      VarintRoundTrip(ZigZag(n), rest);
    } else {
      VarintRoundTrip(n % TWO64, rest);
      if f.ltype.Varint? { SignedNumber(f, n); }
    }
  }

  // Every number that fits its field comes back from the wire.
  lemma ScalarRoundTrip(f: Field, n: int, rest: bytes)
    requires Packable(f.ltype) && WellFormedField(f) && InWidth(f, n)
    ensures EncodeScalar(f, n).Some? && |EncodeScalar(f, n).value| >= 1
    ensures DecodeScalar(f, EncodeScalar(f, n).value + rest) == Read(Num(n), rest)
  {
    if f.ltype.Bool? { Varint32OfEncoding(n, rest); }
    else if f.ltype.Fixed32? || f.ltype.Fixed64? { FixedScalar(f, n, rest); }
    else { VarintScalar(f, n, rest); }
  }

  // ----- Tags and lengths -----

  lemma TagRoundTrip(tag: nat, wireType: WireType, rest: bytes)
    requires 0 < tag < 0x2000_0000
    ensures DecodeTag(EncodeTag(tag, wireType) + rest) == Tag(tag, wireType, rest)
  {
    Varint32OfEncoding(tag * 8 + wireType, rest);
  }

  // A length of 2^32 or more cannot be read back.
  lemma DelimitedRoundTrip(payload: bytes, rest: bytes)
    requires |payload| < TWO63
    ensures LengthDelimited(EncodeDelimited(payload) + rest)
         == if |payload| < TWO32 then Read(payload, rest) else Fail
  {
    var n := |payload|;
    assert EncodeDelimited(payload) + rest == EncodeVarint(n) + (payload + rest);
    if n < TWO32 {
      Varint32OfEncoding(n, payload + rest);
      TakeExactly(payload, rest, n);
    } else {
      Varint32Ranges(n, payload + rest);
    }
  }

  lemma {:induction false} CStringWhole(s: bytes)
    requires 0 !in s
    ensures CString(s) == s
  {
    if s != [] { CStringWhole(s[1..]); }
  }

  lemma BlobRoundTrip(f: Field, v: Value, rest: bytes)
    requires !Packable(f.ltype) && !f.ltype.Submessage? && WellFormedField(f) && ValidValue(f, v)
    ensures EncodeValue(f, v) == Some(EncodeDelimited(v.data))
    ensures DecodeBlob(f, EncodeDelimited(v.data) + rest) == Read(v, rest)
  {
    BlobEncodes(f, v);
    BlobOnWire(v.data, rest);
    BlobDecodes(f, v, EncodeDelimited(v.data) + rest, rest);
  }

  lemma BlobEncodes(f: Field, v: Value)
    requires !Packable(f.ltype) && !f.ltype.Submessage? && WellFormedField(f) && ValidValue(f, v)
    ensures EncodeValue(f, v) == Some(EncodeDelimited(v.data)) && |v.data| < TWO32
  {
    if f.ltype.String? { CStringWhole(v.data); }
  }

  lemma BlobDecodes(f: Field, v: Value, bs: bytes, rest: bytes)
    requires !Packable(f.ltype) && !f.ltype.Submessage? && WellFormedField(f) && ValidValue(f, v)
    requires DecodeVarint32(bs) == Read(|v.data|, v.data + rest)
    requires Take(v.data + rest, |v.data|) == Read(v.data, rest) && (v.data == [] ==> v.data + rest == rest)
    ensures DecodeBlob(f, bs) == Read(v, rest)
  {
    if f.ltype.String? { CStringWhole(v.data); }
    if f.ltype.FixedLengthBytes? && v.data == [] { assert Zeros(0) == v.data; }
  }

  lemma BlobOnWire(data: bytes, rest: bytes)
    requires |data| < TWO32
    ensures DecodeVarint32(EncodeDelimited(data) + rest) == Read(|data|, data + rest)
    ensures Take(data + rest, |data|) == Read(data, rest)
    ensures data == [] ==> data + rest == rest
  {
    assert EncodeDelimited(data) + rest == EncodeVarint(|data|) + (data + rest);
    Varint32OfEncoding(|data|, data + rest);
    TakeExactly(data, rest, |data|);
  }
}
