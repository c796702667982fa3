// The Protocol Buffers wire format as nanopb reads and writes it: base 128 varints, zigzag,
// little-endian fixed-width numbers, tags, and the skipping of a record.  These are the
// specification functions; the stream methods in InputStream and OutputStream compute them.
module Wire {
  import opened Options

  type byte = b: int | 0 <= b < 256
  type bytes = seq<byte>

  // What a reader does with the bytes in front of it: it fails, or it produces a value and
  // leaves a rest.
  datatype Read<+T> = Fail | Read(value: T, rest: bytes)

  const TWO31: int := 0x8000_0000
  const TWO32: int := 0x1_0000_0000
  const TWO63: int := 0x8000_0000_0000_0000
  const TWO64: int := 0x1_0000_0000_0000_0000

  // x << k.
  function Shl(x: nat, k: nat): (r: nat)
    ensures r >= x
  {
    if k == 0 then x else 2 * Shl(x, k - 1)
  }

  // Bitwise inclusive or of two natural numbers.
  function BitOr(a: nat, b: nat): nat
    decreases a + b
  {
    if a == 0 then b
    else if b == 0 then a
    else (if a % 2 == 1 || b % 2 == 1 then 1 else 0) + 2 * BitOr(a / 2, b / 2)
  }

  // ----- Varints -----

  // The bytes of a varint: seven bits each, least significant first, the top bit set on all
  // but the last.
  function EncodeVarint(v: nat): (bs: bytes)
    ensures |bs| >= 1
  {
    if v < 128 then [v] else [v % 128 + 128] + EncodeVarint(v / 128)
  }

  // The digits of a varint whose bitpos-th bit comes first; at most ten bytes are taken.
  function VarintDigits(bs: bytes, bitpos: nat): (r: Read<nat>)
    ensures r.Read? ==> |r.rest| < |bs|
    decreases |bs|
  {
    if bitpos >= 64 || bs == [] then Fail
    else if bs[0] < 128 then Read(bs[0], bs[1..])
    else
      match VarintDigits(bs[1..], bitpos + 7)
      case Fail => Fail
      case Read(high, rest) => Read(bs[0] - 128 + 128 * high, rest)
  }

  // pb_decode_varint: the digits, cut to 64 bits.
  function DecodeVarint(bs: bytes): (r: Read<nat>)
    ensures r.Read? ==> |r.rest| < |bs| && r.value < TWO64
  {
    match VarintDigits(bs, 0)
    case Fail => Fail
    case Read(v, rest) => Read(v % TWO64, rest)
  }

  // One multi-byte step of pb_decode_varint32_eof: None when the byte overflows the result.
  // bitpos is an 8-bit counter.
  function Varint32Step(result: nat, bitpos: nat, b: byte): Option<nat>
  {
    if bitpos >= 32 then
      var signExtension := if bitpos < 63 then 0xFF else 0x01;
      if b % 128 != 0 && (result / TWO31 == 0 || b != signExtension) then None else Some(result)
    else
      Some(BitOr(result, Shl(b % 128, bitpos) % TWO32))
  }

  // The do-while loop of pb_decode_varint32_eof, entered with `result` and `bitpos`.
  function Varint32Loop(bs: bytes, result: nat, bitpos: nat): (r: Read<nat>)
    ensures r.Read? ==> |r.rest| < |bs|
    decreases |bs|
  {
    if bs == [] then Fail
    else
      match Varint32Step(result, bitpos, bs[0])
      case None => Fail
      case Some(next) =>
        var bitpos' := (bitpos + 7) % 256;
        if bs[0] >= 128 then Varint32Loop(bs[1..], next, bitpos')
        else if bitpos' == 35 && bs[0] / 16 % 8 != 0 then Fail
        else Read(next, bs[1..])
  }

  // pb_decode_varint32.
  function DecodeVarint32(bs: bytes): (r: Read<nat>)
    ensures r.Read? ==> |r.rest| < |bs|
  {
    if bs == [] then Fail
    else if bs[0] < 128 then Read(bs[0], bs[1..])
    else Varint32Loop(bs[1..], bs[0] % 128, 7)
  }

  // pb_skip_varint: any number of bytes with the top bit set, and one without.
  function SkipVarint(bs: bytes): (r: Read<()>)
    ensures r.Read? ==> |r.rest| < |bs|
    decreases |bs|
  {
    if bs == [] then Fail
    else if bs[0] < 128 then Read((), bs[1..])
    else SkipVarint(bs[1..])
  }

  // ----- Fixed-width numbers -----

  // The low `width` bytes, least significant first.
  function EncodeFixed(v: int, width: nat): (bs: bytes)
    ensures |bs| == width
    decreases width
  {
    if width == 0 then [] else [v % 256] + EncodeFixed(v / 256, width - 1)
  }

  function FixedValue(bs: bytes): nat
  {
    if bs == [] then 0 else bs[0] + 256 * FixedValue(bs[1..])
  }

  // ----- Zigzag -----

  function ZigZag(v: int): nat
  {
    if v < 0 then -2 * v - 1 else 2 * v
  }

  function UnZigZag(u: nat): int
  {
    if u % 2 == 1 then -(u / 2) - 1 else u / 2
  }

  // A 64-bit pattern read as a signed number.
  function Signed64(u: nat): int { if u < TWO63 then u else u - TWO64 }

  // The low 32 bits read as a signed number.
  function Signed32(u: nat): int { var w := u % TWO32; if w < TWO31 then w else w - TWO32 }

  // ----- Runs of bytes -----

  // pb_read of `count` bytes.
  function Take(bs: bytes, count: nat): (r: Read<bytes>)
    ensures r.Read? ==> |r.value| == count && bs == r.value + r.rest
  {
    if count <= |bs| then
      assert bs == bs[..count] + bs[count..];
      Read(bs[..count], bs[count..])
    else Fail
  }

  // A 32-bit length and that many bytes: pb_make_string_substream with its close.
  function LengthDelimited(bs: bytes): (r: Read<bytes>)
    ensures r.Read? ==> |r.value| + |r.rest| < |bs|
  {
    match DecodeVarint32(bs)
    case Fail => Fail
    case Read(size, rest) => Take(rest, size)
  }

  // pb_encode_string.  The length is cast to 64 bits.
  function EncodeDelimited(payload: bytes): bytes
  {
    EncodeVarint(|payload| % TWO64) + payload
  }

  // ----- Tags and unknown records -----

  const WT_VARINT := 0
  const WT_64BIT := 1
  const WT_STRING := 2
  const WT_32BIT := 5

  type WireType = w: nat | w < 8

  datatype TagRead = TagFail | TagZero(rest: bytes) | Tag(tag: nat, wireType: WireType, rest: bytes)

  // pb_decode_tag.  A zero tag ends the message.
  function DecodeTag(bs: bytes): (t: TagRead)
    ensures !t.TagFail? ==> |t.rest| < |bs|
  {
    match DecodeVarint32(bs)
    case Fail => TagFail
    case Read(v, rest) => if v == 0 then TagZero(rest) else Tag(v / 8, v % 8, rest)
  }

  // pb_encode_tag.
  function EncodeTag(tag: nat, wireType: WireType): bytes
  {
    EncodeVarint(tag * 8 + wireType)
  }

  // pb_skip_field.
  function SkipField(wireType: WireType, bs: bytes): (r: Read<()>)
    ensures r.Read? ==> |r.rest| <= |bs|
  {
    if wireType == WT_VARINT then SkipVarint(bs)
    else if wireType == WT_64BIT then Drop(Take(bs, 8))
    else if wireType == WT_STRING then Drop(LengthDelimited(bs))
    else if wireType == WT_32BIT then Drop(Take(bs, 4))
    else Fail
  }

  function Drop<T>(r: Read<T>): Read<()>
  {
    match r
    case Fail => Fail
    case Read(_, rest) => Read((), rest)
  }
}
