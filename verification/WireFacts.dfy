// Facts about the wire format: every reader is stable when more bytes follow, and reading
// undoes writing.
module WireFacts {
  import opened Options
  import opened Wire

  // ----- Prefix stability -----

  lemma {:induction false} VarintDigitsStable(a: bytes, b: bytes, bitpos: nat)
    requires VarintDigits(a, bitpos).Read?
    ensures VarintDigits(a + b, bitpos)
         == Read(VarintDigits(a, bitpos).value, VarintDigits(a, bitpos).rest + b)
    decreases |a|
  {
    assert (a + b)[1..] == a[1..] + b;
    if a[0] >= 128 { VarintDigitsStable(a[1..], b, bitpos + 7); }
  }

  lemma {:induction false} Varint32LoopStable(a: bytes, b: bytes, result: nat, bitpos: nat)
    requires Varint32Loop(a, result, bitpos).Read?
    ensures Varint32Loop(a + b, result, bitpos)
         == Read(Varint32Loop(a, result, bitpos).value, Varint32Loop(a, result, bitpos).rest + b)
    decreases |a|
  {
    assert (a + b)[1..] == a[1..] + b;
    if a[0] >= 128 {
      Varint32LoopStable(a[1..], b, Varint32Step(result, bitpos, a[0]).value, (bitpos + 7) % 256);
    }
  }

  lemma DecodeVarintStable(a: bytes, b: bytes)
    requires DecodeVarint(a).Read?
    ensures DecodeVarint(a + b) == Read(DecodeVarint(a).value, DecodeVarint(a).rest + b)
  {
    VarintDigitsStable(a, b, 0);
  }

  lemma DecodeVarint32Stable(a: bytes, b: bytes)
    requires DecodeVarint32(a).Read?
    ensures DecodeVarint32(a + b) == Read(DecodeVarint32(a).value, DecodeVarint32(a).rest + b)
  {
    assert (a + b)[1..] == a[1..] + b;
    if a[0] >= 128 { Varint32LoopStable(a[1..], b, a[0] % 128, 7); }
  }

  lemma {:induction false} SkipVarintStable(a: bytes, b: bytes)
    requires SkipVarint(a).Read?
    ensures SkipVarint(a + b) == Read((), SkipVarint(a).rest + b)
    decreases |a|
  {
    assert (a + b)[1..] == a[1..] + b;
    if a[0] >= 128 { SkipVarintStable(a[1..], b); }
  }

  lemma TakeStable(a: bytes, b: bytes, count: nat)
    requires Take(a, count).Read?
    ensures Take(a + b, count) == Read(Take(a, count).value, Take(a, count).rest + b)
  {
    assert (a + b)[..count] == a[..count];
    assert (a + b)[count..] == a[count..] + b;
  }

  lemma LengthDelimitedStable(a: bytes, b: bytes)
    requires LengthDelimited(a).Read?
    ensures LengthDelimited(a + b) == Read(LengthDelimited(a).value, LengthDelimited(a).rest + b)
  {
    DecodeVarint32Stable(a, b);
    TakeStable(DecodeVarint32(a).rest, b, DecodeVarint32(a).value);
  }

  lemma SkipFieldStable(wireType: WireType, a: bytes, b: bytes)
    requires SkipField(wireType, a).Read?
    ensures SkipField(wireType, a + b) == Read((), SkipField(wireType, a).rest + b)
  {
    if wireType == WT_VARINT { SkipVarintStable(a, b); }
    else if wireType == WT_64BIT { TakeStable(a, b, 8); }
    else if wireType == WT_STRING { LengthDelimitedStable(a, b); }
    else if wireType == WT_32BIT { TakeStable(a, b, 4); }
  }

  // The tag of a longer input: the same outcome, with more bytes behind it.
  function MoreAfter(t: TagRead, b: bytes): TagRead
  {
    match t
    case TagFail => TagFail
    case TagZero(rest) => TagZero(rest + b)
    case Tag(tag, wireType, rest) => Tag(tag, wireType, rest + b)
  }

  lemma DecodeTagStable(a: bytes, b: bytes)
    requires !DecodeTag(a).TagFail?
    ensures DecodeTag(a + b) == MoreAfter(DecodeTag(a), b)
  {
    DecodeVarint32Stable(a, b);
  }

  // ----- Varints: what the encoder writes -----

  lemma Shl7(x: nat, k: nat)
    ensures Shl(x, k + 7) == 128 * Shl(x, k)
  {
    assert Shl(x, k + 2) == 4 * Shl(x, k);
    assert Shl(x, k + 4) == 16 * Shl(x, k);
    assert Shl(x, k + 6) == 64 * Shl(x, k);
  }

  // k bytes are enough for v exactly when v has at most 7k bits.
  lemma {:induction false} VarintLength(v: nat, k: nat)
    requires k >= 1
    ensures |EncodeVarint(v)| <= k <==> v < Shl(1, 7 * k)
    decreases k
  {
    Shl7(1, 7 * (k - 1));
    if v >= 128 && k > 1 { VarintLength(v / 128, k - 1); }
  }

  lemma {:induction false} ShlMonotone(x: nat, a: nat, b: nat)
    requires a <= b
    ensures Shl(x, a) <= Shl(x, b)
    decreases b
  {
    if a < b { ShlMonotone(x, a, b - 1); }
  }

  // Or-ing in bits above the ones that are there is an addition.
  lemma {:induction false} BitOrDisjoint(a: nat, c: nat, k: nat)
    requires a < Shl(1, k)
    ensures BitOr(a, Shl(c, k)) == a + Shl(c, k)
    decreases k
  {
    if a != 0 && k > 0 {
      BitOrDisjoint(a / 2, c, k - 1);
    }
  }

  // k is the number of bytes that may still come.
  lemma {:induction false} VarintDigitsOfEncoding(v: nat, k: nat, rest: bytes)
    requires 1 <= k <= 10 && v < Shl(1, 7 * k)
    ensures VarintDigits(EncodeVarint(v) + rest, 70 - 7 * k) == Read(v, rest)
    decreases k
  {
    var bs := EncodeVarint(v) + rest;
    if v < 128 {
      assert bs[1..] == rest;
    } else {
      assert bs[1..] == EncodeVarint(v / 128) + rest;
      Shl7(1, 7 * (k - 1));
      VarintDigitsOfEncoding(v / 128, k - 1, rest);
    }
  }

  // ----- The 64-bit loop -----

  lemma {:induction false} ShlAdd(a: nat, b: nat, k: nat)
    ensures Shl(a + b, k) == Shl(a, k) + Shl(b, k)
    decreases k
  {
    if k > 0 { ShlAdd(a, b, k - 1); }
  }

  lemma {:induction false} ShlTwice(x: nat, j: nat, k: nat)
    ensures Shl(Shl(x, j), k) == Shl(x, j + k)
    decreases k
  {
    if k > 0 { ShlTwice(x, j, k - 1); }
  }

  lemma ShlZero(x: nat) ensures Shl(x, 0) == x {}

  // A digit x below the digits `high`.
  lemma DigitsAt(x: nat, high: nat, bitpos: nat)
    ensures Shl(x + 128 * high, bitpos) == Shl(x, bitpos) + Shl(high, bitpos + 7)
  {
    ShlAdd(x, 128 * high, bitpos);
    Shl7(high, 0);
    ShlTwice(high, 7, bitpos);
  }

  lemma DigitBelow(full: nat, x: nat, bitpos: nat)
    requires full < Shl(1, bitpos) && x < 128
    ensures full + Shl(x, bitpos) < Shl(1, bitpos + 7)
  {
    ShlAdd(x, 1, bitpos);
    Shl7(1, bitpos);
    ShlMonotoneValue(x + 1, 128, bitpos);
    Shl7(1, 0);
    ShlTwice(1, 7, bitpos);
  }

  lemma {:induction false} ShlMonotoneValue(x: nat, y: nat, k: nat)
    requires x <= y
    ensures Shl(x, k) <= Shl(y, k)
    decreases k
  {
    if k > 0 { ShlMonotoneValue(x, y, k - 1); }
  }

  lemma ShlOne63(bitpos: nat)
    requires bitpos == 63
    ensures Shl(1, bitpos) == TWO63
  {
    ShlIsTimes(1, bitpos);
  }

  lemma ShlBelow63(bitpos: nat, k: nat)
    requires bitpos <= k == 63
    ensures Shl(1, bitpos) <= TWO63
  {
    ShlMonotone(1, bitpos, k);
    ShlOne63(k);
  }

  // One step of pb_decode_varint: full is the sum of the digits so far.
  lemma OrIn64(full: nat, x: nat, bitpos: nat)
    requires bitpos <= 56 || bitpos == 63
    requires full < Shl(1, bitpos) && x < 128
    ensures BitOr(full % TWO64, Shl(x, bitpos) % TWO64) == (full + Shl(x, bitpos)) % TWO64
  {
    if bitpos <= 56 { OrInLow(full, x, bitpos); } else { OrInTop(full, x, bitpos); }
  }

  lemma OrInLow(full: nat, x: nat, bitpos: nat)
    requires bitpos <= 56
    requires full < Shl(1, bitpos) && x < 128
    ensures BitOr(full % TWO64, Shl(x, bitpos) % TWO64) == (full + Shl(x, bitpos)) % TWO64
  {
    DigitBelow(full, x, bitpos);
    var k: nat :| k == 63;
    ShlBelow63(bitpos + 7, k);
    assert full % TWO64 == full && Shl(x, bitpos) % TWO64 == Shl(x, bitpos);
    BitOrDisjoint(full, x, bitpos);
  }

  lemma OrInTop(full: nat, x: nat, bitpos: nat)
    requires bitpos == 63
    requires full < Shl(1, bitpos) && x < 128
    ensures BitOr(full % TWO64, Shl(x, bitpos) % TWO64) == (full + Shl(x, bitpos)) % TWO64
  {
    ShlOne63(bitpos);
    assert full % TWO64 == full;
    TopBit(x, bitpos);
    BitOrDisjoint(full, x % 2, bitpos);
    TopSum(full, x);
  }

  lemma TopBit(x: nat, bitpos: nat)
    requires bitpos == 63
    ensures Shl(x, bitpos) == x * TWO63 && Shl(x % 2, bitpos) == x % 2 * TWO63
    ensures x * TWO63 % TWO64 == x % 2 * TWO63
  {
    ShlIsTimes(x, bitpos); ShlIsTimes(x % 2, bitpos);
    assert x * TWO63 == x / 2 * TWO64 + x % 2 * TWO63;
  }

  lemma TopSum(full: nat, x: nat)
    requires full < TWO63
    ensures (full + x * TWO63) % TWO64 == full + x % 2 * TWO63
  {
    assert full + x * TWO63 == x / 2 * TWO64 + (full + x % 2 * TWO63);
  }

  lemma ShlIsTimes(x: nat, bitpos: nat)
    requires bitpos == 63
    ensures Shl(x, bitpos) == x * TWO63
  {
    var b := bitpos;
    Shl7(x, b - 7); Shl7(x, b - 14); Shl7(x, b - 21); Shl7(x, b - 28); Shl7(x, b - 35);
    Shl7(x, b - 42); Shl7(x, b - 49); Shl7(x, b - 56); Shl7(x, b - 63);
  }

  lemma TenGroups(v: nat, k: nat)
    requires v < TWO64 && k == 10
    ensures v < Shl(1, 7 * k)
  {
    Shl7(1, 0); Shl7(1, 7); Shl7(1, 14); Shl7(1, 21); Shl7(1, 28);
    Shl7(1, 35); Shl7(1, 42); Shl7(1, 49); Shl7(1, 56); Shl7(1, 63);
  }

  // pb_decode_varint undoes pb_encode_varint on every 64-bit value, and takes no byte more.
  lemma {:induction false} VarintRoundTrip(v: nat, rest: bytes)
    requires v < TWO64
    ensures DecodeVarint(EncodeVarint(v) + rest) == Read(v, rest)
    ensures 1 <= |EncodeVarint(v)| <= 10
  {
    hide Shl, EncodeVarint, VarintDigits;
    var k: nat :| k == 10;
    TenGroups(v, k);
    VarintDigitsOfEncoding(v, k, rest);
    VarintLength(v, k);
  }

  // ----- The 32-bit decoder -----

  // The weight of the bit at bitpos, for the byte boundaries below bit 35.
  function Weight(bitpos: nat): nat
  {
    if bitpos == 7 then 0x80 else if bitpos == 14 then 0x4000
    else if bitpos == 21 then 0x20_0000 else 0x1000_0000
  }

  predicate Low(bitpos: nat) { bitpos == 7 || bitpos == 14 || bitpos == 21 || bitpos == 28 }

  lemma Weights(x: nat, bitpos: nat)
    requires Low(bitpos)
    ensures Shl(x, bitpos) == Placed(0, x, bitpos)
  {
    Shl7(x, bitpos - 7);
    if bitpos > 7 { Shl7(x, bitpos - 14); }
    if bitpos > 14 { Shl7(x, bitpos - 21); }
    if bitpos > 21 { Shl7(x, bitpos - 28); }
  }

  // Where the do-while loop stands: below bit 32 the result has bitpos bits, above it is a word.
  ghost predicate At32(result: nat, bitpos: nat)
  {
    if Low(bitpos) then result < Weight(bitpos) else bitpos >= 35 && bitpos % 7 == 0 && bitpos <= 70 && result < TWO32
  }

  // The value of the loop: the result so far and the digits that remain, in their place.
  function Placed(result: nat, digits: nat, bitpos: nat): nat
  {
    if bitpos == 7 then result + digits * 0x80
    else if bitpos == 14 then result + digits * 0x4000
    else if bitpos == 21 then result + digits * 0x20_0000
    else if bitpos == 28 then result + digits * 0x1000_0000
    else result
  }

  lemma Or28(result: nat, x: nat, bitpos: nat)
    requires bitpos == 28 && result < 0x1000_0000 && x < 128
    ensures BitOr(result, Shl(x, bitpos) % TWO32) == Placed(result, x, bitpos) % TWO32
  {
    Weights(1, bitpos); Weights(x, bitpos); Weights(x % 16, bitpos);
    BitOrDisjoint(result, x % 16, bitpos);
    Top28(result, x);
  }

  lemma Top28(result: nat, x: nat)
    requires result < 0x1000_0000 && x < 128
    ensures x * 0x1000_0000 % TWO32 == x % 16 * 0x1000_0000
    ensures (result + x * 0x1000_0000) % TWO32 == result + x % 16 * 0x1000_0000
  {
    ModAdd(x % 16 * 0x1000_0000, x / 16);
    ModAdd(result + x % 16 * 0x1000_0000, x / 16);
  }

  lemma PlacedGrows(result: nat, x: nat, bitpos: nat)
    requires Low(bitpos) && bitpos < 28 && At32(result, bitpos) && x < 128
    ensures At32(Placed(result, x, bitpos), bitpos + 7) && Placed(result, x, bitpos) < TWO32
    ensures Placed(0, x, bitpos) < TWO32
  {}

  lemma Or7(result: nat, x: nat, bitpos: nat)
    requires Low(bitpos) && bitpos < 28 && result < Weight(bitpos)
    ensures BitOr(result, Shl(x, bitpos)) == result + Placed(0, x, bitpos)
  {
    Weights(1, bitpos); Weights(x, bitpos);
    BitOrDisjoint(result, x, bitpos);
  }

  lemma OrPlaced(result: nat, x: nat, bitpos: nat)
    requires Low(bitpos) && At32(result, bitpos) && x < 128
    ensures BitOr(result, Shl(x, bitpos) % TWO32) == Placed(result, x, bitpos) % TWO32
  {
    hide Shl, BitOr;
    if bitpos == 28 {
      Or28(result, x, bitpos);
    } else {
      PlacedGrows(result, x, bitpos);
      Weights(x, bitpos);
      Or7(result, x, bitpos);
      assert Shl(x, bitpos) % TWO32 == Shl(x, bitpos);
    }
  }

  lemma PlacedBounded(result: nat, x: nat, bitpos: nat)
    requires Low(bitpos) && At32(result, bitpos) && x < 128
    ensures At32(Placed(result, x, bitpos) % TWO32, bitpos + 7)
    ensures bitpos < 28 ==> Placed(result, x, bitpos) < TWO32
  {
    if bitpos < 28 { PlacedGrows(result, x, bitpos); }
  }

  // One step below bit 32 puts the byte's seven bits at bitpos, modulo 2^32.
  lemma LowStepPlaced(result: nat, bitpos: nat, b: byte)
    requires Low(bitpos) && At32(result, bitpos)
    ensures Varint32Step(result, bitpos, b) == Some(Placed(result, b % 128, bitpos) % TWO32)
    ensures At32(Placed(result, b % 128, bitpos) % TWO32, bitpos + 7)
    ensures bitpos < 28 ==> Placed(result, b % 128, bitpos) < TWO32
  {
    OrPlaced(result, b % 128, bitpos);
    PlacedBounded(result, b % 128, bitpos);
  }

  lemma LowStepExact(result: nat, bitpos: nat, b: byte)
    requires Low(bitpos) && bitpos < 28 && At32(result, bitpos)
    ensures Varint32Step(result, bitpos, b) == Some(Placed(result, b % 128, bitpos))
  {
    LowStepPlaced(result, bitpos, b);
  }

  lemma PlacedStep(result: nat, x: nat, digits: nat, bitpos: nat)
    requires Low(bitpos)
    ensures Placed(Placed(result, x, bitpos) % TWO32, digits, bitpos + 7) % TWO32
         == Placed(result, x + 128 * digits, bitpos) % TWO32
  {
    if bitpos == 28 {
      assert Placed(result, x + 128 * digits, bitpos) == Placed(result, x, bitpos) + 8 * digits * TWO32;
      ModAdd(Placed(result, x, bitpos), 8 * digits);
    } else {
      ModIn(Placed(result, x, bitpos), digits * Weight(bitpos + 7));
      if bitpos == 7 {} else if bitpos == 14 {} else {}
    }
  }

  lemma ModMod(v: nat)
    ensures v % TWO64 % TWO32 == v % TWO32
  {
    assert v == v / TWO64 * TWO64 + v % TWO64;
    ModAdd(v % TWO64, v / TWO64 * TWO32);
  }

  lemma ModAdd(a: nat, k: nat)
    ensures (a + k * TWO32) % TWO32 == a % TWO32
  {}

  lemma ModIn(a: nat, c: nat)
    ensures (a % TWO32 + c) % TWO32 == (a + c) % TWO32
  {
    assert a == a / TWO32 * TWO32 + a % TWO32;
    ModAdd(a % TWO32 + c, a / TWO32);
  }

  lemma NothingPlaced(result: nat, digits: nat, bitpos: nat)
    requires bitpos > 28
    ensures Placed(result, digits, bitpos) == result
  {}

  lemma LastByteAgrees(bs: bytes, result: nat, bitpos: nat)
    requires At32(result, bitpos) && bs != [] && bs[0] < 128
    requires Varint32Loop(bs, result, bitpos).Read? && VarintDigits(bs, bitpos).Read?
    ensures Varint32Loop(bs, result, bitpos)
         == Read(Placed(result, VarintDigits(bs, bitpos).value, bitpos) % TWO32, VarintDigits(bs, bitpos).rest)
  {
    hide Shl, BitOr;
    if Low(bitpos) { LowStepPlaced(result, bitpos, bs[0]); }
  }

  lemma {:induction false} LoopsAgree(bs: bytes, result: nat, bitpos: nat)
    requires At32(result, bitpos)
    requires Varint32Loop(bs, result, bitpos).Read? && VarintDigits(bs, bitpos).Read?
    ensures Varint32Loop(bs, result, bitpos)
         == Read(Placed(result, VarintDigits(bs, bitpos).value, bitpos) % TWO32, VarintDigits(bs, bitpos).rest)
    decreases |bs|
  {
    hide Shl, BitOr, Placed;
    if Low(bitpos) { LowStepPlaced(result, bitpos, bs[0]); }
    if bs[0] < 128 {
      LastByteAgrees(bs, result, bitpos);
    } else {
      LoopsAgree(bs[1..], Varint32Step(result, bitpos, bs[0]).value, bitpos + 7);
      var digits := VarintDigits(bs[1..], bitpos + 7).value;
      if Low(bitpos) {
        PlacedStep(result, bs[0] % 128, digits, bitpos);
      } else {
        NothingPlaced(result, digits, bitpos + 7);
        NothingPlaced(result, VarintDigits(bs, bitpos).value, bitpos);
      }
    }
  }

  // Whenever both decoders accept the same bytes they take the same number of them, and the
  // 32-bit result is the 64-bit one modulo 2^32.
  lemma DecodersAgree(bs: bytes)
    requires DecodeVarint32(bs).Read? && DecodeVarint(bs).Read?
    ensures DecodeVarint32(bs) == Read(DecodeVarint(bs).value % TWO32, DecodeVarint(bs).rest)
  {
    if bs[0] >= 128 {
      LoopsAgree(bs[1..], bs[0] % 128, 7);
      ModMod(VarintDigits(bs, 0).value);
    }
  }

  // The bytes of h from bit `bitpos` up to bit 63 read as a sign extension: every group of seven
  // bits is all ones or all zeros, and bit 63 is set.
  predicate SignTail(h: nat, bitpos: nat)
    decreases 70 - bitpos
  {
    if bitpos >= 63 then h == 1
    else h >= 128 && (h % 128 == 0 || h % 128 == 127) && SignTail(h / 128, bitpos + 7)
  }

  // How large the digits from bitpos on can be in a 64-bit value.
  function HighLimit(bitpos: nat): nat
  {
    if bitpos == 35 then 0x2000_0000 else if bitpos == 42 then 0x40_0000
    else if bitpos == 49 then 0x8000 else if bitpos == 56 then 0x100 else 2
  }

  lemma {:induction false} HighLoop(h: nat, result: nat, bitpos: nat, rest: bytes)
    requires bitpos == 35 || bitpos == 42 || bitpos == 49 || bitpos == 56 || bitpos == 63
    requires 0 < h < HighLimit(bitpos) && result < TWO32
    ensures Varint32Loop(EncodeVarint(h) + rest, result, bitpos)
         == if result >= TWO31 && SignTail(h, bitpos) then Read(result, rest) else Fail
    decreases 70 - bitpos
  {
    var bs := EncodeVarint(h) + rest;
    if h < 128 {
      assert bs[1..] == rest;
    } else {
      assert bs[1..] == EncodeVarint(h / 128) + rest;
      HighLoop(h / 128, result, bitpos + 7, rest);
    }
  }

  // What becomes of the 64-bit value v.
  function Accepted32(v: nat, rest: bytes): Read<nat>
  {
    if v < TWO32 then Read(v, rest)
    else if v % TWO32 >= TWO31 && SignTail(v / 0x8_0000_0000, 35) then Read(v % TWO32, rest)
    else Fail
  }

  lemma SplitDigits(result: nat, h: nat, bitpos: nat)
    requires Low(bitpos) && bitpos < 28
    ensures Placed(Placed(result, h % 128, bitpos), h / 128, bitpos + 7) == Placed(result, h, bitpos)
  {}

  lemma SplitTop(result: nat, h: nat)
    requires result < 0x1000_0000
    ensures var v := result + h * 0x1000_0000; v % TWO32 == (result + h % 128 * 0x1000_0000) % TWO32
    ensures var v := result + h * 0x1000_0000; v / 0x8_0000_0000 == h / 128
    ensures var v := result + h * 0x1000_0000; h >= 16 <==> v >= TWO32
  {
    assert h == h / 128 * 128 + h % 128;
    ModAdd(result + h % 128 * 0x1000_0000, h / 128 * 8);
  }

  lemma {:induction false} LowLoop(h: nat, result: nat, bitpos: nat, rest: bytes)
    requires Low(bitpos) && At32(result, bitpos)
    requires h > 0 && Placed(result, h, bitpos) < TWO64
    ensures Varint32Loop(EncodeVarint(h) + rest, result, bitpos) == Accepted32(Placed(result, h, bitpos), rest)
    decreases 70 - bitpos
  {
    if h < 128 {
      LastByte(h, result, bitpos, rest);
    } else if bitpos == 28 {
      TopLoop(h, result, bitpos, rest);
    } else {
      MiddleByte(h, result, bitpos, rest);
      SplitDigits(result, h, bitpos);
      PlacedGrows(result, h % 128, bitpos);
      LowLoop(h / 128, Placed(result, h % 128, bitpos), bitpos + 7, rest);
    }
  }

  lemma MiddleByte(h: nat, result: nat, bitpos: nat, rest: bytes)
    requires Low(bitpos) && At32(result, bitpos) && bitpos < 28 && h >= 128
    ensures Varint32Loop(EncodeVarint(h) + rest, result, bitpos)
         == Varint32Loop(EncodeVarint(h / 128) + rest, Placed(result, h % 128, bitpos), bitpos + 7)
  {
    hide Varint32Step, Shl, BitOr;
    var bs := EncodeVarint(h) + rest;
    var b := h % 128 + 128;
    assert bs[0] == b && bs[1..] == EncodeVarint(h / 128) + rest;
    LowStepExact(result, bitpos, b);
    LoopUnfold(bs, result, bitpos);
  }

  lemma LoopUnfold(bs: bytes, result: nat, bitpos: nat)
    requires bs != [] && bs[0] >= 128 && Varint32Step(result, bitpos, bs[0]).Some? && bitpos < 70
    ensures Varint32Loop(bs, result, bitpos)
         == Varint32Loop(bs[1..], Varint32Step(result, bitpos, bs[0]).value, bitpos + 7)
  {}

  lemma LastByte(h: nat, result: nat, bitpos: nat, rest: bytes)
    requires Low(bitpos) && At32(result, bitpos) && 0 < h < 128
    ensures Varint32Loop(EncodeVarint(h) + rest, result, bitpos) == Accepted32(Placed(result, h, bitpos), rest)
  {
    hide Varint32Step, Shl, BitOr;
    var bs := EncodeVarint(h) + rest;
    assert bs == [h] + rest && bs[1..] == rest;
    if bitpos == 28 {
      LowStepPlaced(result, bitpos, h);
      LastByte28(result, h, rest);
    } else {
      LowStepExact(result, bitpos, h);
      PlacedGrows(result, h, bitpos);
    }
  }

  lemma LastByte28(result: nat, h: nat, rest: bytes)
    requires result < 0x1000_0000 && 0 < h < 128
    ensures h / 16 % 8 != 0 <==> result + h * 0x1000_0000 >= TWO32
    ensures h / 16 % 8 != 0 ==> Accepted32(result + h * 0x1000_0000, rest) == Fail
  {
    SplitTop(result, h);
    assert h >= 16 <==> h / 16 % 8 != 0;
    assert !SignTail(h / 128, 35);
  }

  lemma TopLoop(h: nat, result: nat, bitpos: nat, rest: bytes)
    requires bitpos == 28 && result < 0x1000_0000
    requires h >= 128 && result + h * 0x1000_0000 < TWO64
    ensures Varint32Loop(EncodeVarint(h) + rest, result, bitpos) == Accepted32(Placed(result, h, bitpos), rest)
  {
    hide Varint32Step, Shl, BitOr, SignTail;
    var bs := EncodeVarint(h) + rest;
    assert bs[0] == h % 128 + 128 && bs[1..] == EncodeVarint(h / 128) + rest;
    LowStepPlaced(result, bitpos, bs[0]);
    SplitTop(result, h);
    HighLoop(h / 128, Placed(result, h % 128, bitpos) % TWO32, bitpos + 7, rest);
  }

  // Exactly which 64-bit values pb_decode_varint32 accepts from pb_encode_varint, and what it
  // makes of them.
  lemma Varint32OfEncoding(v: nat, rest: bytes)
    requires v < TWO64
    ensures DecodeVarint32(EncodeVarint(v) + rest)
         == Accepted32(v, rest)
  {
    hide Varint32Step, Shl, BitOr, SignTail;
    var bs := EncodeVarint(v) + rest;
    if v < 128 {
      assert bs[1..] == rest;
    } else {
      assert bs[1..] == EncodeVarint(v / 128) + rest;
      LowLoop(v / 128, v % 128, 7, rest);
    }
  }

  // The two ranges that matter: no length of 2^32 or more (and below 2^63) is ever accepted, and
  // every sign-extended 32-bit number is.
  lemma Varint32Ranges(v: nat, rest: bytes)
    requires TWO32 <= v < TWO64
    ensures v < TWO63 ==> DecodeVarint32(EncodeVarint(v) + rest) == Fail
    ensures v >= TWO64 - TWO31 ==> DecodeVarint32(EncodeVarint(v) + rest) == Read(v % TWO32, rest)
  {
    Varint32OfEncoding(v, rest);
    if v < TWO63 { NoSignTail(v / 0x8_0000_0000); }
    if v >= TWO64 - TWO31 { AllOnes(v); }
  }

  lemma NoSignTail(h: nat)
    requires h < 0x1000_0000
    ensures !SignTail(h, 35)
  {
    SignTailGroups(h);
  }

  lemma AllOnes(v: nat)
    requires TWO64 - TWO31 <= v < TWO64
    ensures v % TWO32 >= TWO31 && SignTail(v / 0x8_0000_0000, 35)
  {
    var h := v / 0x8_0000_0000;
    assert h == 0x1FFF_FFFF;
    SignTailGroups(h);
    var low := v - 0xFFFF_FFFF * TWO32;
    ModAdd(low, 0xFFFF_FFFF);
  }

  lemma SignTailGroups(h: nat)
    ensures SignTail(h, 35) <==>
      (h % 128 == 0 || h % 128 == 127) && (h / 0x80 % 128 == 0 || h / 0x80 % 128 == 127)
      && (h / 0x4000 % 128 == 0 || h / 0x4000 % 128 == 127)
      && (h / 0x20_0000 % 128 == 0 || h / 0x20_0000 % 128 == 127) && h / 0x1000_0000 == 1
  {
    hide SignTail;
    var h1 := h / 0x80; var h2 := h1 / 0x80; var h3 := h2 / 0x80; var h4 := h3 / 0x80;
    SignTailEnd(h4);
    SignTailStep(h3, 56); SignTailStep(h2, 49); SignTailStep(h1, 42); SignTailStep(h, 35);
    Groups(h);
  }

  lemma SignTailStep(h: nat, bitpos: nat)
    requires bitpos < 63
    ensures SignTail(h, bitpos) <==> h >= 128 && (h % 128 == 0 || h % 128 == 127) && SignTail(h / 128, bitpos + 7)
  {
  }

  lemma SignTailEnd(h: nat)
    ensures SignTail(h, 63) <==> h == 1
  {
  }

  lemma Groups(h: nat)
    ensures var h1 := h / 0x80; var h2 := h1 / 0x80; var h3 := h2 / 0x80;
            h2 == h / 0x4000 && h3 == h / 0x20_0000 && h3 / 0x80 == h / 0x1000_0000
  {
  }
}
