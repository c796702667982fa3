// MD5 as RFC 1321 defines it, on messages of whole bytes.
module Rfc1321 {

  // ----- Section 3.1 and 3.2: padding and length -----

  // A one bit, zero bits up to 448 modulo 512, at least one bit and at most 512 of them.
  ghost predicate IsPadded(message: seq<bv8>, p: seq<bv8>) {
    && |message| < |p| <= |message| + 64 && (|p| * 8) % 512 == 448
    && p[..|message|] == message && p[|message|] == 0x80
    && forall i :: |message| < i < |p| ==> p[i] == 0
  }

  // A number in so many bytes, the low-order byte first, modulo a power of 256.
  function LowFirst(n: nat, bytes: nat): (r: seq<bv8>)
    ensures |r| == bytes
  {
    if bytes == 0 then [] else [(n % 256) as bv8] + LowFirst(n / 256, bytes - 1)
  }

  // The length of the message in bits is appended in 64 bits.
  ghost predicate IsComplete(message: seq<bv8>, p: seq<bv8>) {
    |p| >= 8 && IsPadded(message, p[..|p| - 8]) && p[|p| - 8..] == LowFirst(|message| * 8, 8)
  }

  // ----- Section 3.3: the registers -----

  datatype Registers = Registers(a: bv32, b: bv32, c: bv32, d: bv32)

  const INITIAL := Registers(0x67452301, 0xefcdab89, 0x98badcfe, 0x10325476)

  // ----- Section 3.4: the four rounds -----

  function F(x: bv32, y: bv32, z: bv32): bv32 { (x & y) | (!x & z) }
  function G(x: bv32, y: bv32, z: bv32): bv32 { (x & z) | (y & !z) }
  function H(x: bv32, y: bv32, z: bv32): bv32 { x ^ y ^ z }
  function I(x: bv32, y: bv32, z: bv32): bv32 { y ^ (x | !z) }

  function Auxiliary(round: nat, x: bv32, y: bv32, z: bv32): bv32 {
    if round == 0 then F(x, y, z) else if round == 1 then G(x, y, z) else if round == 2 then H(x, y, z) else I(x, y, z)
  }

  // The table T, from the integer part of 4294967296 times abs(sin(i)).
  const T0: seq<bv32> := [
    0xd76aa478, 0xe8c7b756, 0x242070db, 0xc1bdceee, 0xf57c0faf, 0x4787c62a, 0xa8304613, 0xfd469501,
    0x698098d8, 0x8b44f7af, 0xffff5bb1, 0x895cd7be, 0x6b901122, 0xfd987193, 0xa679438e, 0x49b40821]
  const T1: seq<bv32> := [
    0xf61e2562, 0xc040b340, 0x265e5a51, 0xe9b6c7aa, 0xd62f105d, 0x02441453, 0xd8a1e681, 0xe7d3fbc8,
    0x21e1cde6, 0xc33707d6, 0xf4d50d87, 0x455a14ed, 0xa9e3e905, 0xfcefa3f8, 0x676f02d9, 0x8d2a4c8a]
  const T2: seq<bv32> := [
    0xfffa3942, 0x8771f681, 0x6d9d6122, 0xfde5380c, 0xa4beea44, 0x4bdecfa9, 0xf6bb4b60, 0xbebfbc70,
    0x289b7ec6, 0xeaa127fa, 0xd4ef3085, 0x04881d05, 0xd9d4d039, 0xe6db99e5, 0x1fa27cf8, 0xc4ac5665]
  const T3: seq<bv32> := [
    0xf4292244, 0x432aff97, 0xab9423a7, 0xfc93a039, 0x655b59c3, 0x8f0ccc92, 0xffeff47d, 0x85845dd1,
    0x6fa87e4f, 0xfe2ce6e0, 0xa3014314, 0x4e0811a1, 0xf7537e82, 0xbd3af235, 0x2ad7d2bb, 0xeb86d391]
  const T: seq<bv32> := T0 + T1 + T2 + T3

  function Sine(i: nat): bv32
    requires i < 64
  {
    T[i]
  }

  // Circular shift to the left.
  function Rotate(x: bv32, s: bv32): bv32
    requires 0 < s < 32
  {
    (x << s) | (x >> (32 - s))
  }

  function Bit(x: bv32, i: bv32): bv32
    requires i < 32
  {
    (x >> i) & 1
  }

  // Every bit moves up by `s` positions, and those that leave come in again below.
  lemma RotateMovesBits(x: bv32, s: bv32, i: bv32)
    requires 0 < s < 32 && i < 32
    ensures i < 32 - s ==> Bit(Rotate(x, s), i + s) == Bit(x, i)
    ensures i >= 32 - s ==> Bit(Rotate(x, s), i - (32 - s)) == Bit(x, i)
  {
    if i < 32 - s { BitMovesUp(x, s, i); } else { BitComesIn(x, s, i); }
  }

  lemma BitMovesUp(x: bv32, s: bv32, i: bv32)
    requires 0 < s < 32 && i < 32 - s
    ensures Bit(Rotate(x, s), i + s) == Bit(x, i)
  {
  }

  lemma BitComesIn(x: bv32, s: bv32, i: bv32)
    requires 0 < s < 32 && 32 - s <= i < 32
    ensures Bit(Rotate(x, s), i - (32 - s)) == Bit(x, i)
  {
  }

  // By how much the operations shift, in their order.
  type Amount = s: bv32 | 0 < s < 32 witness 1

  const S0: seq<Amount> := [7, 12, 17, 22, 7, 12, 17, 22, 7, 12, 17, 22, 7, 12, 17, 22]
  const S1: seq<Amount> := [5, 9, 14, 20, 5, 9, 14, 20, 5, 9, 14, 20, 5, 9, 14, 20]
  const S2: seq<Amount> := [4, 11, 16, 23, 4, 11, 16, 23, 4, 11, 16, 23, 4, 11, 16, 23]
  const S3: seq<Amount> := [6, 10, 15, 21, 6, 10, 15, 21, 6, 10, 15, 21, 6, 10, 15, 21]
  const S: seq<Amount> := S0 + S1 + S2 + S3

  function Shift(i: nat): Amount
    requires i < 64
  {
    S[i]
  }

  function Sum(a: bv32, f: bv32, x: bv32, t: bv32): bv32 {
    a + f + x + t
  }

  function Plus(b: bv32, rotated: bv32): bv32 {
    b + rotated
  }

  // The operation [abcd k s i]: the new value of the register a.
  function Operation(round: nat, a: bv32, b: bv32, c: bv32, d: bv32, x: bv32, s: Amount, t: bv32): bv32 {
    Plus(b, Rotate(Sum(a, Auxiliary(round, b, c, d), x, t), s))
  }

  predicate IsBlock(x: seq<bv32>) {
    |x| == 16
  }

  // Four operations in a row: on A, then D, C and B.  They take the words with the numbers `k0` to
  // `k3`, and the entries of the tables from `i` on.
  function Row(round: nat, r: Registers, x: seq<bv32>, i: nat, k0: nat, k1: nat, k2: nat, k3: nat): Registers
    requires IsBlock(x) && i < 61 && k0 < 16 && k1 < 16 && k2 < 16 && k3 < 16
  {
    var a := Operation(round, r.a, r.b, r.c, r.d, x[k0], Shift(i), Sine(i));
    var d := Operation(round, r.d, a, r.b, r.c, x[k1], Shift(i + 1), Sine(i + 1));
    var c := Operation(round, r.c, d, a, r.b, x[k2], Shift(i + 2), Sine(i + 2));
    var b := Operation(round, r.b, c, d, a, x[k3], Shift(i + 3), Sine(i + 3));
    Registers(a, b, c, d)
  }

  function Round0(r: Registers, x: seq<bv32>): Registers
    requires IsBlock(x)
  {
    var r0 := Row(0, r, x, 0, 0, 1, 2, 3);
    var r1 := Row(0, r0, x, 4, 4, 5, 6, 7);
    var r2 := Row(0, r1, x, 8, 8, 9, 10, 11);
    Row(0, r2, x, 12, 12, 13, 14, 15)
  }

  function Round1(r: Registers, x: seq<bv32>): Registers
    requires IsBlock(x)
  {
    var r0 := Row(1, r, x, 16, 1, 6, 11, 0);
    var r1 := Row(1, r0, x, 20, 5, 10, 15, 4);
    var r2 := Row(1, r1, x, 24, 9, 14, 3, 8);
    Row(1, r2, x, 28, 13, 2, 7, 12)
  }

  function Round2(r: Registers, x: seq<bv32>): Registers
    requires IsBlock(x)
  {
    var r0 := Row(2, r, x, 32, 5, 8, 11, 14);
    var r1 := Row(2, r0, x, 36, 1, 4, 7, 10);
    var r2 := Row(2, r1, x, 40, 13, 0, 3, 6);
    Row(2, r2, x, 44, 9, 12, 15, 2)
  }

  function Round3(r: Registers, x: seq<bv32>): Registers
    requires IsBlock(x)
  {
    var r0 := Row(3, r, x, 48, 0, 7, 14, 5);
    var r1 := Row(3, r0, x, 52, 12, 3, 10, 1);
    var r2 := Row(3, r1, x, 56, 8, 15, 6, 13);
    Row(3, r2, x, 60, 4, 11, 2, 9)
  }

  // One block is processed: the four rounds, and then the values before are added.
  function Process(r: Registers, x: seq<bv32>): Registers
    requires IsBlock(x)
  {
    var u := Round3(Round2(Round1(Round0(r, x), x), x), x);
    Registers(Plus(r.a, u.a), Plus(r.b, u.b), Plus(r.c, u.c), Plus(r.d, u.d))
  }

  // A word is four bytes, the low-order byte first.
  function Word(b: seq<bv8>): bv32
    requires |b| == 4
  {
    (b[0] as bv32) + 0x100 * (b[1] as bv32) + 0x10000 * (b[2] as bv32) + 0x1000000 * (b[3] as bv32)
  }

  // The sixteen words of a block.
  function Words(b: seq<bv8>): (x: seq<bv32>)
    requires |b| == 64
    ensures IsBlock(x)
  {
    seq(16, j requires 0 <= j < 16 => Word(b[4 * j..4 * j + 4]))
  }

  // The blocks are processed one after the other.
  function ProcessAll(r: Registers, p: seq<bv8>): Registers
    decreases |p|
  {
    if |p| < 64 then r else ProcessAll(Process(r, Words(p[..64])), p[64..])
  }

  // ----- Section 3.5: the output -----

  function WordBytes(w: bv32): seq<bv8> {
    [(w & 0xff) as bv8, ((w >> 8) & 0xff) as bv8, ((w >> 16) & 0xff) as bv8, ((w >> 24) & 0xff) as bv8]
  }

  function Output(r: Registers): seq<bv8> {
    WordBytes(r.a) + WordBytes(r.b) + WordBytes(r.c) + WordBytes(r.d)
  }

  // The digest of a message that has been completed.
  ghost predicate IsDigest(message: seq<bv8>, digest: seq<bv8>) {
    exists p :: IsComplete(message, p) && digest == Output(ProcessAll(INITIAL, p))
  }
}
