// The digest of String+MD5.swift: one loop of 64 steps that rotates the registers.
module Md5 {
  import R = Rfc1321

  const SHIFTS0: seq<R.Amount> := [7, 12, 17, 22, 7, 12, 17, 22, 7, 12, 17, 22, 7, 12, 17, 22]
  const SHIFTS1: seq<R.Amount> := [5, 9, 14, 20, 5, 9, 14, 20, 5, 9, 14, 20, 5, 9, 14, 20]
  const SHIFTS2: seq<R.Amount> := [4, 11, 16, 23, 4, 11, 16, 23, 4, 11, 16, 23, 4, 11, 16, 23]
  const SHIFTS3: seq<R.Amount> := [6, 10, 15, 21, 6, 10, 15, 21, 6, 10, 15, 21, 6, 10, 15, 21]
  const SHIFTS: seq<R.Amount> := SHIFTS0 + SHIFTS1 + SHIFTS2 + SHIFTS3

  const SINES0: seq<bv32> := [
    0xd76aa478, 0xe8c7b756, 0x242070db, 0xc1bdceee, 0xf57c0faf, 0x4787c62a, 0xa8304613, 0xfd469501,
    0x698098d8, 0x8b44f7af, 0xffff5bb1, 0x895cd7be, 0x6b901122, 0xfd987193, 0xa679438e, 0x49b40821]
  const SINES1: seq<bv32> := [
    0xf61e2562, 0xc040b340, 0x265e5a51, 0xe9b6c7aa, 0xd62f105d, 0x02441453, 0xd8a1e681, 0xe7d3fbc8,
    0x21e1cde6, 0xc33707d6, 0xf4d50d87, 0x455a14ed, 0xa9e3e905, 0xfcefa3f8, 0x676f02d9, 0x8d2a4c8a]
  const SINES2: seq<bv32> := [
    0xfffa3942, 0x8771f681, 0x6d9d6122, 0xfde5380c, 0xa4beea44, 0x4bdecfa9, 0xf6bb4b60, 0xbebfbc70,
    0x289b7ec6, 0xeaa127fa, 0xd4ef3085, 0x4881d05, 0xd9d4d039, 0xe6db99e5, 0x1fa27cf8, 0xc4ac5665]
  const SINES3: seq<bv32> := [
    0xf4292244, 0x432aff97, 0xab9423a7, 0xfc93a039, 0x655b59c3, 0x8f0ccc92, 0xffeff47d, 0x85845dd1,
    0x6fa87e4f, 0xfe2ce6e0, 0xa3014314, 0x4e0811a1, 0xf7537e82, 0xbd3af235, 0x2ad7d2bb, 0xeb86d391]
  const SINES: seq<bv32> := SINES0 + SINES1 + SINES2 + SINES3

  function RotateLeft(value: bv32, bits: bv32): bv32
    requires 0 < bits < 32
  {
    ((value << bits) & 0xFFFFFFFF) | (value >> (32 - bits))
  }

  // The cases of the switch.
  function Mix(j: nat, b: bv32, c: bv32, d: bv32): bv32 {
    if j < 16 then (b & c) | (!b & d)
    else if j < 32 then (d & b) | (!d & c)
    else if j < 48 then b ^ c ^ d
    else c ^ (b | !d)
  }

  function WordNumber(j: nat): (g: nat)
    requires j < 64
    ensures g < 16
  {
    if j < 16 then j else if j < 32 then (5 * j + 1) % 16 else if j < 48 then (3 * j + 5) % 16 else (7 * j) % 16
  }

  // What is rotated, and what it is added to.
  function Rotated(a: bv32, f: bv32, sine: bv32, word: bv32): bv32 {
    a + f + sine + word
  }

  function Added(b: bv32, rotated: bv32): bv32 {
    b + rotated
  }

  // One step of the main loop.
  function Step(j: nat, r: R.Registers, m: seq<bv32>): R.Registers
    requires j < 64 && R.IsBlock(m)
  {
    R.Registers(r.d, Added(r.b, RotateLeft(Rotated(r.a, Mix(j, r.b, r.c, r.d), SINES[j], m[WordNumber(j)]), SHIFTS[j])), r.b, r.c)
  }

  // The steps from `j` up to `k`.
  function Steps(j: nat, k: nat, r: R.Registers, m: seq<bv32>): R.Registers
    requires j <= k <= 64 && R.IsBlock(m)
    decreases k - j
  {
    if j == k then r else Steps(j + 1, k, Step(j, r, m), m)
  }

  // ----- The rotating loop is the four rounds -----

  lemma RotationsAgree(v: bv32, s: R.Amount)
    ensures RotateLeft(v, s) == R.Rotate(v, s)
  {
  }

  lemma SumsAgree(a: bv32, f: bv32, t: bv32, x: bv32)
    ensures Rotated(a, f, t, x) == R.Sum(a, f, x, t)
    ensures Added(a, f) == R.Plus(a, f)
  {
  }

  lemma FAgrees(b: bv32, c: bv32, d: bv32)
    ensures (b & c) | (!b & d) == R.F(b, c, d)
  {
  }

  lemma GAgrees(b: bv32, c: bv32, d: bv32)
    ensures (d & b) | (!d & c) == R.G(b, c, d)
  {
  }

  lemma HAgrees(b: bv32, c: bv32, d: bv32)
    ensures b ^ c ^ d == R.H(b, c, d)
  {
  }

  lemma IAgrees(b: bv32, c: bv32, d: bv32)
    ensures c ^ (b | !d) == R.I(b, c, d)
  {
  }

  lemma MixIsAuxiliary(round: nat, j: nat, b: bv32, c: bv32, d: bv32)
    requires round < 4 && 16 * round <= j < 16 * round + 16
    ensures Mix(j, b, c, d) == R.Auxiliary(round, b, c, d)
  {
    hide R.F, R.G, R.H, R.I;
    FAgrees(b, c, d);
    GAgrees(b, c, d);
    HAgrees(b, c, d);
    IAgrees(b, c, d);
  }

  lemma TablesAgree(j: nat)
    requires j < 64
    ensures SINES[j] == R.Sine(j) && SHIFTS[j] == R.Shift(j)
  {
  }

  lemma StepIsOperation(round: nat, j: nat, r: R.Registers, m: seq<bv32>, k: nat)
    requires R.IsBlock(m) && round < 4 && 16 * round <= j < 16 * round + 16 && k == WordNumber(j)
    ensures k < 16 && Step(j, r, m) == R.Registers(r.d, R.Operation(round, r.a, r.b, r.c, r.d, m[k], R.Shift(j), R.Sine(j)), r.b, r.c)
  {
    hide Added, R.Plus, Rotated, R.Sum, RotateLeft, R.Rotate, Mix, R.Auxiliary, R.Sine, R.Shift;
    var f := Mix(j, r.b, r.c, r.d);
    var sum := Rotated(r.a, f, SINES[j], m[k]);
    MixIsAuxiliary(round, j, r.b, r.c, r.d);
    TablesAgree(j);
    SumsAgree(r.a, f, SINES[j], m[k]);
    RotationsAgree(sum, SHIFTS[j]);
    SumsAgree(r.b, RotateLeft(sum, SHIFTS[j]), 0, 0);
  }

  // After four steps every register is back in its place.
  lemma FourSteps(round: nat, j: nat, r: R.Registers, m: seq<bv32>, k0: nat, k1: nat, k2: nat, k3: nat)
    requires R.IsBlock(m) && round < 4 && 16 * round <= j <= 16 * round + 12
    requires k0 == WordNumber(j) && k1 == WordNumber(j + 1) && k2 == WordNumber(j + 2) && k3 == WordNumber(j + 3)
    ensures Steps(j, j + 4, r, m) == R.Row(round, r, m, j, k0, k1, k2, k3)
  {
    hide Step, R.Operation, R.Sine, R.Shift, WordNumber;
    StepIsOperation(round, j, r, m, k0);
    var r1 := Step(j, r, m);
    StepIsOperation(round, j + 1, r1, m, k1);
    var r2 := Step(j + 1, r1, m);
    StepIsOperation(round, j + 2, r2, m, k2);
    var r3 := Step(j + 2, r2, m);
    StepIsOperation(round, j + 3, r3, m, k3);
    var r4 := Step(j + 3, r3, m);
    assert Steps(j + 4, j + 4, r4, m) == r4;
    assert Steps(j + 3, j + 4, r3, m) == r4;
    assert Steps(j + 2, j + 4, r2, m) == r4;
    assert Steps(j + 1, j + 4, r1, m) == r4;
  }

  lemma {:induction false} StepsSplit(i: nat, j: nat, k: nat, r: R.Registers, m: seq<bv32>)
    requires i <= j <= k <= 64 && R.IsBlock(m)
    ensures Steps(i, k, r, m) == Steps(j, k, Steps(i, j, r, m), m)
    decreases j - i
  {
    hide Step;
    if i < j {
      StepsSplit(i + 1, j, k, Step(i, r, m), m);
    }
  }

  // Sixteen steps from `j`, row by row.
  lemma SixteenSteps(j: nat, r: R.Registers, m: seq<bv32>)
    requires j <= 48 && R.IsBlock(m)
    ensures var r1 := Steps(j, j + 4, r, m);
            var r2 := Steps(j + 4, j + 8, r1, m);
            var r3 := Steps(j + 8, j + 12, r2, m);
            Steps(j, j + 16, r, m) == Steps(j + 12, j + 16, r3, m)
  {
    hide Steps;
    var r1 := Steps(j, j + 4, r, m);
    var r2 := Steps(j + 4, j + 8, r1, m);
    StepsSplit(j, j + 4, j + 16, r, m);
    StepsSplit(j + 4, j + 8, j + 16, r1, m);
    StepsSplit(j + 8, j + 12, j + 16, r2, m);
  }

  lemma StepsAreRound0(r: R.Registers, m: seq<bv32>)
    requires R.IsBlock(m)
    ensures Steps(0, 16, r, m) == R.Round0(r, m)
  {
    hide Steps, R.Row;
    SixteenSteps(0, r, m);
    FourSteps(0, 0, r, m, 0, 1, 2, 3);
    var r1 := Steps(0, 4, r, m);
    FourSteps(0, 4, r1, m, 4, 5, 6, 7);
    var r2 := Steps(4, 8, r1, m);
    FourSteps(0, 8, r2, m, 8, 9, 10, 11);
    FourSteps(0, 12, Steps(8, 12, r2, m), m, 12, 13, 14, 15);
  }

  lemma StepsAreRound1(r: R.Registers, m: seq<bv32>)
    requires R.IsBlock(m)
    ensures Steps(16, 32, r, m) == R.Round1(r, m)
  {
    hide Steps, R.Row;
    SixteenSteps(16, r, m);
    FourSteps(1, 16, r, m, 1, 6, 11, 0);
    var r1 := Steps(16, 20, r, m);
    FourSteps(1, 20, r1, m, 5, 10, 15, 4);
    var r2 := Steps(20, 24, r1, m);
    FourSteps(1, 24, r2, m, 9, 14, 3, 8);
    FourSteps(1, 28, Steps(24, 28, r2, m), m, 13, 2, 7, 12);
  }

  lemma StepsAreRound2(r: R.Registers, m: seq<bv32>)
    requires R.IsBlock(m)
    ensures Steps(32, 48, r, m) == R.Round2(r, m)
  {
    hide Steps, R.Row;
    SixteenSteps(32, r, m);
    FourSteps(2, 32, r, m, 5, 8, 11, 14);
    var r1 := Steps(32, 36, r, m);
    FourSteps(2, 36, r1, m, 1, 4, 7, 10);
    var r2 := Steps(36, 40, r1, m);
    FourSteps(2, 40, r2, m, 13, 0, 3, 6);
    FourSteps(2, 44, Steps(40, 44, r2, m), m, 9, 12, 15, 2);
  }

  lemma StepsAreRound3(r: R.Registers, m: seq<bv32>)
    requires R.IsBlock(m)
    ensures Steps(48, 64, r, m) == R.Round3(r, m)
  {
    hide Steps, R.Row;
    SixteenSteps(48, r, m);
    FourSteps(3, 48, r, m, 0, 7, 14, 5);
    var r1 := Steps(48, 52, r, m);
    FourSteps(3, 52, r1, m, 12, 3, 10, 1);
    var r2 := Steps(52, 56, r1, m);
    FourSteps(3, 56, r2, m, 8, 15, 6, 13);
    FourSteps(3, 60, Steps(56, 60, r2, m), m, 4, 11, 2, 9);
  }

  // The 64 steps are the four rounds.
  lemma LoopIsFourRounds(r: R.Registers, m: seq<bv32>)
    requires R.IsBlock(m)
    ensures Steps(0, 64, r, m) == R.Round3(R.Round2(R.Round1(R.Round0(r, m), m), m), m)
  {
    hide Steps, R.Round0, R.Round1, R.Round2, R.Round3;
    StepsAreRound0(r, m);
    var r1 := Steps(0, 16, r, m);
    StepsAreRound1(r1, m);
    var r2 := Steps(16, 32, r1, m);
    StepsAreRound2(r2, m);
    var r3 := Steps(32, 48, r2, m);
    StepsAreRound3(r3, m);
    StepsSplit(0, 16, 64, r, m);
    StepsSplit(16, 32, 64, r1, m);
    StepsSplit(32, 48, 64, r2, m);
  }
}
