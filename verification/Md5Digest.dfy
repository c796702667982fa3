// The digest as String+MD5.swift computes it, step by step, and that it is the one of RFC 1321.
module Md5Digest {
  import R = Rfc1321
  import opened Md5

  // ----- Padding -----

  // How far a length is from the next one that leaves eight bytes in its chunk.
  function Gap(n: nat, len: nat): nat
    requires len > 8
  {
    (2 * len - 8 - n % len) % len
  }

  lemma NextRemainder(n: nat, len: nat)
    requires len > 1
    ensures (n + 1) % len == if n % len == len - 1 then 0 else n % len + 1
  {
    var q, r := n / len, n % len;
    Remainder(n, len);
    if r == len - 1 {
      assert n + 1 == (q + 1) * len;
      RemainderOf(q + 1, 0, len);
    } else {
      assert n + 1 == q * len + (r + 1);
      RemainderOf(q, r + 1, len);
    }
  }

  lemma RemainderOf(q: nat, r: nat, len: nat)
    requires r < len
    ensures (q * len + r) % len == r
  {
    var n := q * len + r;
    var q0 := n / len;
    Remainder(n, len);
    MulOrder(q, q0, len);
    MulOrder(q0, q, len);
  }

  lemma Remainder(n: nat, len: nat)
    requires len > 0
    ensures n == n / len * len + n % len
  {
  }

  lemma MulOrder(a: nat, b: nat, len: nat)
    ensures a < b ==> a * len + len <= b * len
  {
    if a < b {
      var d := b - a - 1;
      assert b * len == (a + 1 + d) * len == a * len + len + d * len;
    }
  }

  lemma GapShrinks(n: nat, len: nat)
    requires len > 8
    ensures Gap(n, len) < len
    ensures Gap(n, len) == 0 <==> n % len == len - 8
    ensures n % len != len - 8 ==> Gap(n + 1, len) == Gap(n, len) - 1
  {
    var r := n % len;
    GapIs(n, len);
    GapIs(n + 1, len);
    NextRemainder(n, len);
  }

  lemma GapIs(n: nat, len: nat)
    requires len > 8
    ensures Gap(n, len) == if n % len <= len - 8 then len - 8 - n % len else 2 * len - 8 - n % len
  {
    var r := n % len;
    if r <= len - 8 {
      RemainderOf(1, len - 8 - r, len);
    } else {
      RemainderOf(0, 2 * len - 8 - r, len);
    }
  }

  // A byte 0x80, and zeros up to eight bytes before the end of a chunk.
  method Prepare(message: seq<bv8>, len: nat) returns (tmpMessage: seq<bv8>)
    requires len > 8
    ensures |message| < |tmpMessage| <= |message| + len && |tmpMessage| % len == len - 8
    ensures tmpMessage[..|message|] == message && tmpMessage[|message|] == 0x80
    ensures forall i :: |message| < i < |tmpMessage| ==> tmpMessage[i] == 0
  {
    tmpMessage := message + [0x80];
    var msgLength := |tmpMessage|;
    var counter := 0;
    GapShrinks(msgLength, len);
    while msgLength % len != len - 8
      invariant msgLength == |tmpMessage| + counter && counter + Gap(msgLength, len) < len
      decreases Gap(msgLength, len)
    {
      GapShrinks(msgLength, len);
      counter := counter + 1;
      msgLength := msgLength + 1;
    }
    tmpMessage := tmpMessage + seq(counter, _ => 0);
  }

  // ----- Length -----

  // The bytes of a number as it is in memory, in the opposite order.
  method ArrayOfBytes(value: nat, totalBytes: nat) returns (bytes: array<bv8>)
    requires totalBytes <= 8
    ensures fresh(bytes) && bytes.Length == totalBytes
    ensures forall k :: 0 <= k < totalBytes ==> bytes[totalBytes - 1 - k] == R.LowFirst(value, totalBytes)[k]
  {
    bytes := new bv8[totalBytes];
    var rest := value;
    var j := 0;
    while j < totalBytes
      invariant j <= totalBytes
      invariant forall k :: 0 <= k < j ==> bytes[totalBytes - 1 - k] == R.LowFirst(value, totalBytes)[k]
      invariant R.LowFirst(rest, totalBytes - j) == R.LowFirst(value, totalBytes)[j..]
    {
      ghost var tail := R.LowFirst(rest, totalBytes - j);
      bytes[totalBytes - 1 - j] := (rest % 256) as bv8;
      assert tail[0] == R.LowFirst(value, totalBytes)[j] && tail[1..] == R.LowFirst(value, totalBytes)[j + 1..];
      assert tail[1..] == R.LowFirst(rest / 256, totalBytes - j - 1);
      rest := rest / 256;
      j := j + 1;
    }
  }

  function Reversed(s: seq<bv8>): (r: seq<bv8>)
    ensures |r| == |s| && forall i :: 0 <= i < |s| ==> r[i] == s[|s| - 1 - i]
  {
    if s == [] then [] else Reversed(s[1..]) + [s[0]]
  }

  // ----- Chunks and words -----

  class BytesIterator {
    const chunkSize: nat
    const data: seq<bv8>
    var offset: nat

    constructor (chunkSize: nat, data: seq<bv8>)
      ensures this.chunkSize == chunkSize && this.data == data && offset == 0
    {
      this.chunkSize, this.data, offset := chunkSize, data, 0;
    }

    // The next chunk; the last one is empty, for nil.
    method Next() returns (result: seq<bv8>)
      requires offset <= |data|
      modifies this
      ensures offset <= |data| && offset == old(offset) + |result|
      ensures result == data[old(offset)..offset]
      ensures |result| == if |data| - old(offset) < chunkSize then |data| - old(offset) else chunkSize
    {
      var end := if chunkSize < |data| - offset then chunkSize else |data| - offset;
      result := data[offset..offset + end];
      offset := offset + |result|;
    }
  }

  function LittleWord(b: seq<bv8>): bv32
    requires |b| == 4
  {
    ((b[3] as bv32) << 24) | ((b[2] as bv32) << 16) | ((b[1] as bv32) << 8) | (b[0] as bv32)
  }

  lemma LittleWordIsWord(b: seq<bv8>)
    requires |b| == 4
    ensures LittleWord(b) == R.Word(b)
  {
  }

  method ToUInt32Array(slice: seq<bv8>) returns (result: seq<bv32>)
    requires |slice| == 64
    ensures result == R.Words(slice)
  {
    hide LittleWord, R.Word;
    result := [];
    var idx := 0;
    while idx < |slice|
      invariant idx <= 64 && idx % 4 == 0 && |result| == idx / 4
      invariant forall j :: 0 <= j < |result| ==> result[j] == R.Word(slice[4 * j..4 * j + 4])
    {
      LittleWordIsWord(slice[idx..idx + 4]);
      result := result + [LittleWord(slice[idx..idx + 4])];
      idx := idx + 4;
    }
  }

  // ----- The digest -----

  // So many bytes are whole chunks.
  predicate IsWhole(n: nat) {
    n % 64 == 0
  }

  lemma NothingIsWhole()
    ensures IsWhole(0)
  {
  }

  lemma NextWhole(n: nat, total: nat)
    requires IsWhole(n) && IsWhole(total) && n <= total
    ensures n == total || (n + 64 <= total && IsWhole(n + 64))
  {
  }

  lemma PreparedIsPadded(message: seq<bv8>, prepared: seq<bv8>)
    requires |message| < |prepared| <= |message| + 64 && |prepared| % 64 == 56
    requires prepared[..|message|] == message && prepared[|message|] == 0x80
    requires forall i :: |message| < i < |prepared| ==> prepared[i] == 0
    ensures R.IsPadded(message, prepared)
  {
    assert |prepared| == |prepared| / 64 * 64 + 56;
  }

  lemma ReversedIs(bytes: seq<bv8>, low: seq<bv8>)
    requires |bytes| == |low| && forall k :: 0 <= k < |low| ==> bytes[|low| - 1 - k] == low[k]
    ensures Reversed(bytes) == low
  {
    forall k | 0 <= k < |low| ensures Reversed(bytes)[k] == low[k] {
      assert Reversed(bytes)[k] == bytes[|low| - 1 - k];
    }
  }

  // Steps 1 and 2: the message is completed as the standard says.
  lemma CompletedMessage(message: seq<bv8>, prepared: seq<bv8>, bytes: seq<bv8>)
    requires |message| < |prepared| <= |message| + 64 && |prepared| % 64 == 56
    requires prepared[..|message|] == message && prepared[|message|] == 0x80
    requires forall i :: |message| < i < |prepared| ==> prepared[i] == 0
    requires |bytes| == 8 && forall k :: 0 <= k < 8 ==> bytes[7 - k] == R.LowFirst(|message| * 8, 8)[k]
    ensures var p := prepared + Reversed(bytes);
            R.IsComplete(message, p) && IsWhole(|p|)
  {
    hide R.LowFirst, R.IsPadded, Reversed;
    var p := prepared + Reversed(bytes);
    PreparedIsPadded(message, prepared);
    ReversedIs(bytes, R.LowFirst(|message| * 8, 8));
    assert p[..|p| - 8] == prepared && p[|p| - 8..] == Reversed(bytes);
  }

  lemma OneChunk(r: R.Registers, p: seq<bv8>)
    requires |p| >= 64
    ensures R.ProcessAll(r, p) == R.ProcessAll(R.Process(r, R.Words(p[..64])), p[64..])
  {
    hide R.Process, R.Words;
  }

  lemma NoChunk(r: R.Registers, p: seq<bv8>)
    requires |p| < 64
    ensures R.ProcessAll(r, p) == r
  {
  }

  lemma OutputIsDigest(message: seq<bv8>, p: seq<bv8>, a: bv32, b: bv32, c: bv32, d: bv32)
    requires R.IsComplete(message, p) && R.Registers(a, b, c, d) == R.ProcessAll(R.INITIAL, p)
    ensures var result := R.WordBytes(a) + R.WordBytes(b) + R.WordBytes(c) + R.WordBytes(d);
            |result| == 16 && R.IsDigest(message, result)
  {
    hide R.IsComplete, R.ProcessAll;
    assert R.Output(R.ProcessAll(R.INITIAL, p)) == R.WordBytes(a) + R.WordBytes(b) + R.WordBytes(c) + R.WordBytes(d);
  }

  class MD5 {
    const message: seq<bv8>

    constructor (message: seq<bv8>)
      ensures this.message == message
    {
      this.message := message;
    }

    // The main loop on one chunk.
    method ProcessChunk(M: seq<bv32>, hh: array<bv32>)
      requires R.IsBlock(M) && hh.Length == 4
      modifies hh
      ensures R.Registers(hh[0], hh[1], hh[2], hh[3]) == R.Process(old(R.Registers(hh[0], hh[1], hh[2], hh[3])), M)
    {
      hide Added, R.Plus, Mix, Rotated, RotateLeft, R.Round0, R.Round1, R.Round2, R.Round3;
      var A, B, C, D := hh[0], hh[1], hh[2], hh[3];
      ghost var r := R.Registers(A, B, C, D);
      for j := 0 to 64
        invariant Steps(j, 64, R.Registers(A, B, C, D), M) == Steps(0, 64, r, M)
      {
        var F := Mix(j, B, C, D);
        var g := WordNumber(j);
        var dTemp := D;
        D := C;
        C := B;
        B := Added(B, RotateLeft(Rotated(A, F, SINES[j], M[g]), SHIFTS[j]));
        A := dTemp;
      }
      LoopIsFourRounds(r, M);
      SumsAgree(r.a, A, 0, 0);
      SumsAgree(r.b, B, 0, 0);
      SumsAgree(r.c, C, 0, 0);
      SumsAgree(r.d, D, 0, 0);
      hh[0] := Added(hh[0], A);
      hh[1] := Added(hh[1], B);
      hh[2] := Added(hh[2], C);
      hh[3] := Added(hh[3], D);
    }

    // The number of bits fits a signed word of 64 bits.
    method Calculate() returns (result: seq<bv8>)
      requires |message| * 8 < 0x8000_0000_0000_0000
      ensures |result| == 16 && R.IsDigest(message, result)
    {
      hide R.Process, R.Words, R.LowFirst, R.IsComplete, R.IsPadded, Reversed, R.WordBytes, R.IsDigest, R.Output, R.ProcessAll, IsWhole;
      var tmpMessage := Prepare(message, 64);
      var lengthBytes := ArrayOfBytes(|message| * 8, 8);
      CompletedMessage(message, tmpMessage, lengthBytes[..]);
      tmpMessage := tmpMessage + Reversed(lengthBytes[..]);
      var hh := new bv32[4] [0x67452301, 0xefcdab89, 0x98badcfe, 0x10325476];
      var chunks := new BytesIterator(64, tmpMessage);
      NothingIsWhole();
      NextWhole(0, |tmpMessage|);
      var chunk := chunks.Next();
      while |chunk| > 0
        invariant fresh(hh) && fresh(chunks) && chunks.data == tmpMessage && chunks.chunkSize == 64
        invariant |chunk| <= chunks.offset <= |tmpMessage| && IsWhole(chunks.offset) && (|chunk| == 64 || |chunk| == 0)
        invariant chunk == tmpMessage[chunks.offset - |chunk|..chunks.offset]
        invariant chunk == [] ==> chunks.offset == |tmpMessage|
        invariant R.ProcessAll(R.Registers(hh[0], hh[1], hh[2], hh[3]), tmpMessage[chunks.offset - |chunk|..])
               == R.ProcessAll(R.INITIAL, tmpMessage)
        decreases |tmpMessage| - chunks.offset + |chunk|
      {
        var M := ToUInt32Array(chunk);
        ghost var rest := tmpMessage[chunks.offset - |chunk|..];
        assert rest[..64] == chunk && rest[64..] == tmpMessage[chunks.offset..];
        OneChunk(R.Registers(hh[0], hh[1], hh[2], hh[3]), rest);
        ProcessChunk(M, hh);
        NextWhole(chunks.offset, |tmpMessage|);
        chunk := chunks.Next();
      }
      NoChunk(R.Registers(hh[0], hh[1], hh[2], hh[3]), tmpMessage[chunks.offset..]);
      result := R.WordBytes(hh[0]) + R.WordBytes(hh[1]) + R.WordBytes(hh[2]) + R.WordBytes(hh[3]);
      OutputIsDigest(message, tmpMessage, hh[0], hh[1], hh[2], hh[3]);
    }
  }

  // ----- What the completion of a message determines -----

  // A message has one completion only, so it has one digest.
  lemma CompletionIsUnique(message: seq<bv8>, p: seq<bv8>, q: seq<bv8>)
    requires R.IsComplete(message, p) && R.IsComplete(message, q)
    ensures p == q
  {
    hide R.LowFirst;
    var a, b := p[..|p| - 8], q[..|q| - 8];
    assert |a| == |b|;
    forall i | 0 <= i < |a| ensures a[i] == b[i] {
      if i < |message| { assert a[..|message|][i] == b[..|message|][i]; }
    }
    assert p == a + p[|p| - 8..] && q == b + q[|q| - 8..];
  }

  lemma DigestIsUnique(message: seq<bv8>, d: seq<bv8>, e: seq<bv8>)
    requires R.IsDigest(message, d) && R.IsDigest(message, e)
    ensures d == e
  {
    hide R.IsComplete, R.ProcessAll, R.Output;
    var p :| R.IsComplete(message, p) && d == R.Output(R.ProcessAll(R.INITIAL, p));
    var q :| R.IsComplete(message, q) && e == R.Output(R.ProcessAll(R.INITIAL, q));
    CompletionIsUnique(message, p, q);
  }

  // Two messages with the same completion are the same, whatever their length: the last byte that is
  // not zero before the length ends the message.
  lemma CompletionIsInjective(m: seq<bv8>, n: seq<bv8>, p: seq<bv8>)
    requires R.IsComplete(m, p) && R.IsComplete(n, p)
    ensures m == n
  {
    hide R.LowFirst;
    var q := p[..|p| - 8];
    assert q[|m|] == 0x80 && q[|n|] == 0x80;
    assert m == q[..|m|] && n == q[..|n|];
  }
}
