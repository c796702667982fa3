// What the decoder takes from bytes that need not come from an encoder, and what it refuses.
module Acceptance {
  import opened Options
  import opened Wire
  import opened WireFacts
  import opened Descriptor
  import opened Encoding
  import opened Decoding
  import opened Scalars
  import opened PackedRuns
  import opened Concatenation

  // ----- Varints -----

  // The first byte without its top bit is the n-th.
  predicate EndsAt(bs: bytes, n: nat) {
    n < |bs| && bs[n] < 128 && forall i :: 0 <= i < n ==> bs[i] >= 128
  }

  // The number whose digits to the base 128 are the low seven bits of the bytes up to the n-th.
  function Digits(bs: bytes, n: nat): nat
    requires n < |bs|
    decreases n
  {
    bs[0] % 128 + if n == 0 then 0 else 128 * Digits(bs[1..], n - 1)
  }

  lemma {:induction false} DigitsRead(bs: bytes, n: nat, k: nat)
    requires EndsAt(bs, n)
    ensures VarintDigits(bs, 7 * k) == if n + k <= 9 then Read(Digits(bs, n), bs[n + 1..]) else Fail
    decreases n
  {
    if n > 0 {
      assert EndsAt(bs[1..], n - 1);
      DigitsRead(bs[1..], n - 1, k + 1);
      assert bs[1..][n..] == bs[n + 1..];
    }
  }

  // At most ten bytes are read, canonical or not, and the number is cut to 64 bits.
  lemma VarintExactly(bs: bytes, n: nat)
    requires EndsAt(bs, n)
    ensures DecodeVarint(bs) == if n <= 9 then Read(Digits(bs, n) % TWO64, bs[n + 1..]) else Fail
  {
    DigitsRead(bs, n, 0);
  }

  // Any number of bytes is skipped.
  lemma {:induction false} SkipExactly(bs: bytes, n: nat)
    requires EndsAt(bs, n)
    ensures SkipVarint(bs) == Read((), bs[n + 1..])
    decreases n
  {
    if n > 0 {
      assert EndsAt(bs[1..], n - 1);
      SkipExactly(bs[1..], n - 1);
      assert bs[1..][n..] == bs[n + 1..];
    }
  }

  // A number without its last byte is not read by anyone.
  lemma {:induction false} UnendedFails(bs: bytes, result: nat, bitpos: nat)
    requires forall i :: 0 <= i < |bs| ==> bs[i] >= 128
    ensures VarintDigits(bs, bitpos) == Fail && SkipVarint(bs) == Fail && Varint32Loop(bs, result, bitpos) == Fail
    decreases |bs|
  {
    hide Varint32Step;
    if bs != [] {
      var next := Varint32Step(result, bitpos, bs[0]);
      UnendedFails(bs[1..], if next.Some? then next.value else 0, (bitpos + 7) % 256);
      UnendedFails(bs[1..], 0, bitpos + 7);
    }
  }

  lemma UnendedVarint(bs: bytes)
    requires forall i :: 0 <= i < |bs| ==> bs[i] >= 128
    ensures DecodeVarint(bs) == Fail && SkipVarint(bs) == Fail && DecodeVarint32(bs) == Fail
  {
    hide Varint32Loop, VarintDigits;
    UnendedFails(bs, 0, 0);
    if bs != [] { UnendedFails(bs[1..], bs[0] % 128, 7); }
  }

  // ----- Numbers -----

  // A bool is true for every number but zero, if 32 bits hold it.
  lemma BoolOfNumber(f: Field, v: nat, rest: bytes)
    requires f.ltype.Bool? && v < TWO63
    ensures DecodeScalar(f, EncodeVarint(v) + rest) == if v < TWO32 then Read(Num(if v == 0 then 0 else 1), rest) else Fail
  {
    hide DecodeVarint32, EncodeVarint;
    if v < TWO32 { Varint32OfEncoding(v, rest); } else { Varint32Ranges(v, rest); }
  }

  // ----- Packed arrays -----

  function Joined(chunks: seq<bytes>): bytes {
    if chunks == [] then [] else chunks[0] + Joined(chunks[1..])
  }

  // Each chunk is one number.
  predicate Numbers(f: Field, chunks: seq<bytes>, vs: seq<Value>) {
    |chunks| == |vs| && forall k :: 0 <= k < |vs| ==> DecodeScalar(f, chunks[k]) == Read(vs[k], [])
  }

  // A packed run of any numbers: they are appended if there is room for all of them.
  lemma {:induction false} RunIsTaken(f: Field, a: Array, chunks: seq<bytes>, vs: seq<Value>)
    requires Packable(f.ltype) && Numbers(f, chunks, vs) && a.count <= f.arraySize
    ensures DecodePacked(f, a, Joined(chunks)) ==
            if a.count + |vs| <= f.arraySize then Some(Array(PutAll(a.entries, a.count, vs), a.count + |vs|)) else None
    decreases |vs|
  {
    hide DecodeScalar;
    if vs != [] {
      var rest := Joined(chunks[1..]);
      ScalarStable(f, chunks[0], rest);
      assert [] + rest == rest;
      assert Numbers(f, chunks[1..], vs[1..]);
      if a.count < f.arraySize { RunIsTaken(f, Array(PutEntry(a.entries, a.count, vs[0]), a.count + 1), chunks[1..], vs[1..]); }
    }
  }

  // Nothing else is taken: a run with a number cut short, or with something behind its numbers, fails.
  lemma {:induction false} OnlyNumbersAreTaken(f: Field, a: Array, bs: bytes) returns (chunks: seq<bytes>, vs: seq<Value>)
    requires Packable(f.ltype) && DecodePacked(f, a, bs).Some? && a.count <= f.arraySize
    ensures Numbers(f, chunks, vs) && bs == Joined(chunks) && a.count + |vs| <= f.arraySize
    decreases |bs|
  {
    hide DecodeScalar;
    if bs == [] {
      chunks, vs := [], [];
    } else {
      var r := DecodeScalar(f, bs);
      ScalarIsPrefix(f, bs);
      var first := bs[..|bs| - |r.rest|];
      var more, ws := OnlyNumbersAreTaken(f, Array(PutEntry(a.entries, a.count, r.value), a.count + 1), r.rest);
      chunks, vs := [first] + more, [r.value] + ws;
      assert bs == first + r.rest;
    }
  }

  // What a number is read from decodes to it alone.
  lemma ScalarIsPrefix(f: Field, bs: bytes)
    requires Packable(f.ltype) && DecodeScalar(f, bs).Read?
    ensures var r := DecodeScalar(f, bs);
            bs == bs[..|bs| - |r.rest|] + r.rest && DecodeScalar(f, bs[..|bs| - |r.rest|]) == Read(r.value, [])
  {
    var r := DecodeScalar(f, bs);
    if f.ltype.Bool? {
      Varint32Prefix(bs);
    } else if f.ltype.Fixed32? || f.ltype.Fixed64? {
      var w := FixedWidth(f.ltype);
      assert bs[..|bs| - |r.rest|] == bs[..w] && bs[..w][..w] == bs[..w] && bs[..w][w..] == [];
    } else {
      var p := VarintPrefix(bs, 0);
      assert p == bs[..|bs| - |r.rest|];
    }
  }

  // One more digit in front.
  lemma DigitsStep(b: byte, bs: bytes, bitpos: nat)
    requires b >= 128 && bitpos < 64
    ensures VarintDigits([b] + bs, bitpos) == match VarintDigits(bs, bitpos + 7)
                                              case Fail => Fail
                                              case Read(high, rest) => Read(b - 128 + 128 * high, rest)
  {
    assert ([b] + bs)[1..] == bs;
  }

  lemma {:induction false} VarintPrefix(bs: bytes, bitpos: nat) returns (p: bytes)
    requires VarintDigits(bs, bitpos).Read?
    ensures bs == p + VarintDigits(bs, bitpos).rest
    ensures VarintDigits(p, bitpos) == Read(VarintDigits(bs, bitpos).value, [])
    decreases |bs|
  {
    NoDigits(bs, bitpos);
    hide VarintDigits;
    if bs[0] < 128 {
      p := [bs[0]];
      NoDigits(p, bitpos);
    } else {
      assert bs == [bs[0]] + bs[1..];
      DigitsStep(bs[0], bs[1..], bitpos);
      var q := VarintPrefix(bs[1..], bitpos + 7);
      DigitsStep(bs[0], q, bitpos);
      p := [bs[0]] + q;
    }
  }

  lemma NoDigits(bs: bytes, bitpos: nat)
    ensures VarintDigits(bs, bitpos).Read? ==> bs != [] && bitpos < 64
    ensures bs != [] && bitpos < 64 && bs[0] < 128 ==> VarintDigits(bs, bitpos) == Read(bs[0], bs[1..])
  {
  }

  lemma {:induction false} LoopPrefix(bs: bytes, result: nat, bitpos: nat)
    requires Varint32Loop(bs, result, bitpos).Read?
    ensures var r := Varint32Loop(bs, result, bitpos);
            bs == bs[..|bs| - |r.rest|] + r.rest && Varint32Loop(bs[..|bs| - |r.rest|], result, bitpos) == Read(r.value, [])
    decreases |bs|
  {
    hide Varint32Step;
    var r := Varint32Loop(bs, result, bitpos);
    var p := bs[..|bs| - |r.rest|];
    if bs[0] >= 128 {
      LoopPrefix(bs[1..], Varint32Step(result, bitpos, bs[0]).value, (bitpos + 7) % 256);
      assert p[1..] == bs[1..][..|bs[1..]| - |r.rest|];
    }
  }

  lemma Varint32Prefix(bs: bytes)
    requires DecodeVarint32(bs).Read?
    ensures var r := DecodeVarint32(bs);
            bs == bs[..|bs| - |r.rest|] + r.rest && DecodeVarint32(bs[..|bs| - |r.rest|]) == Read(r.value, [])
  {
    hide Varint32Loop;
    var r := DecodeVarint32(bs);
    var p := bs[..|bs| - |r.rest|];
    if bs[0] >= 128 {
      LoopPrefix(bs[1..], bs[0] % 128, 7);
      assert p[1..] == bs[1..][..|bs[1..]| - |r.rest|];
    }
  }

  // ----- Records -----

  // Fields other than packable arrays do not look at the wire type.
  lemma WireTypeIsIgnored(d: Desc, st: State, i: nat, a: WireType, b: WireType, bs: bytes)
    requires i < |d.fields| && !(d.fields[i].htype.Repeated? && Packable(d.fields[i].ltype))
    ensures DecodeField(d, st, i, a, bs) == DecodeField(d, st, i, b, bs)
  {
    hide DecodeValue;
  }

  // No proper part of a record is taken for the end of a message.
  lemma CutRecordFails(d: Desc, st: State, a: bytes, n: nat)
    requires DecodeTag(a).Tag? && 0 < n < |a|
    requires var t := DecodeTag(a);
             DecodeRecord(d, st, t.tag, t.wireType, t.rest).Read? && DecodeRecord(d, st, t.tag, t.wireType, t.rest).rest == []
    ensures DecodeRecords(d, st, a[..n]) == Fail
  {
    hide DecodeTag, DecodeRecord;
    var p, q := a[..n], a[n..];
    assert p + q == a;
    var t := DecodeTag(p);
    if !t.TagFail? {
      DecodeTagStable(p, q);
      if t.Tag? && DecodeRecord(d, st, t.tag, t.wireType, t.rest).Read? { RecordStable(d, st, t.tag, t.wireType, t.rest, q); }
    }
  }

  // A message that is cut off inside a record is refused.
  lemma TruncationFails(d: Desc, m: Message, a: bytes, b: bytes, n: nat)
    requires DecodeRecords(d, Start(m), a).Read? && !DecodeRecords(d, Start(m), a).value.stopped
    requires DecodeTag(b).Tag? && 0 < n < |b|
    requires var t := DecodeTag(b);
             var r := DecodeRecord(d, DecodeRecords(d, Start(m), a).value, t.tag, t.wireType, t.rest);
             r.Read? && r.rest == []
    ensures DecodeMessage(d, m, a + b[..n]) == Fail
  {
    hide DecodeTag, DecodeRecord, DecodeRecords;
    CutRecordFails(d, DecodeRecords(d, Start(m), a).value, b, n);
    RecordsConcatenate(d, Start(m), a, b[..n]);
  }

  // ----- Zero tags -----

  // What follows a zero tag is not looked at, in an embedded message either.
  lemma ZeroTagEnds(d: Desc, m: Message, a: bytes, junk: bytes)
    requires DecodeRecords(d, Start(m), a).Read? && !DecodeRecords(d, Start(m), a).value.stopped
    ensures DecodeMessage(d, m, a + ([0] + junk)) == if DecodeMessage(d, m, a).Fail? then Fail else Read(DecodeMessage(d, m, a).value, junk)
  {
    RecordsConcatenate(d, Start(m), a, [0] + junk);
    var st := DecodeRecords(d, Start(m), a).value;
    assert ([0] + junk)[1..] == junk;
    assert DecodeTag([0] + junk) == TagZero(junk);
    assert DecodeRecords(d, st, [0] + junk) == Read(st.(stopped := true), junk);
  }

  lemma ZeroTagInside(f: Field, was: Value, a: bytes, junk: bytes, rest: bytes)
    requires f.ltype.Submessage? && |a| + |junk| + 1 < TWO32
    requires var m := if f.htype.Repeated? then Defaults(f.sub) else AsMessage(f.sub, was);
             DecodeRecords(f.sub, Start(m), a).Read? && !DecodeRecords(f.sub, Start(m), a).value.stopped
    ensures DecodeValue(f, was, EncodeDelimited(a + ([0] + junk)) + rest) == DecodeValue(f, was, EncodeDelimited(a) + rest)
  {
    hide DecodeMessage, LengthDelimited, EncodeDelimited, DecodeRecords;
    var m := if f.htype.Repeated? then Defaults(f.sub) else AsMessage(f.sub, was);
    ZeroTagEnds(f.sub, m, a, junk);
    DelimitedRoundTrip(a, rest);
    DelimitedRoundTrip(a + ([0] + junk), rest);
  }

  // Tag zero with another wire type than zero is no end.  It is skipped like an unknown field, but a table
  // without fields reads a number whatever the wire type is.
  lemma ZeroTagIsUnknown(d: Desc, st: State, wireType: WireType, v: nat, rest: bytes)
    requires wireType > 0 && v < TWO32 && Find(d, 0) == |d.fields|
    ensures DecodeTag(EncodeTag(0, wireType) + (EncodeVarint(v) + rest)) == Tag(0, wireType, EncodeVarint(v) + rest)
    ensures d.fields == [] ==> DecodeRecord(d, st, 0, wireType, EncodeVarint(v) + rest) == Read(st, rest)
    ensures d.fields != [] && wireType !in {1, 2, 5} ==> DecodeRecord(d, st, 0, wireType, EncodeVarint(v) + rest) == Fail
    ensures d.fields != [] && wireType == WT_STRING && v <= |rest| ==>
              DecodeRecord(d, st, 0, wireType, EncodeVarint(v) + rest) == Read(st, rest[v..])
  {
    hide EncodeVarint, DecodeVarint32;
    Varint32OfEncoding(v, rest);
    Varint32OfEncoding(wireType, EncodeVarint(v) + rest);
  }

  // ----- Fixed-count arrays -----

  // How many numbers there are in a packed run.
  function CountNumbers(f: Field, bs: bytes): nat
    decreases |bs|
  {
    if bs == [] then 0
    else match DecodeScalar(f, bs) case Fail => 0 case Read(_, rest) => 1 + CountNumbers(f, rest)
  }

  // How many entries the records have for the i-th field.
  function Entries(d: Desc, st: State, bs: bytes, i: nat): nat
    requires i < |d.fields|
    decreases |bs|
  {
    if bs == [] || !DecodeTag(bs).Tag? then 0
    else
      var t := DecodeTag(bs);
      match DecodeRecord(d, st, t.tag, t.wireType, t.rest)
      case Fail => 0
      case Read(st', rest) => (if Find(d, t.tag) == i then InRecord(d.fields[i], t.wireType, t.rest) else 0) + Entries(d, st', rest, i)
  }

  function InRecord(f: Field, wireType: WireType, bs: bytes): nat {
    if wireType == WT_STRING && Packable(f.ltype) then
      match LengthDelimited(bs) case Fail => 0 case Read(payload, _) => CountNumbers(f, payload)
    else 1
  }

  // What has been received of the i-th field since its last full round.
  function Pending(st: State, i: nat): nat { if st.fixedField == i then st.fixedCount else 0 }

  lemma {:induction false} RunIsCounted(f: Field, a: Array, bs: bytes)
    requires DecodePacked(f, a, bs).Some?
    ensures DecodePacked(f, a, bs).value.count == a.count + CountNumbers(f, bs)
    decreases |bs|
  {
    hide DecodeScalar;
    if bs != [] {
      var r := DecodeScalar(f, bs);
      RunIsCounted(f, Array(PutEntry(a.entries, a.count, r.value), a.count + 1), r.rest);
    }
  }

  lemma RecordIsCounted(d: Desc, st: State, i: nat, tag: nat, wireType: WireType, bs: bytes)
    requires i < |d.fields| && FixedCount(d.fields[i]) && d.fields[i].arraySize > 0
    requires DecodeRecord(d, st, tag, wireType, bs).Read?
    ensures var u := DecodeRecord(d, st, tag, wireType, bs).value;
            var more := if Find(d, tag) == i then InRecord(d.fields[i], wireType, bs) else 0;
            Pending(u, i) == Pending(st, i) + more || (Pending(st, i) == d.fields[i].arraySize && Pending(u, i) == more)
  {
    hide DecodeValue, DecodePacked, DecodeEntries, InRecord, SkipField;
    var k := Find(d, tag);
    if k < |d.fields| {
      var f, st1 := d.fields[k], Enter(d, st, k).value;
      if f.htype.Repeated? {
        EntriesCounted(f, Current(st1, f), wireType, bs);
      }
    }
  }

  lemma EntriesCounted(f: Field, a: Array, wireType: WireType, bs: bytes)
    requires DecodeEntries(f, a, wireType, bs).Read?
    ensures DecodeEntries(f, a, wireType, bs).value.count == a.count + InRecord(f, wireType, bs)
  {
    hide DecodeValue, DecodePacked;
    if wireType == WT_STRING && Packable(f.ltype) { RunIsCounted(f, a, LengthDelimited(bs).value); }
  }

  lemma {:induction false} EntriesAreCounted(d: Desc, st: State, bs: bytes, i: nat)
    requires i < |d.fields| && FixedCount(d.fields[i]) && d.fields[i].arraySize > 0 && DecodeRecords(d, st, bs).Read?
    ensures (Pending(st, i) + Entries(d, st, bs, i)) % d.fields[i].arraySize
         == Pending(DecodeRecords(d, st, bs).value, i) % d.fields[i].arraySize
    decreases |bs|
  {
    hide DecodeRecord, DecodeTag, InRecord;
    if bs != [] && DecodeTag(bs).Tag? {
      var t := DecodeTag(bs);
      var r := DecodeRecord(d, st, t.tag, t.wireType, t.rest);
      RecordIsCounted(d, st, i, t.tag, t.wireType, t.rest);
      EntriesAreCounted(d, r.value, r.rest, i);
      if Pending(st, i) == d.fields[i].arraySize { FullRound(Entries(d, st, bs, i), d.fields[i].arraySize); }
    }
  }

  lemma FullRound(x: nat, n: nat)
    requires n > 0
    ensures (n + x) % n == x % n
  {
    var q, r := x / n, x % n;
    assert n + x == (q + 1) * n + r;
    Quotient(n + x, q + 1, r, n);
  }

  lemma Quotient(x: nat, q: nat, r: nat, n: nat)
    requires n > 0 && x == q * n + r && r < n
    ensures x % n == r
  {
    var d := x / n - q;
    assert x == x / n * n + x % n;
    assert d * n == r - x % n;
    Multiples(d, n);
  }

  lemma Multiples(d: int, n: nat)
    requires n > 0
    ensures (d >= 1 ==> d * n >= n) && (d <= -1 ==> d * n <= 0 - n)
  {
    if d >= 1 { assert (d - 1) * n >= 0; }
    if d <= -1 { assert (-1 - d) * n >= 0; }
  }

  // A message is accepted only if each fixed-count array was received in full rounds.
  lemma FixedArraysAreComplete(d: Desc, m: Message, bs: bytes, i: nat)
    requires i < |d.fields| && FixedCount(d.fields[i]) && d.fields[i].arraySize > 0 && DecodeMessage(d, m, bs).Read?
    ensures Entries(d, Start(m), bs, i) % d.fields[i].arraySize == 0
  {
    hide DecodeRecords, Entries;
    EntriesAreCounted(d, Start(m), bs, i);
    var u := DecodeRecords(d, Start(m), bs).value;
    if Pending(u, i) == d.fields[i].arraySize { FullRound(0, d.fields[i].arraySize); }
  }
}
