// The form of what pb_encode writes, byte by byte, with the examples of the Protocol Buffers encoding
// guide, and which structs it refuses.
module WireFormat {
  import opened Options
  import opened Wire
  import opened WireFacts
  import opened Descriptor
  import opened Encoding
  import opened Scalars
  import opened Acceptance

  // ----- Numbers -----

  // The bytes of a varint are its digits to the base 128, the lowest first; only the last one has no top
  // bit.
  lemma {:induction false} VarintIsDigits(v: nat)
    ensures var bs := EncodeVarint(v);
            EndsAt(bs, |bs| - 1) && Digits(bs, |bs| - 1) == v
    decreases v
  {
    hide Digits, EndsAt;
    if v >= 128 {
      VarintIsDigits(v / 128);
      OneMoreDigit(v % 128 + 128, EncodeVarint(v / 128));
    } else {
      OneDigit(v);
    }
  }

  lemma OneDigit(b: byte)
    requires b < 128
    ensures EndsAt([b], 0) && Digits([b], 0) == b
  {
  }

  lemma OneMoreDigit(b: byte, bs: bytes)
    requires b >= 128 && bs != [] && EndsAt(bs, |bs| - 1)
    ensures EndsAt([b] + bs, |bs|) && Digits([b] + bs, |bs|) == b - 128 + 128 * Digits(bs, |bs| - 1)
  {
    assert ([b] + bs)[1..] == bs;
    forall i | 0 <= i < |bs| ensures ([b] + bs)[i] >= 128 {
      if i > 0 { assert ([b] + bs)[i] == bs[i - 1]; }
    }
  }

  function Power256(i: nat): (p: nat)
    ensures p > 0
  {
    if i == 0 then 1 else 256 * Power256(i - 1)
  }

  // Fixed-width numbers are little-endian, negative ones in two's complement.
  lemma {:induction false} FixedByte(v: int, width: nat, i: nat)
    requires i < width
    ensures EncodeFixed(v, width)[i] == v / Power256(i) % 256
    decreases width
  {
    if i > 0 {
      FixedByte(v / 256, width - 1, i - 1);
      DivideTwice(v, Power256(i - 1));
    }
  }

  lemma DivideTwice(v: int, p: nat)
    requires p > 0
    ensures v / 256 / p == v / (256 * p)
  {
    var q := v / 256 / p;
    var r := v / 256 % p;
    assert v == 256 * (v / 256) + v % 256 && v / 256 == p * q + r;
    var low := 256 * r + v % 256;
    assert v == (256 * p) * q + low by { assert 256 * (p * q) == (256 * p) * q; }
    assert 0 <= low < 256 * p by { assert 256 * r <= 256 * (p - 1); }
    QuotientIs(v, 256 * p, q, low);
  }

  lemma QuotientIs(v: int, n: nat, q: int, r: int)
    requires n > 0 && v == n * q + r && 0 <= r < n
    ensures v / n == q
  {
    var k := v / n - q;
    assert v == n * (v / n) + v % n;
    assert n * k == r - v % n;
    Multiples(k, n);
    assert k * n == n * k;
  }

  // ----- Texts -----

  // A string ends at its terminator, and at the end of its buffer if it has none.
  lemma {:induction false} StringEnds(data: bytes, size: nat)
    ensures var s := StringBytes(data, size);
            && |s| <= size && s <= data && 0 !in s
            && (|s| < size && |s| < |data| ==> data[|s|] == 0)
    decreases data
  {
    if data != [] && data[0] != 0 {
      if size > 0 { StringEnds(data[1..], size - 1); }
      CStringParts(data);
    }
  }

  lemma {:induction false} CStringParts(data: bytes)
    ensures CString(data) <= data && 0 !in CString(data)
    ensures data != [] && data[0] != 0 ==> CString(data) == [data[0]] + CString(data[1..])
    decreases data
  {
    if data != [] && data[0] != 0 { CStringParts(data[1..]); }
  }

  // ----- What is refused -----

  // Arrays within their capacity and bytes within their buffers, wherever something is written.
  predicate Encodable(d: Desc, m: Message)
    decreases d, 1
  {
    forall i :: 0 <= i < |d.fields| ==> SlotEncodable(d.fields[i], SlotAt(m, d.fields[i]))
  }

  predicate SlotEncodable(f: Field, s: Slot)
    decreases f, 1
  {
    match f.htype
    case Required => ValueEncodable(f, ValueOf(f, s))
    case Optional => (if f.counted then s.Maybe? && s.has else !IsDefault(f, s)) ==> ValueEncodable(f, ValueOf(f, s))
    case Oneof => WhichOf(s) == f.tag ==> ValueEncodable(f, ValueOf(f, s))
    case Repeated => |EntriesOf(s)| <= f.arraySize && forall k :: 0 <= k < |EntriesOf(s)| ==> ValueEncodable(f, EntriesOf(s)[k])
  }

  predicate ValueEncodable(f: Field, v: Value)
    decreases f, 0
  {
    if f.ltype.Bytes? then |DataOf(v)| + SIZE_WIDTH <= f.dataSize
    else f.ltype.Submessage? ==> Encodable(f.sub, AsMessage(f.sub, v))
  }

  lemma {:induction false} ValueRefused(f: Field, v: Value)
    requires WellFormedField(f)
    ensures EncodeValue(f, v).Some? <==> ValueEncodable(f, v)
    decreases f, 0
  {
    if f.ltype.Submessage? { EncodesExactly(f.sub, AsMessage(f.sub, v)); }
  }

  lemma {:induction false} EntriesRefused(f: Field, entries: seq<Value>)
    requires WellFormedField(f)
    ensures EncodeEntries(f, entries).Some? <==> forall k :: 0 <= k < |entries| ==> ValueEncodable(f, entries[k])
    decreases f, 1, |entries|
  {
    hide EncodeValue, ValueEncodable, WellFormedField;
    if entries != [] {
      ValueRefused(f, entries[0]);
      EntriesRefused(f, entries[1..]);
      assert forall k :: 0 < k < |entries| ==> entries[k] == entries[1..][k - 1];
      assert forall k :: 0 <= k < |entries[1..]| ==> entries[1..][k] == entries[k + 1];
    }
  }

  lemma {:induction false} NumbersEncode(f: Field, entries: seq<Value>)
    requires WellFormedField(f) && Packable(f.ltype)
    ensures EncodePacked(f, entries).Some? && forall k :: 0 <= k < |entries| ==> ValueEncodable(f, entries[k])
    decreases |entries|
  {
    if entries != [] { NumbersEncode(f, entries[1..]); }
  }

  lemma {:induction false} FieldRefused(f: Field, s: Slot)
    requires WellFormedField(f)
    ensures EncodeField(f, s).Some? <==> SlotEncodable(f, s)
    decreases f, 2
  {
    hide EncodeValue, ValueEncodable, WellFormedField, IsDefault;
    if f.htype.Repeated? {
      if Packable(f.ltype) { NumbersEncode(f, EntriesOf(s)); } else { EntriesRefused(f, EntriesOf(s)); }
    } else {
      ValueRefused(f, ValueOf(f, s));
    }
  }

  lemma {:induction false} FieldsRefused(d: Desc, m: Message, i: nat)
    requires WellFormed(d) && i <= |d.fields|
    ensures EncodeFields(d, m, i).Some? <==> forall j :: i <= j < |d.fields| ==> SlotEncodable(d.fields[j], SlotAt(m, d.fields[j]))
    decreases d, 0, |d.fields| - i
  {
    hide EncodeField, SlotEncodable, WellFormedField;
    if i < |d.fields| {
      FieldRefused(d.fields[i], SlotAt(m, d.fields[i]));
      FieldsRefused(d, m, i + 1);
    }
  }

  // pb_encode fails, with room enough, exactly when a counted array or bytes are longer than they can be.
  lemma {:induction false} EncodesExactly(d: Desc, m: Message)
    requires WellFormed(d)
    ensures EncodeMessage(d, m).Some? <==> Encodable(d, m)
    decreases d, 1
  {
    hide SlotEncodable, EncodeField;
    FieldsRefused(d, m, 0);
  }

  // ----- The examples of the encoding guide -----

  const TEST1 := Desc([Field(1, LType.Varint, Required, Static, 0, 0, 4, 0, 0, Desc([]), None)])
  const TEST2 := Desc([Field(2, LType.String, Required, Static, 0, 0, 8, 0, 0, Desc([]), None)])
  const TEST3 := Desc([Field(3, Submessage, Required, Static, 0, 0, 4, 0, 0, TEST1, None)])
  const TEST4 := Desc([Field(4, LType.Varint, Repeated, Static, 0, -4, 4, 3, 0, Desc([]), None)])

  const TESTING: bytes := [0x74, 0x65, 0x73, 0x74, 0x69, 0x6E, 0x67]

  lemma GuideVarints()
    ensures EncodeVarint(150) == [0x96, 0x01] && EncodeVarint(270) == [0x8E, 0x02] && EncodeVarint(86942) == [0x9E, 0xA7, 0x05]
  {
    assert EncodeVarint(5) == [0x05];
    assert EncodeVarint(679) == [0xA7] + EncodeVarint(5);
    assert EncodeVarint(86942) == [0x9E] + EncodeVarint(679);
  }

  // A field without anything else in its message.
  lemma OneField(d: Desc, s: Slot)
    requires |d.fields| == 1 && d.fields[0].slot == 0
    ensures EncodeMessage(d, [s]) == EncodeField(d.fields[0], s)
  {
    hide EncodeField;
    var e := EncodeField(d.fields[0], s);
    assert EncodeFields(d, [s], 1) == Some([]);
    assert e.Some? ==> e.value + [] == e.value;
  }

  // A required field with its tag and its value.
  lemma OneValue(f: Field, v: Value, key: byte, body: bytes)
    requires f.htype.Required? && f.tag * 8 + WireTypeOf(f.ltype) == key < 128 && EncodeValue(f, v) == Some(body)
    ensures EncodeField(f, Single(v)) == Some([key] + body)
  {
    hide EncodeValue;
    SmallVarint(key);
  }

  lemma NumberIs(f: Field, n: nat)
    requires f.ltype.Varint? && f.dataSize == 4 && n < TWO32
    ensures EncodeScalar(f, n) == Some(EncodeVarint(n)) && EncodeValue(f, Num(n)) == Some(EncodeVarint(n))
  {
    hide EncodeVarint;
    assert n % TWO64 == n;
  }

  // { 1: 150 }
  lemma GuideNumber()
    ensures EncodeMessage(TEST1, [Single(Num(150))]) == Some([0x08, 0x96, 0x01])
  {
    hide EncodeMessage, EncodeField, EncodeVarint;
    var f := TEST1.fields[0];
    GuideVarints();
    NumberIs(f, 150);
    OneValue(f, Num(150), 0x08, [0x96, 0x01]);
    OneField(TEST1, Single(Num(150)));
    assert [0x08] + [0x96, 0x01] == [0x08, 0x96, 0x01];
  }

  // { 2: "testing" }
  lemma GuideString()
    ensures EncodeMessage(TEST2, [Single(Blob(TESTING))]) == Some([0x12, 0x07] + TESTING)
  {
    hide CString, EncodeMessage, EncodeField, EncodeVarint;
    var f := TEST2.fields[0];
    CStringWhole(TESTING);
    SmallVarint(7);
    assert |TESTING| % TWO64 == 7;
    assert EncodeValue(f, Blob(TESTING)) == Some([0x07] + TESTING);
    OneValue(f, Blob(TESTING), 0x12, [0x07] + TESTING);
    OneField(TEST2, Single(Blob(TESTING)));
    assert [0x12] + ([0x07] + TESTING) == [0x12, 0x07] + TESTING;
  }

  // { 3: { 1: 150 } }
  lemma GuideSubmessage()
    ensures EncodeMessage(TEST3, [Single(Struct([Single(Num(150))]))]) == Some([0x1A, 0x03, 0x08, 0x96, 0x01])
  {
    hide EncodeMessage, EncodeField, EncodeVarint;
    var f, v := TEST3.fields[0], Struct([Single(Num(150))]);
    var payload: bytes := [0x08, 0x96, 0x01];
    GuideNumber();
    SmallVarint(3);
    assert |payload| % TWO64 == 3;
    assert AsMessage(f.sub, v) == v.m;
    assert EncodeValue(f, v) == Some([0x03] + payload);
    OneValue(f, v, 0x1A, [0x03] + payload);
    OneField(TEST3, Single(v));
    assert [0x1A] + ([0x03] + payload) == [0x1A, 0x03, 0x08, 0x96, 0x01];
  }

  // { 4: [3, 270, 86942] }
  lemma GuidePacked()
    ensures EncodeMessage(TEST4, [Items([Num(3), Num(270), Num(86942)])])
         == Some([0x22, 0x06, 0x03, 0x8E, 0x02, 0x9E, 0xA7, 0x05])
  {
    hide EncodeMessage, EncodeVarint, EncodeScalar, EncodeArray, EncodeField;
    var f, a, b, c := TEST4.fields[0], Num(3), Num(270), Num(86942);
    GuideVarints();
    SmallVarint(3);
    NumberIs(f, 3);
    NumberIs(f, 270);
    NumberIs(f, 86942);
    assert [c][1..] == [] && [b, c][1..] == [c] && [a, b, c][1..] == [b, c];
    var x, y, z: bytes := [0x03], [0x8E, 0x02], [0x9E, 0xA7, 0x05];
    assert EncodePacked(f, []) == Some([]);
    assert EncodePacked(f, [c]) == Some(z) by { assert z + [] == z; }
    assert EncodePacked(f, [b, c]) == Some(y + z);
    assert EncodePacked(f, [a, b, c]) == Some(x + (y + z));
    OneRun(f, [a, b, c], x + (y + z));
    OneField(TEST4, Items([a, b, c]));
    assert [0x22, 0x06] + (x + (y + z)) == [0x22, 0x06, 0x03, 0x8E, 0x02, 0x9E, 0xA7, 0x05];
  }

  lemma OneRun(f: Field, vs: seq<Value>, payload: bytes)
    requires f == TEST4.fields[0] && |vs| == 3 && EncodePacked(f, vs) == Some(payload) && |payload| == 6
    ensures EncodeField(f, Items(vs)) == Some([0x22, 0x06] + payload)
  {
    hide EncodeVarint, EncodePacked;
    SmallVarint(0x22);
    SmallVarint(6);
    assert |payload| % TWO64 == 6;
    assert EncodeTag(f.tag, WT_STRING) == [0x22] && EncodeDelimited(payload) == [0x06] + payload;
    assert [0x22] + ([0x06] + payload) == [0x22, 0x06] + payload;
  }

  lemma SmallVarint(v: nat)
    requires v < 128
    ensures EncodeVarint(v) == [v]
  {
  }

  // The zigzag table of the guide.
  lemma GuideZigZag()
    ensures ZigZag(0) == 0 && ZigZag(-1) == 1 && ZigZag(1) == 2 && ZigZag(-2) == 3
    ensures ZigZag(0x7FFF_FFFF) == 0xFFFF_FFFE && ZigZag(-0x8000_0000) == 0xFFFF_FFFF
  {
  }

  // The wire types of the guide.
  lemma GuideWireTypes(t: LType)
    ensures WireTypeOf(t) == 0 <==> t.Varint? || t.Uvarint? || t.Svarint? || t.Bool? || t.Extension?
    ensures WireTypeOf(t) == 1 <==> t.Fixed64?
    ensures WireTypeOf(t) == 2 <==> t.String? || t.Bytes? || t.FixedLengthBytes? || t.Submessage?
    ensures WireTypeOf(t) == 5 <==> t.Fixed32?
  {
  }
}
