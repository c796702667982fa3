// Messages one after another, each behind its length (pb_encode_delimited, pb_decode_delimited),
// and the size of what can be read back.
module Delimited {
  import opened Options
  import opened Wire
  import opened WireFacts
  import opened Descriptor
  import opened Encoding
  import opened Decoding
  import opened Scalars
  import opened Merging
  import opened DecodeOfEncode
  import opened RoundTrip

  // pb_decode_delimited.
  function DecodeDelimited(d: Desc, bs: bytes): (r: Read<Message>)
    ensures r.Read? ==> |r.rest| < |bs| && |r.value| == |d.fields|
  {
    match LengthDelimited(bs)
    case Fail => Fail
    case Read(payload, rest) =>
      match Decode(d, payload) case Fail => Fail case Read(m, _) => Read(m, rest)
  }

  function EncodeList(d: Desc, ms: seq<Message>): Option<bytes>
  {
    if ms == [] then Some([]) else Join(EncodeDelimitedMessage(d, ms[0]), EncodeList(d, ms[1..]))
  }

  // All the messages up to the end of the stream.
  function DecodeList(d: Desc, bs: bytes): Option<seq<Message>>
    decreases |bs|
  {
    if bs == [] then Some([])
    else
      match DecodeDelimited(d, bs)
      case Fail => None
      case Read(m, rest) =>
        match DecodeList(d, rest) case None => None case Some(ms) => Some([m] + ms)
  }

  predicate SameList(d: Desc, ms: seq<Message>, ns: seq<Message>)
  {
    |ms| == |ns| && forall k :: 0 <= k < |ms| ==> |ms[k]| == |d.fields| == |ns[k]| && Same(d, ms[k], ns[k])
  }

  // Whether pb_decode_delimited can read m back.
  predicate Readable(d: Desc, m: Message)
  {
    ShortPayload(EncodeMessage(d, m)) && LengthsFit(d, m)
  }

  // One message behind its length, with more behind it: pb_decode_delimited takes exactly it.
  lemma DelimitedMessageRoundTrip(d: Desc, m: Message, rest: bytes)
    requires WellFormed(d) && Valid(d, m)
    ensures EncodeDelimitedMessage(d, m).Some?
    ensures |EncodeDelimitedMessage(d, m).value| < TWO63 ==>
      var r := DecodeDelimited(d, EncodeDelimitedMessage(d, m).value + rest);
      && (r.Read? <==> Readable(d, m))
      && (r.Read? ==> r.rest == rest && Same(d, r.value, m))
  {
    MessageRoundTrip(d, m);
    var payload := EncodeMessage(d, m).value;
    if |EncodeDelimitedMessage(d, m).value| < TWO63 { DelimitedRoundTrip(payload, rest); }
  }

  // A list of messages written one after another is read back as the same list, and reading
  // fails exactly when one of them, or something in it, is too long.
  lemma {:induction false} ListRoundTrip(d: Desc, ms: seq<Message>)
    requires WellFormed(d) && forall k :: 0 <= k < |ms| ==> Valid(d, ms[k])
    ensures EncodeList(d, ms).Some?
    ensures |EncodeList(d, ms).value| < TWO63 ==>
      var r := DecodeList(d, EncodeList(d, ms).value);
      && (r.Some? <==> forall k :: 0 <= k < |ms| ==> Readable(d, ms[k]))
      && (r.Some? ==> SameList(d, r.value, ms))
    decreases |ms|
  {
    if ms != [] {
      ListRoundTrip(d, ms[1..]);
      var rest := EncodeList(d, ms[1..]).value;
      DelimitedMessageRoundTrip(d, ms[0], rest);
      if |EncodeList(d, ms).value| < TWO63 {
        AllReadable(d, ms);
        if DecodeList(d, EncodeList(d, ms).value).Some? {
          SameListCons(d, DecodeDelimited(d, EncodeList(d, ms).value).value, DecodeList(d, rest).value, ms);
        }
      }
    }
  }

  lemma AllReadable(d: Desc, ms: seq<Message>)
    requires ms != []
    ensures (forall k :: 0 <= k < |ms| ==> Readable(d, ms[k])) <==>
      Readable(d, ms[0]) && forall k :: 0 <= k < |ms[1..]| ==> Readable(d, ms[1..][k])
  {
    if Readable(d, ms[0]) && forall k :: 0 <= k < |ms[1..]| ==> Readable(d, ms[1..][k]) {
      forall k | 0 <= k < |ms| ensures Readable(d, ms[k]) {
        if k > 0 { assert ms[k] == ms[1..][k - 1]; }
      }
    }
  }

  lemma SameListCons(d: Desc, n: Message, ns: seq<Message>, ms: seq<Message>)
    requires ms != [] && |n| == |d.fields| == |ms[0]| && Same(d, n, ms[0]) && SameList(d, ns, ms[1..])
    ensures SameList(d, [n] + ns, ms)
  {
    forall k | 0 <= k < |ms|
      ensures |([n] + ns)[k]| == |d.fields| == |ms[k]| && Same(d, ([n] + ns)[k], ms[k])
    {
      if k > 0 { assert ([n] + ns)[k] == ns[k - 1] && ms[k] == ms[1..][k - 1]; }
    }
  }

  // ----- Short messages -----

  // A caller who asks pb_get_encoded_size first knows enough: a message of less than 2^32 bytes
  // has no length in it that does not fit.
  lemma {:induction false} ShortMessagesFit(d: Desc, m: Message)
    requires ShortPayload(EncodeMessage(d, m))
    ensures LengthsFit(d, m)
    decreases d, 1
  {
    ShortFieldsFit(d, m, 0);
  }

  lemma {:induction false} ShortFieldsFit(d: Desc, m: Message, i: nat)
    requires i <= |d.fields| && ShortPayload(EncodeFields(d, m, i))
    ensures forall j :: i <= j < |d.fields| ==> FieldFits(d.fields[j], SlotAt(m, d.fields[j]))
    decreases d, 0, |d.fields| - i
  {
    if i < |d.fields| {
      ShortFieldFits(d.fields[i], SlotAt(m, d.fields[i]));
      ShortFieldsFit(d, m, i + 1);
    }
  }

  lemma {:induction false} ShortFieldFits(f: Field, s: Slot)
    requires ShortPayload(EncodeField(f, s))
    ensures FieldFits(f, s)
    decreases f, 3
  {
    if Present(f, s) {
      if !f.htype.Repeated? {
        ShortTagged(f, ValueOf(f, s));
        ShortValueFits(f, ValueOf(f, s));
      } else {
        ShortArrayFits(f, EntriesOf(s));
      }
    }
  }

  lemma ShortArrayFits(f: Field, vs: seq<Value>)
    requires vs != [] && ShortPayload(EncodeArray(f, vs))
    ensures Packable(f.ltype) ==> ShortPayload(EncodePacked(f, vs))
    ensures forall k :: 0 <= k < |vs| ==> ValueFits(f, vs[k])
    decreases f, 2
  {
    if Packable(f.ltype) {
      assert |EncodeArray(f, vs).value| == |EncodeTag(f.tag, WT_STRING)| + |EncodeDelimited(EncodePacked(f, vs).value)|;
    } else {
      ShortEntriesFit(f, vs);
    }
  }

  lemma ShortTagged(f: Field, v: Value)
    requires ShortPayload(EncodeTagged(f, v))
    ensures ShortPayload(EncodeValue(f, v))
  {
    assert |EncodeTagged(f, v).value| == |EncodeTag(f.tag, WireTypeOf(f.ltype))| + |EncodeValue(f, v).value|;
  }

  lemma {:induction false} ShortEntriesFit(f: Field, vs: seq<Value>)
    requires ShortPayload(EncodeEntries(f, vs))
    ensures forall k :: 0 <= k < |vs| ==> ValueFits(f, vs[k])
    decreases f, 1, |vs|
  {
    if vs != [] {
      ShortTagged(f, vs[0]);
      ShortValueFits(f, vs[0]);
      ShortEntriesFit(f, vs[1..]);
      forall k | 0 <= k < |vs| ensures ValueFits(f, vs[k]) {
        if k > 0 { assert vs[k] == vs[1..][k - 1]; }
      }
    }
  }

  lemma {:induction false} ShortValueFits(f: Field, v: Value)
    requires ShortPayload(EncodeValue(f, v))
    ensures ValueFits(f, v)
    decreases f, 0
  {
    if f.ltype.Submessage? { ShortMessagesFit(f.sub, AsMessage(f.sub, v)); }
  }

  // ----- A message that is lost -----

  // repeated int64 with room for 2^29 entries.
  const LONG_FIELD := Field(1, Varint, Repeated, Static, 0, -4, 8, 0x2000_0000, 0, Desc([]), None)
  const LONG_TABLE := Desc([LONG_FIELD])

  function Ones(n: nat): (vs: seq<Value>)
    ensures |vs| == n && forall k :: 0 <= k < n ==> vs[k] == Num(-1)
  {
    seq(n, i => Num(-1))
  }

  lemma {:induction false} OnesLength(f: Field, n: nat)
    requires f == LONG_FIELD
    ensures EncodePacked(f, Ones(n)).Some? && |EncodePacked(f, Ones(n)).value| == 10 * n
    decreases n
  {
    if n > 0 {
      assert Ones(n)[1..] == Ones(n - 1);
      OnesLength(f, n - 1);
      TenBytes(f);
    }
  }

  lemma TenBytes(f: Field)
    requires f == LONG_FIELD
    ensures EncodeScalar(f, -1).Some? && |EncodeScalar(f, -1).value| == 10
  {
    var v: nat := -1 % TWO64;
    assert v == TWO64 - 1 && EncodeScalar(f, -1) == Some(EncodeVarint(v));
    SixtyFourOnes(v);
  }

  lemma SixtyFourOnes(v: nat)
    requires v == TWO64 - 1
    ensures |EncodeVarint(v)| == 10
  {
    VarintRoundTrip(v, []);
    var k: nat :| k == 9;
    NineGroups(k);
    VarintLength(v, k);
  }

  lemma NineGroups(k: nat)
    requires k == 9
    ensures Shl(1, 7 * k) == TWO63
  {
    var b := 7 * k;
    Shl7(1, b - 7); Shl7(1, b - 14); Shl7(1, b - 21); Shl7(1, b - 28); Shl7(1, b - 35);
    Shl7(1, b - 42); Shl7(1, b - 49); Shl7(1, b - 56); Shl7(1, b - 63);
  }

  // With PB_FIELD_32BIT this valid message is encoded and cannot be decoded again.
  lemma LongArrayIsLost(n: nat)
    requires SIZE_WIDTH == 4 && n == 0x2000_0000
    ensures WellFormed(LONG_TABLE) && Valid(LONG_TABLE, [Items(Ones(n))])
    ensures EncodeMessage(LONG_TABLE, [Items(Ones(n))]).Some?
    ensures Decode(LONG_TABLE, EncodeMessage(LONG_TABLE, [Items(Ones(n))]).value) == Fail
  {
    var d := LONG_TABLE;
    var m := [Items(Ones(n))];
    assert d.fields == [LONG_FIELD] && WellFormedField(LONG_FIELD);
    assert SlotAt(m, LONG_FIELD) == m[0];
    OnesLength(LONG_FIELD, n);
    var payload := EncodePacked(LONG_FIELD, Ones(n)).value;
    assert !FieldFits(d.fields[0], SlotAt(m, d.fields[0]));
    MessageRoundTrip(d, m);
    assert EncodeArray(LONG_FIELD, Ones(n)) == Some(EncodeTag(1, WT_STRING) + EncodeDelimited(payload));
    assert EncodeField(d.fields[0], SlotAt(m, d.fields[0])) == EncodeArray(LONG_FIELD, Ones(n));
    assert EncodeFields(d, m, 1) == Some([]);
    assert EncodeMessage(d, m).value == EncodeTag(1, WT_STRING) + EncodeDelimited(payload) + [];
    VarintRoundTrip(1 * 8 + WT_STRING, []);
    VarintRoundTrip(|payload|, []);
  }
}
