// The decoder over concatenated input: what comes later is merged into what came first, records
// that the table does not know make no difference, and required fields are looked for over the
// whole input.
module Concatenation {
  import opened Options
  import opened Wire
  import opened WireFacts
  import opened Descriptor
  import opened Encoding
  import opened Decoding

  // ----- A field that has been decoded is decoded alike when more input follows -----

  function Longer<T>(r: Read<T>, b: bytes): Read<T>
  {
    match r case Fail => Fail case Read(v, rest) => Read(v, rest + b)
  }

  lemma ScalarStable(f: Field, a: bytes, b: bytes)
    requires DecodeScalar(f, a).Read?
    ensures DecodeScalar(f, a + b) == Longer(DecodeScalar(f, a), b)
  {
    if f.ltype.Bool? { DecodeVarint32Stable(a, b); }
    else if f.ltype.Fixed32? || f.ltype.Fixed64? { TakeStable(a, b, FixedWidth(f.ltype)); }
    else { DecodeVarintStable(a, b); }
  }

  lemma BlobStable(f: Field, a: bytes, b: bytes)
    requires DecodeBlob(f, a).Read?
    ensures DecodeBlob(f, a + b) == Longer(DecodeBlob(f, a), b)
  {
    DecodeVarint32Stable(a, b);
    var size := DecodeVarint32(a).value;
    if Take(DecodeVarint32(a).rest, size).Read? { TakeStable(DecodeVarint32(a).rest, b, size); }
  }

  lemma ValueStable(f: Field, was: Value, a: bytes, b: bytes)
    requires DecodeValue(f, was, a).Read?
    ensures DecodeValue(f, was, a + b) == Longer(DecodeValue(f, was, a), b)
  {
    if Packable(f.ltype) { ScalarStable(f, a, b); }
    else if f.ltype.Submessage? { LengthDelimitedStable(a, b); }
    else { BlobStable(f, a, b); }
  }

  lemma FieldStable(d: Desc, st: State, i: nat, wireType: WireType, a: bytes, b: bytes)
    requires i < |d.fields| && DecodeField(d, st, i, wireType, a).Read?
    ensures DecodeField(d, st, i, wireType, a + b) == Longer(DecodeField(d, st, i, wireType, a), b)
  {
    var f := d.fields[i];
    if f.htype.Repeated? && wireType == WT_STRING && Packable(f.ltype) {
      LengthDelimitedStable(a, b);
    } else if f.htype.Repeated? {
      ValueStable(f, Zero(f), a, b);
    } else if f.htype.Oneof? && f.ltype.Submessage? && WhichOf(SlotAt(st.m, f)) != f.tag {
      ValueStable(f, Struct(Defaults(f.sub)), a, b);
    } else {
      ValueStable(f, ValueOf(f, SlotAt(st.m, f)), a, b);
    }
  }

  lemma RecordStable(d: Desc, st: State, tag: nat, wireType: WireType, a: bytes, b: bytes)
    requires DecodeRecord(d, st, tag, wireType, a).Read?
    ensures DecodeRecord(d, st, tag, wireType, a + b) == Longer(DecodeRecord(d, st, tag, wireType, a), b)
  {
    var i := Find(d, tag);
    if i < |d.fields| { FieldStable(d, Enter(d, st, i).value, i, wireType, a, b); }
    else if d.fields == [] && tag == 0 { DecodeVarint32Stable(a, b); }
    else { SkipFieldStable(wireType, a, b); }
  }

  // ----- Concatenation -----

  // Records a and then records b: b goes on where a has ended, unless a zero tag has ended a.
  lemma {:induction false} RecordsConcatenate(d: Desc, st: State, a: bytes, b: bytes)
    requires !st.stopped && DecodeRecords(d, st, a).Read?
    ensures var r := DecodeRecords(d, st, a);
            DecodeRecords(d, st, a + b) ==
              if r.value.stopped then Longer(r, b) else DecodeRecords(d, r.value, b)
    decreases |a|
  {
    if a == [] {
      assert a + b == b;
    } else {
      DecodeTagStable(a, b);
      if DecodeTag(a).Tag? {
        var t := DecodeTag(a);
        RecordStable(d, st, t.tag, t.wireType, t.rest, b);
        var r := DecodeRecord(d, st, t.tag, t.wireType, t.rest);
        StoppedOnlyByZero(d, st, t.tag, t.wireType, t.rest);
        RecordsConcatenate(d, r.value, r.rest, b);
      }
    }
  }

  lemma StoppedOnlyByZero(d: Desc, st: State, tag: nat, wireType: WireType, bs: bytes)
    requires DecodeRecord(d, st, tag, wireType, bs).Read?
    ensures DecodeRecord(d, st, tag, wireType, bs).value.stopped == st.stopped
  {}

  // What was seen before has no influence on what is decoded.
  function AlsoSeen(r: Read<State>, seen: set<nat>): Read<State>
  {
    match r case Fail => Fail case Read(st, rest) => Read(st.(seen := st.seen + seen), rest)
  }

  lemma SeenInRecord(d: Desc, st: State, seen: set<nat>, tag: nat, wireType: WireType, bs: bytes)
    ensures DecodeRecord(d, st.(seen := st.seen + seen), tag, wireType, bs)
         == AlsoSeen(DecodeRecord(d, st, tag, wireType, bs), seen)
  {
    var st1 := st.(seen := st.seen + seen);
    var i := Find(d, tag);
    if i < |d.fields| {
      assert st.seen + seen + {i} == st.seen + {i} + seen;
      assert Enter(d, st1, i) == match Enter(d, st, i) case None => None case Some(s) => Some(s.(seen := s.seen + seen));
      if Enter(d, st, i).Some? { SeenInField(d, Enter(d, st, i).value, seen, i, wireType, bs); }
    }
  }

  lemma SeenInField(d: Desc, st: State, seen: set<nat>, i: nat, wireType: WireType, bs: bytes)
    requires i < |d.fields|
    ensures DecodeField(d, st.(seen := st.seen + seen), i, wireType, bs)
         == AlsoSeen(DecodeField(d, st, i, wireType, bs), seen)
  {}

  lemma {:induction false} SeenInRecords(d: Desc, st: State, seen: set<nat>, bs: bytes)
    ensures DecodeRecords(d, st.(seen := st.seen + seen), bs) == AlsoSeen(DecodeRecords(d, st, bs), seen)
    decreases |bs|
  {
    if bs != [] && DecodeTag(bs).Tag? {
      var t := DecodeTag(bs);
      SeenInRecord(d, st, seen, t.tag, t.wireType, t.rest);
      var r := DecodeRecord(d, st, t.tag, t.wireType, t.rest);
      if r.Read? { SeenInRecords(d, r.value, seen, r.rest); }
    }
  }

  predicate NoRequired(d: Desc) { forall i :: 0 <= i < |d.fields| ==> !d.fields[i].htype.Required? }

  // ----- Fixed-count arrays -----

  // The record is not one of a fixed-count array.
  predicate Ordinary(d: Desc, tag: nat) {
    var i := Find(d, tag);
    i == |d.fields| || !FixedCount(d.fields[i])
  }

  // The first fixed-count array that the decoder meets, or -1.
  function FirstFixed(d: Desc, st: State, bs: bytes): int
    decreases |bs|
  {
    if bs == [] || !DecodeTag(bs).Tag? then -1
    else
      var t := DecodeTag(bs);
      if !Ordinary(d, t.tag) then Find(d, t.tag)
      else
        match DecodeRecord(d, st, t.tag, t.wireType, t.rest)
        case Fail => -1
        case Read(st', rest) => FirstFixed(d, st', rest)
  }

  // The same state while another fixed-count array is being received.
  function At(st: State, k: int, count: nat): State {
    st.(fixedField := k, fixedCount := count)
  }

  function AllAt(r: Read<State>, k: int, count: nat): Read<State> {
    match r case Fail => Fail case Read(st, rest) => Read(At(st, k, count), rest)
  }

  // An ordinary record does not care.
  lemma OrdinaryRecord(d: Desc, st: State, k: int, count: nat, tag: nat, wireType: WireType, bs: bytes)
    requires Ordinary(d, tag)
    ensures var r := DecodeRecord(d, st, tag, wireType, bs);
            && DecodeRecord(d, At(st, k, count), tag, wireType, bs) == AllAt(r, k, count)
            && (r.Read? ==> r.value.fixedField == st.fixedField && r.value.fixedCount == st.fixedCount)
  {
    var i := Find(d, tag);
    if i < |d.fields| {
      var st1 := Enter(d, st, i).value;
      assert Enter(d, At(st, k, count), i) == Some(At(st1, k, count));
      OrdinaryField(d, st1, k, count, i, wireType, bs);
    }
  }

  lemma OrdinaryField(d: Desc, st: State, k: int, count: nat, i: nat, wireType: WireType, bs: bytes)
    requires i < |d.fields| && !FixedCount(d.fields[i])
    ensures var r := DecodeField(d, st, i, wireType, bs);
            && DecodeField(d, At(st, k, count), i, wireType, bs) == AllAt(r, k, count)
            && (r.Read? ==> r.value.fixedField == st.fixedField && r.value.fixedCount == st.fixedCount)
  {
    hide DecodeValue, DecodeEntries;
    var f := d.fields[i];
    if f.htype.Repeated? { assert Current(At(st, k, count), f) == Current(st, f); }
  }

  lemma {:induction false} FixedFieldStays(d: Desc, st: State, bs: bytes)
    requires st.fixedField < |d.fields| && DecodeRecords(d, st, bs).Read?
    ensures var u := DecodeRecords(d, st, bs).value;
            u.fixedField < |d.fields| && (st.fixedField >= 0 ==> u.fixedField >= 0)
    decreases |bs|
  {
    if bs != [] && DecodeTag(bs).Tag? {
      var t := DecodeTag(bs);
      var r := DecodeRecord(d, st, t.tag, t.wireType, t.rest);
      FixedFieldInRecord(d, st, t.tag, t.wireType, t.rest);
      FixedFieldStays(d, r.value, r.rest);
    }
  }

  lemma FixedFieldInRecord(d: Desc, st: State, tag: nat, wireType: WireType, bs: bytes)
    requires st.fixedField < |d.fields| && DecodeRecord(d, st, tag, wireType, bs).Read?
    ensures var u := DecodeRecord(d, st, tag, wireType, bs).value;
            u.fixedField < |d.fields| && (st.fixedField >= 0 ==> u.fixedField >= 0)
  {
    hide DecodeValue, DecodeEntries;
  }

  // What is decoded when a complete array comes before: the same, if the first array is another.
  function Carried(r: Read<State>, k: int, count: nat): Read<State> {
    match r case Fail => Fail case Read(st, rest) => Read(if st.fixedField < 0 then At(st, k, count) else st, rest)
  }

  lemma {:induction false} AfterAnother(d: Desc, st: State, k: int, count: nat, bs: bytes)
    requires st.fixedField < 0 && k < |d.fields| && FixedComplete(d, At(st, k, count))
    requires k >= 0 && count > 0 ==> FirstFixed(d, st, bs) != k
    ensures DecodeRecords(d, At(st, k, count), bs) == Carried(DecodeRecords(d, st, bs), k, count)
    decreases |bs|
  {
    hide DecodeRecord, DecodeTag;
    if bs != [] && DecodeTag(bs).Tag? {
      var t := DecodeTag(bs);
      var r := DecodeRecord(d, st, t.tag, t.wireType, t.rest);
      if Ordinary(d, t.tag) {
        OrdinaryRecord(d, st, k, count, t.tag, t.wireType, t.rest);
        if r.Read? { AfterAnother(d, r.value, k, count, r.rest); }
      } else {
        FixedRecord(d, st, k, count, t.tag, t.wireType, t.rest);
        if r.Read? && DecodeRecords(d, r.value, r.rest).Read? { FixedFieldStays(d, r.value, r.rest); }
      }
    }
  }

  // The first record of a fixed-count array that is not the complete one, unless that has no entries.
  lemma FixedRecord(d: Desc, st: State, k: int, count: nat, tag: nat, wireType: WireType, bs: bytes)
    requires !Ordinary(d, tag) && st.fixedField < 0 && FixedComplete(d, At(st, k, count)) && (Find(d, tag) == k ==> count == 0)
    ensures var r := DecodeRecord(d, st, tag, wireType, bs);
            && DecodeRecord(d, At(st, k, count), tag, wireType, bs) == r
            && (r.Read? ==> 0 <= r.value.fixedField < |d.fields|)
  {
    var i := Find(d, tag);
    assert Enter(d, At(st, k, count), i) == Enter(d, st, i);
    FixedFieldOfEntry(d, Enter(d, st, i).value, i, wireType, bs);
  }

  lemma FixedFieldOfEntry(d: Desc, st: State, i: nat, wireType: WireType, bs: bytes)
    requires i < |d.fields|
    ensures var r := DecodeField(d, st, i, wireType, bs);
            r.Read? ==> r.value.fixedField == st.fixedField
  {
    hide DecodeValue, DecodeEntries;
  }

  // ----- An array that is full -----

  // A record of an array that is full already: only an empty packed run is taken.
  lemma RecordOfFull(d: Desc, st: State, k: nat, wireType: WireType, bs: bytes)
    requires k < |d.fields| && FixedCount(d.fields[k]) && st.fixedField == k && st.fixedCount == 0
    requires DecodeField(d, st, k, wireType, bs).Read?
    ensures var full := At(st, k, d.fields[k].arraySize);
            var r := DecodeField(d, st, k, wireType, bs);
            var x := DecodeField(d, full, k, wireType, bs);
            x == Fail || (r.value.fixedField == k && r.value.fixedCount == 0 && x == AllAt(r, k, d.fields[k].arraySize))
  {
    var f := d.fields[k];
    var full := At(st, k, f.arraySize);
    var a, b := Current(st, f), Current(full, f);
    assert b == Array(a.entries, f.arraySize) && a.count == 0;
    if wireType == WT_STRING && Packable(f.ltype) && LengthDelimited(bs).Read? {
      var payload := LengthDelimited(bs).value;
      if payload == [] {
        assert DecodePacked(f, a, payload) == Some(a) && DecodePacked(f, b, payload) == Some(b);
      } else {
        assert DecodePacked(f, b, payload) == None;
      }
    }
  }

  // So what decodes from an empty array up to a full one fails from a full one.
  lemma {:induction false} FullFails(d: Desc, st: State, k: nat, bs: bytes)
    requires k < |d.fields| && FixedCount(d.fields[k]) && d.fields[k].arraySize > 0 && st.fixedField == k && st.fixedCount == 0
    requires DecodeRecords(d, st, bs).Read? && FixedComplete(d, DecodeRecords(d, st, bs).value)
    ensures DecodeRecords(d, At(st, k, d.fields[k].arraySize), bs) == Fail
    decreases |bs|
  {
    hide DecodeField, DecodeTag;
    var full := At(st, k, d.fields[k].arraySize);
    var t := DecodeTag(bs);
    var r := DecodeRecord(d, st, t.tag, t.wireType, t.rest);
    if Ordinary(d, t.tag) {
      OrdinaryRecord(d, st, k, d.fields[k].arraySize, t.tag, t.wireType, t.rest);
      FullFails(d, r.value, k, r.rest);
    } else {
      var st1 := Enter(d, st, k).value;
      assert Find(d, t.tag) == k && Enter(d, full, k) == Some(At(st1, k, d.fields[k].arraySize));
      RecordOfFull(d, st1, k, t.wireType, t.rest);
      if DecodeRecord(d, full, t.tag, t.wireType, t.rest).Read? { FullFails(d, r.value, k, r.rest); }
    }
  }

  // The first array is the one that is complete already.
  lemma {:induction false} AfterItself(d: Desc, st: State, k: nat, bs: bytes)
    requires st.fixedField < 0 && k < |d.fields| && d.fields[k].arraySize > 0 && FirstFixed(d, st, bs) == k
    requires DecodeRecords(d, st, bs).Read? && FixedComplete(d, DecodeRecords(d, st, bs).value)
    ensures DecodeRecords(d, At(st, k, d.fields[k].arraySize), bs) == Fail
    decreases |bs|
  {
    hide DecodeField, DecodeTag;
    var full := At(st, k, d.fields[k].arraySize);
    var t := DecodeTag(bs);
    var r := DecodeRecord(d, st, t.tag, t.wireType, t.rest);
    if Ordinary(d, t.tag) {
      OrdinaryRecord(d, st, k, d.fields[k].arraySize, t.tag, t.wireType, t.rest);
      AfterItself(d, r.value, k, r.rest);
    } else {
      var st1 := Enter(d, st, k).value;
      assert st1.fixedField == k && st1.fixedCount == 0 && Enter(d, full, k) == Some(At(st1, k, d.fields[k].arraySize));
      RecordOfFull(d, st1, k, t.wireType, t.rest);
      if DecodeRecord(d, full, t.tag, t.wireType, t.rest).Read? { FullFails(d, r.value, k, r.rest); }
    }
  }

  // ----- Merging -----

  // The last fixed-count array of `a` is the first one of `b`, and has entries.
  predicate Clash(d: Desc, m: Message, a: bytes, b: bytes)
    requires DecodeMessage(d, m, a).Read?
  {
    var k := DecodeRecords(d, Start(m), a).value.fixedField;
    0 <= k < |d.fields| && d.fields[k].arraySize > 0 && FirstFixed(d, Start(DecodeMessage(d, m, a).value), b) == k
  }

  // Decoding a ++ b into m is decoding a into m and then b into the result.  Without required
  // fields the two agree on success and failure alike; with them, a already has them all.  When a
  // zero tag has ended a, b is not looked at.  It fails when b begins its fixed-count arrays with the
  // one in which a has ended, as the decoder takes them for one.
  lemma ConcatenationIsMerge(d: Desc, m: Message, a: bytes, b: bytes)
    requires DecodeMessage(d, m, a).Read?
    ensures var m1 := DecodeMessage(d, m, a).value;
            if DecodeRecords(d, Start(m), a).value.stopped then
              DecodeMessage(d, m, a + b) == Read(m1, DecodeMessage(d, m, a).rest + b)
            else if Clash(d, m, a, b) then
              DecodeMessage(d, m1, b).Read? ==> DecodeMessage(d, m, a + b) == Fail
            else
              && (NoRequired(d) ==> DecodeMessage(d, m, a + b) == DecodeMessage(d, m1, b))
              && (DecodeMessage(d, m1, b).Read? ==> DecodeMessage(d, m, a + b) == DecodeMessage(d, m1, b))
              && (DecodeMessage(d, m, a + b).Read? <==> DecodeRecords(d, Start(m1), b).Read? && FixedComplete(d, DecodeRecords(d, Start(m1), b).value))
  {
    hide DecodeRecords, FirstFixed, WellFormed;
    var st1 := DecodeRecords(d, Start(m), a).value;
    RecordsConcatenate(d, Start(m), a, b);
    FixedFieldStays(d, Start(m), a);
    if !st1.stopped {
      var fresh' := Start(st1.m);
      var k, count := st1.fixedField, st1.fixedCount;
      var at := At(fresh', k, count);
      assert st1 == at.(seen := at.seen + st1.seen);
      SeenInRecords(d, at, st1.seen, b);
      if Clash(d, m, a, b) {
        if DecodeMessage(d, st1.m, b).Read? { AfterItself(d, fresh', k, b); }
      } else {
        AfterAnother(d, fresh', k, count, b);
      }
    }
  }

  // ----- Unknown records -----

  // u is one whole record whose tag the table does not have.  An empty table ends in the tag 0.
  predicate UnknownRecord(d: Desc, u: bytes)
  {
    && DecodeTag(u).Tag? && (d.fields != [] || DecodeTag(u).tag != 0) && Find(d, DecodeTag(u).tag) == |d.fields|
    && SkipField(DecodeTag(u).wireType, DecodeTag(u).rest) == Read((), [])
  }

  lemma UnknownSkipped(d: Desc, st: State, u: bytes, b: bytes)
    requires UnknownRecord(d, u)
    ensures DecodeRecords(d, st, u + b) == DecodeRecords(d, st, b)
  {
    var t := DecodeTag(u);
    DecodeTagStable(u, b);
    SkipFieldStable(t.wireType, t.rest, b);
    assert [] + b == b;
  }

  // An unknown record between two records changes neither the outcome nor the message.
  lemma UnknownIsTransparent(d: Desc, m: Message, a: bytes, u: bytes, b: bytes)
    requires UnknownRecord(d, u)
    requires DecodeRecords(d, Start(m), a).Read? && !DecodeRecords(d, Start(m), a).value.stopped
    ensures DecodeMessage(d, m, a + u + b) == DecodeMessage(d, m, a + b)
  {
    assert a + u + b == a + (u + b);
    RecordsConcatenate(d, Start(m), a, u + b);
    RecordsConcatenate(d, Start(m), a, b);
    UnknownSkipped(d, DecodeRecords(d, Start(m), a).value, u, b);
  }

  // ----- Required fields -----

  // The tags of the records that the decoder goes through, up to a zero tag or an error.
  function TopTags(d: Desc, st: State, bs: bytes): set<nat>
    decreases |bs|
  {
    if bs == [] || !DecodeTag(bs).Tag? then {}
    else
      var t := DecodeTag(bs);
      match DecodeRecord(d, st, t.tag, t.wireType, t.rest)
      case Fail => {t.tag}
      case Read(st', rest) => {t.tag} + TopTags(d, st', rest)
  }

  lemma SeenAfterField(d: Desc, st: State, i: nat, wireType: WireType, bs: bytes)
    requires i < |d.fields| && DecodeField(d, st, i, wireType, bs).Read?
    ensures DecodeField(d, st, i, wireType, bs).value.seen == st.seen
  {}

  lemma {:induction false} SeenIsOnTheWire(d: Desc, st: State, bs: bytes, i: nat)
    requires WellFormed(d) && i < |d.fields| && Tracked(d, i) && DecodeRecords(d, st, bs).Read?
    ensures i in DecodeRecords(d, st, bs).value.seen <==> i in st.seen || d.fields[i].tag in TopTags(d, st, bs)
    decreases |bs|
  {
    if bs != [] && DecodeTag(bs).Tag? {
      var t := DecodeTag(bs);
      var r := DecodeRecord(d, st, t.tag, t.wireType, t.rest);
      var k := Find(d, t.tag);
      if k < |d.fields| {
        SeenAfterField(d, Enter(d, st, k).value, k, t.wireType, t.rest);
        if k != i { assert if k < i then Apart(d.fields[k], d.fields[i]) else Apart(d.fields[i], d.fields[k]); }
      }
      assert i in r.value.seen <==> i in st.seen || d.fields[i].tag == t.tag;
      SeenIsOnTheWire(d, r.value, r.rest, i);
    }
  }

  // The decoder succeeds exactly when its records are readable, no fixed count array is cut
  // short, and each of the first MAX_REQUIRED required fields is on the wire at this level.
  lemma RequiredFieldsExactly(d: Desc, m: Message, bs: bytes)
    requires WellFormed(d)
    ensures DecodeMessage(d, m, bs).Read? <==>
            && DecodeRecords(d, Start(m), bs).Read?
            && FixedComplete(d, DecodeRecords(d, Start(m), bs).value)
            && forall i :: 0 <= i < |d.fields| && Tracked(d, i) ==> d.fields[i].tag in TopTags(d, Start(m), bs)
  {
    if DecodeRecords(d, Start(m), bs).Read? {
      forall i | 0 <= i < |d.fields| && Tracked(d, i)
        ensures i in DecodeRecords(d, Start(m), bs).value.seen <==> d.fields[i].tag in TopTags(d, Start(m), bs)
      {
        SeenIsOnTheWire(d, Start(m), bs, i);
      }
    }
  }
}
