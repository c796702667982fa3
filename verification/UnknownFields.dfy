// A message written with a larger table than the reader has: the fields that the reader does not know
// are skipped one by one, as if they had not been written.
module UnknownFields {
  import opened Options
  import opened Wire
  import opened WireFacts
  import opened Descriptor
  import opened Encoding
  import opened Decoding
  import opened Scalars
  import opened Merging
  import opened DecodeOfEncode
  import opened Concatenation
  import opened WireRecords

  // ----- One field -----

  lemma UnknownSkips(d: Desc, st: State, tag: nat, wireType: WireType, payload: bytes, rest: bytes)
    requires 0 < tag < 0x2000_0000 && Find(d, tag) == |d.fields|
    requires SkipField(wireType, payload + rest) == Read((), rest) || SkipField(wireType, payload + rest) == Fail
    ensures DecodeRecords(d, st, EncodeTag(tag, wireType) + payload + rest) ==
            if SkipField(wireType, payload + rest) == Fail then Fail else DecodeRecords(d, st, rest)
  {
    hide DecodeTag, EncodeTag, SkipField;
    assert EncodeTag(tag, wireType) + payload + rest == EncodeTag(tag, wireType) + (payload + rest);
    TagRoundTrip(tag, wireType, payload + rest);
    assert EncodeTag(tag, wireType) + (payload + rest) != [] by { TagIsThere(tag, wireType); }
  }

  // What pb_encode writes for a value of another table is an unknown record.
  lemma WrittenIsUnknown(d: Desc, f: Field, v: Value)
    requires WellFormedField(f) && ValidValue(f, v) && Find(d, f.tag) == |d.fields| && Skippable(f, v)
    requires EncodeTagged(f, v).Some? && |EncodeTagged(f, v).value| < TWO63
    ensures UnknownRecord(d, EncodeTagged(f, v).value)
  {
    hide SkipField, EncodeTag, DecodeTag, EncodeValue, Skippable, ValidValue;
    var payload := EncodeValue(f, v).value;
    SkipsValue(f, v, []);
    assert payload + [] == payload;
    TagRoundTrip(f.tag, WireTypeOf(f.ltype), payload);
  }

  lemma UnknownValue(d: Desc, st: State, f: Field, v: Value, rest: bytes)
    requires WellFormedField(f) && ValidValue(f, v) && Find(d, f.tag) == |d.fields|
    requires EncodeTagged(f, v).Some? && |EncodeTagged(f, v).value| < TWO63
    ensures DecodeRecords(d, st, EncodeTagged(f, v).value + rest) == if Skippable(f, v) then DecodeRecords(d, st, rest) else Fail
  {
    hide SkipField, DecodeRecords, EncodeTag, EncodeValue, Skippable, ValidValue, WellFormed;
    SkipsValue(f, v, rest);
    UnknownSkips(d, st, f.tag, WireTypeOf(f.ltype), EncodeValue(f, v).value, rest);
  }

  lemma {:induction false} UnknownEntries(d: Desc, st: State, f: Field, entries: seq<Value>, rest: bytes)
    requires WellFormedField(f) && Find(d, f.tag) == |d.fields| && forall k :: 0 <= k < |entries| ==> ValidValue(f, entries[k])
    requires EncodeEntries(f, entries).Some? && |EncodeEntries(f, entries).value| < TWO63
    ensures DecodeRecords(d, st, EncodeEntries(f, entries).value + rest)
         == if AllSkippable(f, entries) then DecodeRecords(d, st, rest) else Fail
    decreases |entries|
  {
    hide DecodeRecords, EncodeTagged, Skippable, ValidValue, WellFormedField;
    if entries == [] {
      assert EncodeEntries(f, entries).value + rest == rest;
    } else {
      var tail := entries[1..];
      var more := EncodeEntries(f, tail).value + rest;
      assert EncodeEntries(f, entries).value + rest == EncodeTagged(f, entries[0]).value + more;
      UnknownValue(d, st, f, entries[0], more);
      UnknownEntries(d, st, f, tail, rest);
      assert AllSkippable(f, entries) <==> Skippable(f, entries[0]) && AllSkippable(f, tail) by {
        assert forall k :: 0 < k < |entries| ==> entries[k] == tail[k - 1];
        assert forall k :: 0 <= k < |tail| ==> tail[k] == entries[k + 1];
      }
    }
  }

  // A field of another table, however many records it has, leaves the state alone.  With a length of
  // 2^32 or more it cannot be skipped.
  lemma UnknownField(d: Desc, st: State, f: Field, s: Slot, rest: bytes)
    requires WellFormedField(f) && ValidSlot(f, s) && PlainSlot(f, s) && Find(d, f.tag) == |d.fields|
    requires EncodeField(f, s).Some? && |EncodeField(f, s).value| < TWO63
    ensures DecodeRecords(d, st, EncodeField(f, s).value + rest) == if FieldShort(f, s) then DecodeRecords(d, st, rest) else Fail
  {
    hide DecodeRecords, EncodeTagged, EncodeEntries, EncodePacked, Skippable, ValidValue, IsSet, IsDefault, SkipField, EncodeTag;
    SetExactly(f, s);
    if !IsSet(f, s) {
      NothingWritten(f, s);
      assert EncodeField(f, s).value + rest == rest;
    } else if !f.htype.Repeated? {
      UnknownValue(d, st, f, s.v, rest);
    } else if Packable(f.ltype) {
      ArrayIsSet(f, s);
      var payload := EncodePacked(f, s.items).value;
      SkipsDelimited(payload, rest);
      UnknownSkips(d, st, f.tag, WT_STRING, EncodeDelimited(payload), rest);
    } else {
      ArrayIsSet(f, s);
      UnknownEntries(d, st, f, s.items, rest);
    }
  }

  // ----- A larger table -----

  predicate Known(d: Desc, f: Field) { Find(d, f.tag) < |d.fields| }

  // The fields that both tables have are the same but for their place in the struct, and in the same
  // order.
  predicate Extends(large: Desc, d: Desc) {
    && (forall j :: 0 <= j < |large.fields| && Known(d, large.fields[j]) ==> SameField(large.fields[j], d.fields[Find(d, large.fields[j].tag)]))
    && (forall i, j :: 0 <= i < j < |large.fields| && Known(d, large.fields[i]) && Known(d, large.fields[j]) ==>
          Find(d, large.fields[i].tag) < Find(d, large.fields[j].tag))
  }

  predicate SameField(f: Field, g: Field) {
    f == g.(dataOffset := f.dataOffset, sizeOffset := f.sizeOffset, slot := f.slot) && f.counted == g.counted
  }

  // What pb_encode writes for the fields from the i-th on that the smaller table has.
  function EncodeKnown(d: Desc, large: Desc, m: Message, i: nat): Option<bytes>
    requires i <= |large.fields|
    decreases |large.fields| - i
  {
    if i == |large.fields| then Some([])
    else
      var f := large.fields[i];
      Join(if Known(d, f) then EncodeField(f, SlotAt(m, f)) else Some([]), EncodeKnown(d, large, m, i + 1))
  }

  lemma {:induction false} KnownEncodes(d: Desc, large: Desc, m: Message, i: nat)
    requires i <= |large.fields| && EncodeFields(large, m, i).Some?
    ensures EncodeKnown(d, large, m, i).Some?
    decreases |large.fields| - i
  {
    if i < |large.fields| { KnownEncodes(d, large, m, i + 1); }
  }

  // No unknown field has a length of 2^32 or more in front of it.
  predicate UnknownAreShort(d: Desc, large: Desc, m: Message) {
    forall j :: 0 <= j < |large.fields| && !Known(d, large.fields[j]) ==> FieldShort(large.fields[j], SlotAt(m, large.fields[j]))
  }

  // The next field that both tables have comes after those received so far.
  ghost predicate Before(d: Desc, large: Desc, st: State, i: nat) {
    |st.m| == |d.fields| && FixedComplete(d, st)
    && forall j :: i <= j < |large.fields| && Known(d, large.fields[j]) ==> st.fixedField < Find(d, large.fields[j].tag)
  }

  lemma SameValueEncoding(f: Field, g: Field, v: Value)
    requires SameField(f, g)
    ensures EncodeValue(f, v) == EncodeValue(g, v) && EncodeTagged(f, v) == EncodeTagged(g, v)
  {
    assert EncodeValue(f, v) == EncodeValue(g, v);
  }

  lemma {:induction false} SamePacked(f: Field, g: Field, entries: seq<Value>)
    requires SameField(f, g)
    ensures EncodePacked(f, entries) == EncodePacked(g, entries)
    decreases |entries|
  {
    if entries != [] { SamePacked(f, g, entries[1..]); }
  }

  lemma {:induction false} SameEntries(f: Field, g: Field, entries: seq<Value>)
    requires SameField(f, g)
    ensures EncodeEntries(f, entries) == EncodeEntries(g, entries)
    decreases |entries|
  {
    hide EncodeTagged;
    if entries != [] {
      SameValueEncoding(f, g, entries[0]);
      SameEntries(f, g, entries[1..]);
    }
  }

  lemma SameEncoding(f: Field, g: Field, s: Slot)
    requires SameField(f, g)
    ensures EncodeField(f, s) == EncodeField(g, s)
  {
    hide EncodeTagged, EncodePacked, EncodeEntries;
    SameValueEncoding(f, g, ValueOf(f, s));
    assert ValueOf(f, s) == ValueOf(g, s) && IsDefault(f, s) == IsDefault(g, s);
    SamePacked(f, g, EntriesOf(s));
    SameEntries(f, g, EntriesOf(s));
    assert EncodeArray(f, EntriesOf(s)) == EncodeArray(g, EntriesOf(s));
  }

  lemma SameFit(f: Field, g: Field, v: Value)
    requires SameField(f, g)
    ensures ValidValue(f, v) <==> ValidValue(g, v)
  {
  }

  lemma SameSlotFit(f: Field, g: Field, s: Slot)
    requires SameField(f, g) && ValidSlot(f, s)
    ensures ValidSlot(g, s)
  {
    hide ValidValue;
    match f.htype
    case Required => SameFit(f, g, s.v);
    case Optional => SameFit(f, g, s.v);
    case Oneof => SameFit(f, g, s.v);
    case Repeated => forall k | 0 <= k < |s.items| ensures ValidValue(g, s.items[k]) { SameFit(f, g, s.items[k]); }
  }

  // ----- Reading with the smaller table -----

  // One field that both tables have: what comes after it is read from the same state.
  lemma KnownField(d: Desc, st: State, k: nat, s: Slot, a: bytes, b: bytes) returns (u: State)
    requires WellFormed(d) && k < |d.fields| && Between(d, st, k) && ValidSlot(d.fields[k], s) && !st.stopped
    requires EncodeField(d.fields[k], s).Some? && |EncodeField(d.fields[k], s).value| < TWO63
    ensures var bs := EncodeField(d.fields[k], s).value;
            if MergeSlot(d.fields[k], SlotAt(st.m, d.fields[k]), s).None? then
              DecodeRecords(d, st, bs + a) == Fail && DecodeRecords(d, st, bs + b) == Fail
            else
              && Between(d, u, k + 1) && !u.stopped
              && DecodeRecords(d, st, bs + a) == DecodeRecords(d, u, a) && DecodeRecords(d, st, bs + b) == DecodeRecords(d, u, b)
  {
    hide DecodeRecords, EncodeField, MergeSlot, WellFormed, ValidSlot;
    var bs := EncodeField(d.fields[k], s).value;
    u := st;
    if MergeSlot(d.fields[k], SlotAt(st.m, d.fields[k]), s).None? {
      var _ := FieldDecodes(d, st, s, k, a);
      var _ := FieldDecodes(d, st, s, k, b);
    } else {
      u := FieldDecodes(d, st, s, k, []);
      assert bs + [] == bs;
      NothingLeft(d, u);
      RecordsConcatenate(d, st, bs, a);
      RecordsConcatenate(d, st, bs, b);
    }
  }

  lemma NothingLeft(d: Desc, st: State)
    ensures DecodeRecords(d, st, []) == Read(st, [])
  {
  }

  lemma {:induction false} FieldsAreSkipped(d: Desc, large: Desc, st: State, m: Message, i: nat)
    requires WellFormed(d) && WellFormed(large) && Extends(large, d) && Valid(large, m) && Plain(large, m) && i <= |large.fields|
    requires Before(d, large, st, i) && !st.stopped && UnknownAreShort(d, large, m)
    requires EncodeFields(large, m, i).Some? && |EncodeFields(large, m, i).value| < TWO63
    ensures EncodeKnown(d, large, m, i).Some?
    ensures DecodeRecords(d, st, EncodeFields(large, m, i).value) == DecodeRecords(d, st, EncodeKnown(d, large, m, i).value)
    decreases |large.fields| - i
  {
    hide DecodeRecords, EncodeField, WellFormedField, ValidSlot, PlainSlot, FieldShort, MergeSlot, FixedComplete;
    KnownEncodes(d, large, m, i);
    if i < |large.fields| {
      var f, s := large.fields[i], SlotAt(m, large.fields[i]);
      assert s == m[f.slot] && WellFormedField(f) && ValidSlot(f, s) && PlainSlot(f, s);
      var all, some := EncodeFields(large, m, i + 1).value, EncodeKnown(d, large, m, i + 1).value;
      if Known(d, f) {
        var k := Find(d, f.tag);
        SameEncoding(f, d.fields[k], s);
        SameSlotFit(f, d.fields[k], s);
        assert Between(d, st, k);
        var u := KnownField(d, st, k, s, all, some);
        if MergeSlot(d.fields[k], SlotAt(st.m, d.fields[k]), s).Some? {
          assert Before(d, large, u, i + 1);
          FieldsAreSkipped(d, large, u, m, i + 1);
        }
      } else {
        UnknownField(d, st, f, s, all);
        assert EncodeField(f, s).value + all == EncodeFields(large, m, i).value && [] + some == some;
        FieldsAreSkipped(d, large, st, m, i + 1);
      }
    }
  }

  // A message written with a larger table decodes as if the fields that the reader lacks were not there.
  lemma UnknownFieldsAreAbsent(d: Desc, large: Desc, m: Message, n: Message)
    requires WellFormed(d) && WellFormed(large) && Extends(large, d) && Valid(large, n) && Plain(large, n) && |m| == |d.fields|
    requires UnknownAreShort(d, large, n)
    requires EncodeMessage(large, n).Some? && |EncodeMessage(large, n).value| < TWO63
    ensures EncodeKnown(d, large, n, 0).Some?
    ensures DecodeMessage(d, m, EncodeMessage(large, n).value) == DecodeMessage(d, m, EncodeKnown(d, large, n, 0).value)
  {
    hide DecodeRecords, EncodeKnown, EncodeFields, WellFormed, Valid, Plain, UnknownAreShort;
    FieldsAreSkipped(d, large, Start(m), n, 0);
  }
}
