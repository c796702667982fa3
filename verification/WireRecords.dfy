// The wire seen without any table: a stream of records that are told apart by their wire type alone.
// What pb_skip_field takes for the payload of a record is what pb_encode has written for it.
module WireRecords {
  import opened Options
  import opened Wire
  import opened WireFacts
  import opened Descriptor
  import opened Encoding
  import opened Decoding
  import opened Scalars
  import opened Merging
  import opened DecodeOfEncode
  import opened Concatenation

  // ----- Skipping what was written -----

  lemma {:induction false} SkipsVarint(v: nat, rest: bytes)
    ensures SkipVarint(EncodeVarint(v) + rest) == Read((), rest)
    decreases v
  {
    var bs := EncodeVarint(v) + rest;
    if v < 128 {
      assert bs[1..] == rest;
    } else {
      assert bs[1..] == EncodeVarint(v / 128) + rest;
      SkipsVarint(v / 128, rest);
    }
  }

  lemma SkipsDelimited(payload: bytes, rest: bytes)
    requires |payload| < TWO63
    ensures SkipField(WT_STRING, EncodeDelimited(payload) + rest) == if |payload| < TWO32 then Read((), rest) else Fail
  {
    DelimitedRoundTrip(payload, rest);
  }

  // The value has no length of 2^32 or more in front of it.
  predicate Skippable(f: Field, v: Value) {
    f.ltype.Submessage? ==> ShortPayload(EncodeMessage(f.sub, AsMessage(f.sub, v)))
  }

  // Exactly the bytes of a value are skipped, whatever follows; one with a longer length is not.
  lemma SkipsValue(f: Field, v: Value, rest: bytes)
    requires WellFormedField(f) && ValidValue(f, v)
    requires EncodeValue(f, v).Some? && |EncodeValue(f, v).value| < TWO63
    ensures SkipField(WireTypeOf(f.ltype), EncodeValue(f, v).value + rest) == if Skippable(f, v) then Read((), rest) else Fail
  {
    hide EncodeVarint, SkipVarint, DecodeVarint32, LengthDelimited, EncodeMessage;
    if f.ltype.Fixed32? || f.ltype.Fixed64? {
      TakeExactly(EncodeValue(f, v).value, rest, FixedWidth(f.ltype));
    } else if Packable(f.ltype) {
      SkipsNumber(f, v.n, rest);
    } else if f.ltype.Submessage? {
      SkipsDelimited(EncodeMessage(f.sub, AsMessage(f.sub, v)).value, rest);
    } else {
      BlobEncodes(f, v);
      SkipsDelimited(v.data, rest);
    }
  }

  lemma SkipsNumber(f: Field, n: int, rest: bytes)
    requires Packable(f.ltype) && !f.ltype.Fixed32? && !f.ltype.Fixed64? && EncodeScalar(f, n).Some?
    ensures SkipField(WT_VARINT, EncodeScalar(f, n).value + rest) == Read((), rest)
  {
    hide EncodeVarint, SkipVarint;
    if f.ltype.Bool? { SkipsVarint(if n != 0 then 1 else 0, rest); }
    else if f.ltype.Svarint? { SkipsVarint(ZigZag(n) % TWO64, rest); }
    else { SkipsVarint(n % TWO64, rest); }
  }

  // Groups, and wire types that do not exist, cannot be skipped.
  lemma GroupsAreRefused(d: Desc, m: Message, a: bytes, tag: nat, wireType: WireType, rest: bytes)
    requires DecodeRecords(d, Start(m), a).Read? && !DecodeRecords(d, Start(m), a).value.stopped
    requires 0 < tag < 0x2000_0000 && Find(d, tag) == |d.fields| && wireType in {3, 4, 6, 7}
    ensures DecodeMessage(d, m, a + (EncodeTag(tag, wireType) + rest)) == Fail
  {
    hide DecodeTag, EncodeTag;
    RecordsConcatenate(d, Start(m), a, EncodeTag(tag, wireType) + rest);
    TagRoundTrip(tag, wireType, rest);
    assert EncodeTag(tag, wireType) + rest != [] by { TagIsThere(tag, wireType); }
  }

  // ----- A stream of records -----

  datatype Record = Record(tag: nat, wireType: WireType, payload: bytes)

  // The records of a stream, or None if a tag is zero or something cannot be read.
  function Split(bs: bytes): Option<seq<Record>>
    decreases |bs|
  {
    if bs == [] then Some([])
    else
      var t := DecodeTag(bs);
      if !t.Tag? then None
      else
        match SkipField(t.wireType, t.rest)
        case Fail => None
        case Read(_, rest) => Headed(Record(t.tag, t.wireType, t.rest[..|t.rest| - |rest|]), Split(rest))
  }

  function Headed(r: Record, rs: Option<seq<Record>>): Option<seq<Record>> {
    match rs case None => None case Some(more) => Some([r] + more)
  }

  function Behind(a: Option<seq<Record>>, b: Option<seq<Record>>): Option<seq<Record>> {
    if a.Some? && b.Some? then Some(a.value + b.value) else None
  }

  // The records that a message should consist of: those of its fields in the order of the table, one
  // for each value that is set, one for each entry of an array, and one for all numbers of an array.
  function RecordsOf(d: Desc, m: Message, i: nat): seq<Record>
    requires i <= |d.fields|
    decreases d, 1, |d.fields| - i
  {
    if i == |d.fields| then [] else FieldRecords(d.fields[i], SlotAt(m, d.fields[i])) + RecordsOf(d, m, i + 1)
  }

  function FieldRecords(f: Field, s: Slot): seq<Record>
    decreases f, 1
  {
    if f.htype.Repeated? then
      if EntriesOf(s) == [] then []
      else if Packable(f.ltype) then [Record(f.tag, WT_STRING, EncodeDelimited(EncodePacked(f, EntriesOf(s)).GetOr([])))]
      else EntryRecords(f, EntriesOf(s))
    else if IsSet(f, s) then [ValueRecord(f, ValueOf(f, s))]
    else []
  }

  function EntryRecords(f: Field, entries: seq<Value>): seq<Record> {
    if entries == [] then [] else [ValueRecord(f, entries[0])] + EntryRecords(f, entries[1..])
  }

  function ValueRecord(f: Field, v: Value): Record {
    Record(f.tag, WireTypeOf(f.ltype), EncodeValue(f, v).GetOr([]))
  }

  // A required field is always set, an optional one if has_ says so, a member of a union if which_ does,
  // and a field of proto3 if it is not zero or empty: a submessage is empty that has no records itself.
  predicate IsSet(f: Field, s: Slot)
    decreases f, 0
  {
    match f.htype
    case Required => true
    case Optional =>
      if f.counted then s.Maybe? && s.has
      else if f.ltype.Submessage? then RecordsOf(f.sub, AsMessage(f.sub, ValueOf(f, s)), 0) != []
      else if Packable(f.ltype) then NumberOf(ValueOf(f, s)) != 0
      else DataOf(ValueOf(f, s)) != []
    case Oneof => WhichOf(s) == f.tag
    case Repeated => EntriesOf(s) != []
  }

  // The which_ of every union is zero or names a member, and fixed-count arrays have entries, also in
  // submessages of proto3.
  predicate Plain(d: Desc, m: Message)
    decreases d, 1
  {
    forall i :: 0 <= i < |d.fields| ==> PlainSlot(d.fields[i], SlotAt(m, d.fields[i])) && NamesMember(d, d.fields[i].slot, SlotAt(m, d.fields[i]))
  }

  predicate PlainSlot(f: Field, s: Slot)
    decreases f, 0
  {
    && (FixedCount(f) ==> f.arraySize > 0)
    && (Singular(f) && f.ltype.Submessage? ==> Plain(f.sub, AsMessage(f.sub, ValueOf(f, s))))
  }

  predicate NamesMember(d: Desc, k: nat, s: Slot) {
    s.Union? && s.which != 0 ==>
      exists j :: 0 <= j < |d.fields| && d.fields[j].slot == k && d.fields[j].htype.Oneof? && d.fields[j].tag == s.which
  }

  // ----- What is left out -----

  lemma {:induction false} NoRecords(d: Desc, m: Message, i: nat)
    requires i <= |d.fields|
    ensures RecordsOf(d, m, i) == [] <==> forall j :: i <= j < |d.fields| ==> FieldRecords(d.fields[j], SlotAt(m, d.fields[j])) == []
    decreases |d.fields| - i
  {
    hide FieldRecords;
    if i < |d.fields| { NoRecords(d, m, i + 1); }
  }

  // pb_check_proto3_default_value says exactly of the fields that are not set that they are default.
  lemma {:induction false} SetExactly(f: Field, s: Slot)
    requires WellFormedField(f) && ValidSlot(f, s) && PlainSlot(f, s)
    ensures IsSet(f, s) <==> Present(f, s)
    ensures !f.htype.Oneof? ==> (IsSet(f, s) <==> !IsDefault(f, s))
    decreases f, 0
  {
    hide RecordsOf, AllDefault, WellFormed, Valid, Plain;
    if Singular(f) {
      if f.ltype.Submessage? {
        NestedValid(f, s.v);
        AllDefaultExactly(f.sub, s.v.m);
      } else if f.ltype.String? {
        CStringWhole(s.v.data);
      }
    }
  }

  lemma NestedValid(f: Field, v: Value)
    requires f.ltype.Submessage? && ValidValue(f, v)
    ensures v.Struct? && AsMessage(f.sub, v) == v.m && Valid(f.sub, v.m)
  {
    assert v.Struct? && Valid(f.sub, v.m);
    assert |v.m| == |f.sub.fields|;
  }

  // A submessage of proto3 is left out exactly when it would have no records.
  lemma {:induction false} AllDefaultExactly(d: Desc, m: Message)
    requires WellFormed(d) && Valid(d, m) && Plain(d, m)
    ensures AllDefault(d, m) <==> RecordsOf(d, m, 0) == []
    decreases d, 1
  {
    hide IsSet, IsDefault, PlainSlot, WellFormedField, ValidSlot;
    NoRecords(d, m, 0);
    forall i | 0 <= i < |d.fields|
      ensures !d.fields[i].htype.Oneof? ==>
                (IsDefault(d.fields[i], SlotAt(m, d.fields[i])) <==> FieldRecords(d.fields[i], SlotAt(m, d.fields[i])) == [])
    {
      assert SlotAt(m, d.fields[i]) == m[d.fields[i].slot];
      SetExactly(d.fields[i], SlotAt(m, d.fields[i]));
      FieldIsSet(d.fields[i], SlotAt(m, d.fields[i]));
    }
    forall i | 0 <= i < |d.fields| && d.fields[i].htype.Oneof?
      ensures IsDefault(d.fields[i], SlotAt(m, d.fields[i])) <==> WhichOf(SlotAt(m, d.fields[i])) == 0
      ensures FieldRecords(d.fields[i], SlotAt(m, d.fields[i])) == [] <==> WhichOf(SlotAt(m, d.fields[i])) != d.fields[i].tag
      ensures d.fields[i].tag > 0
    {
      UnionIsSet(d.fields[i], SlotAt(m, d.fields[i]));
      assert WellFormedField(d.fields[i]) ==> d.fields[i].tag > 0 by { TagIsPositive(d.fields[i]); }
    }
    if RecordsOf(d, m, 0) == [] {
      forall i | 0 <= i < |d.fields| && d.fields[i].htype.Oneof? ensures WhichOf(SlotAt(m, d.fields[i])) == 0 {
        assert NamesMember(d, d.fields[i].slot, SlotAt(m, d.fields[i]));
      }
    }
  }

  lemma TagIsPositive(f: Field)
    ensures WellFormedField(f) ==> f.tag > 0
  {
  }

  lemma FieldIsSet(f: Field, s: Slot)
    ensures FieldRecords(f, s) == [] <==> !IsSet(f, s)
  {
    hide RecordsOf;
    if f.htype.Repeated? && EntriesOf(s) != [] { assert |EntryRecords(f, EntriesOf(s))| > 0; }
  }

  lemma UnionIsSet(f: Field, s: Slot)
    requires f.htype.Oneof?
    ensures IsDefault(f, s) <==> WhichOf(s) == 0
    ensures FieldRecords(f, s) == [] <==> WhichOf(s) != f.tag
  {
  }

  // ----- What pb_encode writes -----

  // The first record of a stream.
  lemma FirstRecord(tag: nat, wireType: WireType, payload: bytes, rest: bytes)
    requires 0 < tag < 0x2000_0000
    requires SkipField(wireType, payload + rest) == Read((), rest) || SkipField(wireType, payload + rest) == Fail
    ensures Split(EncodeTag(tag, wireType) + payload + rest) ==
            if SkipField(wireType, payload + rest) == Fail then None else Headed(Record(tag, wireType, payload), Split(rest))
  {
    hide DecodeTag, EncodeTag, SkipField;
    assert EncodeTag(tag, wireType) + payload + rest == EncodeTag(tag, wireType) + (payload + rest);
    TagRoundTrip(tag, wireType, payload + rest);
    assert EncodeTag(tag, wireType) + (payload + rest) != [] by { TagIsThere(tag, wireType); }
    assert (payload + rest)[..|payload + rest| - |rest|] == payload;
  }

  lemma TagIsThere(tag: nat, wireType: WireType)
    ensures EncodeTag(tag, wireType) != []
  {
  }

  lemma ValueSplits(f: Field, v: Value, rest: bytes)
    requires WellFormedField(f) && ValidValue(f, v) && EncodeTagged(f, v).Some? && |EncodeTagged(f, v).value| < TWO63
    ensures Split(EncodeTagged(f, v).value + rest) == if Skippable(f, v) then Headed(ValueRecord(f, v), Split(rest)) else None
  {
    hide SkipField, Split, EncodeTag, EncodeValue, Skippable, ValidValue, WellFormed;
    SkipsValue(f, v, rest);
    FirstRecord(f.tag, WireTypeOf(f.ltype), EncodeValue(f, v).value, rest);
  }

  predicate AllSkippable(f: Field, entries: seq<Value>) {
    forall k :: 0 <= k < |entries| ==> Skippable(f, entries[k])
  }

  lemma {:induction false} EntriesSplit(f: Field, entries: seq<Value>, rest: bytes)
    requires WellFormedField(f) && forall k :: 0 <= k < |entries| ==> ValidValue(f, entries[k])
    requires EncodeEntries(f, entries).Some? && |EncodeEntries(f, entries).value| < TWO63
    ensures Split(EncodeEntries(f, entries).value + rest)
         == if AllSkippable(f, entries) then Behind(Some(EntryRecords(f, entries)), Split(rest)) else None
    decreases |entries|
  {
    hide Split, EncodeTagged, Skippable, ValidValue, WellFormedField, ValueRecord;
    if entries == [] {
      assert EncodeEntries(f, entries).value + rest == rest;
      assert Split(rest).Some? ==> [] + Split(rest).value == Split(rest).value;
    } else {
      var tail := entries[1..];
      var more := EncodeEntries(f, tail).value + rest;
      assert EncodeEntries(f, entries).value + rest == EncodeTagged(f, entries[0]).value + more;
      ValueSplits(f, entries[0], more);
      EntriesSplit(f, tail, rest);
      assert AllSkippable(f, entries) <==> Skippable(f, entries[0]) && AllSkippable(f, tail) by {
        assert forall k :: 0 < k < |entries| ==> entries[k] == tail[k - 1];
        assert forall k :: 0 <= k < |tail| ==> tail[k] == entries[k + 1];
      }
      if Split(rest).Some? {
        assert [ValueRecord(f, entries[0])] + (EntryRecords(f, tail) + Split(rest).value)
            == ([ValueRecord(f, entries[0])] + EntryRecords(f, tail)) + Split(rest).value;
      }
    }
  }

  // No length that is written for the field itself is 2^32 or more.
  predicate FieldShort(f: Field, s: Slot) {
    IsSet(f, s) ==>
      if !f.htype.Repeated? then Skippable(f, ValueOf(f, s))
      else if Packable(f.ltype) then ShortPayload(EncodePacked(f, EntriesOf(s)))
      else AllSkippable(f, EntriesOf(s))
  }

  lemma FieldSplits(f: Field, s: Slot, rest: bytes)
    requires WellFormedField(f) && ValidSlot(f, s) && PlainSlot(f, s)
    requires EncodeField(f, s).Some? && |EncodeField(f, s).value| < TWO63
    ensures Split(EncodeField(f, s).value + rest) == if FieldShort(f, s) then Behind(Some(FieldRecords(f, s)), Split(rest)) else None
  {
    hide Split, EncodeTagged, EncodeEntries, EncodePacked, Skippable, ValidValue, IsSet, IsDefault, SkipField, EncodeTag;
    SetExactly(f, s);
    if !IsSet(f, s) {
      FieldIsSet(f, s);
      NothingWritten(f, s);
      assert EncodeField(f, s).value + rest == rest;
      assert Split(rest).Some? ==> [] + Split(rest).value == Split(rest).value;
    } else if !f.htype.Repeated? {
      ValueSplits(f, s.v, rest);
    } else if Packable(f.ltype) {
      ArrayIsSet(f, s);
      var payload := EncodePacked(f, s.items).value;
      SkipsDelimited(payload, rest);
      FirstRecord(f.tag, WT_STRING, EncodeDelimited(payload), rest);
    } else {
      ArrayIsSet(f, s);
      EntriesSplit(f, s.items, rest);
    }
  }

  lemma ArrayIsSet(f: Field, s: Slot)
    requires f.htype.Repeated? && IsSet(f, s)
    ensures EntriesOf(s) != []
  {
  }

  lemma NothingWritten(f: Field, s: Slot)
    requires !Present(f, s)
    ensures EncodeField(f, s) == Some([])
  {
  }

  lemma {:induction false} FieldsSplit(d: Desc, m: Message, i: nat, rest: bytes)
    requires WellFormed(d) && Valid(d, m) && Plain(d, m) && i <= |d.fields|
    requires EncodeFields(d, m, i).Some? && |EncodeFields(d, m, i).value| < TWO63
    ensures Split(EncodeFields(d, m, i).value + rest) ==
            if forall j :: i <= j < |d.fields| ==> FieldShort(d.fields[j], SlotAt(m, d.fields[j]))
            then Behind(Some(RecordsOf(d, m, i)), Split(rest)) else None
    decreases |d.fields| - i
  {
    hide Split, EncodeField, FieldShort, WellFormedField, ValidSlot, PlainSlot, FieldRecords;
    if i == |d.fields| {
      assert EncodeFields(d, m, i).value + rest == rest;
      assert Split(rest).Some? ==> [] + Split(rest).value == Split(rest).value;
    } else {
      var f, s := d.fields[i], SlotAt(m, d.fields[i]);
      assert s == m[f.slot];
      var more := EncodeFields(d, m, i + 1).value + rest;
      assert EncodeFields(d, m, i).value + rest == EncodeField(f, s).value + more;
      FieldSplits(f, s, more);
      FieldsSplit(d, m, i + 1, rest);
      if Split(rest).Some? {
        assert FieldRecords(f, s) + (RecordsOf(d, m, i + 1) + Split(rest).value)
            == (FieldRecords(f, s) + RecordsOf(d, m, i + 1)) + Split(rest).value;
      }
    }
  }

  // Without any table, the output of pb_encode falls into the records of the message exactly when no
  // length at the top level is 2^32 or more.
  lemma EncodingIsRecords(d: Desc, m: Message)
    requires WellFormed(d) && Valid(d, m) && Plain(d, m)
    requires EncodeMessage(d, m).Some? && |EncodeMessage(d, m).value| < TWO63
    ensures Split(EncodeMessage(d, m).value) ==
            if forall j :: 0 <= j < |d.fields| ==> FieldShort(d.fields[j], SlotAt(m, d.fields[j])) then Some(RecordsOf(d, m, 0)) else None
  {
    hide Split, EncodeFields, FieldShort;
    var bs := EncodeMessage(d, m).value;
    FieldsSplit(d, m, 0, []);
    assert bs + [] == bs;
    SplitNothing();
    assert RecordsOf(d, m, 0) + [] == RecordsOf(d, m, 0);
  }

  lemma SplitNothing()
    ensures Split([]) == Some([])
  {
  }
}
