// The decoder tracks only the first PB_MAX_REQUIRED_FIELDS required fields of a table: one that comes
// after them may be missing.
module RequiredLimit {
  import opened Options
  import opened Wire
  import opened WireFacts
  import opened Descriptor
  import opened Encoding
  import opened Decoding
  import opened Scalars
  import opened Merging
  import opened DecodeOfEncode
  import opened Concatenation

  // required uint32, with the tag i + 1.
  function NumberField(i: nat): Field {
    Field(i + 1, Uvarint, Required, Static, 0, 0, 4, 0, i, Desc([]), None)
  }

  // One required field too many.
  function Crowded(): Desc {
    Desc(seq(MAX_REQUIRED + 1, i requires 0 <= i => NumberField(i)))
  }

  // A record with the number 1 for each of the tracked fields from the i-th on.
  function TrackedRecords(i: nat): (bs: bytes)
    requires i <= MAX_REQUIRED
    decreases MAX_REQUIRED - i
  {
    if i == MAX_REQUIRED then [] else Record(i) + TrackedRecords(i + 1)
  }

  function Record(i: nat): bytes {
    EncodeTag(i + 1, WT_VARINT) + EncodeVarint(1)
  }

  lemma CrowdedIsWellFormed()
    ensures WellFormed(Crowded())
  {
    var d := Crowded();
    forall i | 0 <= i < |d.fields| ensures WellFormedField(d.fields[i]) && SlotInside(d, i) {
      assert d.fields[i] == NumberField(i);
    }
    forall i, j | 0 <= i < j < |d.fields| ensures Apart(d.fields[i], d.fields[j]) {
      assert d.fields[i] == NumberField(i) && d.fields[j] == NumberField(j);
    }
  }

  lemma {:induction false} IndexIs(i: nat)
    requires i <= MAX_REQUIRED + 1
    ensures RequiredIndex(Crowded(), i) == i
  {
    if i > 0 {
      IndexIs(i - 1);
      assert Crowded().fields[i - 1] == NumberField(i - 1);
    }
  }

  lemma NumberDecoded(f: Field, i: nat, was: Value, rest: bytes)
    requires f == NumberField(i) && i < MAX_REQUIRED
    ensures DecodeValue(f, was, EncodeVarint(1) + rest) == Read(Num(1), rest)
  {
    hide DecodeValue, EncodeVarint;
    assert EncodeValue(f, Num(1)) == Some(EncodeVarint(1));
    VarintRoundTrip(1, []);
    ValueDecodes(f, was, Num(1), rest);
  }

  lemma OneDecoded(st: State, i: nat, rest: bytes) returns (u: State)
    requires i < MAX_REQUIRED
    ensures DecodeRecords(Crowded(), st, Record(i) + rest) == DecodeRecords(Crowded(), u, rest)
    ensures TopTags(Crowded(), st, Record(i) + rest) == {i + 1} + TopTags(Crowded(), u, rest)
    ensures u.seen == st.seen + {i} && u.fixedField == st.fixedField && u.fixedCount == st.fixedCount
  {
    hide DecodeTag, EncodeTag, EncodeVarint, WellFormed, DecodeValue;
    var d, f := Crowded(), NumberField(i);
    assert d.fields[i] == f;
    CrowdedIsWellFormed();
    IndexIs(i);
    var body := EncodeVarint(1) + rest;
    assert Record(i) + rest == EncodeTag(f.tag, WireTypeOf(f.ltype)) + body;
    NumberDecoded(f, i, Base(f, SlotAt(st.m, f)), rest);
    SingleField(d, Enter(d, st, i).value, i, WireTypeOf(f.ltype), body);
    OneRecord(d, st, i, WireTypeOf(f.ltype), body);
    TagRoundTrip(f.tag, WireTypeOf(f.ltype), body);
    FoundAt(d, i);
    u := Enter(d, st, i).value.(m := Put(st.m, f, Filled(f, Num(1))));
  }

  lemma NothingDecoded(d: Desc, st: State)
    ensures DecodeRecords(d, st, []) == Read(st, []) && TopTags(d, st, []) == {}
  {
  }

  lemma {:induction false} TrackedDecoded(st: State, i: nat)
    requires i <= MAX_REQUIRED && st.fixedField < 0
    ensures var r := DecodeRecords(Crowded(), st, TrackedRecords(i));
            && r.Read? && r.value.fixedField < 0 && st.seen <= r.value.seen
            && forall j :: i <= j < MAX_REQUIRED ==> j in r.value.seen
    ensures forall tag :: tag in TopTags(Crowded(), st, TrackedRecords(i)) ==> i < tag <= MAX_REQUIRED
    decreases MAX_REQUIRED - i
  {
    hide Crowded, Record, DecodeRecords, TopTags;
    if i == MAX_REQUIRED {
      NothingDecoded(Crowded(), st);
    } else {
      var u := OneDecoded(st, i, TrackedRecords(i + 1));
      TrackedDecoded(u, i + 1);
    }
  }

  // A message without the last required field is accepted.
  lemma LastRequiredIsNotMissed(m: Message)
    ensures WellFormed(Crowded()) && Crowded().fields[MAX_REQUIRED].htype.Required?
    ensures Crowded().fields[MAX_REQUIRED].tag !in TopTags(Crowded(), Start(m), TrackedRecords(0))
    ensures DecodeMessage(Crowded(), m, TrackedRecords(0)).Read?
  {
    hide DecodeRecords, WellFormed, TopTags;
    var d := Crowded();
    CrowdedIsWellFormed();
    assert d.fields[MAX_REQUIRED] == NumberField(MAX_REQUIRED);
    TrackedDecoded(Start(m), 0);
    forall i | 0 <= i < |d.fields| && Tracked(d, i) ensures i < MAX_REQUIRED { IndexIs(i); }
  }
}
