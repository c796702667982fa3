// What a struct holds for the fields that are not on the wire: after pb_decode, what the table declares
// for them.
module AbsentFields {
  import opened Options
  import opened Wire
  import opened Descriptor
  import opened Encoding
  import opened Decoding
  import opened Concatenation

  // A record changes one slot only, that of the field with its tag.
  lemma RecordStays(d: Desc, st: State, tag: nat, wireType: WireType, bs: bytes, k: nat)
    requires k < |st.m| && DecodeRecord(d, st, tag, wireType, bs).Read?
    requires forall i :: 0 <= i < |d.fields| && d.fields[i].slot == k ==> d.fields[i].tag != tag
    ensures DecodeRecord(d, st, tag, wireType, bs).value.m[k] == st.m[k]
  {
    hide DecodeValue, DecodeEntries, SkipField;
  }

  lemma {:induction false} AbsentStays(d: Desc, st: State, bs: bytes, k: nat)
    requires k < |st.m| && DecodeRecords(d, st, bs).Read?
    requires forall i :: 0 <= i < |d.fields| && d.fields[i].slot == k ==> d.fields[i].tag !in TopTags(d, st, bs)
    ensures DecodeRecords(d, st, bs).value.m[k] == st.m[k]
    decreases |bs|
  {
    hide DecodeRecord, DecodeTag;
    if bs != [] && DecodeTag(bs).Tag? {
      var t := DecodeTag(bs);
      RecordStays(d, st, t.tag, t.wireType, t.rest, k);
      var r := DecodeRecord(d, st, t.tag, t.wireType, t.rest);
      AbsentStays(d, r.value, r.rest, k);
    }
  }

  // Neither the field nor another member of its union is on the wire.
  predicate Absent(d: Desc, m: Message, bs: bytes, i: nat)
    requires i < |d.fields|
  {
    forall j :: 0 <= j < |d.fields| && d.fields[j].slot == d.fields[i].slot ==> d.fields[j].tag !in TopTags(d, Start(m), bs)
  }

  // pb_decode_noinit leaves such a field as it was.
  lemma AbsentIsKept(d: Desc, m: Message, bs: bytes, i: nat)
    requires i < |d.fields| && DecodeMessage(d, m, bs).Read? && Absent(d, m, bs, i)
    ensures SlotAt(DecodeMessage(d, m, bs).value, d.fields[i]) == SlotAt(m, d.fields[i])
  {
    hide DecodeRecords, TopTags;
    if d.fields[i].slot < |m| { AbsentStays(d, Start(m), bs, d.fields[i].slot); }
  }

  // ----- What a table declares -----

  // The value that the table gives for the field, and else zero, an empty text or a buffer of zeros; a
  // submessage has the declared values of its own fields.
  predicate HoldsDefault(f: Field, v: Value)
    decreases f, 0
  {
    if f.ltype.Submessage? then v.Struct? && HoldsDefaults(f.sub, v.m)
    else if f.initial.Some? then v == f.initial.value
    else IsZero(f, v)
  }

  predicate IsZero(f: Field, v: Value) {
    if Packable(f.ltype) then v == Num(0)
    else v.Blob? && |v.data| == (if f.ltype.FixedLengthBytes? then f.dataSize else 0) && forall k :: 0 <= k < |v.data| ==> v.data[k] == 0
  }

  // No has_ and no which_ is set, counted arrays are empty, and the entries of the others are zero.
  predicate SlotHoldsDefault(f: Field, s: Slot)
    decreases f, 1
  {
    match f.htype
    case Required => s.Single? && HoldsDefault(f, s.v)
    case Optional => if f.counted then s.Maybe? && !s.has && HoldsDefault(f, s.v) else s.Single? && HoldsDefault(f, s.v)
    case Oneof => s.Union? && s.which == 0
    case Repeated =>
      && s.Items? && |s.items| == (if f.counted then 0 else f.arraySize)
      && forall k :: 0 <= k < |s.items| ==>
           if f.ltype.Submessage? then s.items[k].Struct? && HoldsDefaults(f.sub, s.items[k].m) else IsZero(f, s.items[k])
  }

  predicate HoldsDefaults(d: Desc, m: Message)
    decreases d, 2
  {
    forall i :: 0 <= i < |d.fields| ==> SlotHoldsDefault(d.fields[i], SlotAt(m, d.fields[i]))
  }

  lemma {:induction false} DefaultsHold(d: Desc)
    requires WellFormed(d)
    ensures HoldsDefaults(d, Defaults(d))
    decreases d, 2
  {
    hide SlotHoldsDefault;
    forall i | 0 <= i < |d.fields| ensures SlotHoldsDefault(d.fields[i], SlotAt(Defaults(d), d.fields[i])) {
      var f := d.fields[i];
      assert SlotInside(d, i) && WellFormedField(f) && WellFormedField(d.fields[f.slot]);
      if f.slot == i {
        SlotDefault(f);
      } else {
        assert Apart(d.fields[f.slot], f);
        UnionDefault(d.fields[f.slot], f);
      }
    }
  }

  lemma UnionDefault(f: Field, g: Field)
    requires f.htype.Oneof? && g.htype.Oneof?
    ensures SlotHoldsDefault(g, DefaultSlot(f))
  {
  }

  lemma {:induction false} SlotDefault(f: Field)
    requires WellFormedField(f)
    ensures SlotHoldsDefault(f, DefaultSlot(f))
    decreases f, 1
  {
    hide WellFormed, ValidValue;
    if f.ltype.Submessage? { DefaultsHold(f.sub); }
    ZeroIsZero(f);
  }

  lemma ZeroIsZero(f: Field)
    ensures !f.ltype.Submessage? ==> IsZero(f, Zero(f))
  {
  }

  // After pb_decode, every field that is not on the wire holds what the table declares for it.
  lemma AbsentHoldsDefault(d: Desc, bs: bytes, i: nat)
    requires WellFormed(d) && i < |d.fields| && Decode(d, bs).Read? && Absent(d, Defaults(d), bs, i)
    ensures SlotHoldsDefault(d.fields[i], SlotAt(Decode(d, bs).value, d.fields[i]))
  {
    hide DecodeMessage, WellFormed, Absent, SlotHoldsDefault;
    AbsentIsKept(d, Defaults(d), bs, i);
    DefaultsHold(d);
  }
}
