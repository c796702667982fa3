// The message round trip: decoding what was encoded gives back the same message, and it fails
// exactly when an embedded message or packed array is too long for a 32-bit length.
module RoundTrip {
  import opened Options
  import opened Wire
  import opened WireFacts
  import opened Descriptor
  import opened Encoding
  import opened Decoding
  import opened Scalars
  import opened Merging
  import opened DecodeOfEncode

  // ----- The condition -----

  // Every length that pb_encode writes in front of an embedded message or a packed array fits
  // the 32 bits that pb_decode reads.
  predicate LengthsFit(d: Desc, m: Message)
    decreases d, 1
  {
    forall i :: 0 <= i < |d.fields| ==> FieldFits(d.fields[i], SlotAt(m, d.fields[i]))
  }

  predicate FieldFits(f: Field, s: Slot)
    decreases f, 2
  {
    Present(f, s) ==>
      if f.htype.Repeated? then
        && (Packable(f.ltype) ==> ShortPayload(EncodePacked(f, EntriesOf(s))))
        && forall k :: 0 <= k < |EntriesOf(s)| ==> ValueFits(f, EntriesOf(s)[k])
      else ValueFits(f, ValueOf(f, s))
  }

  predicate ValueFits(f: Field, v: Value)
    decreases f, 0
  {
    f.ltype.Submessage? ==>
      ShortPayload(EncodeMessage(f.sub, AsMessage(f.sub, v))) && LengthsFit(f.sub, AsMessage(f.sub, v))
  }

  // ----- Values left out of the encoding are the decoder's defaults -----

  // A proto3 field that pb_check_proto3_default_value leaves out holds the default value.
  lemma {:induction false} OmittedIsDefault(f: Field, s: Slot)
    requires WellFormedField(f) && Singular(f) && ValidSlot(f, s) && IsDefault(f, s)
    ensures SameValue(f, DefaultValue(f), s.v)
    decreases f, 0
  {
    if f.ltype.Submessage? {
      AllDefaultIsSame(f.sub, s.v.m);
    } else if f.ltype.String? {
      CStringWhole(s.v.data);
    } else if f.ltype.FixedLengthBytes? {
      assert s.v.data == Zeros(0);
    }
  }

  lemma {:induction false} AllDefaultIsSame(d: Desc, m: Message)
    requires WellFormed(d) && Valid(d, m) && AllDefault(d, m)
    ensures Same(d, Defaults(d), m)
    decreases d, 0
  {
    forall i | 0 <= i < |d.fields|
      ensures SameSlot(d.fields[i], Defaults(d)[d.fields[i].slot], m[d.fields[i].slot])
    {
      var f := d.fields[i];
      assert SlotInside(d, i);
      assert IsDefault(f, SlotAt(m, f));
      if Singular(f) { OmittedIsDefault(f, m[f.slot]); }
    }
  }

  // ----- Merging into default values -----

  lemma {:induction false} ValueIntoDefault(f: Field, was: Value, v: Value)
    requires WellFormedField(f) && ValidValue(f, v)
    requires f.ltype.Submessage? && !f.htype.Repeated? ==> AsMessage(f.sub, was) == Defaults(f.sub)
    ensures MergeValue(f, was, v).Some? <==> ValueFits(f, v)
    ensures MergeValue(f, was, v).Some? ==> SameValue(f, MergeValue(f, was, v).value, v)
    decreases f, 0
  {
    if f.ltype.Submessage? { MessageIntoDefault(f.sub, v.m); }
  }

  // vs is put in behind the first count entries.
  lemma {:induction false} EntriesIntoDefault(f: Field, entries: seq<Value>, count: nat, vs: seq<Value>)
    requires WellFormedField(f) && f.htype.Repeated? && forall k :: 0 <= k < |vs| ==> ValidValue(f, vs[k])
    requires |entries| == count || |entries| == count + |vs|
    ensures MergeEntries(f, entries, count, vs).Some? <==> forall k :: 0 <= k < |vs| ==> ValueFits(f, vs[k])
    ensures MergeEntries(f, entries, count, vs).Some? ==>
      var r := MergeEntries(f, entries, count, vs).value;
      |r| == count + |vs| && r[..count] == entries[..count] && forall k :: 0 <= k < |vs| ==> SameValue(f, r[count + k], vs[k])
    decreases f, 1, |vs|
  {
    hide MergeValue, ValueFits, SameValue, ValidValue;
    if vs != [] {
      ValueIntoDefault(f, Zero(f), vs[0]);
      if MergeValue(f, Zero(f), vs[0]).Some? {
        var w := MergeValue(f, Zero(f), vs[0]).value;
        var entries' := PutEntry(entries, count, w);
        EntriesIntoDefault(f, entries', count + 1, vs[1..]);
        if MergeEntries(f, entries, count, vs).Some? {
          var r := MergeEntries(f, entries, count, vs).value;
          assert r[count] == r[..count + 1][count] == w;
          assert r[..count] == r[..count + 1][..count] == entries[..count];
          forall k | 0 <= k < |vs|
            ensures SameValue(f, r[count + k], vs[k])
          {
            if k > 0 { assert SameValue(f, r[count + 1 + (k - 1)], vs[1..][k - 1]); }
          }
        }
        assert (forall k :: 0 <= k < |vs| ==> ValueFits(f, vs[k])) <==>
          ValueFits(f, vs[0]) && forall k :: 0 <= k < |vs[1..]| ==> ValueFits(f, vs[1..][k]);
      }
    }
  }

  // What the slots hold when the first i fields of n have been merged into the defaults.
  ghost predicate Merged(d: Desc, m: Message, n: Message, i: nat)
    requires WellFormed(d) && |n| == |d.fields|
  {
    && |m| == |d.fields|
    && (forall j :: 0 <= j < |d.fields| && j < i ==> SameSlot(d.fields[j], SlotAt(m, d.fields[j]), SlotAt(n, d.fields[j])))
    && (forall j :: i <= j < |d.fields| ==> Untouched(d, m, n, j))
  }

  ghost predicate Untouched(d: Desc, m: Message, n: Message, j: nat)
    requires j < |d.fields|
  {
    var f := d.fields[j];
    var s := SlotAt(m, f);
    if f.htype.Oneof? then WhichOf(s) != f.tag && (WhichOf(s) == 0 || WhichOf(s) == WhichOf(SlotAt(n, f)))
    else s == DefaultSlot(f)
  }

  lemma {:induction false} SlotIntoDefault(d: Desc, m: Message, n: Message, i: nat)
    requires WellFormed(d) && Valid(d, n) && i < |d.fields| && |m| == |d.fields| && Untouched(d, m, n, i)
    ensures var f := d.fields[i];
            MergeSlot(f, SlotAt(m, f), SlotAt(n, f)).Some? <==> FieldFits(f, SlotAt(n, f))
    ensures var f := d.fields[i];
            MergeSlot(f, SlotAt(m, f), SlotAt(n, f)).Some? ==>
              SameSlot(f, MergeSlot(f, SlotAt(m, f), SlotAt(n, f)).value, SlotAt(n, f))
    decreases d.fields[i], 2
  {
    hide MergeValue, MergeEntries, EncodePacked, ValueFits, SameValue, ValidValue;
    var f := d.fields[i];
    var s := SlotAt(m, f);
    var t := SlotAt(n, f);
    if !Present(f, t) {
      if Singular(f) { OmittedIsDefault(f, t); }
    } else if f.htype.Repeated? {
      EntriesIntoDefault(f, EntriesOf(s), if f.counted then |EntriesOf(s)| else 0, EntriesOf(t));
    } else {
      if f.ltype.Submessage? { BaseIsDefault(d, m, n, i); }
      ValueIntoDefault(f, Base(f, s), t.v);
    }
  }

  lemma BaseIsDefault(d: Desc, m: Message, n: Message, i: nat)
    requires WellFormed(d) && i < |d.fields| && Untouched(d, m, n, i)
    requires d.fields[i].ltype.Submessage? && !d.fields[i].htype.Repeated?
    ensures AsMessage(d.fields[i].sub, Base(d.fields[i], SlotAt(m, d.fields[i]))) == Defaults(d.fields[i].sub)
  {
    var f := d.fields[i];
    assert DefaultValue(f) == Struct(Defaults(f.sub));
    assert !f.htype.Oneof? ==> ValueOf(f, DefaultSlot(f)) == DefaultValue(f);
  }

  lemma {:induction false} FieldsIntoDefault(d: Desc, m: Message, n: Message, i: nat)
    requires WellFormed(d) && Valid(d, n) && i <= |d.fields| && Merged(d, m, n, i)
    ensures MergeFields(d, m, n, i).Some? <==>
      forall j :: i <= j < |d.fields| ==> FieldFits(d.fields[j], SlotAt(n, d.fields[j]))
    ensures MergeFields(d, m, n, i).Some? ==> Merged(d, MergeFields(d, m, n, i).value, n, |d.fields|)
    decreases d, 0, |d.fields| - i
  {
    if i < |d.fields| {
      var f := d.fields[i];
      var merged := MergeSlot(f, SlotAt(m, f), SlotAt(n, f));
      SlotIntoDefault(d, m, n, i);
      if merged.Some? {
        MergedStep(d, m, n, i, merged.value);
        FieldsIntoDefault(d, Put(m, f, merged.value), n, i + 1);
      }
    }
  }

  // One more field merged: fields that share the slot are members of the same oneof.
  lemma MergedStep(d: Desc, m: Message, n: Message, i: nat, s: Slot)
    requires WellFormed(d) && Valid(d, n) && i < |d.fields| && Merged(d, m, n, i)
    requires MergeSlot(d.fields[i], SlotAt(m, d.fields[i]), SlotAt(n, d.fields[i])) == Some(s)
    requires SameSlot(d.fields[i], s, SlotAt(n, d.fields[i]))
    ensures Merged(d, Put(m, d.fields[i], s), n, i + 1)
  {
    var f := d.fields[i];
    var m' := Put(m, f, s);
    assert SlotInside(d, i);
    forall j | 0 <= j < |d.fields| && j < i + 1
      ensures SameSlot(d.fields[j], SlotAt(m', d.fields[j]), SlotAt(n, d.fields[j]))
    {
      if j < i { assert Apart(d.fields[j], f); }
    }
    forall j | i + 1 <= j < |d.fields|
      ensures Untouched(d, m', n, j)
    {
      assert Apart(f, d.fields[j]) && SlotInside(d, j) && Untouched(d, m, n, j);
    }
  }

  lemma DefaultsUntouched(d: Desc, n: Message)
    requires WellFormed(d) && |n| == |d.fields|
    ensures Merged(d, Defaults(d), n, 0)
  {
    forall j | 0 <= j < |d.fields|
      ensures Untouched(d, Defaults(d), n, j)
    {
      assert SlotInside(d, j) && WellFormedField(d.fields[j]);
      if d.fields[j].slot != j { assert Apart(d.fields[d.fields[j].slot], d.fields[j]); }
    }
  }

  lemma {:induction false} MessageIntoDefault(d: Desc, n: Message)
    requires WellFormed(d) && Valid(d, n)
    ensures Merge(d, Defaults(d), n).Some? <==> LengthsFit(d, n)
    ensures Merge(d, Defaults(d), n).Some? ==> Same(d, Merge(d, Defaults(d), n).value, n)
    decreases d, 1
  {
    DefaultsUntouched(d, n);
    FieldsIntoDefault(d, Defaults(d), n, 0);
  }

  // ----- The round trip -----

  // pb_decode after pb_encode succeeds if and only if every length fits, and then it gives the
  // same message back and leaves nothing in the stream.
  lemma MessageRoundTrip(d: Desc, n: Message)
    requires WellFormed(d) && Valid(d, n)
    ensures EncodeMessage(d, n).Some?
    ensures |EncodeMessage(d, n).value| < TWO63 ==>
      var r := Decode(d, EncodeMessage(d, n).value);
      && (r.Read? <==> LengthsFit(d, n))
      && (r.Read? ==> r.rest == [] && Same(d, r.value, n))
  {
    FieldsEncode(d, n, 0);
    if |EncodeMessage(d, n).value| < TWO63 {
      MessageDecodes(d, Defaults(d), n);
      MessageIntoDefault(d, n);
    }
  }
}
