// The decoder run over the encoder's output: it merges the encoded message into the struct it
// starts from, and fails exactly when that merge is impossible.
module DecodeOfEncode {
  import opened Options
  import opened Wire
  import opened WireFacts
  import opened Descriptor
  import opened Encoding
  import opened Decoding
  import opened Scalars
  import opened Merging

  // ----- A valid message has an encoding -----

  lemma {:induction false} PackedEncodes(f: Field, entries: seq<Value>)
    requires Packable(f.ltype) && WellFormedField(f)
    requires forall k :: 0 <= k < |entries| ==> ValidValue(f, entries[k])
    ensures EncodePacked(f, entries).Some?
    decreases |entries|
  {
    if entries != [] {
      ScalarRoundTrip(f, entries[0].n, []);
      PackedEncodes(f, entries[1..]);
    }
  }

  lemma {:induction false} ValueEncodes(f: Field, v: Value)
    requires WellFormedField(f) && ValidValue(f, v)
    ensures EncodeValue(f, v).Some?
    decreases f, 0
  {
    if Packable(f.ltype) { ScalarRoundTrip(f, v.n, []); }
    else if f.ltype.Submessage? { FieldsEncode(f.sub, v.m, 0); }
    else { BlobRoundTrip(f, v, []); }
  }

  lemma {:induction false} EntriesEncode(f: Field, entries: seq<Value>)
    requires WellFormedField(f)
    requires forall k :: 0 <= k < |entries| ==> ValidValue(f, entries[k])
    ensures EncodeEntries(f, entries).Some?
    decreases f, 1, |entries|
  {
    if entries != [] {
      ValueEncodes(f, entries[0]);
      EntriesEncode(f, entries[1..]);
    }
  }

  lemma {:induction false} FieldEncodes(f: Field, s: Slot)
    requires WellFormedField(f) && ValidSlot(f, s)
    ensures EncodeField(f, s).Some?
    decreases f, 2
  {
    if f.htype.Repeated? {
      if Packable(f.ltype) { PackedEncodes(f, s.items); } else { EntriesEncode(f, s.items); }
    } else if !f.htype.Oneof? || s.which == f.tag {
      ValueEncodes(f, s.v);
    }
  }

  lemma {:induction false} FieldsEncode(d: Desc, m: Message, i: nat)
    requires WellFormed(d) && Valid(d, m) && i <= |d.fields|
    ensures EncodeFields(d, m, i).Some?
    decreases d, 0, |d.fields| - i
  {
    if i < |d.fields| {
      FieldEncodes(d.fields[i], m[d.fields[i].slot]);
      FieldsEncode(d, m, i + 1);
    }
  }

  // ----- One record -----

  // The record of the i-th field at the head of the input.
  lemma OneRecord(d: Desc, st: State, i: nat, wireType: WireType, body: bytes)
    requires WellFormed(d) && i < |d.fields|
    ensures var bs := EncodeTag(d.fields[i].tag, wireType) + body;
            DecodeRecords(d, st, bs) ==
              match Enter(d, st, i)
              case None => Fail
              case Some(st1) =>
                match DecodeField(d, st1, i, wireType, body)
                case Fail => Fail
                case Read(st2, rest) => DecodeRecords(d, st2, rest)
  {
    assert WellFormedField(d.fields[i]);
    TagRoundTrip(d.fields[i].tag, wireType, body);
    FoundAt(d, i);
  }

  // ----- Values -----

  // The value of a field, decoded onto what the struct holds.
  lemma {:induction false} ValueDecodes(f: Field, was: Value, v: Value, rest: bytes)
    requires WellFormedField(f) && ValidValue(f, v)
    requires EncodeValue(f, v).Some? && |EncodeValue(f, v).value| < TWO63
    ensures DecodeValue(f, was, EncodeValue(f, v).value + rest) ==
            match MergeValue(f, was, v) case None => Fail case Some(w) => Read(w, rest)
    decreases f, 0
  {
    if Packable(f.ltype) { ScalarRoundTrip(f, v.n, rest); }
    else if f.ltype.Submessage? {
      var payload := EncodeMessage(f.sub, v.m).value;
      DelimitedRoundTrip(payload, rest);
      var m := if f.htype.Repeated? then Defaults(f.sub) else AsMessage(f.sub, was);
      MessageDecodes(f.sub, m, v.m);
    }
    else { BlobRoundTrip(f, v, rest); }
  }

  // ----- Arrays -----

  lemma {:induction false} PackedDecodes(f: Field, a: Array, vs: seq<Value>)
    requires WellFormedField(f) && Packable(f.ltype) && EncodePacked(f, vs).Some?
    requires forall k :: 0 <= k < |vs| ==> ValidValue(f, vs[k])
    ensures MergeEntries(f, a.entries, a.count, vs).Some?
    ensures DecodePacked(f, a, EncodePacked(f, vs).value) ==
            if vs != [] && a.count + |vs| > f.arraySize then None
            else Some(Array(MergeEntries(f, a.entries, a.count, vs).value, a.count + |vs|))
    decreases |vs|
  {
    if vs != [] {
      ScalarRoundTrip(f, vs[0].n, EncodePacked(f, vs[1..]).value);
      PackedDecodes(f, Array(PutEntry(a.entries, a.count, vs[0]), a.count + 1), vs[1..]);
    }
  }

  // The outcome of receiving the entries vs in state st.
  function Received(d: Desc, st: State, f: Field, vs: seq<Value>, rest: bytes): Read<State>
  {
    var a := Current(st, f);
    if vs == [] then DecodeRecords(d, st, rest)
    else if a.count + |vs| > f.arraySize then Fail
    else
      match MergeEntries(f, a.entries, a.count, vs)
      case None => Fail
      case Some(entries) => DecodeRecords(d, StoreArray(st, f, Array(entries, a.count + |vs|)), rest)
  }

  lemma StoreTwice(st: State, f: Field, a: Array, b: Array)
    requires f.slot < |st.m|
    ensures StoreArray(StoreArray(st, f, a), f, b) == StoreArray(st, f, b)
    ensures f.counted ==> Current(StoreArray(st, f, a), f) == Array(a.entries, |a.entries|)
    ensures !f.counted ==> Current(StoreArray(st, f, a), f) == a
  {
    assert st.m[f.slot := Items(a.entries)][f.slot := Items(b.entries)] == st.m[f.slot := Items(b.entries)];
  }

  // st after one more entry v; None when there is no room for it.
  function Added(st: State, f: Field, v: Value): Option<State>
  {
    var a := Current(st, f);
    if a.count >= f.arraySize then None
    else
      match MergeValue(f, Zero(f), v)
      case None => None
      case Some(w) => Some(StoreArray(st, f, Array(PutEntry(a.entries, a.count, w), a.count + 1)))
  }

  // decode_static_field for one entry, and for a packed run.
  lemma SingleEntry(d: Desc, st: State, i: nat, wireType: WireType, body: bytes)
    requires i < |d.fields| && d.fields[i].htype.Repeated? && !Packable(d.fields[i].ltype)
    ensures var f := d.fields[i]; var a := Current(st, f);
            DecodeField(d, st, i, wireType, body) ==
            if a.count >= f.arraySize then Fail
            else
              match DecodeValue(f, Zero(f), body)
              case Fail => Fail
              case Read(v, rest) => Read(StoreArray(st, f, Array(PutEntry(a.entries, a.count, v), a.count + 1)), rest)
  {}

  lemma PackedRun(d: Desc, st: State, i: nat, body: bytes)
    requires i < |d.fields| && d.fields[i].htype.Repeated? && Packable(d.fields[i].ltype)
    ensures var f := d.fields[i];
            DecodeField(d, st, i, WT_STRING, body) ==
            match LengthDelimited(body)
            case Fail => Fail
            case Read(payload, rest) =>
              match DecodePacked(f, Current(st, f), payload)
              case None => Fail
              case Some(a) => Read(StoreArray(st, f, a), rest)
  {}

  lemma {:induction false} EntryDecodes(d: Desc, st: State, i: nat, v: Value, rest: bytes)
    requires WellFormed(d) && i < |d.fields| && Enter(d, st, i).Some?
    requires d.fields[i].htype.Repeated? && !Packable(d.fields[i].ltype) && ValidValue(d.fields[i], v)
    requires EncodeValue(d.fields[i], v).Some? && |EncodeValue(d.fields[i], v).value| < TWO63
    ensures DecodeRecords(d, st, EncodeTagged(d.fields[i], v).value + rest) ==
            match Added(Enter(d, st, i).value, d.fields[i], v)
            case None => Fail
            case Some(st') => DecodeRecords(d, st', rest)
    decreases d.fields[i], 1
  {
    hide DecodeTag, DecodeEntries, DecodeRecord, EncodeTag, Enter;
    var f := d.fields[i];
    var body := EncodeValue(f, v).value + rest;
    assert EncodeTagged(f, v).value + rest == EncodeTag(f.tag, WireTypeOf(f.ltype)) + body;
    OneRecord(d, st, i, WireTypeOf(f.ltype), body);
    SingleEntry(d, Enter(d, st, i).value, i, WireTypeOf(f.ltype), body);
    ValueDecodes(f, Zero(f), v, rest);
  }

  // Receiving the first entry and then the others is receiving them all.
  lemma ReceivedStep(d: Desc, st: State, f: Field, vs: seq<Value>, rest: bytes)
    requires vs != [] && f.slot < |st.m|
    ensures Received(d, st, f, vs, rest) ==
            match Added(st, f, vs[0]) case None => Fail case Some(st') => Received(d, st', f, vs[1..], rest)
  {
    var a := Current(st, f);
    if Added(st, f, vs[0]).Some? {
      var next := Array(PutEntry(a.entries, a.count, MergeValue(f, Zero(f), vs[0]).value), a.count + 1);
      var st' := StoreArray(st, f, next);
      StoreTwice(st, f, next, next);
      assert Current(st', f) == next;
      var all := MergeEntries(f, next.entries, next.count, vs[1..]);
      assert MergeEntries(f, a.entries, a.count, vs) == all;
      if all.Some? {
        var b := Array(all.value, a.count + |vs|);
        StoreTwice(st, f, next, b);
        assert StoreArray(st', f, b) == StoreArray(st, f, b);
      }
      assert vs[1..] == [] ==> |vs| == 1;
    }
  }

  lemma {:induction false} EntriesDecode(d: Desc, st: State, i: nat, vs: seq<Value>, rest: bytes)
    requires WellFormed(d) && i < |d.fields| && |st.m| == |d.fields| && Enter(d, st, i).Some? && vs != []
    requires d.fields[i].htype.Repeated? && !Packable(d.fields[i].ltype)
    requires forall k :: 0 <= k < |vs| ==> ValidValue(d.fields[i], vs[k])
    requires EncodeEntries(d.fields[i], vs).Some? && |EncodeEntries(d.fields[i], vs).value| < TWO63
    ensures DecodeRecords(d, st, EncodeEntries(d.fields[i], vs).value + rest)
         == Received(d, Enter(d, st, i).value, d.fields[i], vs, rest)
    decreases d.fields[i], 2, |vs|
  {
    var f := d.fields[i];
    var st1 := Enter(d, st, i).value;
    var more := EncodeEntries(f, vs[1..]).value + rest;
    assert EncodeEntries(f, vs).value + rest == EncodeTagged(f, vs[0]).value + more;
    EntryDecodes(d, st, i, vs[0], more);
    assert SlotInside(d, i);
    ReceivedStep(d, st1, f, vs, rest);
    if Added(st1, f, vs[0]).Some? {
      var st2 := Added(st1, f, vs[0]).value;
      if vs[1..] == [] {
        assert more == rest;
      } else {
        assert Enter(d, st2, i) == Some(st2);
        EntriesDecode(d, st2, i, vs[1..], rest);
      }
    }
  }

  lemma PackedArrayDecodes(d: Desc, st: State, i: nat, vs: seq<Value>, rest: bytes)
    requires WellFormed(d) && i < |d.fields| && Enter(d, st, i).Some?
    requires d.fields[i].htype.Repeated? && Packable(d.fields[i].ltype) && vs != [] && |vs| <= d.fields[i].arraySize
    requires forall k :: 0 <= k < |vs| ==> ValidValue(d.fields[i], vs[k])
    requires EncodePacked(d.fields[i], vs).Some? && |EncodePacked(d.fields[i], vs).value| < TWO32
    ensures DecodeRecords(d, st, EncodeArray(d.fields[i], vs).value + rest)
         == Received(d, Enter(d, st, i).value, d.fields[i], vs, rest)
  {
    hide DecodeTag, DecodeEntries, DecodeRecord, EncodeTag, Enter, EncodeVarint;
    var f := d.fields[i];
    var payload := EncodePacked(f, vs).value;
    var body := EncodeDelimited(payload) + rest;
    assert EncodeArray(f, vs).value + rest == EncodeTag(f.tag, WT_STRING) + body;
    OneRecord(d, st, i, WT_STRING, body);
    PackedRun(d, Enter(d, st, i).value, i, body);
    DelimitedRoundTrip(payload, rest);
    PackedDecodes(f, Current(Enter(d, st, i).value, f), vs);
  }

  // A packed array whose length does not fit 32 bits stops the decoder.
  lemma LongArrayFails(d: Desc, st: State, i: nat, vs: seq<Value>, rest: bytes)
    requires WellFormed(d) && i < |d.fields| && d.fields[i].htype.Repeated? && Packable(d.fields[i].ltype)
    requires vs != [] && |vs| <= d.fields[i].arraySize
    requires EncodePacked(d.fields[i], vs).Some? && TWO32 <= |EncodePacked(d.fields[i], vs).value| < TWO63
    ensures DecodeRecords(d, st, EncodeArray(d.fields[i], vs).value + rest) == Fail
  {
    hide WellFormed, EncodePacked, EncodeTag, EncodeDelimited, DecodeRecords, LengthDelimited;
    var f := d.fields[i];
    var payload := EncodePacked(f, vs).value;
    assert EncodeArray(f, vs).value + rest == EncodeTag(f.tag, WT_STRING) + (EncodeDelimited(payload) + rest);
    OneRecord(d, st, i, WT_STRING, EncodeDelimited(payload) + rest);
    DelimitedRoundTrip(payload, rest);
  }

  // ----- Fields -----

  // Between two fields: no fixed count array is unfinished, and none of the fields from the i-th
  // on is being received.
  ghost predicate Between(d: Desc, st: State, i: nat)
  {
    |st.m| == |d.fields| && st.fixedField < i && FixedComplete(d, st)
  }

  // st' is st after the i-th field has put s in its slot.
  ghost predicate After(d: Desc, st: State, i: nat, s: Slot, st': State)
    requires i < |d.fields|
  {
    && Between(d, st', i + 1)
    && st'.m == Put(st.m, d.fields[i], s)
    && st.seen <= st'.seen && (Tracked(d, i) ==> i in st'.seen)
    && st'.stopped == st.stopped
  }

  lemma {:induction false} ArrayFieldDecodes(d: Desc, st: State, s: Slot, i: nat, rest: bytes) returns (st': State)
    requires WellFormed(d) && i < |d.fields| && Between(d, st, i) && d.fields[i].htype.Repeated?
    requires ValidSlot(d.fields[i], s) && s.items != []
    requires EncodeField(d.fields[i], s).Some? && |EncodeField(d.fields[i], s).value| < TWO63
    ensures var f := d.fields[i];
            match MergeSlot(f, SlotAt(st.m, f), s)
            case None => DecodeRecords(d, st, EncodeField(f, s).value + rest) == Fail
            case Some(t) =>
              After(d, st, i, t, st') && DecodeRecords(d, st, EncodeField(f, s).value + rest) == DecodeRecords(d, st', rest)
    decreases d.fields[i], 4
  {
    var f := d.fields[i];
    var st1 := Enter(d, st, i).value;
    st' := st;
    if Packable(f.ltype) && |EncodePacked(f, s.items).value| >= TWO32 {
      LongArrayFails(d, st, i, s.items, rest);
    } else {
      if Packable(f.ltype) { PackedArrayDecodes(d, st, i, s.items, rest); }
      else { EntriesDecode(d, st, i, s.items, rest); }
      if MergeSlot(f, SlotAt(st.m, f), s).Some? {
        var a := Current(st1, f);
        st' := StoreArray(st1, f, Array(MergeEntries(f, a.entries, a.count, s.items).value, a.count + |s.items|));
      }
    }
  }

  // decode_static_field for a field that is not an array.
  lemma SingleField(d: Desc, st: State, i: nat, wireType: WireType, body: bytes)
    requires i < |d.fields| && !d.fields[i].htype.Repeated?
    ensures var f := d.fields[i];
            DecodeField(d, st, i, wireType, body) ==
            match DecodeValue(f, Base(f, SlotAt(st.m, f)), body)
            case Fail => Fail
            case Read(v, rest) => Read(st.(m := Put(st.m, f, Filled(f, v))), rest)
  {}

  lemma SingleFieldDecodes(d: Desc, st: State, i: nat, v: Value, rest: bytes)
    requires WellFormed(d) && i < |d.fields| && !d.fields[i].htype.Repeated? && ValidValue(d.fields[i], v)
    requires EncodeValue(d.fields[i], v).Some? && |EncodeValue(d.fields[i], v).value| < TWO63
    ensures var f := d.fields[i];
            DecodeRecords(d, st, EncodeTagged(f, v).value + rest) ==
            match MergeValue(f, Base(f, SlotAt(st.m, f)), v)
            case None => Fail
            case Some(w) => DecodeRecords(d, Enter(d, st, i).value.(m := Put(st.m, f, Filled(f, w))), rest)
    decreases d.fields[i], 3
  {
    hide DecodeTag, DecodeEntries, DecodeRecord, EncodeTag, EncodeVarint;
    var f := d.fields[i];
    var body := EncodeValue(f, v).value + rest;
    assert EncodeTagged(f, v).value + rest == EncodeTag(f.tag, WireTypeOf(f.ltype)) + body;
    OneRecord(d, st, i, WireTypeOf(f.ltype), body);
    SingleField(d, Enter(d, st, i).value, i, WireTypeOf(f.ltype), body);
    ValueDecodes(f, Base(f, SlotAt(st.m, f)), v, rest);
  }

  lemma {:induction false} FieldDecodes(d: Desc, st: State, s: Slot, i: nat, rest: bytes) returns (st': State)
    requires WellFormed(d) && i < |d.fields| && Between(d, st, i)
    requires ValidSlot(d.fields[i], s)
    requires EncodeField(d.fields[i], s).Some? && |EncodeField(d.fields[i], s).value| < TWO63
    ensures var f := d.fields[i];
            match MergeSlot(f, SlotAt(st.m, f), s)
            case None => DecodeRecords(d, st, EncodeField(f, s).value + rest) == Fail
            case Some(t) =>
              After(d, st, i, t, st') && DecodeRecords(d, st, EncodeField(f, s).value + rest) == DecodeRecords(d, st', rest)
    decreases d.fields[i], 5
  {
    var f := d.fields[i];
    st' := st;
    if !Present(f, s) {
      assert EncodeField(f, s).value + rest == rest;
      assert Put(st.m, f, SlotAt(st.m, f)) == st.m;
    } else if f.htype.Repeated? {
      st' := ArrayFieldDecodes(d, st, s, i, rest);
    } else {
      SingleFieldDecodes(d, st, i, s.v, rest);
      var merged := MergeValue(f, Base(f, SlotAt(st.m, f)), s.v);
      if merged.Some? {
        st' := Enter(d, st, i).value.(m := Put(st.m, f, Filled(f, merged.value)));
      }
    }
  }

  lemma {:induction false} FieldsDecode(d: Desc, st: State, n: Message, i: nat, rest: bytes) returns (st': State)
    requires WellFormed(d) && Valid(d, n) && i <= |d.fields| && Between(d, st, i)
    requires EncodeFields(d, n, i).Some? && |EncodeFields(d, n, i).value| < TWO63
    ensures match MergeFields(d, st.m, n, i)
            case None => DecodeRecords(d, st, EncodeFields(d, n, i).value + rest) == Fail
            case Some(m) =>
              && DecodeRecords(d, st, EncodeFields(d, n, i).value + rest) == DecodeRecords(d, st', rest)
              && Between(d, st', |d.fields|) && st'.m == m && st'.stopped == st.stopped && st.seen <= st'.seen
              && forall j :: i <= j < |d.fields| && Tracked(d, j) ==> j in st'.seen
    decreases d, 0, |d.fields| - i
  {
    st' := st;
    if i == |d.fields| {
      assert EncodeFields(d, n, i).value + rest == rest;
    } else {
      var f := d.fields[i];
      var more := EncodeFields(d, n, i + 1).value + rest;
      assert EncodeFields(d, n, i).value + rest == EncodeField(f, n[f.slot]).value + more;
      var st1 := FieldDecodes(d, st, n[f.slot], i, more);
      if MergeSlot(f, SlotAt(st.m, f), n[f.slot]).Some? {
        st' := FieldsDecode(d, st1, n, i + 1, rest);
      }
    }
  }

  // ----- Messages -----

  // pb_decode_noinit over the output of pb_encode merges the message into the struct, uses up
  // all the bytes, and fails exactly when the merge is impossible.
  lemma {:induction false} MessageDecodes(d: Desc, m: Message, n: Message)
    requires WellFormed(d) && Valid(d, n) && |m| == |d.fields|
    requires EncodeMessage(d, n).Some? && |EncodeMessage(d, n).value| < TWO63
    ensures DecodeMessage(d, m, EncodeMessage(d, n).value) ==
            match Merge(d, m, n) case None => Fail case Some(r) => Read(r, [])
    decreases d, 1
  {
    var bs := EncodeMessage(d, n).value;
    var st' := FieldsDecode(d, Start(m), n, 0, []);
    assert bs + [] == bs;
  }
}
