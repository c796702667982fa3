// Whatever the bytes are, what the decoder stores fits the struct: numbers their width, strings and
// bytes their buffers, arrays their capacity, at every depth.
module Fitting {
  import opened Options
  import opened Wire
  import opened WireFacts
  import opened Descriptor
  import opened Encoding
  import opened Decoding
  import opened Scalars

  // ----- Single values -----

  lemma {:induction false} FixedBelow(bs: bytes)
    ensures FixedValue(bs) < Shl(1, 8 * |bs|)
    decreases |bs|
  {
    if bs != [] {
      FixedBelow(bs[1..]);
      Shl8(1, 8 * (|bs| - 1));
    }
  }

  lemma ScalarFits(f: Field, bs: bytes)
    requires Packable(f.ltype) && DecodeScalar(f, bs).Read?
    ensures ValidValue(f, DecodeScalar(f, bs).value)
  {
    if f.ltype.Fixed32? || f.ltype.Fixed64? {
      FixedBelow(Take(bs, FixedWidth(f.ltype)).value);
      FixedWidths(FixedWidth(f.ltype));
    }
  }

  lemma {:induction false} CStringIsShort(bs: bytes)
    ensures |CString(bs)| <= |bs| && 0 !in CString(bs)
    ensures CString(bs) == bs[..|CString(bs)|] && (|CString(bs)| < |bs| ==> bs[|CString(bs)|] == 0)
    decreases |bs|
  {
    if bs != [] && bs[0] != 0 { CStringIsShort(bs[1..]); }
  }

  lemma BlobFits(f: Field, bs: bytes)
    requires !Packable(f.ltype) && !f.ltype.Submessage? && WellFormedField(f) && DecodeBlob(f, bs).Read?
    ensures ValidValue(f, DecodeBlob(f, bs).value)
  {
    var r := DecodeVarint32(bs);
    if f.ltype.String? { CStringIsShort(Take(r.rest, r.value).value); }
  }

  // A payload of n bytes has room for its terminator or its size member, or is exactly as long as an
  // inline buffer, which may also be left out.
  predicate HasRoom(f: Field, n: nat) {
    match f.ltype
    case String => n + 1 <= f.dataSize
    case Bytes => n + SIZE_WIDTH <= f.dataSize
    case _ => n == f.dataSize || n == 0
  }

  // A length and what follows it are accepted exactly when the payload has room and is all there, even
  // if a zero byte in it would end the string early.
  lemma BlobExactly(f: Field, n: nat, bs: bytes)
    requires !Packable(f.ltype) && !f.ltype.Submessage? && WellFormedField(f) && n < TWO32
    ensures var r := DecodeBlob(f, EncodeVarint(n) + bs);
            && (r.Read? <==> HasRoom(f, n) && n <= |bs|)
            && (r.Read? ==>
                  && r.rest == bs[n..] && r.value.Blob?
                  && r.value.data == if f.ltype.String? then CString(bs[..n])
                                     else if n == 0 && f.ltype.FixedLengthBytes? then Zeros(f.dataSize) else bs[..n])
  {
    hide EncodeVarint, DecodeVarint32, CString, WellFormed, ValidValue;
    Varint32OfEncoding(n, bs);
    if n <= |bs| { TakeExactly(bs[..n], bs[n..], n); }
    assert bs[0..] == bs;
    if n <= |bs| { assert bs[..n] + bs[n..] == bs; }
  }

  // ----- Defaults -----

  lemma {:induction false} DefaultsFit(d: Desc)
    requires WellFormed(d)
    ensures Valid(d, Defaults(d))
    decreases d, 0
  {
    forall i | 0 <= i < |d.fields| ensures d.fields[i].slot < |d.fields| && ValidSlot(d.fields[i], Defaults(d)[d.fields[i].slot]) {
      var f := d.fields[i];
      assert SlotInside(d, i) && WellFormedField(f);
      DefaultSlotFits(f);
      if f.slot != i {
        assert Apart(d.fields[f.slot], f);
        assert DefaultSlot(d.fields[f.slot]) == Union(0, Zero(d.fields[f.slot]));
      }
    }
  }

  lemma ZeroFits(f: Field)
    requires WellFormedField(f) && !f.ltype.Submessage?
    ensures ValidValue(f, Zero(f))
  {
  }

  lemma {:induction false} DefaultSlotFits(f: Field)
    requires WellFormedField(f)
    ensures ValidSlot(f, DefaultSlot(f))
    decreases f, 1
  {
    if f.ltype.Submessage? { DefaultsFit(f.sub); } else { ZeroFits(f); }
  }

  // ----- Arrays -----

  // An array on its way: its entries fit, and so does what the count says.
  predicate ArrayFits(f: Field, a: Array) {
    && (if f.counted then a.count == |a.entries| <= f.arraySize else a.count <= f.arraySize == |a.entries|)
    && forall k :: 0 <= k < |a.entries| ==> ValidValue(f, a.entries[k])
  }

  lemma PutFits(f: Field, a: Array, v: Value)
    requires ArrayFits(f, a) && a.count < f.arraySize && ValidValue(f, v)
    ensures ArrayFits(f, Array(PutEntry(a.entries, a.count, v), a.count + 1))
  {
    hide ValidValue;
  }

  lemma {:induction false} PackedFits(f: Field, a: Array, bs: bytes)
    requires Packable(f.ltype) && ArrayFits(f, a) && DecodePacked(f, a, bs).Some?
    ensures ArrayFits(f, DecodePacked(f, a, bs).value)
    decreases |bs|
  {
    hide DecodeScalar, ArrayFits;
    if bs != [] {
      ScalarFits(f, bs);
      var r := DecodeScalar(f, bs);
      PutFits(f, a, r.value);
      PackedFits(f, Array(PutEntry(a.entries, a.count, r.value), a.count + 1), r.rest);
    }
  }

  // ----- Messages -----

  // A struct in the middle of decoding: the count of a fixed-count array is kept outside of it.
  predicate StateFits(d: Desc, st: State) {
    Valid(d, st.m) && (0 <= st.fixedField < |d.fields| ==> st.fixedCount <= d.fields[st.fixedField].arraySize)
  }

  lemma PutSlotFits(d: Desc, m: Message, i: nat, s: Slot)
    requires WellFormed(d) && Valid(d, m) && i < |d.fields| && ValidSlot(d.fields[i], s)
    requires d.fields[i].htype.Oneof? ==> s.Union? && s.which == d.fields[i].tag
    ensures Valid(d, Put(m, d.fields[i], s))
  {
    hide ValidValue;
    var f, u := d.fields[i], Put(m, d.fields[i], s);
    forall j | 0 <= j < |d.fields| ensures d.fields[j].slot < |u| && ValidSlot(d.fields[j], u[d.fields[j].slot]) {
      if j != i { assert if j < i then Apart(d.fields[j], f) else Apart(f, d.fields[j]); }
    }
  }

  // What a submessage is decoded onto.
  lemma BaseFits(d: Desc, m: Message, i: nat)
    requires WellFormed(d) && Valid(d, m) && i < |d.fields| && d.fields[i].ltype.Submessage? && !d.fields[i].htype.Repeated?
    requires d.fields[i].htype.Oneof? ==> WhichOf(SlotAt(m, d.fields[i])) == d.fields[i].tag
    ensures Valid(d.fields[i].sub, AsMessage(d.fields[i].sub, ValueOf(d.fields[i], SlotAt(m, d.fields[i]))))
  {
    var f := d.fields[i];
    FieldShape(d, m, i);
    StructFits(f, ValueOf(f, m[f.slot]));
  }

  lemma StructFits(f: Field, v: Value)
    requires f.ltype.Submessage? && ValidValue(f, v)
    ensures Valid(f.sub, AsMessage(f.sub, v))
  {
    assert v.Struct? && Valid(f.sub, v.m);
    assert |v.m| == |f.sub.fields|;
  }

  lemma {:induction false} ValueFits(f: Field, was: Value, bs: bytes)
    requires WellFormedField(f) && DecodeValue(f, was, bs).Read?
    requires f.ltype.Submessage? && !f.htype.Repeated? ==> Valid(f.sub, AsMessage(f.sub, was))
    ensures ValidValue(f, DecodeValue(f, was, bs).value)
    decreases |bs|, 0
  {
    hide DecodeMessage, DecodeScalar, DecodeBlob, Valid, WellFormed, Defaults, AsMessage;
    if Packable(f.ltype) {
      ScalarFits(f, bs);
    } else if f.ltype.Submessage? {
      DefaultsFit(f.sub);
      var m := if f.htype.Repeated? then Defaults(f.sub) else AsMessage(f.sub, was);
      MessageFits(f.sub, m, LengthDelimited(bs).value);
    } else {
      BlobFits(f, bs);
    }
  }

  lemma {:induction false} EntriesFit(f: Field, a: Array, wireType: WireType, bs: bytes)
    requires WellFormedField(f) && f.htype.Repeated? && ArrayFits(f, a) && DecodeEntries(f, a, wireType, bs).Read?
    ensures ArrayFits(f, DecodeEntries(f, a, wireType, bs).value)
    decreases |bs|, 1
  {
    hide DecodeValue, DecodePacked, ArrayFits, WellFormed;
    if wireType == WT_STRING && Packable(f.ltype) {
      PackedFits(f, a, LengthDelimited(bs).value);
    } else {
      ValueFits(f, Zero(f), bs);
      PutFits(f, a, DecodeValue(f, Zero(f), bs).value);
    }
  }

  // The i-th field may be decoded: if it is a fixed-count array, it is the one being received.
  lemma {:induction false} FieldFits(d: Desc, st: State, i: nat, wireType: WireType, bs: bytes)
    requires WellFormed(d) && i < |d.fields| && StateFits(d, st) && DecodeField(d, st, i, wireType, bs).Read?
    requires FixedCount(d.fields[i]) ==> st.fixedField == i
    ensures StateFits(d, DecodeField(d, st, i, wireType, bs).value)
    decreases |bs|, 2
  {
    hide DecodeValue, DecodeEntries, Valid, WellFormed, ValidValue;
    var f := d.fields[i];
    var s := SlotAt(st.m, f);
    FieldShape(d, st.m, i);
    if f.htype.Repeated? {
      ArrayShape(d, st, i);
      EntriesFit(f, Current(st, f), wireType, bs);
      PutSlotFits(d, st.m, i, Items(DecodeEntries(f, Current(st, f), wireType, bs).value.entries));
    } else {
      var was := if f.htype.Oneof? && f.ltype.Submessage? && WhichOf(s) != f.tag then Struct(Defaults(f.sub)) else ValueOf(f, s);
      if f.ltype.Submessage? {
        DefaultsFit(f.sub);
        if !f.htype.Oneof? || WhichOf(s) == f.tag { BaseFits(d, st.m, i); }
      }
      ValueFits(f, was, bs);
      var v := DecodeValue(f, was, bs).value;
      PutSlotFits(d, st.m, i, match f.htype case Oneof => Union(f.tag, v) case Optional => (if f.counted then Maybe(true, v) else Single(v)) case _ => Single(v));
    }
  }

  lemma FieldShape(d: Desc, m: Message, i: nat)
    requires WellFormed(d) && Valid(d, m) && i < |d.fields|
    ensures var f := d.fields[i];
            WellFormedField(f) && f.slot < |m| && SlotAt(m, f) == m[f.slot] && ValidSlot(f, m[f.slot])
  {
    hide ValidSlot, WellFormedField;
  }

  lemma ArrayShape(d: Desc, st: State, i: nat)
    requires WellFormed(d) && i < |d.fields| && StateFits(d, st) && d.fields[i].htype.Repeated?
    requires FixedCount(d.fields[i]) ==> st.fixedField == i
    ensures ArrayFits(d.fields[i], Current(st, d.fields[i]))
  {
    hide ValidValue, WellFormedField;
    FieldShape(d, st.m, i);
  }

  lemma {:induction false} RecordFits(d: Desc, st: State, tag: nat, wireType: WireType, bs: bytes)
    requires WellFormed(d) && StateFits(d, st) && DecodeRecord(d, st, tag, wireType, bs).Read?
    ensures StateFits(d, DecodeRecord(d, st, tag, wireType, bs).value)
    decreases |bs|, 3
  {
    hide DecodeField, Valid, WellFormed;
    var i := Find(d, tag);
    if i < |d.fields| { FieldFits(d, Enter(d, st, i).value, i, wireType, bs); }
  }

  lemma StoppedFits(d: Desc, st: State)
    requires StateFits(d, st)
    ensures StateFits(d, st.(stopped := true))
  {
  }

  lemma {:induction false} RecordsFit(d: Desc, st: State, bs: bytes)
    requires WellFormed(d) && StateFits(d, st) && DecodeRecords(d, st, bs).Read?
    ensures StateFits(d, DecodeRecords(d, st, bs).value)
    decreases |bs|, 4
  {
    hide DecodeRecord, StateFits, WellFormed, DecodeTag;
    StoppedFits(d, st);
    if bs != [] && DecodeTag(bs).Tag? {
      var t := DecodeTag(bs);
      RecordFits(d, st, t.tag, t.wireType, t.rest);
      var r := DecodeRecord(d, st, t.tag, t.wireType, t.rest);
      RecordsFit(d, r.value, r.rest);
    }
  }

  // A message decoded from any bytes onto one that fits its struct fits it too.
  lemma {:induction false} MessageFits(d: Desc, m: Message, bs: bytes)
    requires WellFormed(d) && Valid(d, m) && DecodeMessage(d, m, bs).Read?
    ensures Valid(d, DecodeMessage(d, m, bs).value)
    decreases |bs|, 5
  {
    hide Valid, WellFormed, DecodeRecords;
    RecordsFit(d, Start(m), bs);
  }

  // pb_decode.
  lemma DecodedFits(d: Desc, bs: bytes)
    requires WellFormed(d) && Decode(d, bs).Read?
    ensures Valid(d, Decode(d, bs).value)
  {
    DefaultsFit(d);
    MessageFits(d, Defaults(d), bs);
  }
}
