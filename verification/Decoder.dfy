// pb_decode.c for statically allocated fields.  The destination struct is passed and returned as
// a value.  Every method computes its function in Decoding on what is left of the stream.
module Decoder {
  import opened Options
  import opened Wire
  import opened WireFacts
  import opened Descriptor
  import opened Encoding
  import opened Decoding
  import opened InputStream
  import opened FieldIterator
  import opened SeenWords
  import opened Scalars
  import opened Delimited

  // A conversion to a signed or unsigned C integer type of the given width.
  function CastSigned(width: nat, n: int): int
  {
    var modulus := if width == 1 then 0x100 else if width == 2 then 0x1_0000 else if width == 4 then TWO32 else TWO64;
    var low := n % modulus;
    if low < modulus / 2 then low else low - modulus
  }

  function CastUnsigned(width: nat, n: nat): nat
  {
    n % (if width == 1 then 0x100 else if width == 2 then 0x1_0000 else if width == 4 then TWO32 else TWO64)
  }

  // A conversion loses nothing exactly when the number fits.
  lemma CastsAreExact(width: nat, n: int)
    requires VarintSize(width)
    ensures -TWO63 <= n < TWO63 ==> (CastSigned(width, n) == n <==> SignedFits(width, n))
    ensures 0 <= n < TWO64 ==> (CastUnsigned(width, n) == n <==> UnsignedFits(width, n))
  {}

  // pb_dec_bool.
  method DecBool(stream: IStream) returns (ok: bool, v: Value)
    requires stream.Valid()
    modifies stream
    ensures stream.Valid() && stream.End() == old(stream.End())
    ensures ok == DecodeVarint32(old(stream.Remaining())).Read?
    ensures ok ==> stream.Remaining() == DecodeVarint32(old(stream.Remaining())).rest && stream.left < old(stream.left)
    ensures ok ==> v == Num(if DecodeVarint32(old(stream.Remaining())).value != 0 then 1 else 0)
  {
    var value;
    ok, value := stream.ReadVarint32();
    v := Num(if value != 0 then 1 else 0);
  }

  // pb_dec_varint.
  method DecVarint(stream: IStream, f: Field) returns (ok: bool, v: Value)
    requires stream.Valid() && f.ltype.Varint?
    modifies stream
    ensures Computes(stream, old(stream.End()), DecodeScalar(f, old(stream.Remaining())), ok, v)
  {
    v := Num(0);
    var value;
    ok, value := stream.ReadVarint();
    if !ok { return; }
    var svalue := if f.dataSize == 8 then Signed64(value) else Signed32(value);
    if !VarintSize(f.dataSize) { return false, v; }
    CastsAreExact(f.dataSize, svalue);
    var clamped := CastSigned(f.dataSize, svalue);
    if clamped != svalue { return false, v; }
    v := Num(clamped);
  }

  // pb_dec_uvarint.
  method DecUvarint(stream: IStream, f: Field) returns (ok: bool, v: Value)
    requires stream.Valid() && f.ltype.Uvarint?
    modifies stream
    ensures Computes(stream, old(stream.End()), DecodeScalar(f, old(stream.Remaining())), ok, v)
  {
    v := Num(0);
    var value;
    ok, value := stream.ReadVarint();
    if !ok { return; }
    if !VarintSize(f.dataSize) { return false, v; }
    CastsAreExact(f.dataSize, value);
    var clamped := CastUnsigned(f.dataSize, value);
    if clamped != value { return false, v; }
    v := Num(clamped);
  }

  // pb_decode_svarint and pb_dec_svarint.
  method DecSvarint(stream: IStream, f: Field) returns (ok: bool, v: Value)
    requires stream.Valid() && f.ltype.Svarint?
    modifies stream
    ensures Computes(stream, old(stream.End()), DecodeScalar(f, old(stream.Remaining())), ok, v)
  {
    v := Num(0);
    var value;
    ok, value := stream.ReadVarint();
    if !ok { return; }
    var half := (value / 2) as int;
    var svalue := if value % 2 == 1 then -1 - half else half;
    if !VarintSize(f.dataSize) { return false, v; }
    CastsAreExact(f.dataSize, svalue);
    var clamped := CastSigned(f.dataSize, svalue);
    if clamped != svalue { return false, v; }
    v := Num(clamped);
  }

  // What a reader of the stream has done: the value and the rest of the specification.
  ghost predicate Computes<T>(stream: IStream, end: nat, r: Read<T>, ok: bool, v: T)
    reads stream, stream.buf
  {
    && stream.Valid() && stream.End() <= end
    && ok == r.Read?
    && (ok ==> stream.End() == end && v == r.value && stream.Remaining() == r.rest)
  }

  // pb_decode_fixed32 and pb_decode_fixed64.
  method DecFixed(stream: IStream, f: Field) returns (ok: bool, v: Value)
    requires stream.Valid() && (f.ltype.Fixed32? || f.ltype.Fixed64?)
    modifies stream
    ensures Computes(stream, old(stream.End()), DecodeScalar(f, old(stream.Remaining())), ok, v)
  {
    v := Num(0);
    var data;
    if f.ltype.Fixed32? {
      ok, data := stream.ReadBytes(4);
      if !ok { return; }
      FourBytes(data);
      v := Num(data[0] as int + 0x100 * data[1] as int + 0x1_0000 * data[2] as int + 0x100_0000 * data[3] as int);
    } else {
      ok, data := stream.ReadBytes(8);
      if !ok { return; }
      EightBytes(data);
      v := Num(data[0] as int + 0x100 * data[1] as int + 0x1_0000 * data[2] as int + 0x100_0000 * data[3] as int
               + 0x1_0000_0000 * data[4] as int + 0x100_0000_0000 * data[5] as int
               + 0x1_0000_0000_0000 * data[6] as int + 0x100_0000_0000_0000 * data[7] as int);
    }
  }

  lemma FourBytes(bs: bytes)
    requires |bs| >= 4
    ensures FixedValue(bs) == bs[0] as int + 0x100 * bs[1] as int + 0x1_0000 * bs[2] as int + 0x100_0000 * bs[3] as int + 0x1_0000_0000 * FixedValue(bs[4..])
  {
    assert bs[1..][1..] == bs[2..] && bs[2..][1..] == bs[3..] && bs[3..][1..] == bs[4..];
    assert FixedValue(bs[2..]) == bs[2] as int + 0x100 * FixedValue(bs[3..]);
  }

  lemma EightBytes(bs: bytes)
    requires |bs| == 8
    ensures FixedValue(bs) == bs[0] as int + 0x100 * bs[1] as int + 0x1_0000 * bs[2] as int + 0x100_0000 * bs[3] as int
      + 0x1_0000_0000 * bs[4] as int + 0x100_0000_0000 * bs[5] as int + 0x1_0000_0000_0000 * bs[6] as int + 0x100_0000_0000_0000 * bs[7] as int
  {
    FourBytes(bs);
    FourBytes(bs[4..]);
  }

  // The numeric part of PB_DECODERS.
  method DecScalar(stream: IStream, f: Field) returns (ok: bool, v: Value)
    requires stream.Valid() && Packable(f.ltype)
    modifies stream
    ensures Computes(stream, old(stream.End()), DecodeScalar(f, old(stream.Remaining())), ok, v)
  {
    if f.ltype.Bool? { ok, v := DecBool(stream); }
    else if f.ltype.Varint? { ok, v := DecVarint(stream, f); }
    else if f.ltype.Uvarint? { ok, v := DecUvarint(stream, f); }
    else if f.ltype.Svarint? { ok, v := DecSvarint(stream, f); }
    else { ok, v := DecFixed(stream, f); }
  }

  // pb_dec_bytes.
  method DecBytes(stream: IStream, f: Field) returns (ok: bool, v: Value)
    requires stream.Valid() && f.ltype.Bytes?
    modifies stream
    ensures Computes(stream, old(stream.End()), DecodeBlob(f, old(stream.Remaining())), ok, v)
  {
    v := Blob([]);
    var size, data;
    ok, size := stream.ReadVarint32();
    if !ok { return; }
    if size > SizeMax() { return false, v; }
    var allocSize := size + SIZE_WIDTH;
    if size > allocSize { return false, v; }
    if allocSize > f.dataSize { return false, v; }
    ok, data := stream.ReadBytes(size);
    v := Blob(data);
  }

  // pb_dec_string.  The addition of the terminator wraps around in 32 bits.
  method DecString(stream: IStream, f: Field) returns (ok: bool, v: Value)
    requires stream.Valid() && WellFormedField(f) && f.ltype.String?
    modifies stream
    ensures Computes(stream, old(stream.End()), DecodeBlob(f, old(stream.Remaining())), ok, v)
  {
    hide CString, Exactly, DecodeVarint32, WellFormed, ValidValue;
    v := Blob([]);
    var size, data;
    ok, size := stream.ReadVarint32();
    if !ok { return; }
    var allocSize := (size + 1) % TWO32;
    if allocSize < size { return false, v; }
    if allocSize > f.dataSize { return false, v; }
    ok, data := stream.ReadBytes(size);
    v := Blob(CString(data));
  }

  // pb_dec_fixed_length_bytes.
  method DecFixedLengthBytes(stream: IStream, f: Field) returns (ok: bool, v: Value)
    requires stream.Valid() && f.ltype.FixedLengthBytes?
    modifies stream
    ensures Computes(stream, old(stream.End()), DecodeBlob(f, old(stream.Remaining())), ok, v)
  {
    v := Blob([]);
    var size, data;
    ok, size := stream.ReadVarint32();
    if !ok { return; }
    if size > SizeMax() { return false, v; }
    if size == 0 {
      v := Blob(Zeros(f.dataSize));
      return true, v;
    }
    if size != f.dataSize { return false, v; }
    ok, data := stream.ReadBytes(f.dataSize);
    v := Blob(data);
  }

  // pb_dec_submessage.  The substream is closed whether or not the message could be decoded.
  method DecSubmessage(stream: IStream, f: Field, was: Value) returns (ok: bool, v: Value)
    requires stream.Valid() && WellFormedField(f) && f.ltype.Submessage?
    modifies stream
    ensures Computes(stream, old(stream.End()), DecodeValue(f, was, old(stream.Remaining())), ok, v)
    decreases stream.left, 0
  {
    hide DecodeMessage, LengthDelimited, WellFormed;
    v := was;
    var made, sub := stream.MakeStringSubstream();
    if !made { return false, v; }
    var m := if f.htype.Repeated? then Defaults(f.sub) else AsMessage(f.sub, was);
    ok, m := DecodeNoinit(sub, f.sub, m);
    stream.CloseStringSubstream(sub);
    v := Struct(m);
  }

  // PB_DECODERS.
  method DecValue(stream: IStream, f: Field, was: Value) returns (ok: bool, v: Value)
    requires stream.Valid() && WellFormedField(f)
    modifies stream
    ensures Computes(stream, old(stream.End()), DecodeValue(f, was, old(stream.Remaining())), ok, v)
    decreases stream.left, 1
  {
    if Packable(f.ltype) { ok, v := DecScalar(stream, f); }
    else if f.ltype.Submessage? { ok, v := DecSubmessage(stream, f, was); }
    else if f.ltype.Bytes? { ok, v := DecBytes(stream, f); }
    else if f.ltype.String? { ok, v := DecString(stream, f); }
    else { ok, v := DecFixedLengthBytes(stream, f); }
  }

  // The state of pb_decode_noinit that decode_static_field works on: the struct, and the counter
  // that stands in for the missing _count of a fixed count array.
  datatype Dest = Dest(m: Message, fixedCount: nat)

  // The outcome of a field decoder, from the state st.
  ghost predicate Stores(stream: IStream, end: nat, r: Read<State>, ok: bool, st: State, dest: Dest)
    reads stream, stream.buf
  {
    && stream.Valid() && stream.End() <= end
    && ok == r.Read?
    && (ok ==>
          && stream.End() == end && stream.Remaining() == r.rest
          && r.value == st.(m := dest.m, fixedCount := dest.fixedCount))
  }

  // The loop over a packed array, in the substream that holds its payload.
  method DecodeRun(sub: IStream, f: Field, a: Array) returns (status: bool, a': Array)
    requires sub.Valid() && Packable(f.ltype)
    modifies sub
    ensures sub.Valid() && sub.End() <= old(sub.End())
    ensures status && sub.left == 0 <==> DecodePacked(f, a, old(sub.Remaining())).Some?
    ensures status && sub.left == 0 ==> Some(a') == DecodePacked(f, a, old(sub.Remaining())) && sub.End() == old(sub.End())
  {
    a', status := a, true;
    while sub.left > 0 && a'.count < f.arraySize
      invariant sub.Valid() && sub.End() == old(sub.End()) && status
      invariant DecodePacked(f, a, old(sub.Remaining())) == DecodePacked(f, a', sub.Remaining())
      decreases sub.left
    {
      var v;
      status, v := DecScalar(sub, f);
      if !status { return; }
      a' := Array(PutEntry(a'.entries, a'.count, v), a'.count + 1);
    }
  }

  // The array branch of decode_static_field.
  method DecodeArray(stream: IStream, wireType: WireType, f: Field, a: Array) returns (ok: bool, a': Array)
    requires stream.Valid() && WellFormedField(f)
    modifies stream
    ensures Computes(stream, old(stream.End()), DecodeEntries(f, a, wireType, old(stream.Remaining())), ok, a')
    decreases stream.left, 2
  {
    a' := a;
    if wireType == WT_STRING && Packable(f.ltype) {
      var made, sub := stream.MakeStringSubstream();
      if !made { return false, a'; }
      var status;
      status, a' := DecodeRun(sub, f, a);
      if sub.left != 0 { return false, a'; }
      stream.CloseStringSubstream(sub);
      ok := status;
    } else {
      if a.count >= f.arraySize { return false, a'; }
      var v;
      ok, v := DecValue(stream, f, Zero(f));
      a' := Array(PutEntry(a.entries, a.count, v), a.count + 1);
    }
  }

  // decode_static_field.
  method DecodeStaticField(stream: IStream, wireType: WireType, d: Desc, i: nat, dest: Dest, ghost st: State)
    returns (ok: bool, dest': Dest)
    requires stream.Valid() && WellFormed(d) && i < |d.fields|
    requires |dest.m| == |d.fields| && st.m == dest.m && st.fixedCount == dest.fixedCount
    modifies stream
    ensures Stores(stream, old(stream.End()), DecodeField(d, st, i, wireType, old(stream.Remaining())), ok, st, dest')
    decreases stream.left, 3
  {
    var f := d.fields[i];
    assert SlotInside(d, i) && WellFormedField(f);
    dest' := dest;
    var s := dest.m[f.slot];
    var v;
    match f.htype
    case Required =>
      ok, v := DecValue(stream, f, ValueOf(f, s));
      dest' := Dest(dest.m[f.slot := Single(v)], dest.fixedCount);
    case Optional =>
      ok, v := DecValue(stream, f, ValueOf(f, s));
      dest' := Dest(dest.m[f.slot := if f.counted then Maybe(true, v) else Single(v)], dest.fixedCount);
    case Repeated =>
      var a := Array(EntriesOf(s), if f.counted then |EntriesOf(s)| else dest.fixedCount);
      ok, a := DecodeArray(stream, wireType, f, a);
      dest' := Dest(dest.m[f.slot := Items(a.entries)], if f.counted then dest.fixedCount else a.count);
    case Oneof =>
      var was := ValueOf(f, s);
      if f.ltype.Submessage? && WhichOf(s) != f.tag {
        was := Struct(Defaults(f.sub));
      }
      ok, v := DecValue(stream, f, was);
      dest' := Dest(dest.m[f.slot := Union(f.tag, v)], dest.fixedCount);
  }

  // ----- Messages -----

  // The bookkeeping of pb_decode_noinit before a field is decoded.
  method EnterField(iter: FieldIter, d: Desc, fieldsSeen: array<nat>, fixedField: int, dest: Dest, ghost st: State)
    returns (ok: bool, fixedField': int, dest': Dest, ghost st': State)
    requires iter.Valid() && iter.fields == d.fields != [] && fieldsSeen.Length == 2
    requires -1 <= fixedField < |d.fields| && st == State(dest.m, st.seen, fixedField, dest.fixedCount, false)
    requires Shows(d, fieldsSeen[..], st.seen)
    modifies fieldsSeen
    ensures ok == Enter(d, st, iter.pos).Some?
    ensures ok ==> Enter(d, st, iter.pos) == Some(st')
    ensures ok ==> st' == State(dest'.m, st'.seen, fixedField', dest'.fixedCount, false) && -1 <= fixedField' < |d.fields|
    ensures ok ==> Shows(d, fieldsSeen[..], st'.seen) && dest'.m == dest.m
  {
    ok, fixedField', dest', st' := true, fixedField, dest, st;
    var f := d.fields[iter.pos];
    assert d == Desc(d.fields);
    if f.htype.Repeated? && f.sizeOffset == 0 {
      if fixedField != iter.pos {
        if fixedField != -1 && dest.fixedCount != d.fields[fixedField].arraySize { return false, fixedField', dest', st'; }
        fixedField' := iter.pos;
        dest' := dest.(fixedCount := 0);
        st' := st.(fixedField := iter.pos, fixedCount := 0);
      }
    }
    if f.htype.Required? && iter.requiredFieldIndex < MAX_REQUIRED {
      MarkedShows(d, fieldsSeen[..], st.seen, iter.pos);
      var bit := iter.requiredFieldIndex % 32;
      var word := iter.requiredFieldIndex / 32;
      ghost var before := fieldsSeen[..];
      fieldsSeen[word] := BitOr(fieldsSeen[word], Shl(1, bit));
      assert fieldsSeen[..] == Marked(before, iter.requiredFieldIndex);
      st' := st'.(seen := st'.seen + {iter.pos});
    }
  }

  // The number of required fields: the iterator is run to the end of the table.
  method CountRequired(iter: FieldIter, d: Desc) returns (reqFieldCount: nat)
    requires iter.Valid() && iter.fields == d.fields != []
    modifies iter
    ensures reqFieldCount == Min(RequiredIndex(d, |d.fields|), MAX_REQUIRED)
  {
    assert d == Desc(d.fields);
    reqFieldCount := iter.requiredFieldIndex;
    var lastType := d.fields[iter.pos].htype;
    ghost var last := iter.pos;
    var more := iter.Next();  // do-while
    while more
      invariant iter.Valid() && last < |d.fields|
      invariant more ==> iter.pos == last + 1 < |d.fields|
      invariant !more ==> last == |d.fields| - 1
      invariant reqFieldCount == RequiredIndex(d, last) && lastType == d.fields[last].htype
      decreases more, |d.fields| - iter.pos
    {
      reqFieldCount := iter.requiredFieldIndex;
      lastType := d.fields[iter.pos].htype;
      last := iter.pos;
      more := iter.Next();
    }
    if lastType.Required? { reqFieldCount := reqFieldCount + 1; }
    if reqFieldCount > MAX_REQUIRED { reqFieldCount := MAX_REQUIRED; }
  }

  // The comparison of fields_seen with as many ones.
  method CompareWords(fieldsSeen: array<nat>, reqFieldCount: nat) returns (ok: bool)
    requires fieldsSeen.Length == 2 && reqFieldCount <= MAX_REQUIRED
    ensures ok == WordsComplete(fieldsSeen[..], reqFieldCount)
  {
    var i := 0;
    while i < reqFieldCount / 32
      invariant 0 <= i <= reqFieldCount / 32
      invariant forall w :: 0 <= w < i ==> fieldsSeen[..][w] == AllBits()
    {
      if fieldsSeen[i] != AllBits() {
        assert fieldsSeen[..][i] != AllBits();
        return false;
      }
      i := i + 1;
    }
    if reqFieldCount % 32 != 0 {
      return fieldsSeen[reqFieldCount / 32] == Shr(AllBits(), 32 - reqFieldCount % 32);
    }
    return true;
  }

  // The check of the required fields at the end of pb_decode_noinit.
  method CheckRequired(iter: FieldIter, d: Desc, fieldsSeen: array<nat>, ghost st: State) returns (ok: bool)
    requires iter.Valid() && iter.fields == d.fields && fieldsSeen.Length == 2
    requires d.fields != [] ==> Shows(d, fieldsSeen[..], st.seen)
    modifies iter
    ensures ok == RequiredSeen(d, st)
  {
    if d.fields == [] { return true; }
    var reqFieldCount := CountRequired(iter, d);
    ok := CompareWords(fieldsSeen, reqFieldCount);
    CheckIsExact(d, fieldsSeen[..], st);
  }

  // The locals of pb_decode_noinit describe the state st.
  ghost predicate Tracks(d: Desc, iter: FieldIter, fieldsSeen: array<nat>, fixedField: int, dest: Dest, st: State)
    reads iter, fieldsSeen
  {
    && iter.Valid() && iter.fields == d.fields && fieldsSeen.Length == 2
    && -1 <= fixedField < |d.fields| && |dest.m| == |d.fields|
    && st == State(dest.m, st.seen, fixedField, dest.fixedCount, false)
    && (d.fields != [] ==> Shows(d, fieldsSeen[..], st.seen))
  }

  // One turn of the loop in pb_decode_noinit, after the tag.
  method DecodeRecordInto(stream: IStream, tag: nat, wireType: WireType, d: Desc, iter: FieldIter,
                          fieldsSeen: array<nat>, fixedField: int, dest: Dest, ghost st: State)
    returns (ok: bool, fixedField': int, dest': Dest, ghost st': State)
    requires stream.Valid() && WellFormed(d) && Tracks(d, iter, fieldsSeen, fixedField, dest, st)
    modifies stream, iter, fieldsSeen
    ensures stream.Valid() && stream.End() <= old(stream.End())
    ensures ok == DecodeRecord(d, st, tag, wireType, old(stream.Remaining())).Read?
    ensures ok ==> stream.End() == old(stream.End()) && Tracks(d, iter, fieldsSeen, fixedField', dest', st')
    ensures ok ==> DecodeRecord(d, st, tag, wireType, old(stream.Remaining())) == Read(st', stream.Remaining())
    decreases stream.left, 4
  {
    fixedField', dest', st' := fixedField, dest, st;
    var found := iter.Find(tag);
    if !found {
      forall i: nat | i < |d.fields| ensures d.fields[i].tag != tag {
        assert WellFormedField(d.fields[i]) && (iter.Matches(i, tag) <==> d.fields[i].tag == tag);
      }
      ok := stream.SkipOverField(wireType);
    } else if d.fields == [] {
      // The terminator has been found, and reads as a bool field.
      var v;
      ok, v := DecBool(stream);
    } else {
      FoundAt(d, iter.pos);
      ok, fixedField', dest', st' := EnterField(iter, d, fieldsSeen, fixedField, dest, st);
      if !ok { return; }
      ok, dest' := DecodeStaticField(stream, wireType, d, iter.pos, dest', st');
      st' := st'.(m := dest'.m, fixedCount := dest'.fixedCount);
    }
  }

  // pb_decode_noinit.
  method DecodeNoinit(stream: IStream, d: Desc, m: Message) returns (ok: bool, m': Message)
    requires stream.Valid() && WellFormed(d) && |m| == |d.fields|
    modifies stream
    ensures Computes(stream, old(stream.End()), DecodeMessage(d, m, old(stream.Remaining())), ok, m')
    decreases stream.left, 5
  {
    hide DecodeRecord, Shows, RequiredSeen;
    m' := m;
    var fieldsSeen := new nat[2](i => 0);
    var iter := new FieldIter(d.fields);
    var fixedField := -1;
    var dest := Dest(m, 0);
    ghost var all, st := stream.Remaining(), Start(m);
    assert fieldsSeen[..] == [0, 0];
    NothingShown(d);
    while stream.left > 0
      invariant stream.Valid() && stream.End() == old(stream.End()) && Tracks(d, iter, fieldsSeen, fixedField, dest, st)
      invariant DecodeRecords(d, Start(m), all) == DecodeRecords(d, st, stream.Remaining())
      decreases stream.left
    {
      var read, wireType, tag, eof := stream.ReadTag();
      if !read {
        if eof {
          st := st.(stopped := true);
          break;
        }
        return false, m';
      }
      ok, fixedField, dest, st := DecodeRecordInto(stream, tag, wireType, d, iter, fieldsSeen, fixedField, dest, st);
      if !ok { return; }
    }
    if fixedField != -1 && dest.fixedCount != d.fields[fixedField].arraySize { return false, m'; }
    ok := CheckRequired(iter, d, fieldsSeen, st);
    m' := dest.m;
  }

  // pb_decode.
  method DecodeInto(stream: IStream, d: Desc) returns (ok: bool, m: Message)
    requires stream.Valid() && WellFormed(d)
    modifies stream
    ensures Computes(stream, old(stream.End()), Decode(d, old(stream.Remaining())), ok, m)
  {
    m := Defaults(d);
    ok, m := DecodeNoinit(stream, d, m);
  }

  // pb_decode_delimited.
  method DecodeDelimitedInto(stream: IStream, d: Desc) returns (ok: bool, m: Message)
    requires stream.Valid() && WellFormed(d)
    modifies stream
    ensures Computes(stream, old(stream.End()), DecodeDelimited(d, old(stream.Remaining())), ok, m)
  {
    m := Defaults(d);
    var made, sub := stream.MakeStringSubstream();
    if !made { return false, m; }
    ok, m := DecodeInto(sub, d);
    stream.CloseStringSubstream(sub);
  }
}
