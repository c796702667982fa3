// Packed and unpacked array records are interchangeable: however the values of a packable
// repeated field are split into packed runs and single records, the array comes out the same.
module PackedRuns {
  import opened Options
  import opened Wire
  import opened WireFacts
  import opened Descriptor
  import opened Encoding
  import opened Decoding
  import opened Scalars
  import opened Merging
  import opened DecodeOfEncode

  datatype Chunk = Run(values: seq<Value>) | One(value: Value)

  function ValuesOf(c: Chunk): seq<Value>
  {
    match c case Run(vs) => vs case One(v) => [v]
  }

  function Flatten(cs: seq<Chunk>): seq<Value>
  {
    if cs == [] then [] else ValuesOf(cs[0]) + Flatten(cs[1..])
  }

  // The record of a chunk on the wire.
  function ChunkBytes(f: Field, c: Chunk): bytes
  {
    match c
    case Run(vs) => EncodeTag(f.tag, WT_STRING) + EncodeDelimited(EncodePacked(f, vs).GetOr([]))
    case One(v) => EncodeTag(f.tag, WireTypeOf(f.ltype)) + EncodeScalar(f, NumberOf(v)).GetOr([])
  }

  function ChunksBytes(f: Field, cs: seq<Chunk>): bytes
  {
    if cs == [] then [] else ChunkBytes(f, cs[0]) + ChunksBytes(f, cs[1..])
  }

  // The values fit the field, and the runs a 32-bit length.
  predicate GoodChunk(f: Field, c: Chunk)
  {
    && (forall k :: 0 <= k < |ValuesOf(c)| ==> ValidValue(f, ValuesOf(c)[k]))
    && (c.Run? ==> ShortPayload(EncodePacked(f, c.values)))
  }

  // The entries with vs put in from `count` on.
  function PutAll(entries: seq<Value>, count: nat, vs: seq<Value>): seq<Value>
    decreases |vs|
  {
    if vs == [] then entries else PutAll(PutEntry(entries, count, vs[0]), count + 1, vs[1..])
  }

  lemma {:induction false} PutAllIsMerge(f: Field, entries: seq<Value>, count: nat, vs: seq<Value>)
    requires !f.ltype.Submessage?
    ensures MergeEntries(f, entries, count, vs) == Some(PutAll(entries, count, vs))
    decreases |vs|
  {
    if vs != [] { PutAllIsMerge(f, PutEntry(entries, count, vs[0]), count + 1, vs[1..]); }
  }

  lemma {:induction false} PutAllConcatenates(entries: seq<Value>, count: nat, vs: seq<Value>, ws: seq<Value>)
    ensures PutAll(entries, count, vs + ws) == PutAll(PutAll(entries, count, vs), count + |vs|, ws)
    decreases |vs|
  {
    if vs == [] {
      assert vs + ws == ws;
    } else {
      assert (vs + ws)[1..] == vs[1..] + ws;
      PutAllConcatenates(PutEntry(entries, count, vs[0]), count + 1, vs[1..], ws);
    }
  }

  // Putting values behind the last entry of a counted array appends them.
  lemma {:induction false} PutAllAppends(entries: seq<Value>, vs: seq<Value>)
    ensures PutAll(entries, |entries|, vs) == entries + vs
    decreases |vs|
  {
    if vs == [] {
      assert entries + vs == entries;
    } else {
      assert entries + [vs[0]] + vs[1..] == entries + vs;
      PutAllAppends(entries + [vs[0]], vs[1..]);
    }
  }

  // The state that has received vs.
  function With(st: State, f: Field, vs: seq<Value>): State
  {
    var a := Current(st, f);
    StoreArray(st, f, Array(PutAll(a.entries, a.count, vs), a.count + |vs|))
  }

  // The i-th field is a packable array that is ready to receive.
  ghost predicate Receiving(d: Desc, st: State, i: nat)
  {
    && WellFormed(d) && i < |d.fields| && |st.m| == |d.fields|
    && d.fields[i].htype.Repeated? && Packable(d.fields[i].ltype)
    && SlotAt(st.m, d.fields[i]).Items? && Enter(d, st, i) == Some(st)
  }

  // The outcome of one chunk.
  function ChunkReceived(d: Desc, st: State, f: Field, vs: seq<Value>, rest: bytes): Read<State>
  {
    if Current(st, f).count + |vs| > f.arraySize then Fail else DecodeRecords(d, With(st, f, vs), rest)
  }

  lemma OneEntry(d: Desc, st: State, i: nat, wireType: WireType, body: bytes)
    requires i < |d.fields| && d.fields[i].htype.Repeated? && Packable(d.fields[i].ltype) && wireType != WT_STRING
    ensures var f := d.fields[i]; var a := Current(st, f);
            DecodeField(d, st, i, wireType, body) ==
            if a.count >= f.arraySize then Fail
            else
              match DecodeScalar(f, body)
              case Fail => Fail
              case Read(v, rest) => Read(StoreArray(st, f, Array(PutEntry(a.entries, a.count, v), a.count + 1)), rest)
  {
    assert DecodeValue(d.fields[i], Zero(d.fields[i]), body) == DecodeScalar(d.fields[i], body);
  }

  lemma OneDecodes(d: Desc, st: State, i: nat, v: Value, rest: bytes)
    requires Receiving(d, st, i) && ValidValue(d.fields[i], v)
    ensures DecodeRecords(d, st, ChunkBytes(d.fields[i], One(v)) + rest) == ChunkReceived(d, st, d.fields[i], [v], rest)
  {
    hide DecodeTag, DecodeEntries, DecodeRecord, EncodeTag, EncodeVarint;
    var f := d.fields[i];
    var a := Current(st, f);
    assert WellFormedField(f);
    ScalarRoundTrip(f, v.n, rest);
    var body := EncodeScalar(f, v.n).value + rest;
    assert ChunkBytes(f, One(v)) + rest == EncodeTag(f.tag, WireTypeOf(f.ltype)) + body;
    OneRecord(d, st, i, WireTypeOf(f.ltype), body);
    OneEntry(d, st, i, WireTypeOf(f.ltype), body);
    assert PutAll(a.entries, a.count, [v]) == PutEntry(a.entries, a.count, v);
  }

  lemma RunDecodes(d: Desc, st: State, i: nat, vs: seq<Value>, rest: bytes)
    requires Receiving(d, st, i) && GoodChunk(d.fields[i], Run(vs))
    requires Current(st, d.fields[i]).count <= d.fields[i].arraySize
    ensures DecodeRecords(d, st, ChunkBytes(d.fields[i], Run(vs)) + rest) == ChunkReceived(d, st, d.fields[i], vs, rest)
  {
    hide DecodeTag, DecodeEntries, DecodeRecord, EncodeTag, EncodeVarint;
    var f := d.fields[i];
    var a := Current(st, f);
    assert WellFormedField(f);
    assert forall k :: 0 <= k < |vs| ==> vs[k] == ValuesOf(Run(vs))[k];
    PackedDecodes(f, a, vs);
    PutAllIsMerge(f, a.entries, a.count, vs);
    var payload := EncodePacked(f, vs).value;
    var body := EncodeDelimited(payload) + rest;
    assert ChunkBytes(f, Run(vs)) + rest == EncodeTag(f.tag, WT_STRING) + body;
    OneRecord(d, st, i, WT_STRING, body);
    PackedRun(d, st, i, body);
    DelimitedRoundTrip(payload, rest);
  }

  lemma WithTwice(st: State, f: Field, vs: seq<Value>, ws: seq<Value>)
    requires f.slot < |st.m|
    requires f.counted ==> SlotAt(st.m, f).Items?
    ensures With(With(st, f, vs), f, ws) == With(st, f, vs + ws)
    ensures Current(With(st, f, vs), f).count == Current(st, f).count + |vs|
  {
    var a := Current(st, f);
    PutAllConcatenates(a.entries, a.count, vs, ws);
    if f.counted {
      PutAllAppends(a.entries, vs);
    }
    var x := Array(PutAll(a.entries, a.count, vs), a.count + |vs|);
    var y := Array(PutAll(a.entries, a.count, vs + ws), a.count + |vs + ws|);
    StoreTwice(st, f, x, y);
  }

  lemma WithNothing(st: State, f: Field)
    requires f.slot < |st.m| && SlotAt(st.m, f).Items?
    ensures With(st, f, []) == st
  {
    var a := Current(st, f);
    assert StoreArray(st, f, a).m == st.m;
  }

  // Every split of the same values into runs and single records has the same outcome: the values
  // are put in behind those already there if all of them fit, and the decoder fails otherwise.
  lemma {:induction false} SplitsAreEquivalent(d: Desc, st: State, i: nat, cs: seq<Chunk>, rest: bytes)
    requires Receiving(d, st, i) && forall k :: 0 <= k < |cs| ==> GoodChunk(d.fields[i], cs[k])
    requires Current(st, d.fields[i]).count <= d.fields[i].arraySize
    ensures DecodeRecords(d, st, ChunksBytes(d.fields[i], cs) + rest) ==
            if Current(st, d.fields[i]).count + |Flatten(cs)| > d.fields[i].arraySize then Fail
            else DecodeRecords(d, With(st, d.fields[i], Flatten(cs)), rest)
    decreases |cs|
  {
    var f := d.fields[i];
    assert SlotInside(d, i);
    if cs == [] {
      assert ChunksBytes(f, cs) + rest == rest;
      WithNothing(st, f);
    } else {
      var more := ChunksBytes(f, cs[1..]) + rest;
      assert ChunksBytes(f, cs) + rest == ChunkBytes(f, cs[0]) + more;
      var vs := ValuesOf(cs[0]);
      if cs[0].Run? { RunDecodes(d, st, i, vs, more); } else { OneDecodes(d, st, i, vs[0], more); }
      WithTwice(st, f, vs, Flatten(cs[1..]));
      if Current(st, f).count + |vs| <= f.arraySize {
        SplitsAreEquivalent(d, With(st, f, vs), i, cs[1..], rest);
      }
    }
  }
}
