// When the decoder of the malloc build succeeds: never over a failure, and whenever nothing stands in its
// way; and what it counts.
module OwnedOutcomes {
  import opened Options
  import opened Wire
  import opened Descriptor
  import opened Ownership
  import opened OwnedRelease
  import opened OwnedRuns
  import opened OwnedSafety
  import WireFormat

  // ----- Allocation -----

  // A size is refused exactly if it is zero or does not fit 64 bits, whatever the allocator would say.
  lemma AllocatesExactly(st: Store, p: Pointer, dataSize: nat, arraySize: nat, g: Grant)
    ensures AllocateField(st, p, dataSize, arraySize, g).0.Some? <==> 0 < dataSize * arraySize <= SIZE_MAX && !g.Refused?
  {
    ProductFits(dataSize, arraySize);
    if 0 < dataSize < CHECK_LIMIT && 0 < arraySize < CHECK_LIMIT { SmallProduct(dataSize, arraySize); }
  }

  // The division in the overflow check.
  lemma ProductFits(a: nat, b: nat)
    ensures (a * b == 0) == (a == 0 || b == 0)
    ensures b > 0 ==> (a * b <= SIZE_MAX <==> a <= SIZE_MAX / b)
  {
    if b > 0 {
      var q := SIZE_MAX / b;
      assert q * b <= SIZE_MAX < (q + 1) * b;
      if a <= q { Monotone(a, q, b); } else { Monotone(q + 1, a, b); }
    }
  }

  lemma Monotone(a: nat, c: nat, b: nat)
    requires a <= c
    ensures a * b <= c * b
  {
  }

  lemma SmallProduct(a: nat, b: nat)
    requires 0 < a < CHECK_LIMIT && 0 < b < CHECK_LIMIT
    ensures a * b <= SIZE_MAX
  {
    NoOverflow(a, b);
  }

  // ----- Nothing fails silently -----

  // Everything in the input could be read, and all memory was granted.
  predicate Flawless(d: Desc, input: Input)
    decreases input
  {
    input.complete && forall k :: 0 <= k < |input.records| ==> FlawlessRecord(d, input.records[k])
  }

  predicate FlawlessRecord(d: Desc, record: Found)
    decreases record
  {
    record.Hit? && record.i < |d.fields| ==> FlawlessBody(d.fields[record.i], record.body)
  }

  predicate FlawlessBody(f: Field, b: Body)
    decreases b, 1
  {
    if f.atype.Pointer? && f.htype.Repeated? && Packable(f.ltype) && b.packed then b.begun && b.closed
    else if f.ltype.Submessage? then (f.atype.Pointer? ==> !b.grant.Refused?) && b.begun && b.closed && Flawless(f.sub, b.inner)
    else if f.atype.Pointer? && IsText(f) then
      && b.begun && b.read && (f.htype.Repeated? ==> !b.grant.Refused? && !b.textGrant.Refused?) && (!f.htype.Repeated? ==> !b.grant.Refused?)
    else b.read && (f.atype.Pointer? ==> !b.grant.Refused?)
  }

  lemma RefusedFails(st: Store, p: Pointer, dataSize: nat, arraySize: nat)
    ensures AllocateField(st, p, dataSize, arraySize, Refused).0 == None
  {
  }

  lemma {:induction false} RecordsAreFlawless(st: Store, d: Desc, m: Record, records: seq<Found>)
    requires Table(d) && DecodeRecords(st, d, m, records).ok
    ensures forall k :: 0 <= k < |records| ==> FlawlessRecord(d, records[k])
    decreases records
  {
    hide DecodeRecord, FlawlessRecord, Table;
    if records != [] {
      var x := DecodeRecord(st, d, m, records[0]);
      RecordIsFlawless(st, d, m, records[0]);
      RecordsAreFlawless(x.st, d, x.r, records[1..]);
      assert forall k :: 0 < k < |records| ==> records[k] == records[1..][k - 1];
    }
  }

  lemma {:induction false} RecordIsFlawless(st: Store, d: Desc, m: Record, record: Found)
    requires Table(d) && DecodeRecord(st, d, m, record).ok
    ensures FlawlessRecord(d, record)
    decreases record
  {
    hide DecodeStaticField, DecodePointerField, FlawlessBody;
    if record.Hit? && record.i < |d.fields| {
      var f, b := d.fields[record.i], record.body;
      assert TableField(f);
      if f.slot < |m.members| {
        var u := if f.htype.Oneof? then ReleaseUnionField(st, d, f, m.members[f.slot]) else After(m.members[f.slot], st);
        if f.atype.Static? { StaticIsFlawless(u.st, f, u.r, b); } else { PointerIsFlawless(u.st, f, u.r, b); }
      }
    }
  }

  lemma {:induction false} SubmessageIsFlawless(st: Store, f: Field, m: Record, b: Body)
    requires Table(f.sub) && DecSubmessage(st, f, m, b).ok
    ensures b.begun && b.closed && Flawless(f.sub, b.inner)
    decreases b, 0
  {
    hide Table, SetToDefaults, Release, DecodeRecords;
    var m0 := if f.htype.Repeated? then SetToDefaults(f.sub, m) else m;
    assert if f.htype.Repeated? then Decode(st, f.sub, m, b.inner).ok else DecodeNoinit(st, f.sub, m, b.inner).ok;
    assert DecodeNoinit(st, f.sub, m0, b.inner).ok;
    RecordsAreFlawless(st, f.sub, m0, b.inner.records);
  }

  lemma {:induction false} StaticIsFlawless(st: Store, f: Field, s: Member, b: Body)
    requires TableField(f) && f.atype.Static? && DecodeStaticField(st, f, s, b).ok
    ensures FlawlessBody(f, b)
    decreases b, 2
  {
    hide Table, DecSubmessage, SetToDefaults, Zeroed, Flawless;
    if f.ltype.Submessage? {
      SubmessageIsFlawless(st, f, if f.htype.Repeated? then s.entries[s.count] else Destination(f, s), b);
    }
  }

  lemma {:induction false} PointerIsFlawless(st: Store, f: Field, s: Member, b: Body)
    requires TableField(f) && f.atype.Pointer? && DecodePointerField(st, f, s, b).ok
    ensures FlawlessBody(f, b)
    decreases b, 2
  {
    hide Table, AppendItem, DecodePointer, PackedTurns, Flawless;
    if f.htype.Repeated? {
      if !(Packable(f.ltype) && b.packed) { AppendedIsFlawless(st, f, s, b); }
    } else {
      SingleIsFlawless(st, f, Current(f, s), b);
    }
  }

  lemma {:induction false} AppendedIsFlawless(st: Store, f: Field, s: Member, b: Body)
    requires TableField(f) && f.atype.Pointer? && f.htype.Repeated? && s.OwnArray? && AppendItem(st, f, s, b).ok
    requires !(Packable(f.ltype) && b.packed)
    ensures FlawlessBody(f, b)
    decreases b, 1
  {
    hide Table, AllocateField, DecSubmessage, SetToDefaults, Zeroed, Flawless;
    RefusedFails(st, s.p, f.dataSize, s.count + 1);
    var st' := AllocateField(st, s.p, f.dataSize, s.count + 1, b.grant).1;
    RefusedFails(st', Null, b.size, 1);
    if f.ltype.Submessage? { SubmessageIsFlawless(st', f, SetToDefaults(f.sub, Zeroed(f.sub)), b); }
  }

  lemma {:induction false} SingleIsFlawless(st: Store, f: Field, p: Pointer, b: Body)
    requires TableField(f) && f.atype.Pointer? && !f.htype.Repeated? && DecodePointer(st, f, p, b).ok
    ensures FlawlessBody(f, b)
    decreases b, 1
  {
    hide Table, AllocateField, DecSubmessage, SetToDefaults, Zeroed, Flawless, ReleaseBlock;
    RefusedFails(st, p, b.size, 1);
    RefusedFails(st, p, f.dataSize, 1);
    if f.ltype.Submessage? {
      var v := ReleaseBlock(st, f, p);
      RefusedFails(v, Null, f.dataSize, 1);
      SubmessageIsFlawless(AllocateField(v, Null, f.dataSize, 1, b.grant).1, f, SetToDefaults(f.sub, Zeroed(f.sub)), b);
    }
  }

  // pb_decode reports success only if nothing has failed at any depth.
  lemma NothingFailsSilently(st: Store, d: Desc, m: Record, input: Input)
    requires Table(d) && Decode(st, d, m, input).ok
    ensures Flawless(d, input)
  {
    hide Table, DecodeRecords, SetToDefaults, Release;
    RecordsAreFlawless(st, d, SetToDefaults(d, m), input.records);
  }

  // ----- What nothing stands in the way of -----

  // Every field is met at most once in a message, there is room for it, and everything goes well.
  predicate Smooth(d: Desc, input: Input)
    decreases input
  {
    && input.complete
    && (forall k :: 0 <= k < |input.records| ==> SmoothRecord(d, input.records[k]))
    && (forall j, k :: 0 <= j < k < |input.records| ==> SlotsDiffer(d, input.records[j], input.records[k]))
  }

  predicate SlotsDiffer(d: Desc, a: Found, b: Found) {
    a.Hit? && b.Hit? && a.i < |d.fields| && b.i < |d.fields| ==> d.fields[a.i].slot != d.fields[b.i].slot
  }

  predicate SmoothRecord(d: Desc, record: Found)
    decreases record
  {
    record.Hit? && record.i < |d.fields| ==> SmoothBody(d.fields[record.i], record.body)
  }

  predicate SmoothBody(f: Field, b: Body)
    decreases b, 1
  {
    if f.atype.Static? then
      if f.ltype.Submessage? then (f.htype.Repeated? ==> f.arraySize > 0) && b.begun && b.closed && Smooth(f.sub, b.inner)
      else b.read
    else if f.htype.Repeated? && Packable(f.ltype) && b.packed then
      b.begun && b.closed && |b.turns| <= SizeMax() && AllGranted(b.turns) && Used(b.turns) == b.size
    else if IsText(f) && !f.htype.Repeated? then SmoothText(b, b.grant)
    else
      && 0 < f.dataSize && !b.grant.Refused?
      && (if f.ltype.Submessage? then b.begun && b.closed && Smooth(f.sub, b.inner)
          else if IsText(f) then SmoothText(b, b.textGrant) else b.read)
  }

  predicate SmoothText(b: Body, g: Grant) {
    b.begun && b.read && !g.Refused? && 0 < b.size <= SIZE_MAX
  }

  predicate AllGranted(turns: seq<Turn>) {
    forall k :: 0 <= k < |turns| ==> !turns[k].grant.Refused? && turns[k].used > 0
  }

  function Used(turns: seq<Turn>): nat {
    if turns == [] then 0 else turns[0].used + Used(turns[1..])
  }

  // Entries of the table are of a size that pb_size_t can hold, so the product with a count fits.
  lemma SmallAllocation(st: Store, p: Pointer, dataSize: nat, arraySize: nat, g: Grant)
    requires 0 < dataSize <= SizeMax() && 0 < arraySize <= SizeMax() && !g.Refused?
    ensures AllocateField(st, p, dataSize, arraySize, g).0.Some?
  {
  }

  lemma TextAllocation(st: Store, p: Pointer, size: nat, g: Grant)
    requires 0 < size <= SIZE_MAX && !g.Refused?
    ensures AllocateField(st, p, size, 1, g).0.Some?
  {
    AllocatesExactly(st, p, size, 1, g);
    assert size * 1 == size;
  }

  // A packed array takes one entry for each turn.
  lemma {:induction false} TurnsSucceed(st: Store, f: Field, p: Pointer, size: nat, capacity: nat, bytesLeft: nat, turns: seq<Turn>)
    requires 0 < f.dataSize <= SizeMax() && AllGranted(turns) && Used(turns) == bytesLeft && size + |turns| <= SizeMax() && size <= capacity <= SizeMax()
    ensures var x := PackedTurns(st, f, p, size, capacity, bytesLeft, turns);
            x.ok && x.r.1 == size + |turns|
    decreases |turns|
  {
    hide AllocateField, Enlarged;
    if turns != [] {
      var tail := turns[1..];
      assert forall k :: 0 <= k < |tail| ==> tail[k] == turns[k + 1];
      if size + 1 > capacity {
        var room := Enlarged(capacity, bytesLeft, f.dataSize);
        SmallAllocation(st, p, f.dataSize, room, turns[0].grant);
        var (id, u) := AllocateField(st, p, f.dataSize, room, turns[0].grant);
        TurnsSucceed(u, f, Block(id.value, room, ItemsOf(p)), size + 1, room, bytesLeft - turns[0].used, tail);
      } else {
        TurnsSucceed(st, f, p, size + 1, capacity, bytesLeft - turns[0].used, tail);
      }
    }
  }

  lemma {:induction false} SubmessageSucceeds(st: Store, f: Field, b: Body)
    requires Table(f.sub) && b.begun && b.closed && Smooth(f.sub, b.inner)
    ensures DecSubmessage(st, f, Zeroed(f.sub), b).ok && DecSubmessage(st, f, SetToDefaults(f.sub, Zeroed(f.sub)), b).ok
    decreases b, 0
  {
    hide Table, SetToDefaults, Zeroed, DecodeRecords, Smooth, Release;
    ZeroedIsDefault(f.sub);
    InputSucceeds(st, f.sub, b.inner);
    assert DecodeNoinit(st, f.sub, Zeroed(f.sub), b.inner).ok;
    assert Decode(st, f.sub, Zeroed(f.sub), b.inner).ok;
  }

  // A field that has not been met yet.
  lemma {:induction false} StaticSucceeds(st: Store, f: Field, b: Body)
    requires TableField(f) && f.atype.Static? && SmoothBody(f, b)
    ensures DecodeStaticField(st, f, ZeroedMember(f), b).ok
    decreases b, 2
  {
    hide Table, DecSubmessage, SetToDefaults, Zeroed, Smooth;
    if f.ltype.Submessage? { SubmessageSucceeds(st, f, b); }
  }

  lemma {:induction false} PointerSucceeds(st: Store, f: Field, b: Body)
    requires TableField(f) && f.atype.Pointer? && SmoothBody(f, b)
    ensures DecodePointerField(st, f, ZeroedMember(f), b).ok
    decreases b, 2
  {
    hide Table, DecSubmessage, DecodeText, SetToDefaults, Zeroed, Smooth, AllocateField, PackedTurns, DecodePointer, AppendItem;
    if f.htype.Repeated? {
      if Packable(f.ltype) && b.packed {
        TurnsSucceed(st, f, Null, 0, 0, b.size, b.turns);
      } else {
        AppendSucceeds(st, f, b);
      }
    } else {
      SingleSucceeds(st, f, b);
    }
  }

  lemma {:induction false} AppendSucceeds(st: Store, f: Field, b: Body)
    requires TableField(f) && f.atype.Pointer? && f.htype.Repeated? && !(Packable(f.ltype) && b.packed) && SmoothBody(f, b)
    ensures AppendItem(st, f, OwnArray(0, Null), b).ok
    decreases b, 1
  {
    hide Table, DecSubmessage, SetToDefaults, Zeroed, Smooth, AllocateField;
    assert SizeMax() > 0;
    SmallAllocation(st, Null, f.dataSize, 1, b.grant);
    var u := AllocateField(st, Null, f.dataSize, 1, b.grant).1;
    if f.ltype.Submessage? { SubmessageSucceeds(u, f, b); } else if IsText(f) { TextAllocation(u, Null, b.size, b.textGrant); }
  }

  lemma {:induction false} SingleSucceeds(st: Store, f: Field, b: Body)
    requires TableField(f) && f.atype.Pointer? && !f.htype.Repeated? && SmoothBody(f, b)
    ensures DecodePointer(st, f, Null, b).ok
    decreases b, 1
  {
    hide Table, DecSubmessage, SetToDefaults, Zeroed, Smooth, AllocateField;
    assert SizeMax() > 0;
    if IsText(f) {
      TextAllocation(st, Null, b.size, b.grant);
    } else {
      SmallAllocation(st, Null, f.dataSize, 1, b.grant);
      if f.ltype.Submessage? { SubmessageSucceeds(AllocateField(st, Null, f.dataSize, 1, b.grant).1, f, b); }
    }
  }

  // The slots that the records name have not been touched.
  predicate Untouched(d: Desc, m: Record, records: seq<Found>) {
    |m.members| == |d.fields| && forall k :: 0 <= k < |records| ==> RecordUntouched(d, m, records[k])
  }

  predicate RecordUntouched(d: Desc, m: Record, record: Found) {
    record.Hit? && record.i < |d.fields| && d.fields[record.i].slot < |m.members| && d.fields[record.i].slot < |d.fields|
    ==> m.members[d.fields[record.i].slot] == Zeroed(d).members[d.fields[record.i].slot]
  }

  lemma {:induction false} RecordSucceeds(st: Store, d: Desc, m: Record, record: Found)
    requires Table(d) && |m.members| == |d.fields| && RecordUntouched(d, m, record) && SmoothRecord(d, record)
    ensures var x := DecodeRecord(st, d, m, record);
            && x.ok && |x.r.members| == |m.members|
            && forall k :: 0 <= k < |m.members| && !(record.Hit? && record.i < |d.fields| && d.fields[record.i].slot == k) ==> x.r.members[k] == m.members[k]
    decreases record
  {
    hide DecodeStaticField, DecodePointerField, SmoothBody, ReleaseUnionField, Table;
    if record.Hit? && record.i < |d.fields| {
      var f := d.fields[record.i];
      FieldIsZeroed(d, record.i);
      assert m.members[f.slot] == ZeroedMember(f);
      UnionIsFresh(st, d, f);
      if f.atype.Static? { StaticSucceeds(st, f, record.body); } else { PointerSucceeds(st, f, record.body); }
    }
  }

  lemma FieldIsZeroed(d: Desc, i: nat)
    requires Table(d) && i < |d.fields|
    ensures var f := d.fields[i];
            f.slot < |d.fields| && TableField(f) && Zeroed(d).members[f.slot] == ZeroedMember(f)
  {
    var f := d.fields[i];
    assert SlotInside(d, i) && TableField(f);
    if f.slot != i { assert Apart(d.fields[f.slot], f); }
  }

  lemma UnionIsFresh(st: Store, d: Desc, f: Field)
    ensures f.htype.Oneof? ==> ReleaseUnionField(st, d, f, ZeroedMember(f)) == After(ZeroedMember(f), st)
  {
  }

  lemma {:induction false} RecordsSucceed(st: Store, d: Desc, m: Record, records: seq<Found>)
    requires Table(d) && Untouched(d, m, records)
    requires forall k :: 0 <= k < |records| ==> SmoothRecord(d, records[k])
    requires forall j, k :: 0 <= j < k < |records| ==> SlotsDiffer(d, records[j], records[k])
    ensures DecodeRecords(st, d, m, records).ok
    decreases records
  {
    hide DecodeRecord, SmoothRecord, Table;
    if records != [] {
      var tail := records[1..];
      RecordSucceeds(st, d, m, records[0]);
      var x := DecodeRecord(st, d, m, records[0]);
      forall k | 0 <= k < |tail| ensures RecordUntouched(d, x.r, tail[k]) && SmoothRecord(d, tail[k]) {
        assert tail[k] == records[k + 1] && SlotsDiffer(d, records[0], records[k + 1]) && RecordUntouched(d, m, records[k + 1]);
      }
      forall j, k | 0 <= j < k < |tail| ensures SlotsDiffer(d, tail[j], tail[k]) {
        assert SlotsDiffer(d, records[j + 1], records[k + 1]);
      }
      RecordsSucceed(x.st, d, x.r, tail);
    }
  }

  lemma {:induction false} InputSucceeds(st: Store, d: Desc, input: Input)
    requires Table(d) && Smooth(d, input)
    ensures DecodeRecords(st, d, Zeroed(d), input.records).ok && input.complete
    decreases input
  {
    hide Table, SmoothRecord, SlotsDiffer, DecodeRecords;
    assert Untouched(d, Zeroed(d), input.records);
    RecordsSucceed(st, d, Zeroed(d), input.records);
  }

  // From a zeroed struct, pb_decode succeeds when nothing stands in its way.
  lemma SmoothSucceeds(st: Store, d: Desc, input: Input)
    requires Table(d) && Smooth(d, input)
    ensures Decode(st, d, Zeroed(d), input).ok
  {
    hide Table, Smooth, Zeroed, SetToDefaults, Release, DecodeRecords;
    ZeroedIsDefault(d);
    InputSucceeds(st, d, input);
    assert DecodeNoinit(st, d, Zeroed(d), input).ok;
  }

  // ----- Counts -----

  // One more entry, and what it needs is counted and there.
  lemma AppendCounts(st: Store, f: Field, s: Member, b: Body)
    requires s.OwnArray? && AppendItem(st, f, s, b).ok
    ensures var r := AppendItem(st, f, s, b).r;
            && r.OwnArray? && r.count == s.count + 1 <= SizeMax() && r.p.Block? && r.p.room == r.count
            && ItemsOf(s.p) <= r.p.items && |r.p.items| == |ItemsOf(s.p)| + (if f.ltype.Submessage? || IsText(f) then 1 else 0)
  {
    hide AllocateField, DecodeItem;
  }

  // The next entry of a static array.
  lemma EntryCounts(st: Store, f: Field, s: Member, b: Body)
    requires s.SubArray? && f.arraySize <= SizeMax() && DecodeEntry(st, f, s, b).ok
    ensures var r := DecodeEntry(st, f, s, b).r;
            && r.SubArray? && r.count == s.count + 1 <= f.arraySize && |r.entries| == |s.entries|
            && forall k :: 0 <= k < |s.entries| && k != s.count ==> r.entries[k] == s.entries[k]
  {
    hide DecSubmessage;
  }

  // ----- Allocation of packed arrays -----

  predicate AllUse(turns: seq<Turn>, size: nat) {
    forall k :: 0 <= k < |turns| ==> turns[k].used == size
  }

  // With room for all entries nothing is allocated.
  lemma {:induction false} RoomIsEnough(st: Store, f: Field, p: Pointer, size: nat, capacity: nat, bytesLeft: nat, turns: seq<Turn>)
    requires f.dataSize > 0 && AllUse(turns, f.dataSize) && bytesLeft == |turns| * f.dataSize && size + |turns| <= capacity <= SizeMax()
    ensures PackedTurns(st, f, p, size, capacity, bytesLeft, turns) == Did(true, (p, size + |turns|), st)
    decreases |turns|
  {
    if turns != [] {
      assert bytesLeft == f.dataSize + (|turns| - 1) * f.dataSize;
      assert (|turns| - 1) * f.dataSize >= 0;
      RoomIsEnough(st, f, p, size + 1, capacity, bytesLeft - f.dataSize, turns[1..]);
    }
  }

  // Numbers of a fixed width are allocated once: the guess of how many remain is right.
  lemma FixedRunAllocatesOnce(st: Store, f: Field, p: Pointer, size: nat, bytesLeft: nat, turns: seq<Turn>)
    requires f.dataSize > 0 && turns != [] && AllUse(turns, f.dataSize) && bytesLeft == |turns| * f.dataSize && size + |turns| < SizeMax()
    ensures var (id, u) := AllocateField(st, p, f.dataSize, size + |turns|, turns[0].grant);
            PackedTurns(st, f, p, size, size, bytesLeft, turns) ==
              if id.None? then Did(false, (p, size), u) else Did(true, (Block(id.value, size + |turns|, ItemsOf(p)), size + |turns|), u)
  {
    hide AllocateField;
    GuessIsRight(size, |turns|, f.dataSize);
    assert bytesLeft == f.dataSize + (|turns| - 1) * f.dataSize;
    assert (|turns| - 1) * f.dataSize >= 0;
    var (id, u) := AllocateField(st, p, f.dataSize, size + |turns|, turns[0].grant);
    if id.Some? {
      RoomIsEnough(u, f, Block(id.value, size + |turns|, ItemsOf(p)), size + 1, size + |turns|, bytesLeft - f.dataSize, turns[1..]);
    }
  }

  lemma GuessIsRight(capacity: nat, n: nat, dataSize: nat)
    requires n > 0 && dataSize > 0 && capacity + n < SizeMax()
    ensures n * dataSize > 0 && Enlarged(capacity, n * dataSize, dataSize) == capacity + n
  {
    assert n * dataSize - 1 == (n - 1) * dataSize + (dataSize - 1);
    WireFormat.QuotientIs(n * dataSize - 1, dataSize, n - 1, dataSize - 1);
  }

  // ----- Defaults -----

  // Every pointer is null and every count and which_ zero; static entries are as they were.
  predicate IsReset(d: Desc, was: Record, now: Record)
    decreases d, 0
  {
    && |now.members| == |was.members|
    && forall i :: 0 <= i < |was.members| && i < |d.fields| && d.fields[i].slot == i ==> MemberIsReset(d.fields[i], was.members[i], now.members[i])
  }

  predicate MemberIsReset(f: Field, was: Member, now: Member)
    decreases f, 0
  {
    match was
    case Inline => now.Inline?
    case Sub(m) => now.Sub? && IsReset(f.sub, m, now.m)
    case SubArray(_, entries) => now.SubArray? && now.count == 0 && now.entries == entries
    case Own(_) => now.Own? && now.p.Null?
    case OwnArray(_, _) => now.OwnArray? && now.count == 0 && now.p.Null?
    case Choice(_, _) => now.Choice? && now.which == 0
    case Beside => now.Beside?
  }

  lemma {:induction false} DefaultsAreReset(d: Desc, m: Record)
    ensures IsReset(d, m, SetToDefaults(d, m))
    decreases d, 0
  {
    forall i | 0 <= i < |m.members| && i < |d.fields| && d.fields[i].slot == i
      ensures MemberIsReset(d.fields[i], m.members[i], SetToDefaults(d, m).members[i])
    {
      if m.members[i].Sub? { DefaultsAreReset(d.fields[i].sub, m.members[i].m); }
    }
  }

  lemma {:induction false} DefaultsAgain(d: Desc, m: Record)
    ensures SetToDefaults(d, SetToDefaults(d, m)) == SetToDefaults(d, m)
    decreases d, 0
  {
    var once := SetToDefaults(d, m);
    forall i | 0 <= i < |m.members| ensures SetToDefaults(d, once).members[i] == once.members[i] {
      if i < |d.fields| && m.members[i].Sub? { DefaultsAgain(d.fields[i].sub, m.members[i].m); }
    }
  }

  // An entry of an array is decoded afresh, whatever was there.
  lemma EntryStartsAfresh(st: Store, f: Field, m: Record, b: Body)
    requires f.htype.Repeated? && b.begun
    ensures var x, y := DecSubmessage(st, f, m, b), DecSubmessage(st, f, SetToDefaults(f.sub, m), b);
            x.ok == y.ok && x.st == y.st && x.r == y.r
  {
    hide SetToDefaults, DecodeNoinit, Release;
    DefaultsAgain(f.sub, m);
  }
}
