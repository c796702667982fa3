// Descriptor tables as the PB_DATAOFFSET macros of pb.h fill them in for a struct, and when the
// iterator's pointers are the true positions of the members.
module StructLayout {
  import opened Options
  import opened Wire
  import opened Descriptor
  import opened FieldIterator

  // A struct member with its field descriptor, whose data_offset and size_offset are still open:
  // offsetof and sizeof of the member, offsetof its has_, _count or which_ member if there is one,
  // and whether it is in the same union as the member before it.
  datatype Member = Member(field: Field, offset: nat, size: nat, sizeMember: Option<nat>, sameUnion: bool)

  // A number in a pb_size_t and in a pb_ssize_t.
  function Stored(x: int): (r: nat)
    ensures r <= SizeMax() && (r == x <==> 0 <= x <= SizeMax())
  {
    x % (SizeMax() + 1)
  }

  function StoredSigned(x: int): (r: int)
    ensures r == x <==> -(SizeMax() / 2) - 1 <= x <= SizeMax() / 2
  {
    if Stored(x) > SizeMax() / 2 then Stored(x) - SizeMax() - 1 else Stored(x)
  }

  // data_offset by PB_DATAOFFSET_FIRST, _OTHER and _UNION.  PB_OPTEXT_STATIC leaves it at zero.
  function EntryOffset(ms: seq<Member>, i: nat): int
    requires i < |ms|
  {
    if ms[i].field.ltype.Extension? then 0
    else if i == 0 then Stored(ms[0].offset)
    else if ms[i].sameUnion then SizeMax()
    else Stored(Gap(ms, i))
  }

  // The padding in front of the i-th member.
  function Gap(ms: seq<Member>, i: nat): int
    requires 0 < i < |ms|
  {
    ms[i].offset - ms[i - 1].offset - ms[i - 1].size
  }

  // pb_delta to the has_, _count or which_ member.
  function EntrySizeOffset(m: Member): int
  {
    if m.sizeMember.Some? && !m.field.ltype.Extension? then StoredSigned(m.sizeMember.value - m.offset) else 0
  }

  function Table(ms: seq<Member>): (fields: seq<Field>)
    requires Laid(ms)
    ensures |fields| == |ms|
  {
    seq(|ms|, i requires 0 <= i < |ms| =>
      assert LaidAt(ms, i);
      ms[i].field.(dataOffset := EntryOffset(ms, i), sizeOffset := EntrySizeOffset(ms[i])))
  }

  // The members of a C struct: each behind the one before, or in the same place when they share a
  // union.
  predicate Laid(ms: seq<Member>)
  {
    forall i :: 0 <= i < |ms| ==> LaidAt(ms, i)
  }

  predicate LaidAt(ms: seq<Member>, i: nat)
    requires i < |ms|
  {
    var m := ms[i];
    && m.size == Stride(m.field) && m.size > 0
    && (m.sameUnion ==>
          && i > 0 && m.field.htype.Oneof? && ms[i - 1].field.htype.Oneof? && !m.field.ltype.Extension?
          && m.offset == ms[i - 1].offset && m.sizeMember == ms[i - 1].sizeMember)
    && (i > 0 && !m.sameUnion ==> Gap(ms, i) >= 0)
    && (m.field.htype.Oneof? ==> m.sizeMember.Some?)
    && (m.field.ltype.Extension? ==> m.sizeMember.None?)
  }

  // The distances fit their types.  Two unions in a row whose distance happens to be PB_SIZE_MAX look
  // like one union, and an extension field behind padding is looked for in the padding.
  predicate Unambiguous(ms: seq<Member>, i: nat)
    requires i < |ms|
  {
    var m := ms[i];
    if m.field.ltype.Extension? then
      if i == 0 then m.offset == 0 else Gap(ms, i) == 0
    else
      m.sameUnion || (
        && SizeMemberIsNear(m)
        && (if i == 0 then m.offset <= SizeMax()
            else Gap(ms, i) <= SizeMax() && (m.field.htype.Oneof? && ms[i - 1].field.htype.Oneof? ==> Gap(ms, i) != SizeMax())))
  }

  predicate SizeMemberIsNear(m: Member) {
    m.sizeMember.Some? ==> -(SizeMax() / 2) - 1 <= m.sizeMember.value - m.offset <= SizeMax() / 2
  }

  // The iterator points at the i-th member, and its pSize at the member that goes with it.
  predicate PointsAt(ms: seq<Member>, i: nat)
    requires Laid(ms) && i < |ms|
  {
    && DataAt(Table(ms), i) == ms[i].offset
    && SizeAt(Table(ms), i) == (if ms[i].sizeMember.Some? then ms[i].sizeMember.value else ms[i].offset)
  }

  lemma {:induction false} StepPointsAt(ms: seq<Member>, i: nat)
    requires Laid(ms) && i < |ms| && (i > 0 ==> PointsAt(ms, i - 1))
    ensures PointsAt(ms, i) <==> Unambiguous(ms, i)
  {
    assert LaidAt(ms, i);
    if i > 0 {
      assert LaidAt(ms, i - 1);
      assert Stride(Table(ms)[i - 1]) == Stride(ms[i - 1].field);
    }
  }

  lemma {:induction false} PrefixPointsAt(ms: seq<Member>, n: nat)
    requires Laid(ms) && n <= |ms|
    ensures (forall i :: 0 <= i < n ==> PointsAt(ms, i)) <==> forall i :: 0 <= i < n ==> Unambiguous(ms, i)
    decreases n
  {
    if n > 0 {
      PrefixPointsAt(ms, n - 1);
      if forall i :: 0 <= i < n - 1 ==> PointsAt(ms, i) { StepPointsAt(ms, n - 1); }
    }
  }

  // The pointers that the iterator rebuilds are the positions of the struct's members, across
  // padding, arrays, pointers and unions, if and only if the table is unambiguous.
  lemma IteratorFindsMembers(ms: seq<Member>)
    requires Laid(ms)
    ensures (forall i :: 0 <= i < |ms| ==> PointsAt(ms, i)) <==> forall i :: 0 <= i < |ms| ==> Unambiguous(ms, i)
  {
    PrefixPointsAt(ms, |ms|);
  }

  // Two unions 255 bytes apart with an 8-bit pb_size_t: the second is taken for the first.
  lemma UnionsMistaken()
    requires SIZE_WIDTH == 1
    ensures exists ms: seq<Member> :: Laid(ms) && |ms| == 2 && !PointsAt(ms, 1)
  {
    var f := Field(1, Uvarint, Oneof, Static, 0, 0, 1, 0, 0, Desc([]), None);
    var g := f.(tag := 2, slot := 1);
    var ms := [Member(f, 4, 1, Some(0), false), Member(g, 260, 1, Some(258), false)];
    assert LaidAt(ms, 0) && LaidAt(ms, 1) && !Unambiguous(ms, 1);
    StepPointsAt(ms, 0);
    StepPointsAt(ms, 1);
  }
}
