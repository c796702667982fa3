// The field iterator of pb_common.c: a cyclic walk over a descriptor table that rebuilds the
// position of every struct member from differences.
module FieldIterator {
  import opened Wire
  import opened Descriptor
  import opened Decoding

  // sizeof(void*).
  const POINTER_SIZE := 8

  // What a field takes up in the struct.
  function Stride(f: Field): nat
  {
    if f.atype.Static? && f.htype.Repeated? then f.dataSize * f.arraySize
    else if f.atype.Pointer? then POINTER_SIZE
    else f.dataSize
  }

  // The test for "inside a union": PB_DATAOFFSET_UNION is PB_SIZE_MAX.
  predicate SharesUnion(prev: Field, f: Field)
  {
    prev.htype.Oneof? && f.htype.Oneof? && f.dataOffset == SizeMax()
  }

  // pData and pSize at the i-th field, as offsets in the struct.
  function DataAt(fields: seq<Field>, i: nat): int
    requires i < |fields|
  {
    if i == 0 then fields[0].dataOffset
    else if SharesUnion(fields[i - 1], fields[i]) then DataAt(fields, i - 1)
    else DataAt(fields, i - 1) + Stride(fields[i - 1]) + fields[i].dataOffset
  }

  function SizeAt(fields: seq<Field>, i: nat): int
    requires i < |fields|
  {
    if i > 0 && SharesUnion(fields[i - 1], fields[i]) then SizeAt(fields, i - 1)
    else DataAt(fields, i) + fields[i].sizeOffset
  }

  // pb_field_iter_t.
  class FieldIter {
    const fields: seq<Field>
    var pos: nat
    var requiredFieldIndex: nat
    var pData: int
    var pSize: int

    // At a field, everything else follows from which field it is.
    ghost predicate Valid()
      reads this
    {
      && (fields == [] ==> pos == 0)
      && (fields != [] ==>
            && pos < |fields|
            && requiredFieldIndex == RequiredIndex(Desc(fields), pos)
            && pData == DataAt(fields, pos) && pSize == SizeAt(fields, pos))
    }

    // The field has the tag and is not the extension placeholder.
    predicate Matches(i: nat, tag: nat)
      requires i < |fields|
    {
      fields[i].tag == tag && !fields[i].ltype.Extension?
    }

    // pb_field_iter_begin on a new iterator.
    constructor (fields: seq<Field>)
      ensures Valid() && this.fields == fields && pos == 0
    {
      this.fields := fields;
      pos, requiredFieldIndex, pData, pSize := 0, 0, 0, 0;
      if fields != [] {
        pData := fields[0].dataOffset;
        pSize := fields[0].dataOffset + fields[0].sizeOffset;
      }
    }

    // pb_field_iter_begin on one that is in use.
    method Begin()
      modifies this
      ensures Valid() && pos == 0
    {
      pos, requiredFieldIndex, pData, pSize := 0, 0, 0, 0;
      if fields != [] {
        pData := fields[0].dataOffset;
        pSize := pData + fields[0].sizeOffset;
      }
    }

    // pb_field_iter_next.
    method Next() returns (more: bool)
      requires Valid()
      modifies this
      ensures Valid()
      ensures more <==> old(pos) + 1 < |fields|
      ensures pos == if old(pos) + 1 < |fields| then old(pos) + 1 else 0
    {
      if fields == [] { return false; }
      var prev := fields[pos];
      pos := pos + 1;
      if pos == |fields| {
        Begin();
        return false;
      }
      var f := fields[pos];
      var prevSize := prev.dataSize;
      if prev.htype.Oneof? && f.htype.Oneof? && f.dataOffset == SizeMax() {
        return true;
      } else if prev.atype.Static? && prev.htype.Repeated? {
        prevSize := prevSize * prev.arraySize;
      } else if prev.atype.Pointer? {
        prevSize := POINTER_SIZE;
      }
      if prev.htype.Required? { requiredFieldIndex := requiredFieldIndex + 1; }
      pData := pData + prevSize + f.dataOffset;
      pSize := pData + f.sizeOffset;
      return true;
    }

    // pb_field_iter_find: from wherever the iterator is, it finds the tag if the table has it, and
    // comes back to where it was if not.  The terminator of an empty table has tag 0.
    method Find(tag: nat) returns (found: bool)
      requires Valid()
      modifies this
      ensures Valid()
      ensures fields != [] ==> (found <==> exists i: nat :: i < |fields| && Matches(i, tag))
      ensures fields == [] ==> (found <==> tag == 0)
      ensures found && fields != [] ==> Matches(pos, tag)
      ensures !found ==> pos == old(pos)
    {
      if fields == [] { return tag == 0; }
      var start := pos;
      var more := true;  // do-while
      ghost var wrapped := false;
      while more
        invariant Valid()
        invariant if wrapped then pos <= start else start <= pos
        invariant wrapped ==> forall i: nat :: start <= i < |fields| || i < pos ==> !Matches(i, tag)
        invariant !wrapped ==> forall i: nat :: start <= i < pos ==> !Matches(i, tag)
        invariant !more ==> pos == start && wrapped
        invariant more ==> wrapped ==> pos < start
        decreases more, !wrapped, |fields| - pos
      {
        if fields[pos].tag == tag && !fields[pos].ltype.Extension? {
          assert Matches(pos, tag);
          return true;
        }
        var next := Next();
        wrapped := wrapped || !next;
        more := pos != start;
      }
      return false;
    }
  }
}
