/** The cyclic field iterator, `pb_field_iter_t`. */
module FieldIterator {
  import opened Descriptors

  const SIZE_MAX: nat := 255
  const PTR_SIZE: nat := 8

  /** Later members of a union share the place of the first. */
  predicate InUnion(fields: Fields, i: nat) {
    0 < i < |fields| && fields[i - 1].htype.OneOf? && fields[i].htype.OneOf? && fields[i].dataOffset == SIZE_MAX
  }

  /** How many bytes a field takes in the struct. */
  function EntrySize(f: Field): nat {
    if f.atype.Static? && f.htype.Repeated? then f.dataSize * f.arraySize
    else if f.atype.Pointer? then PTR_SIZE
    else f.dataSize
  }

  /** Offset of the data of field `i` from the start of the struct. */
  function DataAt(fields: Fields, i: nat): nat
    requires i < |fields|
  {
    if i == 0 then fields[0].dataOffset
    else if InUnion(fields, i) then DataAt(fields, i - 1)
    else DataAt(fields, i - 1) + EntrySize(fields[i - 1]) + fields[i].dataOffset
  }

  /** Offset of its count, has-flag or union selector. */
  function SizeAt(fields: Fields, i: nat): int
    requires i < |fields|
  {
    if InUnion(fields, i) then SizeAt(fields, i - 1) else DataAt(fields, i) + fields[i].sizeOffset
  }

  /** Field `i` answers to `tag`; an empty list has only its terminator, with tag zero. */
  predicate Answers(fields: Fields, i: nat, tag: nat) {
    if i < |fields| then fields[i].tag == tag && !fields[i].ltype.Extension? else tag == 0
  }

  /** Fields outside unions never overlap in the struct. */
  lemma {:induction false} FieldsDisjoint(fields: Fields, i: nat, j: nat)
    requires i < j < |fields| && forall k | 0 <= k < |fields| :: !InUnion(fields, k)
    ensures DataAt(fields, i) + EntrySize(fields[i]) <= DataAt(fields, j)
    decreases j
  {
    hide EntrySize;
    if i < j - 1 { FieldsDisjoint(fields, i, j - 1); }
  }

  class FieldIter {
    const fields: Fields
    var pos: nat
    var pData: int
    var pSize: int
    var requiredIndex: nat

    /** Everything is a function of the position. */
    ghost predicate Valid()
      reads this
    {
      if fields == [] then pos == 0 && requiredIndex == 0
      else
        && pos < |fields|
        && pData == DataAt(fields, pos)
        && pSize == SizeAt(fields, pos)
        && requiredIndex == RequiredBefore(fields, pos)
    }

    constructor (fields: Fields)
      ensures Valid() && this.fields == fields && pos == 0
    {
      this.fields := fields;
      pos, requiredIndex := 0, 0;
      pData := if fields == [] then 0 else fields[0].dataOffset;
      pSize := if fields == [] then 0 else fields[0].dataOffset + fields[0].sizeOffset;
    }

    /** `pb_field_iter_begin` on an iterator that exists; false for an empty message type. */
    method Begin() returns (more: bool)
      modifies this
      ensures Valid() && pos == 0 && more == (fields != [])
    {
      pos, requiredIndex := 0, 0;
      if fields == [] {
        pData, pSize := 0, 0;
        return false;
      }
      pData := fields[0].dataOffset;
      pSize := pData + fields[0].sizeOffset;
      return true;
    }

    /** Steps to the next field, or back to the first and reports false. */
    method Next() returns (more: bool)
      requires Valid()
      modifies this
      ensures Valid()
      ensures fields != [] ==> pos == (if old(pos) + 1 < |fields| then old(pos) + 1 else 0)
      ensures more == (old(pos) + 1 < |fields|)
    {
      if fields == [] {
        return false;
      }
      var prev := fields[pos];
      pos := pos + 1;
      if pos == |fields| {
        var _ := Begin();
        return false;
      }
      if prev.htype.OneOf? && fields[pos].htype.OneOf? && fields[pos].dataOffset == SIZE_MAX {
        return true;
      }
      var prevSize := prev.dataSize;
      if prev.atype.Static? && prev.htype.Repeated? {
        prevSize := prevSize * prev.arraySize;
      } else if prev.atype.Pointer? {
        prevSize := PTR_SIZE;
      }
      if prev.htype.Required? {
        requiredIndex := requiredIndex + 1;
      }
      pData := pData + prevSize + fields[pos].dataOffset;
      pSize := pData + fields[pos].sizeOffset;
      return true;
    }

    /** One lap at most: found iff some field answers to the tag, and back where it was otherwise. */
    method Find(tag: nat) returns (found: bool)
      requires Valid()
      modifies this
      ensures Valid()
      ensures fields != [] ==> (found <==> exists i: nat :: i < |fields| && Answers(fields, i, tag))
      ensures fields == [] ==> (found <==> tag == 0)
      ensures if found then Answers(fields, pos, tag) else pos == old(pos)
      ensures forall j: nat :: FirstFrom(fields, old(pos), j, pos) && Answers(fields, j, tag) ==> j == pos
    {
      var start := pos;
      ghost var steps := 0;
      while true
        invariant Valid()
        invariant fields == [] ==> steps == 0
        invariant fields != [] ==> 0 <= steps < |fields|
        invariant start + steps < |fields| ==> pos == start + steps
        invariant start + steps >= |fields| ==> pos == if fields == [] then 0 else start + steps - |fields|
        invariant forall j: nat | Passed(fields, start, steps, j) :: !Answers(fields, j, tag)
        decreases |fields| - steps
      {
        if (if pos < |fields| then fields[pos].tag == tag && !fields[pos].ltype.Extension? else tag == 0) {
          assert Answers(fields, pos, tag);
          return true;
        }
        var _ := Next();
        if pos == start {
          assert forall j: nat | j < |fields| && Passed(fields, start, steps, j) :: !Answers(fields, j, tag);
          return false;
        }
        steps := steps + 1;
      }
    }
  }

  /** `j` is among the first `steps` fields from `start` on, going round. */
  predicate Passed(fields: Fields, start: nat, steps: nat, j: nat) {
    j < |fields| && (start <= j < start + steps || j + |fields| < start + steps)
  }

  /** `j` is met no later than `pos`, starting at `start` and going round. */
  predicate FirstFrom(fields: Fields, start: nat, j: nat, pos: nat) {
    if start <= pos then start <= j <= pos else start <= j < |fields| || j <= pos
  }
}
