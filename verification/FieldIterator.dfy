/** The cyclic field iterator of nanopb and the addresses it derives. */
module FieldIterator {
  import opened Descriptors

  // ---- The address of a field is a function of its position.

  /** The bytes a field takes in the struct. */
  function FieldSize(f: Field): nat {
    if f.htype.Repeated? then f.dataSize * f.arraySize else f.dataSize
  }

  function DataAt(fields: seq<Field>, i: nat): nat
    requires i < |fields|
  {
    if i == 0 then fields[0].dataOffset
    else if SharesUnion(fields, i) then DataAt(fields, i - 1)
    else DataAt(fields, i - 1) + FieldSize(fields[i - 1]) + fields[i].dataOffset
  }

  function SizeAt(fields: seq<Field>, i: nat): int
    requires i < |fields|
  {
    if i > 0 && SharesUnion(fields, i) then SizeAt(fields, i - 1)
    else DataAt(fields, i) + fields[i].sizeOffset
  }

  /** No byte of the struct lies between the starts of two fields. */
  ghost predicate NothingBetween(fields: seq<Field>, i: nat, j: nat)
    requires i <= j < |fields|
    decreases j
  {
    i == j
    || (NothingBetween(fields, i, j - 1)
        && (SharesUnion(fields, j) || (FieldSize(fields[j - 1]) == 0 && fields[j].dataOffset == 0)))
  }

  lemma SlotOfNext(fields: seq<Field>, j: nat)
    requires 0 < j < |fields|
    ensures SlotOf(fields, j) == SlotOf(fields, j - 1) + if SharesUnion(fields, j) then 0 else 1
  {}

  /**
   * Addresses grow with slots, fields of one union have one address, and two fields have the same
   * address exactly when no byte lies between them.
   */
  lemma {:induction false} AddressesFollowSlots(fields: seq<Field>, i: nat, j: nat)
    requires i <= j < |fields|
    ensures SlotOf(fields, i) <= SlotOf(fields, j) && DataAt(fields, i) <= DataAt(fields, j)
    ensures SlotOf(fields, i) == SlotOf(fields, j) ==>
      DataAt(fields, i) == DataAt(fields, j) && SizeAt(fields, i) == SizeAt(fields, j)
    ensures DataAt(fields, i) == DataAt(fields, j) <==> NothingBetween(fields, i, j)
    decreases j - i
  {
    hide SlotOf, FieldSize;
    if i < j {
      SlotOfNext(fields, j);
      AddressesFollowSlots(fields, i, j - 1);
    }
  }

  /**
   * Distinct addresses, distinct slots: storing at an address is storing into a slot, unless fields
   * of no size, which only arrays of no entries have, lie between.
   */
  lemma {:induction false} AddressIdentifiesSlot(fields: seq<Field>, i: nat, j: nat)
    requires i <= j < |fields|
    requires forall k :: i <= k < j ==> FieldSize(fields[k]) > 0
    ensures DataAt(fields, i) == DataAt(fields, j) <==> SlotOf(fields, i) == SlotOf(fields, j)
    decreases j - i
  {
    hide SlotOf, FieldSize;
    AddressesFollowSlots(fields, i, j);
    if i < j {
      SlotOfNext(fields, j);
      AddressesFollowSlots(fields, i, j - 1);
      AddressIdentifiesSlot(fields, i, j - 1);
    }
  }

  /** `pb_field_iter_t`. With no fields `pos` stands on the terminator. */
  class FieldIter {
    const fields: seq<Field>
    const dest: nat
    var pos: nat
    var requiredIndex: nat
    var pData: int
    var pSize: int

    /** Everything but the position is determined by the position. */
    ghost predicate Valid()
      reads this
    {
      if fields == [] then pos == 0 && requiredIndex == 0
      else
        && pos < |fields|
        && requiredIndex == RequiredBefore(fields, pos)
        && pData == dest + DataAt(fields, pos)
        && pSize == dest + SizeAt(fields, pos)
    }

    /** `pb_field_iter_begin` */
    constructor (fields: seq<Field>, dest: nat)
      ensures Valid() && this.fields == fields && this.dest == dest && pos == 0
    {
      this.fields := fields;
      this.dest := dest;
      pos := 0;
      requiredIndex := 0;
      if |fields| > 0 {
        pData := dest + fields[0].dataOffset;
        pSize := dest + fields[0].dataOffset + fields[0].sizeOffset;
      } else {
        pData, pSize := dest, dest;
      }
    }

    /** `pb_field_iter_next`: false when it wrapped around. */
    method Next() returns (more: bool)
      requires Valid()
      modifies this
      ensures Valid()
      ensures more <==> old(pos) + 1 < |fields|
      ensures pos == if more then old(pos) + 1 else 0
    {
      if |fields| == 0 {
        return false;
      }
      var prev := fields[pos];
      pos := pos + 1;
      if pos == |fields| {
        // Wrapped back to the beginning: begin again.
        pos := 0;
        requiredIndex := 0;
        pData := dest + fields[0].dataOffset;
        pSize := pData + fields[0].sizeOffset;
        return false;
      }
      var prevSize := prev.dataSize;
      if prev.htype.Oneof? && fields[pos].htype.Oneof? && fields[pos].dataOffset == SIZE_MAX {
        // The pointers stay inside the union.
        return true;
      } else if prev.htype.Repeated? {
        prevSize := prevSize * prev.arraySize;
      }
      if prev.htype.Required? {
        requiredIndex := requiredIndex + 1;
      }
      pData := pData + prevSize + fields[pos].dataOffset;
      pSize := pData + fields[pos].sizeOffset;
      return true;
    }

    /** `pb_field_iter_find`: from any position, succeeds exactly when the tag exists. */
    method Find(tag: nat) returns (found: bool)
      requires Valid()
      modifies this
      ensures Valid()
      ensures fields == [] ==> (found <==> tag == 0)
      ensures fields != [] ==> (found <==> exists i :: 0 <= i < |fields| && fields[i].tag == tag)
      ensures found && fields != [] ==> fields[pos].tag == tag
      ensures !found ==> pos == old(pos)
    {
      var start := pos;
      if |fields| == 0 {
        return tag == 0;
      }
      ghost var wrapped := false;
      while true
        invariant Valid()
        invariant if wrapped then pos < start else start <= pos
        invariant forall i :: start <= i < (if wrapped then |fields| else pos) ==> fields[i].tag != tag
        invariant wrapped ==> forall i :: 0 <= i < pos ==> fields[i].tag != tag
        decreases !wrapped, |fields| - pos
      {
        if fields[pos].tag == tag {
          return true;
        }
        var more := Next();
        if !more {
          wrapped := true;
        }
        if pos == start {
          return false;
        }
      }
    }
  }
}
