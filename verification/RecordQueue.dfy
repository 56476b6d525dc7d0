/** The growable queue of records waiting for the frame thread. */
module RecordQueue {
  import opened Words
  import opened Records

  const INITIAL_CAPACITY: nat := 4096
  const SIZE_MAX: nat := 0xFFFF_FFFF_FFFF_FFFF

  /** The first of start, 2 * start, 4 * start, ... to reach what is wanted. */
  ghost predicate Doubled(start: nat, wanted: nat, capacity: nat)
  {
    && wanted <= capacity && (capacity == start || capacity < 2 * wanted)
    && exists k: nat :: capacity == start * Pow2(k)
  }

  class Queue {
    var records: array<Record>
    var length: nat

    ghost predicate Valid()
      reads this
    {
      length <= records.Length
    }

    function Contents(): seq<Record>
      reads this, records
      requires Valid()
    {
      records[..length]
    }

    constructor ()
      ensures Valid() && Contents() == [] && fresh(records)
    {
      records := new Record[0];
      length := 0;
    }

    /** queue_reserve_locked: doubling from 4096. It gives up only when doubling once more would
        leave size_t. */
    method Reserve(wanted: nat) returns (ok: bool)
      requires Valid()
      modifies this`records
      ensures Valid() && Contents() == old(Contents())
      ensures records == old(records) || fresh(records)
      ensures ok ==> wanted <= records.Length
      ensures ok && wanted <= old(records.Length) ==> records == old(records)
      ensures ok && wanted > old(records.Length) ==>
        Doubled(if old(records.Length) != 0 then old(records.Length) else INITIAL_CAPACITY, wanted, records.Length)
      ensures !ok ==> wanted > SIZE_MAX / 2 && records == old(records)
    {
      if wanted <= records.Length {
        return true;
      }
      var capacity := if records.Length != 0 then records.Length else INITIAL_CAPACITY;
      ghost var start, k: nat := capacity, 0;
      assert capacity == start * Pow2(0);
      while capacity < wanted
        invariant capacity > 0 && capacity == start * Pow2(k) && (k > 0 ==> capacity < 2 * wanted)
        decreases wanted - capacity
      {
        if capacity > SIZE_MAX / 2 {
          return false;
        }
        assert start * Pow2(k + 1) == 2 * (start * Pow2(k));
        capacity, k := capacity * 2, k + 1;
      }
      assert Doubled(start, wanted, capacity);
      Move(capacity);
      return true;
    }

    method Move(capacity: nat)
      requires Valid() && length <= capacity
      modifies this`records
      ensures Valid() && Contents() == old(Contents()) && fresh(records) && records.Length == capacity
    {
      var data := new Record[capacity](_ => Record(0, 0, 0, 0, 0, 0, 0, 0));
      CopyInto(data);
      records := data;
    }

    method CopyInto(data: array<Record>)
      requires Valid() && length <= data.Length && data != records
      modifies data
      ensures data[..length] == Contents()
    {
      var i := 0;
      while i < length
        invariant 0 <= i <= length
        invariant data[..i] == records[..i]
      {
        data[i] := records[i];
        i := i + 1;
      }
    }

    /** queue_push: append count records; nothing else moves. */
    method Push(source: array<Record>, count: nat) returns (ok: bool)
      requires Valid() && count <= source.Length && source != records
      modifies this, records
      ensures Valid() && (records == old(records) || fresh(records))
      ensures ok ==> Contents() == old(Contents() + source[..count])
      ensures !ok ==> Contents() == old(Contents()) && old(length) + count > SIZE_MAX / 2
      ensures source[..] == old(source[..])
    {
      if count == 0 {
        assert Contents() == old(Contents() + source[..count]);
        return true;
      }
      ok := Reserve(length + count);
      if ok {
        Append(source, count);
      }
    }

    method Append(source: array<Record>, count: nat)
      requires Valid() && length + count <= records.Length
      requires count <= source.Length && source != records
      modifies this`length, records
      ensures Valid() && records == old(records)
      ensures Contents() == old(Contents()) + source[..count]
    {
      var i := 0;
      while i < count
        invariant 0 <= i <= count
        invariant length == old(length) && records[..length] == old(Contents())
        invariant records[length..length + i] == source[..i]
      {
        records[length + i] := source[i];
        i := i + 1;
      }
      length := length + count;
      assert records[..length] == records[..old(length)] + records[old(length)..length];
    }

    /** queue_take_all: hand over everything queued, in order, and leave the queue empty. */
    method TakeAll() returns (taken: array<Record>)
      requires Valid()
      modifies this`length
      ensures Valid() && fresh(taken) && records == old(records)
      ensures taken[..] == old(Contents()) && Contents() == []
    {
      taken := new Record[length](_ => Record(0, 0, 0, 0, 0, 0, 0, 0));
      CopyInto(taken);
      length := 0;
    }
  }
}
