/** The 32-byte record of one evdev frame, and its flag bits. */
module Records {
  import opened Words

  type Int32 = x: int | -0x8000_0000 <= x < 0x8000_0000
  type Int16 = x: int | -0x8000 <= x < 0x8000

  datatype Record = Record(
    sequence: U64,
    timestamp: U64,
    dx: Int32,
    dy: Int32,
    wheel: Int16,
    hwheel: Int16,
    buttons: bv16,
    flags: bv16)

  const MOTION: bv16 := 1
  const BUTTON: bv16 := 2
  const WHEEL: bv16 := 4
  const SYN_DROPPED: bv16 := 8
  const TERMINATE: bv16 := 128

  predicate HasFlag(r: Record, flag: bv16)
  {
    r.flags & flag != 0
  }

  /** How many of the records carry any of these flags. */
  function FlagCount(records: seq<Record>, flags: bv16): nat
  {
    if records == [] then 0
    else FlagCount(records[..|records| - 1], flags) + if HasFlag(records[|records| - 1], flags) then 1 else 0
  }

  lemma FlagCountMore(records: seq<Record>, r: Record, flags: bv16)
    ensures FlagCount(records + [r], flags) == FlagCount(records, flags) + if r.flags & flags != 0 then 1 else 0
  {
    assert (records + [r])[..|records|] == records;
  }

  lemma {:induction false} FlagCountConcat(a: seq<Record>, b: seq<Record>, flags: bv16)
    ensures FlagCount(a + b, flags) == FlagCount(a, flags) + FlagCount(b, flags)
    decreases |b|
  {
    if b == [] {
      assert a + b == a;
    } else {
      assert (a + b)[..|a + b| - 1] == a + b[..|b| - 1];
      FlagCountConcat(a, b[..|b| - 1], flags);
    }
  }
}
