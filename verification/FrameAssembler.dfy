/** From evdev events to records: what each emitted record must say, stated over the event stream
    alone. The bridge that computes it step by step is in Bridge.dfy. */
module FrameAssembler {
  import opened Words
  import opened Records
  import opened Sequences

  datatype Event = Event(time: U64, kind: nat, code: nat, value: Int32)

  const EV_SYN: nat := 0
  const EV_KEY: nat := 1
  const EV_REL: nat := 2
  const SYN_REPORT: nat := 0
  const SYN_DROPPED_CODE: nat := 3
  const REL_X: nat := 0
  const REL_Y: nat := 1
  const REL_HWHEEL: nat := 6
  const REL_WHEEL: nat := 8
  const REL_WHEEL_HI_RES: nat := 11
  const REL_HWHEEL_HI_RES: nat := 12

  /** hfior_button_bit_from_linux_code, with the Linux BTN_ codes; 0 for an unknown button. */
  function ButtonBit(code: nat): bv16
  {
    if code == 0x110 then 1          // BTN_LEFT
    else if code == 0x111 then 2     // BTN_RIGHT
    else if code == 0x112 then 4     // BTN_MIDDLE
    else if code == 0x113 then 8     // BTN_SIDE
    else if code == 0x114 then 16    // BTN_EXTRA
    else if code == 0x115 then 32    // BTN_FORWARD
    else if code == 0x116 then 64    // BTN_BACK
    else if code == 0x117 then 128   // BTN_TASK
    else if code == 0x108 then 256   // BTN_8
    else if code == 0x109 then 512   // BTN_9
    else 0
  }

  predicate IsReport(e: Event) {
    e.kind == EV_SYN && e.code == SYN_REPORT
  }

  predicate IsDropped(e: Event) {
    e.kind == EV_SYN && e.code == SYN_DROPPED_CODE
  }

  predicate IsRel(e: Event, code: nat) {
    e.kind == EV_REL && e.code == code
  }

  predicate IsKey(e: Event, code: nat) {
    e.kind == EV_KEY && e.code == code
  }

  // ---------- one frame ----------

  /** The sum of one relative axis over a frame. */
  function Sum(frame: seq<Event>, code: nat): int
  {
    if frame == [] then 0
    else
      var e := frame[|frame| - 1];
      Sum(frame[..|frame| - 1], code) + if IsRel(e, code) then e.value else 0
  }

  predicate Occurs(frame: seq<Event>, code: nat)
  {
    exists k :: 0 <= k < |frame| && IsRel(frame[k], code)
  }

  /** High-resolution scrolling replaces the low-resolution kind in any frame that has it. */
  function Scroll(frame: seq<Event>, low: nat, high: nat): int
  {
    if Occurs(frame, high) then Sum(frame, high) else Sum(frame, low)
  }

  function Put(b: bv16, m: bv16, down: bool): bv16 {
    if down then b | m else b & !m
  }

  function Press(buttons: bv16, e: Event): bv16
  {
    if e.kind != EV_KEY then buttons else Put(buttons, ButtonBit(e.code), e.value != 0)
  }

  function ButtonsAfter(initial: bv16, events: seq<Event>): bv16
  {
    if events == [] then initial
    else Press(ButtonsAfter(initial, events[..|events| - 1]), events[|events| - 1])
  }

  /** Some key event of the frame changed the bitmap it found. */
  predicate ButtonsMoved(initial: bv16, frame: seq<Event>)
  {
    exists k :: 0 <= k < |frame| && MovesAt(initial, frame, k)
  }

  predicate MovesAt(initial: bv16, frame: seq<Event>, k: nat)
    requires k < |frame|
  {
    Press(ButtonsAfter(initial, frame[..k]), frame[k]) != ButtonsAfter(initial, frame[..k])
  }

  predicate SawDrop(frame: seq<Event>)
  {
    exists k :: 0 <= k < |frame| && IsDropped(frame[k])
  }

  function Clamp(value: int, minimum: int, maximum: int): (r: int)
    requires minimum <= maximum
    ensures minimum <= r <= maximum
  {
    if value < minimum then minimum else if value > maximum then maximum else value
  }

  function Clamp32(value: int): Int32 {
    Clamp(value, -0x8000_0000, 0x7FFF_FFFF)
  }

  function Clamp16(value: int): Int16 {
    Clamp(value, -0x8000, 0x7FFF)
  }

  function Flag(flag: bv16, on: bool): bv16 {
    if on then flag else 0
  }

  function Raise(flags: bv16, flag: bv16, when: bool): bv16 {
    if when then Put(flags, flag, true) else flags
  }

  function FlagPair(button: bool, dropped: bool): bv16 {
    Flag(BUTTON, button) | Flag(SYN_DROPPED, dropped)
  }

  /** The flags the events of a frame set before it is completed. */
  function StickyFlags(initial: bv16, frame: seq<Event>): bv16
  {
    FlagPair(ButtonsMoved(initial, frame), SawDrop(frame))
  }

  /** The record of a frame that began with these buttons; numbered later. */
  function RecordOf(initial: bv16, frame: seq<Event>, timestamp: U64): Record
  {
    var dx := Clamp32(Sum(frame, REL_X));
    var dy := Clamp32(Sum(frame, REL_Y));
    var wheel := Clamp16(Scroll(frame, REL_WHEEL, REL_WHEEL_HI_RES));
    var hwheel := Clamp16(Scroll(frame, REL_HWHEEL, REL_HWHEEL_HI_RES));
    Record(0, timestamp, dx, dy, wheel, hwheel, ButtonsAfter(initial, frame),
           Raise(Raise(StickyFlags(initial, frame), MOTION, dx != 0 || dy != 0), WHEEL, wheel != 0 || hwheel != 0))
  }

  // ---------- the whole stream ----------

  /** The stream up to and including its last SYN_REPORT. */
  function Closed(stream: seq<Event>): seq<Event>
  {
    if stream == [] || IsReport(stream[|stream| - 1]) then stream else Closed(stream[..|stream| - 1])
  }

  /** The events since the last SYN_REPORT. */
  function Open(stream: seq<Event>): seq<Event>
  {
    if stream == [] || IsReport(stream[|stream| - 1]) then []
    else Open(stream[..|stream| - 1]) + [stream[|stream| - 1]]
  }

  function Reports(stream: seq<Event>): nat
  {
    if stream == [] then 0
    else Reports(stream[..|stream| - 1]) + if IsReport(stream[|stream| - 1]) then 1 else 0
  }

  /** The timestamp of a report: its own, or the clock when the event carries none. */
  function Stamp(e: Event, now: U64): U64
  {
    if e.time != 0 then e.time else now
  }

  /** The record a report closes, given the stream before it. */
  function Emission(initial: bv16, before: seq<Event>, timestamp: U64): Record
  {
    RecordOf(ButtonsAfter(initial, Closed(before)), Open(before), timestamp)
  }

  /** All records of a stream, one a report; clocks[k] is the time when event k was processed. */
  function Emitted(initial: bv16, stream: seq<Event>, clocks: seq<U64>): (records: seq<Record>)
    requires |clocks| == |stream|
  {
    if stream == [] then []
    else
      var n := |stream| - 1;
      var front := Emitted(initial, stream[..n], clocks[..n]);
      if IsReport(stream[n]) then front + [Emission(initial, stream[..n], Stamp(stream[n], clocks[n]))] else front
  }

  lemma {:induction false} OneRecordPerReport(initial: bv16, stream: seq<Event>, clocks: seq<U64>)
    requires |clocks| == |stream|
    ensures |Emitted(initial, stream, clocks)| == Reports(stream)
  {
    if stream != [] {
      var n := |stream| - 1;
      OneRecordPerReport(initial, stream[..n], clocks[..n]);
    }
  }

  lemma {:induction false} ClosedThenOpen(stream: seq<Event>)
    ensures Closed(stream) + Open(stream) == stream
  {
    if stream != [] && !IsReport(stream[|stream| - 1]) {
      ClosedThenOpen(stream[..|stream| - 1]);
    }
  }

  lemma {:induction false} ButtonsCompose(initial: bv16, a: seq<Event>, b: seq<Event>)
    ensures ButtonsAfter(initial, a + b) == ButtonsAfter(ButtonsAfter(initial, a), b)
    decreases |b|
  {
    if b == [] {
      assert a + b == a;
    } else {
      assert (a + b)[..|a + b| - 1] == a + b[..|b| - 1];
      ButtonsCompose(initial, a, b[..|b| - 1]);
    }
  }

  /** Buttons are never forgotten across frames: the record closed after `before` carries the
      bitmap produced by every key event of the whole stream so far. */
  lemma EmissionButtons(initial: bv16, before: seq<Event>, timestamp: U64)
    ensures Emission(initial, before, timestamp).buttons == ButtonsAfter(initial, before)
  {
    ClosedThenOpen(before);
    ButtonsCompose(initial, Closed(before), Open(before));
  }

  // ---------- buttons ----------

  /** Whether the last event for this button left it down. */
  function LastKey(events: seq<Event>, code: nat, initially: bool): bool
  {
    if events == [] then initially
    else
      var e := events[|events| - 1];
      if IsKey(e, code) then e.value != 0 else LastKey(events[..|events| - 1], code, initially)
  }

  lemma BitsDisjoint(c: nat, d: nat)
    requires c != d
    ensures ButtonBit(c) & ButtonBit(d) == 0
  {
  }

  /** The bit of this button is set. */
  predicate IsDown(buttons: bv16, code: nat) {
    HasBit(buttons, ButtonBit(code))
  }

  predicate HasBit(b: bv16, m: bv16) {
    b & m != 0
  }

  lemma PutOther(b: bv16, m: bv16, n: bv16, down: bool)
    requires m & n == 0
    ensures HasBit(Put(b, m, down), n) == HasBit(b, n)
  {
  }

  lemma PutOwn(b: bv16, m: bv16, down: bool)
    requires m != 0
    ensures HasBit(Put(b, m, down), m) == down
  {
  }

  lemma PressBit(b: bv16, e: Event, code: nat)
    requires ButtonBit(code) != 0
    ensures IsDown(Press(b, e), code) == if IsKey(e, code) then e.value != 0 else IsDown(b, code)
  {
    hide ButtonBit, Put, HasBit;
    if e.kind == EV_KEY {
      if e.code == code {
        PutOwn(b, ButtonBit(code), e.value != 0);
      } else {
        BitsDisjoint(e.code, code);
        PutOther(b, ButtonBit(e.code), ButtonBit(code), e.value != 0);
      }
    }
  }

  /** Each known button's bit is down exactly if the last event for it was a press, or, with no
      event for it, exactly if it was down initially. */
  lemma {:induction false} BitIsLastWriter(initial: bv16, events: seq<Event>, code: nat)
    requires ButtonBit(code) != 0
    ensures IsDown(ButtonsAfter(initial, events), code) == LastKey(events, code, IsDown(initial, code))
  {
    hide ButtonBit, Press, IsDown;
    if events != [] {
      var n := |events| - 1;
      BitIsLastWriter(initial, events[..n], code);
      PressBit(ButtonsAfter(initial, events[..n]), events[n], code);
    }
  }

  /** Without a changing key event a frame leaves the bitmap as it found it. */
  lemma {:induction false} UnmovedButtons(initial: bv16, frame: seq<Event>)
    requires !ButtonsMoved(initial, frame)
    ensures ButtonsAfter(initial, frame) == initial
  {
    if frame != [] {
      var n := |frame| - 1;
      forall k | 0 <= k < n ensures !MovesAt(initial, frame[..n], k) {
        assert frame[..n][..k] == frame[..k];
        assert !MovesAt(initial, frame, k);
      }
      assert !MovesAt(initial, frame, n);
      UnmovedButtons(initial, frame[..n]);
    }
  }

  // ---------- flags ----------

  lemma FlagsAreExact(initial: bv16, frame: seq<Event>, timestamp: U64)
    ensures var r := RecordOf(initial, frame, timestamp);
      && (r.flags & 1 != 0 <==> r.dx != 0 || r.dy != 0)
      && (r.flags & 2 != 0 <==> ButtonsMoved(initial, frame))
      && (r.flags & 2 != 0 <==>
            exists k :: 0 <= k < |frame| && ButtonsAfter(initial, frame[..k + 1]) != ButtonsAfter(initial, frame[..k]))
      && (r.flags & 4 != 0 <==> r.wheel != 0 || r.hwheel != 0)
      && (r.flags & 8 != 0 <==> exists k :: 0 <= k < |frame| && frame[k].kind == 0 && frame[k].code == 3)
      && (r.dx != 0 || r.dy != 0 <==> Sum(frame, REL_X) != 0 || Sum(frame, REL_Y) != 0)
  {
    var r := RecordOf(initial, frame, timestamp);
    MovedIsChange(initial, frame);
    FourFlags(ButtonsMoved(initial, frame), SawDrop(frame), r.dx != 0 || r.dy != 0, r.wheel != 0 || r.hwheel != 0);
  }

  lemma MovedIsChange(initial: bv16, frame: seq<Event>)
    ensures ButtonsMoved(initial, frame) <==>
      exists k :: 0 <= k < |frame| && ButtonsAfter(initial, frame[..k + 1]) != ButtonsAfter(initial, frame[..k])
  {
    forall k | 0 <= k < |frame|
      ensures ButtonsAfter(initial, frame[..k + 1]) == Press(ButtonsAfter(initial, frame[..k]), frame[k])
    {
      assert frame[..k + 1][..k] == frame[..k];
    }
    hide ButtonsAfter, Press;
    if ButtonsMoved(initial, frame) {
      var k :| 0 <= k < |frame| && MovesAt(initial, frame, k);
      assert ButtonsAfter(initial, frame[..k + 1]) != ButtonsAfter(initial, frame[..k]);
    }
    if k :| 0 <= k < |frame| && ButtonsAfter(initial, frame[..k + 1]) != ButtonsAfter(initial, frame[..k]) {
      assert MovesAt(initial, frame, k);
    }
  }

  lemma FourFlags(b: bool, d: bool, m: bool, w: bool)
    ensures var f := Raise(Raise(FlagPair(b, d), MOTION, m), WHEEL, w);
      && (f & MOTION != 0 <==> m) && (f & WHEEL != 0 <==> w)
      && (f & BUTTON != 0 <==> b) && (f & SYN_DROPPED != 0 <==> d)
  {
  }

  /** For any stream: record k carries its BUTTON flag exactly when a key event of its frame changed
      the bitmap, and without the flag it repeats the previous record's bitmap (the initial one for
      the first record). */
  lemma {:induction false} QuietRecordsRepeatButtons(initial: bv16, stream: seq<Event>, clocks: seq<U64>, k: nat)
    requires |clocks| == |stream| && k < |Emitted(initial, stream, clocks)|
    ensures var out := Emitted(initial, stream, clocks);
      !HasFlag(out[k], BUTTON) ==> out[k].buttons == if k == 0 then initial else out[k - 1].buttons
    decreases |stream|
  {
    hide RecordOf, ButtonsAfter, ButtonsMoved, Closed, Open;
    var n := |stream| - 1;
    var front := Emitted(initial, stream[..n], clocks[..n]);
    if k < |front| {
      QuietRecordsRepeatButtons(initial, stream[..n], clocks[..n], k);
    } else {
      var before := stream[..n];
      var start := ButtonsAfter(initial, Closed(before));
      FlagsAreExact(start, Open(before), Stamp(stream[n], clocks[n]));
      RecordButtons(start, Open(before), Stamp(stream[n], clocks[n]));
      LastRecordButtons(initial, before, clocks[..n]);
      if !ButtonsMoved(start, Open(before)) {
        UnmovedButtons(start, Open(before));
      }
    }
  }

  lemma RecordButtons(initial: bv16, frame: seq<Event>, timestamp: U64)
    ensures RecordOf(initial, frame, timestamp).buttons == ButtonsAfter(initial, frame)
  {
  }

  /** The bitmap at the last SYN_REPORT is that of the last record. */
  lemma {:induction false} LastRecordButtons(initial: bv16, stream: seq<Event>, clocks: seq<U64>)
    requires |clocks| == |stream|
    ensures var out := Emitted(initial, stream, clocks);
      ButtonsAfter(initial, Closed(stream)) == if out == [] then initial else out[|out| - 1].buttons
    decreases |stream|
  {
    if stream != [] {
      var n := |stream| - 1;
      if IsReport(stream[n]) {
        EmissionButtons(initial, stream[..n], Stamp(stream[n], clocks[n]));
      } else {
        LastRecordButtons(initial, stream[..n], clocks[..n]);
      }
    }
  }

  // ---------- sums do not depend on order ----------

  lemma {:induction false} SumOfConcat(a: seq<Event>, b: seq<Event>, code: nat)
    ensures Sum(a + b, code) == Sum(a, code) + Sum(b, code)
    decreases |b|
  {
    if b == [] {
      assert a + b == a;
    } else {
      assert (a + b)[..|a + b| - 1] == a + b[..|b| - 1];
      SumOfConcat(a, b[..|b| - 1], code);
    }
  }

  lemma {:induction false} SumIgnoresOrder(f: seq<Event>, g: seq<Event>, code: nat)
    requires multiset(f) == multiset(g)
    ensures Sum(f, code) == Sum(g, code)
    decreases |f|
  {
    if f == [] {
      assert |multiset(g)| == 0;
      assert g == [];
    } else {
      var e := f[|f| - 1];
      assert f == f[..|f| - 1] + [e];
      assert e in multiset(g);
      var k :| 0 <= k < |g| && g[k] == e;
      Without(f, |f| - 1);
      Without(g, k);
      assert f[..|f| - 1] + f[|f| - 1 + 1..] == f[..|f| - 1];
      hide Sum;
      SumIgnoresOrder(f[..|f| - 1], g[..k] + g[k + 1..], code);
      SumWithout(g, k, code);
      LastOfSum(f, code);
    }
  }

  lemma LastOfSum(f: seq<Event>, code: nat)
    requires f != []
    ensures Sum(f, code) == Sum(f[..|f| - 1], code) + if IsRel(f[|f| - 1], code) then f[|f| - 1].value else 0
  {
  }

  lemma SumWithout(g: seq<Event>, k: nat, code: nat)
    requires k < |g|
    ensures Sum(g, code) == Sum(g[..k] + g[k + 1..], code) + if IsRel(g[k], code) then g[k].value else 0
  {
    SumOfConcat(g[..k], g[k + 1..], code);
    SumOfConcat(g[..k + 1], g[k + 1..], code);
    LastOfSum(g[..k + 1], code);
    assert g == g[..k + 1] + g[k + 1..] && g[..k + 1][..k] == g[..k];
  }

  lemma OccursIgnoresOrder(f: seq<Event>, g: seq<Event>, code: nat)
    requires multiset(f) == multiset(g) && Occurs(f, code)
    ensures Occurs(g, code)
  {
    var k :| 0 <= k < |f| && IsRel(f[k], code);
    assert f[k] in multiset(g);
    var j :| 0 <= j < |g| && g[j] == f[k];
    assert IsRel(g[j], code);
  }

  /** The motion and scroll of a record do not depend on the order of its frame's events; in
      particular a high-resolution event overrides low-resolution ones before and after it. */
  lemma MotionIgnoresOrder(initial: bv16, f: seq<Event>, g: seq<Event>, timestamp: U64)
    requires multiset(f) == multiset(g)
    ensures var r, s := RecordOf(initial, f, timestamp), RecordOf(initial, g, timestamp);
      r.dx == s.dx && r.dy == s.dy && r.wheel == s.wheel && r.hwheel == s.hwheel
  {
    SumIgnoresOrder(f, g, REL_X);
    SumIgnoresOrder(f, g, REL_Y);
    ScrollIgnoresOrder(f, g, REL_WHEEL, REL_WHEEL_HI_RES);
    ScrollIgnoresOrder(f, g, REL_HWHEEL, REL_HWHEEL_HI_RES);
  }

  lemma ScrollIgnoresOrder(f: seq<Event>, g: seq<Event>, low: nat, high: nat)
    requires multiset(f) == multiset(g)
    ensures Scroll(f, low, high) == Scroll(g, low, high)
  {
    SumIgnoresOrder(f, g, low);
    SumIgnoresOrder(f, g, high);
    if Occurs(f, high) { OccursIgnoresOrder(f, g, high); }
    if Occurs(g, high) { OccursIgnoresOrder(g, f, high); }
  }

  /** An accumulator stays inside a signed 64-bit integer for frames of fewer than 2^32 events. */
  lemma {:induction false} SumFitsInt64(frame: seq<Event>, code: nat)
    ensures -0x8000_0000 * |frame| <= Sum(frame, code) <= 0x7FFF_FFFF * |frame|
    ensures |frame| < 0x1_0000_0000 ==> -0x8000_0000_0000_0000 <= Sum(frame, code) <= 0x7FFF_FFFF_FFFF_FFFF
  {
    if frame != [] {
      SumFitsInt64(frame[..|frame| - 1], code);
    }
  }

  // ---------- one event more ----------

  lemma SumMore(frame: seq<Event>, e: Event, code: nat)
    ensures Sum(frame + [e], code) == Sum(frame, code) + if IsRel(e, code) then e.value else 0
  {
    assert (frame + [e])[..|frame|] == frame;
  }

  lemma OccursMore(frame: seq<Event>, e: Event, code: nat)
    ensures Occurs(frame + [e], code) == (Occurs(frame, code) || IsRel(e, code))
  {
    var more := frame + [e];
    if k :| 0 <= k < |frame| && IsRel(frame[k], code) { assert IsRel(more[k], code); }
    if IsRel(e, code) { assert IsRel(more[|frame|], code); }
  }

  lemma {:induction false} NoneSumsToZero(frame: seq<Event>, code: nat)
    requires !Occurs(frame, code)
    ensures Sum(frame, code) == 0
  {
    if frame != [] {
      var n := |frame| - 1;
      assert !IsRel(frame[n], code);
      forall k | 0 <= k < n ensures !IsRel(frame[..n][k], code) { assert frame[..n][k] == frame[k]; }
      NoneSumsToZero(frame[..n], code);
    }
  }
}
