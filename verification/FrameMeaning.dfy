/** What an emitted record says, told over the events themselves: running totals, the effect of one more
    event, the kernel's event codes and the button bits as numbers. */
module FrameMeaning {
  import opened Words
  import opened Records
  import opened FrameAssembler

  // ---------- a record is a clamped running total ----------

  /** totals[k] has added up, over the first k events, the values of the relative events of this code. */
  predicate RunningTotal(frame: seq<Event>, code: nat, totals: seq<int>)
  {
    && |totals| == |frame| + 1 && totals[0] == 0
    && forall k :: 0 <= k < |frame| ==>
         totals[k + 1] == totals[k] + if frame[k].kind == 2 && frame[k].code == code then frame[k].value else 0
  }

  /** v is x, or the bound that x has passed. */
  predicate Bounds(v: int, x: int, low: int, high: int)
  {
    v == if x < low then low else if x > high then high else x
  }

  predicate Has(frame: seq<Event>, code: nat)
  {
    exists k :: 0 <= k < |frame| && frame[k].kind == 2 && frame[k].code == code
  }

  lemma {:induction false} SumIsTotal(frame: seq<Event>, code: nat, totals: seq<int>)
    requires RunningTotal(frame, code, totals)
    ensures Sum(frame, code) == totals[|frame|]
  {
    if frame != [] {
      SumIsTotal(frame[..|frame| - 1], code, totals[..|frame|]);
    }
  }

  /** Horizontal and vertical motion are the totals of the events of code 0 and 1, held to 32 bits; each
      wheel is, held to 16 bits, the total of its high-resolution events (11, 12) in a frame that has
      any, and else that of its low-resolution ones (8, 6). */
  lemma RecordIsRunningTotals(initial: bv16, frame: seq<Event>, timestamp: U64, x: seq<int>, y: seq<int>,
                              wheel: seq<int>, fineWheel: seq<int>, hwheel: seq<int>, fineHwheel: seq<int>)
    requires RunningTotal(frame, 0, x) && RunningTotal(frame, 1, y)
    requires RunningTotal(frame, 8, wheel) && RunningTotal(frame, 11, fineWheel)
    requires RunningTotal(frame, 6, hwheel) && RunningTotal(frame, 12, fineHwheel)
    ensures var r, n := RecordOf(initial, frame, timestamp), |frame|;
      && Bounds(r.dx, x[n], -0x8000_0000, 0x7FFF_FFFF) && Bounds(r.dy, y[n], -0x8000_0000, 0x7FFF_FFFF)
      && Bounds(r.wheel, if Has(frame, 11) then fineWheel[n] else wheel[n], -0x8000, 0x7FFF)
      && Bounds(r.hwheel, if Has(frame, 12) then fineHwheel[n] else hwheel[n], -0x8000, 0x7FFF)
  {
    SumIsTotal(frame, 0, x);
    SumIsTotal(frame, 1, y);
    SumIsTotal(frame, 8, wheel);
    SumIsTotal(frame, 11, fineWheel);
    SumIsTotal(frame, 6, hwheel);
    SumIsTotal(frame, 12, fineHwheel);
    HasIsOccurs(frame, 11);
    HasIsOccurs(frame, 12);
    hide Sum, Occurs, Has, StickyFlags, ButtonsAfter, Raise, RunningTotal;
  }

  lemma HasIsOccurs(frame: seq<Event>, code: nat)
    ensures Has(frame, code) == Occurs(frame, code)
  {
    if k :| 0 <= k < |frame| && frame[k].kind == 2 && frame[k].code == code { assert IsRel(frame[k], code); }
    if k :| 0 <= k < |frame| && IsRel(frame[k], code) { assert frame[k].kind == 2; }
  }

  // ---------- one more event ----------

  predicate Inside(v: int, low: int, high: int)
  {
    low < v < high
  }

  /** How one more event changes the motion of the record the open frame would yield, as long as the
      value it changes is inside its range. */
  lemma OneMoreMotion(initial: bv16, frame: seq<Event>, e: Event, timestamp: U64)
    ensures var r, s := RecordOf(initial, frame, timestamp), RecordOf(initial, frame + [e], timestamp);
      && (e.kind == 2 && e.code == 0 && Inside(r.dx, -0x8000_0000, 0x7FFF_FFFF) ==>
            Bounds(s.dx, r.dx + e.value, -0x8000_0000, 0x7FFF_FFFF))
      && (e.kind == 2 && e.code == 1 && Inside(r.dy, -0x8000_0000, 0x7FFF_FFFF) ==>
            Bounds(s.dy, r.dy + e.value, -0x8000_0000, 0x7FFF_FFFF))
      && (!(e.kind == 2 && e.code == 0) ==> s.dx == r.dx) && (!(e.kind == 2 && e.code == 1) ==> s.dy == r.dy)
  {
    SumMore(frame, e, 0);
    SumMore(frame, e, 1);
    assert IsRel(e, 0) == (e.kind == 2 && e.code == 0) && IsRel(e, 1) == (e.kind == 2 && e.code == 1);
    hide Sum, Occurs, Scroll, StickyFlags, ButtonsAfter, Raise;
  }

  /** The same for the wheels: low-resolution events count only in a frame without high-resolution ones,
      and the first high-resolution event replaces what was there. */
  lemma OneMoreScroll(initial: bv16, frame: seq<Event>, e: Event, timestamp: U64)
    ensures var r, s := RecordOf(initial, frame, timestamp), RecordOf(initial, frame + [e], timestamp);
      && Scrolled(frame, e, 8, 11, r.wheel, s.wheel) && Scrolled(frame, e, 6, 12, r.hwheel, s.hwheel)
  {
    ScrollStep(frame, e, 8, 11);
    ScrollStep(frame, e, 6, 12);
    hide Sum, Occurs, Scroll, StickyFlags, ButtonsAfter, Raise, Has;
  }

  predicate Scrolled(frame: seq<Event>, e: Event, low: nat, high: nat, before: int, after: int)
  {
    if e.kind == 2 && e.code == high then
      if Has(frame, high) then Inside(before, -0x8000, 0x7FFF) ==> Bounds(after, before + e.value, -0x8000, 0x7FFF)
      else Bounds(after, e.value, -0x8000, 0x7FFF)
    else if e.kind == 2 && e.code == low && !Has(frame, high) then
      Inside(before, -0x8000, 0x7FFF) ==> Bounds(after, before + e.value, -0x8000, 0x7FFF)
    else after == before
  }

  lemma ScrollStep(frame: seq<Event>, e: Event, low: nat, high: nat)
    requires low != high
    ensures Scrolled(frame, e, low, high, Clamp16(Scroll(frame, low, high)), Clamp16(Scroll(frame + [e], low, high)))
  {
    SumMore(frame, e, low);
    SumMore(frame, e, high);
    OccursMore(frame, e, high);
    HasIsOccurs(frame, high);
    if !Has(frame, high) { NoneSumsToZero(frame, high); }
    hide Sum, Occurs, Has;
  }

  /** A frame without events yields no motion, the buttons it found, and no flag. */
  lemma EmptyFrame(initial: bv16, timestamp: U64)
    ensures RecordOf(initial, [], timestamp) == Record(0, timestamp, 0, 0, 0, 0, initial, 0)
  {
    assert !Occurs([], 11) && !Occurs([], 12);
  }

  // ---------- codes and bits ----------

  /** The kernel's event types and codes. */
  lemma EvdevCodes(e: Event, code: nat)
    ensures IsReport(e) <==> e.kind == 0 && e.code == 0
    ensures IsDropped(e) <==> e.kind == 0 && e.code == 3
    ensures IsKey(e, code) <==> e.kind == 1 && e.code == code
    ensures IsRel(e, code) <==> e.kind == 2 && e.code == code
  {
  }

  /** Bit 0 is the left button, and each of the next seven codes has the next bit; then come buttons 8
      and 9. No other code has a bit. */
  lemma ButtonBits(code: nat)
    ensures ButtonBit(0x110) == 1 && ButtonBit(0x108) == 0x100 && ButtonBit(0x109) == 0x200
    ensures 0x110 <= code < 0x117 ==> ButtonBit(code + 1) == ButtonBit(code) << 1
    ensures !(0x110 <= code <= 0x117) && code != 0x108 && code != 0x109 ==> ButtonBit(code) == 0
  {
  }

  /** The record a report emits carries the report's own time, or the clock if it has none. */
  lemma EmissionTime(initial: bv16, stream: seq<Event>, clocks: seq<U64>)
    requires |clocks| == |stream| && stream != [] && IsReport(stream[|stream| - 1])
    ensures var n, out := |stream| - 1, Emitted(initial, stream, clocks);
      out != [] && out[|out| - 1].timestamp == if stream[n].time != 0 then stream[n].time else clocks[n]
  {
    hide ButtonsAfter, StickyFlags, Scroll, Sum, Closed, Open;
  }
}
