/** The bridge's frame accumulator, updated event by event, and the publication of its records. */
module Bridge {
  import opened Words
  import opened Records
  import opened FrameAssembler
  import Ring

  const DEVICE_GONE: bv16 := 16
  const OVERFLOW: bv16 := 64

  /** Records whose publication wakes the client at once. */
  predicate IsUrgent(r: Record)
  {
    r.flags & (BUTTON | SYN_DROPPED | DEVICE_GONE | OVERFLOW) != 0
  }

  /** Urgent are the records flagged button, dropped events, device gone or overflow. */
  lemma UrgentMeans(r: Record)
    ensures IsUrgent(r) <==> r.flags & 2 != 0 || r.flags & 8 != 0 || r.flags & 16 != 0 || r.flags & 64 != 0
    ensures IsUrgent(r) <==> HasFlag(r, 0x5A)
  {
  }

  class Accumulator {
    var dx: int
    var dy: int
    var wheel: int
    var hwheel: int
    var buttons: bv16
    var flags: bv16
    var wheelHiresSeen: bool
    var hwheelHiresSeen: bool

    ghost var start: bv16          // the bitmap when the frame began
    ghost var frame: seq<Event>    // its events so far

    /** Every field is what the events of the open frame say it is. */
    ghost predicate Valid()
      reads this
    {
      && Motion() && Scrolling()
      && buttons == ButtonsAfter(start, frame) && flags == StickyFlags(start, frame)
    }

    ghost predicate Motion()
      reads this
    {
      dx == Sum(frame, REL_X) && dy == Sum(frame, REL_Y)
    }

    ghost predicate Scrolling()
      reads this
    {
      && wheelHiresSeen == Occurs(frame, REL_WHEEL_HI_RES)
      && hwheelHiresSeen == Occurs(frame, REL_HWHEEL_HI_RES)
      && wheel == Scroll(frame, REL_WHEEL, REL_WHEEL_HI_RES)
      && hwheel == Scroll(frame, REL_HWHEEL, REL_HWHEEL_HI_RES)
    }

    constructor (initial: bv16)
      ensures Valid() && frame == [] && start == initial
    {
      dx, dy, wheel, hwheel := 0, 0, 0, 0;
      buttons, flags := initial, 0;
      wheelHiresSeen, hwheelHiresSeen := false, false;
      start, frame := initial, [];
    }

    /** The EV_REL branch of process_input_event. */
    method Relative(e: Event)
      requires Motion() && Scrolling() && e.kind == EV_REL
      modifies this`dx, this`dy, this`wheel, this`hwheel, this`wheelHiresSeen, this`hwheelHiresSeen, this`frame
      ensures frame == old(frame) + [e] && Motion() && Scrolling()
    {
      hide Sum, Occurs, Scroll;
      if e.code == REL_X {
        dx := dx + e.value;
      } else if e.code == REL_Y {
        dy := dy + e.value;
      } else if e.code == REL_WHEEL {
        if !wheelHiresSeen {
          wheel := wheel + e.value;
        }
      } else if e.code == REL_WHEEL_HI_RES {
        if !wheelHiresSeen {
          wheel := 0;
        }
        wheelHiresSeen := true;
        wheel := wheel + e.value;
      } else if e.code == REL_HWHEEL {
        if !hwheelHiresSeen {
          hwheel := hwheel + e.value;
        }
      } else if e.code == REL_HWHEEL_HI_RES {
        if !hwheelHiresSeen {
          hwheel := 0;
        }
        hwheelHiresSeen := true;
        hwheel := hwheel + e.value;
      }
      SumMore(frame, e, REL_X);
      SumMore(frame, e, REL_Y);
      ScrollMore(frame, e, REL_WHEEL, REL_WHEEL_HI_RES);
      ScrollMore(frame, e, REL_HWHEEL, REL_HWHEEL_HI_RES);
      frame := frame + [e];
    }

    /** The EV_KEY branch. */
    method Key(e: Event)
      requires buttons == ButtonsAfter(start, frame) && flags == StickyFlags(start, frame) && e.kind == EV_KEY
      modifies this`buttons, this`flags, this`frame
      ensures frame == old(frame) + [e]
      ensures buttons == ButtonsAfter(start, frame) && flags == StickyFlags(start, frame)
    {
      hide ButtonBit, StickyFlags, ButtonsAfter, Put;
      StickyMore(start, frame, e);
      var bit := ButtonBit(e.code);
      if bit != 0 {
        var oldButtons := buttons;
        if e.value != 0 {
          buttons := Put(buttons, bit, true);
        } else {
          buttons := Put(buttons, bit, false);
        }
        if buttons != oldButtons {
          flags := Put(flags, BUTTON, true);
        }
      } else {
        UnknownKey(buttons, e);
      }
      frame := frame + [e];
    }

    /** SYN_DROPPED sticks to the open frame; events of other kinds leave it alone. */
    method Other(e: Event)
      requires Valid() && e.kind != EV_REL && e.kind != EV_KEY && !IsReport(e)
      modifies this`flags, this`frame
      ensures Valid() && frame == old(frame) + [e]
    {
      hide Sum, Occurs, Scroll, ButtonsAfter, StickyFlags, Put;
      NothingMoves(frame, e);
      StickyMore(start, frame, e);
      if e.kind == EV_SYN && e.code == SYN_DROPPED_CODE {
        flags := Put(flags, SYN_DROPPED, true);
      }
      frame := frame + [e];
    }

    /** complete_frame up to publication: clamp, flag, and start the next frame with the bitmap kept. */
    method Complete(timestamp: U64) returns (record: Record)
      requires Valid()
      modifies this
      ensures record == RecordOf(old(start), old(frame), timestamp)
      ensures Valid() && frame == [] && start == ButtonsAfter(old(start), old(frame))
    {
      hide StickyFlags, Put, Scroll, Sum, Clamp32, Clamp16, ButtonsAfter;
      var x, y := Clamp32(dx), Clamp32(dy);
      var w, h := Clamp16(wheel), Clamp16(hwheel);
      var completed := flags;
      if x != 0 || y != 0 {
        completed := Put(completed, MOTION, true);
      }
      if w != 0 || h != 0 {
        completed := Put(completed, WHEEL, true);
      }
      record := Record(0, timestamp, x, y, w, h, buttons, completed);
      Reset();
    }

    method Reset()
      requires buttons == ButtonsAfter(start, frame)
      modifies this
      ensures Valid() && frame == [] && start == buttons == old(buttons)
    {
      dx, dy, wheel, hwheel, flags := 0, 0, 0, 0, 0;
      wheelHiresSeen, hwheelHiresSeen := false, false;
      start, frame := buttons, [];
    }

    /** One event: a report closes the frame into a record, anything else joins it. */
    method Accept(e: Event, now: U64) returns (reported: bool, record: Record)
      requires Valid()
      modifies this
      ensures Valid() && reported == IsReport(e)
      ensures reported ==> record == RecordOf(old(start), old(frame), Stamp(e, now))
      ensures reported ==> frame == [] && start == ButtonsAfter(old(start), old(frame))
      ensures !reported ==> frame == old(frame) + [e] && start == old(start)
    {
      hide Sum, Occurs, Scroll, ButtonsAfter, StickyFlags, RecordOf;
      reported := false;
      record := Record(0, 0, 0, 0, 0, 0, 0, 0);
      if e.kind == EV_REL {
        StickyMore(start, frame, e);
        NoRaise(start, frame, e);
        Relative(e);
      } else if e.kind == EV_KEY {
        NothingMoves(frame, e);
        Key(e);
      } else if IsReport(e) {
        reported := true;
        record := Complete(if e.time != 0 then e.time else now);
      } else {
        Other(e);
      }
    }
  }

  // ---------- the bridge ----------

  class BridgeState {
    const ring: Ring.RingHeader
    const frame: Accumulator
    var inputEvents: nat
    var synReports: nat
    var recordsAttempted: nat
    var recordsPublished: nat
    var ringDrops: nat
    var urgentWrites: nat
    var generation: nat
    var acknowledgements: nat
    var invalidAcknowledgements: nat

    ghost const initial: bv16
    ghost var stream: seq<Event>
    ghost var clocks: seq<U64>
    ghost var offered: seq<Record>   // every record handed to the ring, numbered

    ghost predicate Valid()
      reads this, frame, ring, ring.records
    {
      && ring.Valid() && frame.Valid() && Numbered()
      && |clocks| == |stream|
      && frame.frame == Open(stream) && frame.start == ButtonsAfter(initial, Closed(stream))
      && Matches(offered, Emitted(initial, stream, clocks))
    }

    ghost predicate Numbered()
      reads this, ring
    {
      && ring.nextSequence == Wrap(1 + |offered|)
      && recordsAttempted == |offered| == recordsPublished + ringDrops
      && recordsPublished == |ring.history| && ringDrops == ring.refused && ring.stats == Ring.StatsOf(ring.history)
      && urgentWrites == FlagCount(ring.history, 0x5A) + ringDrops + invalidAcknowledgements
    }

    constructor (ring: Ring.RingHeader, buttons: bv16)
      requires ring.Valid() && ring.history == [] && ring.refused == 0 && ring.nextSequence == 1
      requires ring.stats == Ring.StatsOf([])
      ensures Valid() && initial == buttons && stream == [] && this.ring == ring
    {
      this.ring := ring;
      frame := new Accumulator(buttons);
      inputEvents, synReports, recordsAttempted, recordsPublished, ringDrops, urgentWrites := 0, 0, 0, 0, 0, 0;
      generation, acknowledgements, invalidAcknowledgements := 1, 0, 0;
      initial, stream, clocks, offered := buttons, [], [], [];
    }

    /** publish_record: number the record, offer it to the ring, and wake the client for urgent
        records and for every drop. */
    method PublishRecord(record: Record) returns (published: bool)
      requires ring.Valid() && Numbered()
      modifies this`recordsAttempted, this`recordsPublished, this`ringDrops, this`urgentWrites, this`offered
      modifies ring`nextSequence, ring`head, ring`history, ring`droppedNewest, ring`refused, ring`stats, ring.records
      ensures ring.Valid() && Numbered()
      ensures offered == old(offered) + [record.(sequence := Wrap(1 + |old(offered)|))]
      ensures published <==> |old(ring.Contents())| < ring.capacity
      ensures ring.history == if published then old(ring.history) + [offered[|offered| - 1]] else old(ring.history)
      ensures urgentWrites == old(urgentWrites) + if !published || IsUrgent(record) then 1 else 0
    {
      hide Wrap, IsUrgent, Ring.RingHeader.Valid, FlagCount, Ring.StatsOf, Ring.Count;
      assert ring.reclaimed <= |ring.history| by { ring.Sizes(); }
      recordsAttempted := recordsAttempted + 1;
      var numbered := record.(sequence := ring.nextSequence);
      SameUrgency(record, numbered.sequence);
      UrgentMeans(numbered);
      FlagCountMore(ring.history, numbered, 0x5A);
      WrapOfSum(1 + |offered|, 1);
      ring.nextSequence := Wrap(ring.nextSequence + 1);
      published := ring.Publish(numbered);
      offered := offered + [numbered];
      if published {
        recordsPublished := recordsPublished + 1;
        if IsUrgent(numbered) {
          urgentWrites := urgentWrites + 1;
        }
      } else {
        ringDrops := ringDrops + 1;
        urgentWrites := urgentWrites + 1;
      }
    }

    /** The ACK branch of handle_control_message. Only an ACK of the current generation whose tail
        lies between the ring's tail and head words is accepted, and the fourth test the code makes
        never decides. Accepting moves the tail to exactly the acknowledged word; rejecting leaves
        the ring alone and wakes the client. */
    method HandleAck(ackGeneration: nat, consumedTail: U64) returns (accepted: bool)
      requires Valid()
      modifies this`acknowledgements, this`invalidAcknowledgements, this`urgentWrites
      modifies ring`tail, ring`drains, ring`recordsConsumed, ring`reclaimed
      ensures Valid()
      ensures accepted <==> ackGeneration == generation && old(ring.tail) <= consumedTail <= ring.head
      ensures accepted ==> ring.tail == consumedTail
      ensures accepted ==> ring.reclaimed == old(ring.reclaimed) + (consumedTail - old(ring.tail))
      ensures accepted ==> ring.drains == Wrap(old(ring.drains) + 1)
      ensures !accepted ==> ring.tail == old(ring.tail) && ring.reclaimed == old(ring.reclaimed)
      ensures !accepted ==> ring.drains == old(ring.drains)
      ensures acknowledgements == old(acknowledgements) + if accepted then 1 else 0
      ensures invalidAcknowledgements == old(invalidAcknowledgements) + if accepted then 0 else 1
      ensures urgentWrites == old(urgentWrites) + if accepted then 0 else 1
    {
      hide Wrap, SlotOf, And, Ring.RingHeader.Valid, Accumulator.Valid, Matches, Emitted, Open, Closed, ButtonsAfter;
      var head := ring.head;
      var oldTail := ring.tail;
      ring.Sizes();
      if oldTail <= consumedTail <= head {
        AckBounds(ring.capacity, |ring.history|, ring.reclaimed, consumedTail);
        WrapOfSmall(consumedTail);
      }
      if ackGeneration != generation || consumedTail < oldTail || consumedTail > head
         || head - consumedTail > ring.capacity {
        invalidAcknowledgements := invalidAcknowledgements + 1;
        urgentWrites := urgentWrites + 1;
        return false;
      }
      ring.ReleaseTo(consumedTail);
      acknowledgements := acknowledgements + 1;
      return true;
    }

    lemma AckBounds(capacity: nat, published: nat, reclaimed: nat, consumedTail: U64)
      requires ValidCapacity(capacity) && reclaimed <= published <= reclaimed + capacity
      requires Wrap(reclaimed) <= consumedTail <= Wrap(published)
      ensures reclaimed + (consumedTail - Wrap(reclaimed)) <= published
      ensures consumedTail == Wrap(reclaimed + (consumedTail - Wrap(reclaimed)))
      ensures Wrap(published) - consumedTail <= capacity
    {
      WordOrder(reclaimed, published);
    }

    /** process_input_event: afterwards everything handed to the ring is again exactly the records
        of the whole stream, one a report, numbered in order. */
    method ProcessInputEvent(e: Event, now: U64)
      requires Valid()
      modifies this, frame
      modifies ring`nextSequence, ring`head, ring`history, ring`droppedNewest, ring`refused, ring`stats, ring.records
      ensures Valid() && stream == old(stream) + [e] && clocks == old(clocks) + [now]
      ensures inputEvents == old(inputEvents) + 1
      ensures synReports == old(synReports) + if IsReport(e) then 1 else 0
      ensures !IsReport(e) ==> offered == old(offered) && ring.history == old(ring.history)
      ensures IsReport(e) ==> |offered| == |old(offered)| + 1
      ensures IsReport(e) && |old(ring.Contents())| < ring.capacity ==>
        ring.history == old(ring.history) + [offered[|offered| - 1]]
      ensures IsReport(e) && |old(ring.Contents())| >= ring.capacity ==> ring.history == old(ring.history)
    {
      hide Wrap, IsUrgent, Emitted, Open, Closed, Matches, RecordOf, ButtonsAfter;
      hide Ring.RingHeader.Valid, Accumulator.Valid, FlagCount, Ring.StatsOf;
      inputEvents := inputEvents + 1;
      EmittedMore(initial, stream, clocks, e, now);
      var reported, record := frame.Accept(e, now);
      if reported {
        ReportButtons(initial, stream, e);
        MatchesMore(offered, Emitted(initial, stream, clocks), record);
        assert ring.reclaimed <= |ring.history| by { ring.Sizes(); }
        var published := PublishRecord(record);
        synReports := synReports + 1;
      }
      stream, clocks := stream + [e], clocks + [now];
    }
  }

  lemma EmittedMore(initial: bv16, stream: seq<Event>, clocks: seq<U64>, e: Event, now: U64)
    requires |clocks| == |stream|
    ensures Emitted(initial, stream + [e], clocks + [now]) ==
      if IsReport(e) then Emitted(initial, stream, clocks) + [Emission(initial, stream, Stamp(e, now))]
      else Emitted(initial, stream, clocks)
    ensures Open(stream + [e]) == if IsReport(e) then [] else Open(stream) + [e]
    ensures Closed(stream + [e]) == if IsReport(e) then stream + [e] else Closed(stream)
  {
    assert (stream + [e])[..|stream|] == stream && (clocks + [now])[..|clocks|] == clocks;
  }

  /** After a report the next frame begins with the bitmap of the whole stream. */
  lemma ReportButtons(initial: bv16, stream: seq<Event>, e: Event)
    requires IsReport(e)
    ensures ButtonsAfter(ButtonsAfter(initial, Closed(stream)), Open(stream)) == ButtonsAfter(initial, stream + [e])
  {
    ClosedThenOpen(stream);
    ButtonsCompose(initial, Closed(stream), Open(stream));
    ButtonsMore(initial, stream, e);
  }

  lemma MatchesMore(offered: seq<Record>, emitted: seq<Record>, r: Record)
    requires Matches(offered, emitted)
    ensures Matches(offered + [r.(sequence := Wrap(1 + |offered|))], emitted + [r])
  {
    hide Wrap;
  }

  /** The offered records are the emitted ones, numbered 1, 2, 3, ... modulo 2^64. */
  ghost predicate Matches(offered: seq<Record>, emitted: seq<Record>)
  {
    && |offered| == |emitted|
    && forall k :: 0 <= k < |offered| ==> offered[k] == emitted[k].(sequence := Wrap(1 + k))
  }

  lemma SameUrgency(r: Record, sequence: U64)
    ensures IsUrgent(r.(sequence := sequence)) == IsUrgent(r)
  {
  }

  // ---------- one event more ----------

  lemma ScrollMore(frame: seq<Event>, e: Event, low: nat, high: nat)
    requires low != high
    ensures Scroll(frame + [e], low, high) ==
      if IsRel(e, high) then (if Occurs(frame, high) then Scroll(frame, low, high) else 0) + e.value
      else if IsRel(e, low) && !Occurs(frame, high) then Scroll(frame, low, high) + e.value
      else Scroll(frame, low, high)
    ensures Occurs(frame + [e], high) == (Occurs(frame, high) || IsRel(e, high))
  {
    SumMore(frame, e, low);
    SumMore(frame, e, high);
    OccursMore(frame, e, high);
    if !Occurs(frame, high) { NoneSumsToZero(frame, high); }
  }

  lemma ButtonsMore(start: bv16, frame: seq<Event>, e: Event)
    ensures ButtonsAfter(start, frame + [e]) == Press(ButtonsAfter(start, frame), e)
  {
    assert (frame + [e])[..|frame|] == frame;
  }

  lemma MovedMore(start: bv16, frame: seq<Event>, e: Event)
    ensures ButtonsMoved(start, frame + [e])
            == (ButtonsMoved(start, frame) || Press(ButtonsAfter(start, frame), e) != ButtonsAfter(start, frame))
  {
    hide ButtonsAfter, Press;
    var more := frame + [e];
    assert more[..|frame|] == frame;
    forall k | 0 <= k < |frame| ensures MovesAt(start, more, k) == MovesAt(start, frame, k) {
      assert more[..k] == frame[..k] && more[k] == frame[k];
    }
    assert MovesAt(start, more, |frame|) == (Press(ButtonsAfter(start, frame), e) != ButtonsAfter(start, frame));
    if ButtonsMoved(start, frame) {
      var k :| 0 <= k < |frame| && MovesAt(start, frame, k);
      assert MovesAt(start, more, k);
    }
  }

  lemma DropMore(frame: seq<Event>, e: Event)
    ensures SawDrop(frame + [e]) == (SawDrop(frame) || IsDropped(e))
  {
    var more := frame + [e];
    if k :| 0 <= k < |frame| && IsDropped(frame[k]) { assert IsDropped(more[k]); }
    if IsDropped(e) { assert IsDropped(more[|frame|]); }
  }

  lemma StickyMore(start: bv16, frame: seq<Event>, e: Event)
    ensures var b := ButtonsAfter(start, frame);
      && ButtonsAfter(start, frame + [e]) == Press(b, e)
      && StickyFlags(start, frame + [e])
         == Raise(Raise(StickyFlags(start, frame), BUTTON, Press(b, e) != b), SYN_DROPPED, IsDropped(e))
  {
    hide ButtonsAfter, Press, ButtonsMoved, SawDrop, IsDropped, FlagPair, Raise;
    ButtonsMore(start, frame, e);
    MovedMore(start, frame, e);
    DropMore(frame, e);
    OrFlags(ButtonsMoved(start, frame), SawDrop(frame),
            Press(ButtonsAfter(start, frame), e) != ButtonsAfter(start, frame), IsDropped(e));
  }

  lemma OrFlags(a: bool, b: bool, c: bool, d: bool)
    ensures FlagPair(a || c, b || d) == Raise(Raise(FlagPair(a, b), BUTTON, c), SYN_DROPPED, d)
  {
  }

  lemma UnknownKey(b: bv16, e: Event)
    requires ButtonBit(e.code) == 0
    ensures Press(b, e) == b
  {
  }

  lemma NothingMoves(frame: seq<Event>, e: Event)
    requires e.kind != EV_REL
    ensures forall code :: Sum(frame + [e], code) == Sum(frame, code)
    ensures forall code :: Occurs(frame + [e], code) == Occurs(frame, code)
    ensures forall low, high :: Scroll(frame + [e], low, high) == Scroll(frame, low, high)
  {
    forall code ensures Sum(frame + [e], code) == Sum(frame, code) { SumMore(frame, e, code); }
    forall code ensures Occurs(frame + [e], code) == Occurs(frame, code) { OccursMore(frame, e, code); }
    hide Sum, Occurs;
  }

  lemma NoRaise(start: bv16, frame: seq<Event>, e: Event)
    requires e.kind == EV_REL
    ensures Press(ButtonsAfter(start, frame), e) == ButtonsAfter(start, frame) && !IsDropped(e)
  {
  }
}
