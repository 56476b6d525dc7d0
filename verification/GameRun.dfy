/** The game, end to end: the validating client reads the ring early and late in each frame, the frame
    loop moves the camera, and a rendered frame acknowledges, all against a running producer. */
module GameRun {
  import opened Words
  import opened Records
  import Protocol
  import opened Reclamation
  import opened SharedMapping
  import opened GameClient
  import opened GameLoop

  /** What the surroundings decide about one frame. */
  datatype Surroundings = Surroundings(dispatch: Dispatch, measuring: bool, zeroSize: bool, flushed: bool)

  /** No dispatch error, and the display takes the acknowledgement. */
  predicate Gentle(s: Surroundings) {
    s.dispatch == Quiet && s.flushed
  }

  class Player<C> {
    const client: GameClient.Client
    const game: Game<C>

    constructor (client: GameClient.Client, game: Game<C>)
      ensures this.client == client && this.game == game
    {
      this.client, this.game := client, game;
    }

    /** One read into a buffer; its result is the stretch of history the cursor moved over. */
    method Read(dispatchPending: bool, dispatch: Dispatch, buffer: array<Motion>) returns (result: ReadResult)
      requires client.Valid()
      modifies client, client.mapping, buffer
      ensures client.Valid() && old(client.mapping.st.history) <= client.mapping.st.history
      ensures old(client.position) <= client.position
      ensures result.Got? ==> client.Usable() && |old(client.mapping.st.history)| <= client.position
      ensures result.Got? ==>
        result.motions == Motions(client.mapping.st.history[old(client.position)..client.position])
      ensures result.Refused? ==> !client.Usable() && client.position == old(client.position)
      ensures client.mapping.st.acked == old(client.mapping.st.acked)
      ensures old(client.mapping.st.losses) <= client.mapping.st.losses
      ensures old(client.Usable()) && (dispatchPending ==> dispatch == Quiet) && client.capacity <= buffer.Length
              && client.mapping.st.losses == 0 && |client.mapping.st.history| < TWO64 - 1 ==>
        result.Got?
    {
      hide Wrap, Invariant, Motions, Consecutive, ExpectsNext, BatchOf, ExpectedAfter, LossFree;
      var ok, batch;
      ghost var seen;
      ok, batch, seen := client.Read(dispatchPending, dispatch, buffer, buffer.Length);
      if ok {
        CountOfBatch(client.mapping.st.history[old(client.position)..seen], client.sequenceErrors);
        result := Got(buffer[..batch.records]);
      } else {
        result := Refused;
        ChainBasics(client.mapping.st);
        OneLap(client.position, seen);
      }
    }

    lemma OneLap(position: nat, seen: nat)
      ensures position < TWO64 && seen < TWO64 ==> Epoch(position) == Epoch(seen)
    {
    }

    lemma CountOfBatch(records: seq<Record>, errors: nat)
      ensures BatchOf(records, errors).records == |records|
    {
    }

    /** Nothing on the ring's side that could make a read fail: room for a whole ring in the buffers, no
        record dropped, and no number near 2^64. */
    ghost predicate Calm(early: array<Motion>, late: array<Motion>)
      reads client.mapping
    {
      && client.capacity <= early.Length && client.capacity <= late.Length
      && client.mapping.st.losses == 0 && |client.mapping.st.history| < TWO64 - 1
    }

    /** The reads of one frame: the early one if the client is usable, the late one only in a frame that
        is rendered, if it still is. */
    method ReadFrame(s: Surroundings, early: array<Motion>, late: array<Motion>) returns (f: Frame)
      requires client.Valid()
      modifies client, client.mapping, early, late
      ensures client.Valid() && old(client.mapping.st.history) <= client.mapping.st.history
      ensures old(client.position) <= client.position && client.mapping.st.acked == old(client.mapping.st.acked)
      ensures old(client.mapping.st.losses) <= client.mapping.st.losses
      ensures f.active == old(client.Usable()) && f.zeroSize == s.zeroSize && f.measuring == s.measuring
      ensures client.Usable() <==> f.active && f.early.Got? && (s.zeroSize || f.late.Got?)
      ensures f.active && f.early.Got? ==> |old(client.mapping.st.history)| <= client.position
      ensures Consumed(f) == Motions(client.mapping.st.history[old(client.position)..client.position])
      ensures client.position - old(client.position) == |Consumed(f)|
      ensures f.zeroSize ==> Consumed(f) == EarlyMotions(f)
      ensures f.active && s.dispatch == Quiet && Calm(early, late) ==> client.Usable()
    {
      hide Wrap, Invariant, Motions, Consecutive, ExpectsNext;
      f := Frame(client.Usable(), Refused, s.measuring, s.zeroSize, Refused);
      ghost var start, h := client.position, client.mapping.st.history;
      NoMotions(h, start);
      if f.active {
        var result := Read(true, s.dispatch, early);
        f := f.(early := result);
      }
      ghost var middle, k := client.position, client.mapping.st.history;
      CountMotions(k[start..middle]);
      NoMotions(k, middle);
      if !s.zeroSize && f.active && client.Usable() {
        var result := Read(false, Quiet, late);
        f := f.(late := result);
        PrefixSlice(k, client.mapping.st.history, start, middle);
        LastSlice(client.mapping.st.history, start, middle, client.position);
      }
    }

    lemma NoMotions(h: seq<Record>, at: nat)
      requires at <= |h|
      ensures Motions(h[at..at]) == []
    {
    }

    /** One trip round the frame loop: read, move the camera, and acknowledge if the frame was rendered.
        `f` is what the reads returned. The loop goes on unless an early read failed while measuring, a
        late read failed, or an acknowledgement was due and the display could not be flushed; whenever it
        breaks off the client has become unusable, and in calm surroundings it never does. */
    method PlayFrame(s: Surroundings, early: array<Motion>, late: array<Motion>)
      returns (running: bool, ghost f: Frame, ghost due: bool)
      requires client.Valid()
      modifies client, client.mapping, early, late, game
      ensures client.Valid() && old(client.mapping.st.history) <= client.mapping.st.history
      ensures old(client.position) <= client.position && old(client.mapping.st.losses) <= client.mapping.st.losses
      ensures f.active == old(client.Usable()) && f.zeroSize == s.zeroSize && f.measuring == s.measuring
      ensures due <==>
        !s.zeroSize && StillActive(f) && f.late.Got? && client.position != old(client.mapping.st.acked)
      ensures running <==>
        !(f.active && f.early.Refused? && s.measuring)
        && !(!s.zeroSize && f.active && f.early.Got? && f.late.Refused?) && (due ==> s.flushed)
      ensures client.Usable() <==> StillActive(f) && (s.zeroSize || f.late.Got?) && (due ==> s.flushed)
      ensures !running ==> !client.Usable()
      ensures f.active && Gentle(s) && Calm(early, late) ==> running && client.Usable()
      ensures StillActive(f) ==> |old(client.mapping.st.history)| <= client.position
      ensures running && (!s.zeroSize || game.mode == Hfior) ==>
        game.camera == Fold(game.apply, old(game.camera),
                            Motions(client.mapping.st.history[old(client.position)..client.position]))
      ensures running && s.zeroSize && game.mode == Eager ==> game.camera == old(game.camera)
      ensures running ==>
        game.expensiveActions
          == old(game.expensiveActions) + Cost(game.mode, s.zeroSize, client.position - old(client.position))
      ensures running && !s.zeroSize && client.Usable() ==> client.mapping.st.acked == client.position
    {
      hide Wrap, Invariant, Motions, Consecutive, ExpectsNext, Fold;
      NothingFolded(game.apply, game.camera);
      var frame := ReadFrame(s, early, late);
      f := frame;
      due := !s.zeroSize && client.Usable() && client.position != client.mapping.st.acked;
      running := game.RunFrame(frame);
      if running && !s.zeroSize && client.Usable() {
        running := AcknowledgeFrame(s.flushed);
      }
    }

    /** Acknowledging at the end of a rendered frame fails exactly if something was unacknowledged and
        the display could not be flushed. */
    method AcknowledgeFrame(flushed: bool) returns (ok: bool)
      requires client.Valid() && client.Usable()
      modifies client, client.mapping
      ensures client.Valid() && client.position == old(client.position)
      ensures client.mapping.st.history == old(client.mapping.st.history)
      ensures client.mapping.st.losses == old(client.mapping.st.losses)
      ensures client.mapping.st.acked == client.position
      ensures ok <==> client.position == old(client.mapping.st.acked) || flushed
      ensures ok == client.Usable()
    {
      hide Wrap, Protocol.RingInvariant, Invariant, Consecutive, ExpectsNext;
      if client.localTail == client.acknowledgedTail {
        WordsApart(client.mapping.st, client.position);
      }
      ok := client.Acknowledge(flushed);
    }

    lemma WordsApart(s: Protocol.Shared, position: nat)
      requires Invariant(s) && s.acked <= position <= |s.history| && Wrap(position) == Wrap(s.acked)
      ensures position == s.acked
    {
      ChainBasics(s);
      SamePosition(s, s.acked, position);
    }

    /** The frame loop. `cuts` are the cursor's positions between frames. The camera is the fold over
        the slices between cuts that a rendered frame, or in HFIOR mode any frame, moved past, and the
        reactions are the sum of the frames' costs. So when no record was read in an unrendered frame
        in eager mode, the camera is the fold over exactly the history moved past, in ring order. */
    method Play(frames: seq<Surroundings>, early: array<Motion>, late: array<Motion>)
      returns (running: bool, ghost cuts: seq<nat>)
      requires client.Valid() && early != late
      modifies client, client.mapping, early, late, game
      ensures client.Valid() && old(client.mapping.st.history) <= client.mapping.st.history
      ensures old(client.position) <= client.position
      ensures old(client.mapping.st.losses) <= client.mapping.st.losses
      ensures 0 < |cuts| && IsCuts(|cuts| - 1, cuts, |client.mapping.st.history|) && cuts[0] == old(client.position)
      ensures running ==> |cuts| == |frames| + 1 && cuts[|frames|] == client.position
      ensures !running ==> |cuts| <= |frames| && !client.Usable()
      ensures old(client.Usable()) && (forall s :: s in frames ==> Gentle(s)) && Calm(early, late) ==>
        running && client.Usable()
      ensures running ==>
        game.camera
          == Fold(game.apply, old(game.camera), RenderedMotions(game.mode, frames, client.mapping.st.history, cuts))
      ensures running ==> game.expensiveActions == old(game.expensiveActions) + TotalCost(game.mode, frames, cuts)
      ensures running && Lost(game.mode, frames, cuts) == 0 ==>
        game.camera == Fold(game.apply, old(game.camera),
                            Motions(client.mapping.st.history[old(client.position)..client.position]))
    {
      hide Wrap, Invariant, Motions, Consecutive, ExpectsNext, Fold, RenderedMotions, TotalCost, Lost;
      running := true;
      ghost var start := client.position;
      cuts := [start];
      NothingYet(game.mode, frames, client.mapping.st.history, cuts);
      NothingFolded(game.apply, game.camera);
      var i := 0;
      while i < |frames|
        invariant 0 <= i <= |frames|
        invariant client.Valid() && old(client.mapping.st.history) <= client.mapping.st.history
        invariant old(client.mapping.st.losses) <= client.mapping.st.losses
        invariant old(client.Usable()) && (forall s :: s in frames ==> Gentle(s)) && Calm(early, late) ==>
          client.Usable()
        invariant IsCuts(i, cuts, |client.mapping.st.history|) && cuts[0] == start && cuts[i] == client.position
        invariant game.camera == Fold(game.apply, old(game.camera),
                    RenderedMotions(game.mode, frames[..i], client.mapping.st.history, cuts))
        invariant game.expensiveActions == old(game.expensiveActions) + TotalCost(game.mode, frames[..i], cuts)
      {
        ghost var h := client.mapping.st.history;
        ghost var f, due;
        running, f, due := PlayFrame(frames[i], early, late);
        if !running {
          return;
        }
        FrameMore(game.apply, old(game.camera), game.mode, frames, i,
                  h, client.mapping.st.history, cuts, client.position);
        cuts := cuts + [client.position];
        i := i + 1;
      }
      assert frames[..|frames|] == frames;
      RenderedExactly(game.mode, frames, client.mapping.st.history, cuts);
    }
  }

  /** Reactions one frame pays for. */
  function Cost(mode: Mode, zeroSize: bool, records: nat): nat
  {
    if zeroSize then 0 else if mode == Eager then Max(1, records) else 1
  }

  /** n + 1 ascending positions: where the cursor stood before, between and after n frames. */
  ghost predicate IsCuts(n: nat, cuts: seq<nat>, limit: nat)
  {
    |cuts| == n + 1 && cuts[n] <= limit && forall i, j :: 0 <= i <= j <= n ==> cuts[i] <= cuts[j]
  }

  /** Whether the motions read in a frame reach the camera. */
  predicate Reaches(mode: Mode, s: Surroundings)
  {
    mode == Hfior || !s.zeroSize
  }

  /** The motions that reach the camera, frame by frame. */
  ghost function RenderedMotions(mode: Mode, frames: seq<Surroundings>, history: seq<Record>,
                                 cuts: seq<nat>): seq<Motion>
    requires IsCuts(|frames|, cuts, |history|)
    decreases |frames|
  {
    if frames == [] then []
    else
      var n := |frames| - 1;
      RenderedMotions(mode, frames[..n], history, cuts[..n + 1])
        + if Reaches(mode, frames[n]) then Motions(history[cuts[n]..cuts[n + 1]]) else []
  }

  ghost function TotalCost(mode: Mode, frames: seq<Surroundings>, cuts: seq<nat>): nat
    requires |cuts| == |frames| + 1 && forall i, j :: 0 <= i <= j < |cuts| ==> cuts[i] <= cuts[j]
    decreases |frames|
  {
    if frames == [] then 0
    else
      var n := |frames| - 1;
      TotalCost(mode, frames[..n], cuts[..n + 1]) + Cost(mode, frames[n].zeroSize, cuts[n + 1] - cuts[n])
  }

  /** Records whose motions never reach the camera. */
  ghost function Lost(mode: Mode, frames: seq<Surroundings>, cuts: seq<nat>): nat
    requires |cuts| == |frames| + 1 && forall i, j :: 0 <= i <= j < |cuts| ==> cuts[i] <= cuts[j]
    decreases |frames|
  {
    if frames == [] then 0
    else
      var n := |frames| - 1;
      Lost(mode, frames[..n], cuts[..n + 1]) + if Reaches(mode, frames[n]) then 0 else cuts[n + 1] - cuts[n]
  }

  function Rendered(frames: seq<Surroundings>): nat
  {
    if frames == [] then 0
    else Rendered(frames[..|frames| - 1]) + if frames[|frames| - 1].zeroSize then 0 else 1
  }

  /** Rendered frames that read no record. */
  ghost function Idle(frames: seq<Surroundings>, cuts: seq<nat>): nat
    requires |cuts| == |frames| + 1
    decreases |frames|
  {
    if frames == [] then 0
    else
      var n := |frames| - 1;
      Idle(frames[..n], cuts[..n + 1]) + if !frames[n].zeroSize && cuts[n + 1] == cuts[n] then 1 else 0
  }

  /** Every record moved past reaches the camera or is lost, and the camera sees exactly the history
      moved past if and only if none is lost. In particular HFIOR mode loses none, nor does a run in
      which every frame is rendered. */
  lemma {:induction false} RenderedExactly(mode: Mode, frames: seq<Surroundings>, history: seq<Record>, cuts: seq<nat>)
    requires IsCuts(|frames|, cuts, |history|)
    ensures var all := Motions(history[cuts[0]..cuts[|frames|]]);
      && |RenderedMotions(mode, frames, history, cuts)| + Lost(mode, frames, cuts) == |all| == cuts[|frames|] - cuts[0]
      && (RenderedMotions(mode, frames, history, cuts) == all <==> Lost(mode, frames, cuts) == 0)
    ensures mode == Hfior || Rendered(frames) == |frames| ==> Lost(mode, frames, cuts) == 0
    ensures Rendered(frames) <= |frames|
    decreases |frames|
  {
    CountMotions(history[cuts[0]..cuts[|frames|]]);
    if frames == [] {
      assert history[cuts[0]..cuts[0]] == [];
    } else {
      hide Motions, RenderedMotions, Lost, Rendered;
      var n := |frames| - 1;
      LastFrame(mode, frames, history, cuts);
      RenderedExactly(mode, frames[..n], history, cuts[..n + 1]);
      LastSlice(history, cuts[0], cuts[n], cuts[n + 1]);
    }
  }

  lemma LastFrame(mode: Mode, frames: seq<Surroundings>, history: seq<Record>, cuts: seq<nat>)
    requires IsCuts(|frames|, cuts, |history|) && frames != []
    ensures var n := |frames| - 1;
      && IsCuts(n, cuts[..n + 1], |history|)
      && RenderedMotions(mode, frames, history, cuts) == RenderedMotions(mode, frames[..n], history, cuts[..n + 1])
           + (if Reaches(mode, frames[n]) then Motions(history[cuts[n]..cuts[n + 1]]) else [])
      && Lost(mode, frames, cuts) == Lost(mode, frames[..n], cuts[..n + 1])
           + (if Reaches(mode, frames[n]) then 0 else cuts[n + 1] - cuts[n])
      && Rendered(frames) == Rendered(frames[..n]) + (if frames[n].zeroSize then 0 else 1)
  {
    hide Motions;
  }

  lemma LastSlice(history: seq<Record>, lo: nat, middle: nat, hi: nat)
    requires lo <= middle <= hi <= |history|
    ensures Motions(history[lo..hi]) == Motions(history[lo..middle]) + Motions(history[middle..hi])
    ensures |Motions(history[lo..middle])| == middle - lo && |Motions(history[middle..hi])| == hi - middle
  {
    hide Motions;
    assert history[lo..hi] == history[lo..middle] + history[middle..hi];
    MotionsConcat(history[lo..middle], history[middle..hi]);
    CountMotions(history[lo..middle]);
    CountMotions(history[middle..hi]);
  }

  /** In HFIOR mode a run pays one reaction a rendered frame. In eager mode it pays one a record that
      reached the camera, and one a rendered frame without records. */
  lemma {:induction false} CostExactly(mode: Mode, frames: seq<Surroundings>, cuts: seq<nat>)
    requires |cuts| == |frames| + 1 && forall i, j :: 0 <= i <= j < |cuts| ==> cuts[i] <= cuts[j]
    ensures mode == Hfior ==> TotalCost(mode, frames, cuts) == Rendered(frames)
    ensures mode == Eager ==>
      TotalCost(mode, frames, cuts) + Lost(mode, frames, cuts) == cuts[|frames|] - cuts[0] + Idle(frames, cuts)
    decreases |frames|
  {
    if frames != [] {
      CostExactly(mode, frames[..|frames| - 1], cuts[..|frames|]);
    }
  }

  lemma CountMotions(records: seq<Record>)
    ensures |Motions(records)| == |records|
  {
    BatchSumIsMotionSum(records, 0);
    hide Motions;
  }

  lemma NothingYet(mode: Mode, frames: seq<Surroundings>, history: seq<Record>, cuts: seq<nat>)
    requires IsCuts(0, cuts, |history|)
    ensures RenderedMotions(mode, frames[..0], history, cuts) == [] && TotalCost(mode, frames[..0], cuts) == 0
  {
  }

  lemma {:induction false} HistoryMayGrow(mode: Mode, frames: seq<Surroundings>, h: seq<Record>,
                                          k: seq<Record>, cuts: seq<nat>)
    requires IsCuts(|frames|, cuts, |h|) && h <= k
    ensures RenderedMotions(mode, frames, h, cuts) == RenderedMotions(mode, frames, k, cuts)
    decreases |frames|
  {
    if frames != [] {
      var n := |frames| - 1;
      HistoryMayGrow(mode, frames[..n], h, k, cuts[..n + 1]);
      assert h[cuts[n]..cuts[n + 1]] == k[cuts[n]..cuts[n + 1]];
      hide Motions;
    }
  }

  /** One more frame. */
  lemma FrameMore<C>(apply: (C, Motion) -> C, camera: C, mode: Mode, frames: seq<Surroundings>, i: nat,
                     h: seq<Record>, k: seq<Record>, cuts: seq<nat>, position: nat)
    requires i < |frames| && h <= k && IsCuts(i, cuts, |h|) && cuts[i] <= position <= |k|
    ensures IsCuts(i + 1, cuts + [position], |k|)
    ensures var slice := Motions(k[cuts[i]..position]);
      Fold(apply, camera, RenderedMotions(mode, frames[..i + 1], k, cuts + [position]))
        == (var c := Fold(apply, camera, RenderedMotions(mode, frames[..i], h, cuts));
            if Reaches(mode, frames[i]) then Fold(apply, c, slice) else c)
    ensures TotalCost(mode, frames[..i + 1], cuts + [position])
         == TotalCost(mode, frames[..i], cuts) + Cost(mode, frames[i].zeroSize, position - cuts[i])
  {
    hide Motions, Fold, RenderedMotions, TotalCost;
    CutsMore(i, cuts, position, |h|, |k|);
    MotionsMore(mode, frames, i, h, k, cuts, position);
    LastCost(mode, frames[..i + 1], cuts + [position]);
    assert frames[..i + 1][..i] == frames[..i] && (cuts + [position])[..i + 1] == cuts;
    FoldMore(apply, camera, RenderedMotions(mode, frames[..i], h, cuts), Motions(k[cuts[i]..position]));
  }

  lemma CutsMore(i: nat, cuts: seq<nat>, position: nat, limit: nat, newLimit: nat)
    requires IsCuts(i, cuts, limit) && cuts[i] <= position <= newLimit
    ensures IsCuts(i + 1, cuts + [position], newLimit)
  {
  }

  lemma MotionsMore(mode: Mode, frames: seq<Surroundings>, i: nat, h: seq<Record>, k: seq<Record>, cuts: seq<nat>,
                    position: nat)
    requires i < |frames| && h <= k && IsCuts(i, cuts, |h|) && IsCuts(i + 1, cuts + [position], |k|)
    ensures cuts[i] <= position <= |k|
    ensures RenderedMotions(mode, frames[..i + 1], k, cuts + [position])
         == RenderedMotions(mode, frames[..i], h, cuts)
            + (if Reaches(mode, frames[i]) then Motions(k[cuts[i]..position]) else [])
  {
    hide Motions, RenderedMotions;
    var more := cuts + [position];
    assert more[i] == cuts[i] && more[i + 1] == position;
    assert frames[..i + 1][..i] == frames[..i] && more[..i + 1] == cuts;
    HistoryMayGrow(mode, frames[..i], h, k, cuts);
    LastFrame(mode, frames[..i + 1], k, more);
  }

  lemma LastCost(mode: Mode, frames: seq<Surroundings>, cuts: seq<nat>)
    requires |cuts| == |frames| + 1 && forall i, j :: 0 <= i <= j < |cuts| ==> cuts[i] <= cuts[j]
    requires frames != []
    ensures var n := |frames| - 1;
      TotalCost(mode, frames, cuts)
        == TotalCost(mode, frames[..n], cuts[..n + 1]) + Cost(mode, frames[n].zeroSize, cuts[n + 1] - cuts[n])
  {
  }

  lemma FoldMore<C>(apply: (C, Motion) -> C, camera: C, seen: seq<Motion>, slice: seq<Motion>)
    ensures Fold(apply, camera, seen + slice) == Fold(apply, Fold(apply, camera, seen), slice)
    ensures seen + [] == seen
  {
    FoldConcat(apply, camera, seen, slice);
  }

  lemma NothingFolded<C>(apply: (C, Motion) -> C, camera: C)
    ensures Fold(apply, camera, []) == camera
  {
  }
}
