/** The game's frame loop: when motions reach the camera, and what the two input modes cost. */
module GameLoop {
  import opened Records
  import opened GameClient

  datatype Mode = Eager | Hfior

  /** What one client read returned to the loop. */
  datatype ReadResult = Refused | Got(motions: seq<Motion>)

  /** The loop's surroundings during one frame. */
  datatype Frame = Frame(active: bool, early: ReadResult, measuring: bool, zeroSize: bool, late: ReadResult)

  // ---------- what a frame does ----------

  function EarlyMotions(f: Frame): seq<Motion> {
    if f.active && f.early.Got? then f.early.motions else []
  }

  /** The client is still usable after the early read. */
  predicate StillActive(f: Frame) {
    f.active && f.early.Got?
  }

  /** The loop breaks off: an early read failed while measuring, or the late read failed. */
  predicate Stops(f: Frame) {
    (f.active && f.early.Refused? && f.measuring) || (!f.zeroSize && StillActive(f) && f.late.Refused?)
  }

  function LateMotions(f: Frame): seq<Motion> {
    if !f.zeroSize && StillActive(f) && f.late.Got? then f.late.motions else []
  }

  /** All records the client consumed in this frame, in ring order. */
  function Consumed(f: Frame): seq<Motion> {
    EarlyMotions(f) + LateMotions(f)
  }

  function Fold<C>(apply: (C, Motion) -> C, camera: C, motions: seq<Motion>): C
  {
    if motions == [] then camera
    else apply(Fold(apply, camera, motions[..|motions| - 1]), motions[|motions| - 1])
  }

  function Max(a: nat, b: nat): nat {
    if a > b then a else b
  }

  /** Camera reactions one rendered frame pays for. */
  function Actions(mode: Mode, f: Frame): nat
  {
    if mode == Eager then Max(1, |Consumed(f)|) else 1
  }

  class Game<C> {
    const apply: (C, Motion) -> C
    const mode: Mode
    var camera: C
    var expensiveActions: nat

    constructor (mode: Mode, apply: (C, Motion) -> C, camera: C)
      ensures this.mode == mode && this.apply == apply && this.camera == camera && expensiveActions == 0
    {
      this.mode, this.apply, this.camera, expensiveActions := mode, apply, camera, 0;
    }

    method ApplyAll(motions: seq<Motion>)
      modifies this`camera
      ensures camera == Fold(apply, old(camera), motions)
    {
      var i := 0;
      while i < |motions|
        invariant 0 <= i <= |motions|
        invariant camera == Fold(apply, old(camera), motions[..i])
      {
        assert motions[..i + 1][..i] == motions[..i];
        camera := apply(camera, motions[i]);
        i := i + 1;
      }
      assert motions[..|motions|] == motions;
    }

    method ReactToEach(motions: seq<Motion>)
      modifies this
      ensures camera == Fold(apply, old(camera), motions)
      ensures expensiveActions == old(expensiveActions) + |motions|
    {
      var i := 0;
      while i < |motions|
        invariant 0 <= i <= |motions|
        invariant camera == Fold(apply, old(camera), motions[..i])
        invariant expensiveActions == old(expensiveActions) + i
      {
        assert motions[..i + 1][..i] == motions[..i];
        camera := apply(camera, motions[i]);
        expensiveActions := expensiveActions + 1;
        i := i + 1;
      }
      assert motions[..|motions|] == motions;
    }

    /** One trip round the frame loop; `running` is false when the loop breaks. Whatever the split
        into early and late reads, a rendered frame folds every consumed motion into the camera. */
    method RunFrame(f: Frame) returns (running: bool)
      modifies this
      ensures running == !Stops(f)
      ensures running && !f.zeroSize ==> camera == Fold(apply, old(camera), Consumed(f))
      ensures running && !f.zeroSize ==> expensiveActions == old(expensiveActions) + Actions(mode, f)
      ensures running && f.zeroSize ==>
        camera == Fold(apply, old(camera), if mode == Hfior then EarlyMotions(f) else [])
      ensures running && f.zeroSize ==> expensiveActions == old(expensiveActions)
      ensures !running ==> camera == Fold(apply, old(camera), if mode == Hfior then EarlyMotions(f) else [])
      ensures !running ==> expensiveActions == old(expensiveActions)
    {
      var early, late := [], [];
      var active := f.active;
      if active {
        if f.early.Refused? {
          active := false;
          if f.measuring {
            return false;
          }
        } else {
          early := f.early.motions;
          if mode == Hfior {
            ApplyAll(early);
          }
        }
      }
      if f.zeroSize {
        return true;
      }
      if active {
        if f.late.Refused? {
          return false;
        }
        late := f.late.motions;
      }
      FoldConcat(apply, old(camera), early, late);
      if mode == Eager {
        ReactToEach(early);
        ReactToEach(late);
        if |early| + |late| == 0 {
          expensiveActions := expensiveActions + 1;
        }
      } else if active {
        ApplyAll(late);
        expensiveActions := expensiveActions + 1;
      } else {
        expensiveActions := expensiveActions + 1;
      }
      return true;
    }
  }

  lemma {:induction false} FoldConcat<C>(apply: (C, Motion) -> C, camera: C, a: seq<Motion>, b: seq<Motion>)
    ensures Fold(apply, camera, a + b) == Fold(apply, Fold(apply, camera, a), b)
    decreases |b|
  {
    if b == [] {
      assert a + b == a;
    } else {
      assert (a + b)[..|a + b| - 1] == a + b[..|b| - 1];
      FoldConcat(apply, camera, a, b[..|b| - 1]);
    }
  }

  // ---------- whole runs ----------

  /** What a run of frames that never breaks does to the camera. */
  function RunCamera<C>(mode: Mode, apply: (C, Motion) -> C, camera: C, frames: seq<Frame>): C
    decreases |frames|
  {
    if frames == [] then camera
    else
      var f := frames[0];
      var next := if f.zeroSize then Fold(apply, camera, if mode == Hfior then EarlyMotions(f) else [])
                  else Fold(apply, camera, Consumed(f));
      RunCamera(mode, apply, next, frames[1..])
  }

  /** Every motion a run consumed, in ring order. */
  function Stream(frames: seq<Frame>): seq<Motion>
  {
    if frames == [] then [] else Consumed(frames[0]) + Stream(frames[1..])
  }

  /** The motions eager mode never applies: read early in a frame that was then not rendered. */
  function Skipped(frames: seq<Frame>): seq<Motion>
  {
    if frames == [] then []
    else (if frames[0].zeroSize then EarlyMotions(frames[0]) else []) + Skipped(frames[1..])
  }

  function Applied(frames: seq<Frame>): seq<Motion>
  {
    if frames == [] then [] else (if frames[0].zeroSize then [] else Consumed(frames[0])) + Applied(frames[1..])
  }

  /** After any number of frames the HFIOR camera is the fold over the whole stream, for every way
      of splitting it into frames and into early and late reads. */
  lemma {:induction false} HfiorCamera<C>(apply: (C, Motion) -> C, camera: C, frames: seq<Frame>)
    ensures RunCamera(Hfior, apply, camera, frames) == Fold(apply, camera, Stream(frames))
    decreases |frames|
  {
    if frames != [] {
      var f := frames[0];
      assert Consumed(f) == EarlyMotions(f) || !f.zeroSize;
      HfiorCamera(apply, Fold(apply, camera, Consumed(f)), frames[1..]);
      FoldConcat(apply, camera, Consumed(f), Stream(frames[1..]));
    }
  }

  lemma {:induction false} EagerCamera<C>(apply: (C, Motion) -> C, camera: C, frames: seq<Frame>)
    ensures RunCamera(Eager, apply, camera, frames) == Fold(apply, camera, Applied(frames))
    decreases |frames|
  {
    if frames != [] {
      var f := frames[0];
      var kept := if f.zeroSize then [] else Consumed(f);
      EagerCamera(apply, Fold(apply, camera, kept), frames[1..]);
      FoldConcat(apply, camera, kept, Applied(frames[1..]));
    }
  }

  lemma {:induction false} NothingSkipped(frames: seq<Frame>)
    ensures Skipped(frames) == [] ==> Applied(frames) == Stream(frames)
    ensures |Applied(frames)| + |Skipped(frames)| == |Stream(frames)|
  {
    if frames != [] {
      NothingSkipped(frames[1..]);
      var f := frames[0];
      if f.zeroSize {
        assert Consumed(f) == EarlyMotions(f);
      }
    }
  }

  /** Eager and HFIOR mode reach the same camera, whatever a motion does to it, when no unrendered
      frame had read records early, even if the two runs split the stream differently. */
  lemma SameCamera<C>(apply: (C, Motion) -> C, camera: C, eager: seq<Frame>, hfior: seq<Frame>)
    requires Stream(eager) == Stream(hfior) && Skipped(eager) == []
    ensures RunCamera(Eager, apply, camera, eager) == RunCamera(Hfior, apply, camera, hfior)
  {
    EagerCamera(apply, camera, eager);
    HfiorCamera(apply, camera, hfior);
    NothingSkipped(eager);
  }

  /** The reads of these frames are successive slices of history from lo to hi. */
  ghost predicate ReadsOf(frames: seq<Frame>, history: seq<Record>, lo: nat, hi: nat)
    requires lo <= hi <= |history|
    decreases |frames|
  {
    if frames == [] then lo == hi
    else exists mid: nat :: lo <= mid <= hi && FirstRead(frames, history, lo, mid, hi)
  }

  ghost predicate FirstRead(frames: seq<Frame>, history: seq<Record>, lo: nat, mid: nat, hi: nat)
    requires frames != [] && lo <= mid <= hi <= |history|
    decreases |frames|, 0
  {
    Consumed(frames[0]) == Motions(history[lo..mid]) && ReadsOf(frames[1..], history, mid, hi)
  }

  lemma {:induction false} MotionsConcat(a: seq<Record>, b: seq<Record>)
    ensures Motions(a + b) == Motions(a) + Motions(b)
    decreases |b|
  {
    if b == [] {
      assert a + b == a;
    } else {
      var n := |b| - 1;
      assert (a + b)[..|a + b| - 1] == a + b[..n];
      MotionsConcat(a, b[..n]);
    }
  }

  lemma NoReads(history: seq<Record>, lo: nat, hi: nat)
    requires lo <= hi <= |history| && ReadsOf([], history, lo, hi)
    ensures Stream([]) == Motions(history[lo..hi])
  {
  }

  lemma SplitReads(frames: seq<Frame>, history: seq<Record>, lo: nat, hi: nat) returns (mid: nat)
    requires lo <= hi <= |history| && frames != [] && ReadsOf(frames, history, lo, hi)
    ensures lo <= mid <= hi && ReadsOf(frames[1..], history, mid, hi)
    ensures Stream(frames) == Motions(history[lo..mid]) + Stream(frames[1..])
  {
    hide Motions, Consumed;
    mid :| lo <= mid <= hi && FirstRead(frames, history, lo, mid, hi);
  }

  lemma {:induction false} StreamIsHistory(frames: seq<Frame>, history: seq<Record>, lo: nat, hi: nat)
    requires lo <= hi <= |history| && ReadsOf(frames, history, lo, hi)
    ensures Stream(frames) == Motions(history[lo..hi])
    decreases |frames|
  {
    hide *;
    if frames == [] {
      NoReads(history, lo, hi);
    } else {
      var mid := SplitReads(frames, history, lo, hi);
      StreamIsHistory(frames[1..], history, mid, hi);
      MotionsConcat(history[lo..mid], history[mid..hi]);
      assert history[lo..hi] == history[lo..mid] + history[mid..hi];
    }
  }

  /** The whole path: however the reads are cut into frames and into early and late halves, both
      modes fold exactly the published records from lo to hi, in ring order, into the camera. */
  lemma CameraFollowsHistory<C>(apply: (C, Motion) -> C, camera: C, frames: seq<Frame>,
                                history: seq<Record>, lo: nat, hi: nat)
    requires lo <= hi <= |history| && ReadsOf(frames, history, lo, hi) && Skipped(frames) == []
    ensures RunCamera(Hfior, apply, camera, frames) == Fold(apply, camera, Motions(history[lo..hi]))
    ensures RunCamera(Eager, apply, camera, frames) == Fold(apply, camera, Motions(history[lo..hi]))
  {
    StreamIsHistory(frames, history, lo, hi);
    HfiorCamera(apply, camera, frames);
    SameCamera(apply, camera, frames, frames);
  }

  function Remember(trail: seq<Motion>, m: Motion): seq<Motion> {
    trail + [m]
  }

  lemma {:induction false} TrailIsStream(trail: seq<Motion>, motions: seq<Motion>)
    ensures Fold(Remember, trail, motions) == trail + motions
  {
    if motions == [] {
      assert trail + motions == trail;
    } else {
      TrailIsStream(trail, motions[..|motions| - 1]);
      assert trail + motions == trail + motions[..|motions| - 1] + [motions[|motions| - 1]];
    }
  }

  /** And only then: for a camera that remembers every motion, the modes agree on a run exactly when
      nothing was skipped. */
  lemma SameCameraExactly(trail: seq<Motion>, frames: seq<Frame>)
    ensures RunCamera(Eager, Remember, trail, frames) == RunCamera(Hfior, Remember, trail, frames)
            <==> Skipped(frames) == []
  {
    EagerCamera(Remember, trail, frames);
    HfiorCamera(Remember, trail, frames);
    TrailIsStream(trail, Applied(frames));
    TrailIsStream(trail, Stream(frames));
    NothingSkipped(frames);
    if Skipped(frames) != [] {
      assert |trail + Applied(frames)| < |trail + Stream(frames)|;
    }
  }

  /** A run on which they differ: one motion read early in a frame whose window has no pixels. */
  lemma ZeroSizeFrameLosesMotion(m: Motion)
    ensures var frames := [Frame(true, Got([m]), true, true, Got([]))];
      RunCamera(Eager, Remember, [], frames) != RunCamera(Hfior, Remember, [], frames)
  {
    var f := Frame(true, Got([m]), true, true, Got([]));
    assert [f][1..] == [];
    assert Skipped([f]) == [m] + [];
    SameCameraExactly([], [f]);
  }

  // ---------- the camera itself, over the reals ----------

  datatype Camera = Camera(yaw: real, pitch: real)

  const PI: real := 3.14159265358979323846
  const RADIANS_PER_COUNT: real := 0.0015

  function ApplyMotion(c: Camera, m: Motion): Camera
  {
    var yaw := c.yaw + m.dx * RADIANS_PER_COUNT;
    var pitch := c.pitch - m.dy * RADIANS_PER_COUNT;
    Camera(
      if yaw > PI then yaw - 2.0 * PI else if yaw < -PI then yaw + 2.0 * PI else yaw,
      if pitch < -1.45 then -1.45 else if pitch > 1.45 then 1.45 else pitch)
  }

  /** One motion turns the camera right by dx and down by dy, 0.0015 radians a count; past half a turn yaw
      goes on from the other side, and pitch stops at its clamp. */
  lemma OneMotion(c: Camera, m: Motion)
    ensures var d, yaw, pitch := ApplyMotion(c, m), c.yaw + 0.0015 * m.dx, c.pitch - 0.0015 * m.dy;
      && (-PI <= yaw <= PI ==> d.yaw == yaw)
      && (yaw > PI ==> d.yaw == yaw - 2.0 * PI) && (yaw < -PI ==> d.yaw == yaw + 2.0 * PI)
      && (-1.45 <= pitch <= 1.45 ==> d.pitch == pitch)
      && (pitch > 1.45 ==> d.pitch == 1.45) && (pitch < -1.45 ==> d.pitch == -1.45)
    ensures 3.141592653589793 < PI < 3.141592653589794
  {
  }

  /** Pitch never leaves its clamp, and yaw never leaves one turn while no single motion exceeds a
      full turn. */
  lemma {:induction false} CameraStaysInRange(c: Camera, motions: seq<Motion>)
    requires -1.45 <= c.pitch <= 1.45 && -PI <= c.yaw <= PI
    requires forall m :: m in motions ==> -2.0 * PI <= m.dx * RADIANS_PER_COUNT <= 2.0 * PI
    ensures var d := Fold(ApplyMotion, c, motions); -1.45 <= d.pitch <= 1.45 && -PI <= d.yaw <= PI
  {
    if motions != [] {
      CameraStaysInRange(c, motions[..|motions| - 1]);
      assert motions[|motions| - 1] in motions;
    }
  }

  /** Why every record must be applied in order: two motions with sum zero can move the camera. */
  lemma SumIsNotEnough()
    ensures var up, down := Motion(0.0, -1000.0, 1), Motion(0.0, 1000.0, 2);
      Fold(ApplyMotion, Camera(0.0, 0.0), [up, down]) != ApplyMotion(Camera(0.0, 0.0), Motion(0.0, up.dy + down.dy, 2))
  {
    var up, down := Motion(0.0, -1000.0, 1), Motion(0.0, 1000.0, 2);
    assert [up, down][..1] == [up] && [up][..0] == [];
    assert Fold(ApplyMotion, Camera(0.0, 0.0), [up]) == ApplyMotion(Camera(0.0, 0.0), up);
  }
}
