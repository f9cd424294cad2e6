/**
 * `Animation`: a list of frames and a real-valued frame index that
 * `advance` moves on by `speed`, wrapping to the first frame or, when
 * locked, holding the last position.
 */
module Anim {
  import opened JavaNum
  import opened Graphics
  import opened Wrappers

  /** `frames` is `None` where the Java field is null. */
  datatype Animation = Animation(lock: bool, currentFrame: real, speed: real, frames: Option<seq<Drawable>>)

  /** The constructor: unlocked, at frame 0. */
  function NewAnimation(frames: Option<seq<Drawable>>, speed: real): (a: Animation)
    ensures !a.lock && a.currentFrame == 0.0 && a.speed == speed && a.frames == frames
    ensures FrameInRange(a)
  {
    Animation(false, 0.0, speed, frames)
  }

  predicate NoFrames(a: Animation) {
    a.frames.None? || |a.frames.value| == 0
  }

  /** The frame index `(int) currentFrame` selects an existing frame (or there is none to select). */
  predicate FrameInRange(a: Animation) {
    NoFrames(a) || 0 <= Trunc(a.currentFrame) < |a.frames.value|
  }

  function CurrentDrawable(a: Animation): Drawable
    requires FrameInRange(a) && !NoFrames(a)
  {
    a.frames.value[Trunc(a.currentFrame)]
  }

  /**
   * `getHeight()`: the current frame's height, 0 for a null or empty frame
   * list; `None` where `frames.get((int) currentFrame)` throws
   * `IndexOutOfBoundsException`, as after a negative speed has run the index
   * below zero or a frame list has shrunk under it.
   */
  function GetHeight(a: Animation): (h: Option<int>)
    ensures h.None? <==> !FrameInRange(a)
    ensures NoFrames(a) ==> h == Some(0)
    ensures !NoFrames(a) && FrameInRange(a) ==> h == Some(CurrentDrawable(a).height)
  {
    if NoFrames(a) then Some(0)
    else if 0 <= Trunc(a.currentFrame) < |a.frames.value| then Some(a.frames.value[Trunc(a.currentFrame)].height)
    else None
  }

  /** `getWidth()`: the same for the current frame's width. */
  function GetWidth(a: Animation): (w: Option<int>)
    ensures w.None? <==> !FrameInRange(a)
    ensures NoFrames(a) ==> w == Some(0)
    ensures !NoFrames(a) && FrameInRange(a) ==> w == Some(CurrentDrawable(a).width)
  {
    if NoFrames(a) then Some(0)
    else if 0 <= Trunc(a.currentFrame) < |a.frames.value| then Some(a.frames.value[Trunc(a.currentFrame)].width)
    else None
  }

  /** The frame index stays within [0, size). */
  predicate IndexInRange(a: Animation)
    requires a.frames.Some?
  {
    0.0 <= a.currentFrame < |a.frames.value| as real
  }

  /**
   * `advance()`: add `speed`; on reaching the frame count, step back when
   * locked, otherwise restart at 0. (A null frame list throws in Java.)
   */
  function Advance(a: Animation): (r: Animation)
    requires a.frames.Some?
    ensures r == a.(currentFrame := r.currentFrame)
    ensures a.currentFrame + a.speed < |a.frames.value| as real ==> r.currentFrame == a.currentFrame + a.speed
    ensures a.currentFrame + a.speed >= |a.frames.value| as real ==>
              r.currentFrame == (if a.lock then a.currentFrame else 0.0)
    ensures a.speed >= 0.0 && IndexInRange(a) ==> IndexInRange(r)
  {
    var size := |a.frames.value| as real;
    var next := a.currentFrame + a.speed;
    if next >= size && a.lock then a.(currentFrame := next - a.speed)
    else if next >= size then a.(currentFrame := 0.0)
    else a.(currentFrame := next)
  }

  /** `reset()`. */
  function Reset(a: Animation): (r: Animation)
    ensures r == a.(currentFrame := 0.0)
  {
    a.(currentFrame := 0.0)
  }

  /** `clone()`: the same frames and speed, at frame 0, and never locked. */
  function Clone(a: Animation): (r: Animation)
    ensures r.frames == a.frames && r.speed == a.speed
    ensures r.currentFrame == 0.0 && !r.lock
  {
    NewAnimation(a.frames, a.speed)
  }

  /** Ready to advance: frames exist, the speed is not negative and the index is in [0, size). */
  predicate Lively(a: Animation) {
    a.frames.Some? && a.speed >= 0.0 && IndexInRange(a)
  }

  /** A frame index in [0, size) selects a frame. */
  lemma IndexSelectsFrame(a: Animation)
    requires a.frames.Some? && IndexInRange(a)
    ensures FrameInRange(a)
  {
  }

  function AdvanceTimes(a: Animation, k: nat): (r: Animation)
    requires a.frames.Some?
    ensures r.frames == a.frames && r.lock == a.lock && r.speed == a.speed
    decreases k
  {
    if k == 0 then a else AdvanceTimes(Advance(a), k - 1)
  }

  /** With a non-negative speed the index never leaves [0, size), however often it advances. */
  lemma {:induction false} AdvanceKeepsRange(a: Animation, k: nat)
    requires a.frames.Some? && a.speed >= 0.0 && IndexInRange(a)
    ensures IndexInRange(AdvanceTimes(a, k))
    decreases k
  {
    if k > 0 {
      AdvanceKeepsRange(Advance(a), k - 1);
    }
  }

  /** A locked animation whose next step would overflow stays on its frame forever. */
  lemma {:induction false} LockedHoldsForever(a: Animation, k: nat)
    requires a.frames.Some? && a.lock && a.currentFrame + a.speed >= |a.frames.value| as real
    ensures AdvanceTimes(a, k) == a
    decreases k
  {
    if k > 0 {
      assert Advance(a) == a;
      LockedHoldsForever(a, k - 1);
    }
  }

  /** An unlocked animation of n frames at speed 1 returns to frame 0 after n steps. */
  lemma {:induction false} UnitSpeedCycles(a: Animation, k: nat)
    requires a.frames.Some? && !a.lock && a.speed == 1.0
    requires a.currentFrame == 0.0 && k <= |a.frames.value|
    ensures AdvanceTimes(a, k).currentFrame == (if k == |a.frames.value| then 0.0 else k as real)
  {
    var n := |a.frames.value|;
    if k > 0 {
      var j: nat := k - 1;
      UnitSpeedCycles(a, j);
      AdvanceTimesSplit(a, j);
      var b := AdvanceTimes(a, j);
      assert b.currentFrame == j as real && !b.lock && b.speed == 1.0 && b.frames == a.frames;
    }
  }

  lemma {:induction false} AdvanceTimesSplit(a: Animation, j: nat)
    requires a.frames.Some?
    ensures AdvanceTimes(a, j + 1) == Advance(AdvanceTimes(a, j))
    decreases j
  {
    if j > 0 {
      AdvanceTimesSplit(Advance(a), j - 1);
    }
  }
}
