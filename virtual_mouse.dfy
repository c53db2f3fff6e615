/**
 * The per-frame logic of the virtual mouse: map the index fingertip from
 * camera space to the screen, move the cursor, then fire at most one click
 * or scroll, each class of action debounced by its own timer.
 *
 * `Frame` is the specification of one frame and `Trace` of a run of frames;
 * the class `VirtualMouseApp` holds the two timers and is proved to follow
 * them. Time is `now`, in seconds, passed in by the caller.
 */
module VirtualMouse {
  import opened Wrappers
  import opened GestureRecognition
  import opened MouseControl

  /** The camera frame size requested at start-up, in pixels. */
  const FrameWidth: int := 1280
  const FrameHeight: int := 720

  /** Minimum time, in seconds, between two clicks and between two scrolls. */
  const ClickCooldown: real := 0.3
  const ScrollCooldown: real := 0.2

  // ---------------------------------------------------------------------
  // Camera to screen mapping.
  // ---------------------------------------------------------------------

  /** Converting a float to an integer truncates toward zero. */
  function Trunc(v: real): (n: int)
    ensures 0.0 <= v ==> 0 <= n && n as real <= v < n as real + 1.0
    ensures v < 0.0 ==> n <= 0 && n as real - 1.0 < v <= n as real
  {
    if 0.0 <= v then v.Floor else -((-v).Floor)
  }

  /**
   * Piecewise-linear interpolation of `v` from `[0, frameSize]` onto
   * `[0, screenSize]`; outside the camera range it holds the end values.
   */
  function Interp(v: real, frameSize: int, screenSize: int): (r: real)
    requires 0 < frameSize
    ensures v <= 0.0 ==> r == 0.0
    ensures frameSize as real <= v ==> r == screenSize as real
    ensures 0 <= screenSize ==> 0.0 <= r <= screenSize as real
  {
    if v <= 0.0 then 0.0
    else if frameSize as real <= v then screenSize as real
    else
      ScaleWithin(v, frameSize as real, screenSize as real);
      Scale(v, frameSize as real, screenSize as real)
  }

  /** The linear part of the interpolation: `v` of `f` camera pixels, in screen pixels. */
  function Scale(v: real, f: real, s: real): real
    requires 0.0 < f
  {
    v * s / f
  }

  /** Scaling a point inside the camera range lands inside the screen range. */
  lemma ScaleWithin(v: real, f: real, s: real)
    requires 0.0 < v < f
    ensures 0.0 <= s ==> 0.0 <= Scale(v, f, s) <= s
  {
    if 0.0 <= s {
      assert s * v <= s * f by { MultiplyMonotone(s, v, f); }
      assert v * s / f <= s by { DivideBound(v * s, f, s); }
    }
  }

  /** Scaling by a non-negative ratio keeps order. */
  lemma ScaleMonotone(v: real, w: real, f: real, s: real)
    requires v <= w && 0.0 < f && 0.0 <= s
    ensures Scale(v, f, s) <= Scale(w, f, s)
  {
    var a, b := v * s, w * s;
    assert a <= b by { MultiplyMonotone(s, v, w); }
    DivideMonotone(a, b, f);
  }

  lemma DivideBound(a: real, f: real, s: real)
    requires 0.0 < f && a <= f * s
    ensures a / f <= s
  {
  }

  lemma DivideMonotone(a: real, b: real, f: real)
    requires a <= b && 0.0 < f
    ensures a / f <= b / f
  {
    assert b / f - a / f == (b - a) / f;
  }

  /** The screen coordinate for camera coordinate `v`. */
  function MapToScreen(v: real, frameSize: int, screenSize: int): (r: int)
    requires 0 < frameSize
    ensures 0 <= screenSize ==> 0 <= r <= screenSize
    ensures v <= 0.0 ==> r == 0
    ensures frameSize as real <= v ==> r == screenSize
  {
    Trunc(Interp(v, frameSize, screenSize))
  }

  /** Moving the fingertip right (or down) never moves the cursor left (or up). */
  lemma {:induction false} MapToScreenMonotone(v: real, w: real, frameSize: int, screenSize: int)
    requires 0 < frameSize && 0 <= screenSize && v <= w
    ensures MapToScreen(v, frameSize, screenSize) <= MapToScreen(w, frameSize, screenSize)
  {
    var f, s := frameSize as real, screenSize as real;
    var a, b := Interp(v, frameSize, screenSize), Interp(w, frameSize, screenSize);
    if v <= 0.0 {
      assert a == 0.0 <= b;
    } else if f <= w {
      assert b == s && a <= s;
    } else {
      assert a == Scale(v, f, s) && b == Scale(w, f, s);
      ScaleMonotone(v, w, f, s);
    }
    assert a.Floor <= b.Floor;
  }

  /** The middle of the camera frame maps to the middle of the screen, rounded down. */
  lemma MapToScreenMidpoint(frameSize: int, screenSize: int)
    requires 0 < frameSize && 0 <= screenSize
    ensures MapToScreen(frameSize as real / 2.0, frameSize, screenSize) == screenSize / 2
  {
    var f, s := frameSize as real, screenSize as real;
    assert Scale(f / 2.0, f, s) == s / 2.0;
    assert Interp(f / 2.0, frameSize, screenSize) == s / 2.0;
    var h := screenSize / 2;
    assert screenSize == 2 * h || screenSize == 2 * h + 1;
    assert h as real <= s / 2.0 < h as real + 1.0;
    assert (s / 2.0).Floor == h;
  }

  // ---------------------------------------------------------------------
  // Debounced actions.
  // ---------------------------------------------------------------------

  /** The time of the last click and of the last scroll. */
  datatype Cooldowns = Cooldowns(click: real, scroll: real)

  const InitialCooldowns := Cooldowns(0.0, 0.0)

  /**
   * The action chain of one frame: the first branch whose gesture matches and
   * whose timer has expired fires its action and restarts its timer.
   */
  function Dispatch(c: Cooldowns, g: Gesture, now: real): (r: (Cooldowns, seq<Event>))
    ensures |r.1| <= 1
    ensures r.1 == [] ==> r.0 == c
    ensures r.1 != [] ==> r.1[0].Click? || r.1[0].Scroll?
    ensures r.1 != [] && r.1[0].Click? ==> now - c.click > ClickCooldown && r.0 == c.(click := now)
    ensures r.1 != [] && r.1[0].Scroll? ==> now - c.scroll > ScrollCooldown && r.0 == c.(scroll := now)
    ensures g in {LeftClick, RightClick} ==> r.0.scroll == c.scroll
    ensures g in {ScrollUp, ScrollDown} ==> r.0.click == c.click
    ensures g == NoGesture ==> r == (c, [])
  {
    if g == LeftClick && now - c.click > ClickCooldown then (c.(click := now), [Click(Left)])
    else if g == RightClick && now - c.click > ClickCooldown then (c.(click := now), [Click(Right)])
    else if g == ScrollUp && now - c.scroll > ScrollCooldown then (c.(scroll := now), [Scroll(DefaultScrollAmount)])
    else if g == ScrollDown && now - c.scroll > ScrollCooldown then (c.(scroll := now), [Scroll(-DefaultScrollAmount)])
    else (c, [])
  }

  /** Each gesture fires its action exactly when its class's timer, compared strictly, has expired. */
  lemma DispatchFiresExactly(c: Cooldowns, g: Gesture, now: real)
    ensures Dispatch(c, g, now).1 == [Click(Left)] <==> g == LeftClick && now - c.click > ClickCooldown
    ensures Dispatch(c, g, now).1 == [Click(Right)] <==> g == RightClick && now - c.click > ClickCooldown
    ensures Dispatch(c, g, now).1 == [Scroll(3)] <==> g == ScrollUp && now - c.scroll > ScrollCooldown
    ensures Dispatch(c, g, now).1 == [Scroll(-3)] <==> g == ScrollDown && now - c.scroll > ScrollCooldown
  {
  }

  /** Click decisions never read the scroll timer, and scroll decisions never read the click timer. */
  lemma TimersIndependent(c: Cooldowns, g: Gesture, now: real, t: real)
    ensures g in {LeftClick, RightClick} ==>
      Dispatch(c.(scroll := t), g, now) == (Dispatch(c, g, now).0.(scroll := t), Dispatch(c, g, now).1)
    ensures g in {ScrollUp, ScrollDown} ==>
      Dispatch(c.(click := t), g, now) == (Dispatch(c, g, now).0.(click := t), Dispatch(c, g, now).1)
  {
  }

  /** With both timers at zero, the first click needs now > 0.3 and the first scroll now > 0.2. */
  lemma FirstActions(g: Gesture, now: real)
    ensures g in {LeftClick, RightClick} ==> (Dispatch(InitialCooldowns, g, now).1 != [] <==> now > 0.3)
    ensures g in {ScrollUp, ScrollDown} ==> (Dispatch(InitialCooldowns, g, now).1 != [] <==> now > 0.2)
  {
  }

  /**
   * A left-click gesture held at t0, t0 + 0.2 and t0 + 0.35 clicks at t0 and
   * at t0 + 0.35 only, once t0 is past the first cooldown.
   */
  lemma HeldClickFiresTwice(t0: real)
    requires t0 > ClickCooldown
    ensures var (c1, e1) := Dispatch(InitialCooldowns, LeftClick, t0);
            var (c2, e2) := Dispatch(c1, LeftClick, t0 + 0.2);
            var (c3, e3) := Dispatch(c2, LeftClick, t0 + 0.35);
            e1 == [Click(Left)] && e2 == [] && e3 == [Click(Left)]
  {
  }

  // ---------------------------------------------------------------------
  // One frame and a run of frames.
  // ---------------------------------------------------------------------

  /** What the detector delivered for one frame, and when the frame was handled. */
  datatype Input = Input(hand: Detection, now: real)

  /** What the loop knows besides the timers: the classifier and the screen size. */
  datatype Env = Env(recognizer: GestureRecognizer, screenWidth: int, screenHeight: int)

  /** A frame counts as having a hand when the detector returned a non-empty list. */
  predicate HandPresent(d: Detection): (b: bool)
    ensures d == None || d == Some([]) ==> !b
    ensures WellFormed(d) ==> b
  {
    d.Some? && d.value != []
  }

  /**
   * A present hand always has all 21 landmarks; the frame body reads
   * landmarks 4 to 20 unconditionally and could not proceed otherwise.
   */
  predicate Admissible(d: Detection) {
    HandPresent(d) ==> |d.value| >= LandmarkCount
  }

  predicate AllAdmissible(frames: seq<Input>) {
    forall i :: 0 <= i < |frames| ==> Admissible(frames[i].hand)
  }

  /** The cursor move for a fingertip position: mapped to the screen, then kept on it. */
  function CursorTarget(env: Env, tip: Landmark): (e: Event)
    ensures e.MoveTo?
    ensures 1 <= env.screenWidth ==> 0 <= e.x < env.screenWidth
    ensures 1 <= env.screenHeight ==> 0 <= e.y < env.screenHeight
    ensures tip.x <= 0.0 ==> e.x == 0
    ensures tip.y <= 0.0 ==> e.y == 0
    ensures 1 <= env.screenWidth && FrameWidth as real <= tip.x ==> e.x == env.screenWidth - 1
    ensures 1 <= env.screenHeight && FrameHeight as real <= tip.y ==> e.y == env.screenHeight - 1
  {
    CursorMove(
      MapToScreen(tip.x, FrameWidth, env.screenWidth),
      MapToScreen(tip.y, FrameHeight, env.screenHeight),
      env.screenWidth, env.screenHeight)
  }

  /** True for the events the action chain can send, by timer class. */
  datatype ActionClass = Clicks | Scrolls

  predicate IsAction(e: Event, k: ActionClass) {
    match k
    case Clicks => e.Click?
    case Scrolls => e.Scroll?
  }

  function Timer(c: Cooldowns, k: ActionClass): real {
    match k
    case Clicks => c.click
    case Scrolls => c.scroll
  }

  function Cooldown(k: ActionClass): real {
    match k
    case Clicks => ClickCooldown
    case Scrolls => ScrollCooldown
  }

  predicate Fired(evs: seq<Event>, k: ActionClass) {
    exists j :: 0 <= j < |evs| && IsAction(evs[j], k)
  }

  /**
   * One frame: with a hand, exactly one cursor move, first, whatever the
   * gesture and the timers, then at most one action; without a hand nothing.
   */
  function Frame(env: Env, c: Cooldowns, input: Input): (r: (Cooldowns, seq<Event>))
    requires Admissible(input.hand)
    ensures !HandPresent(input.hand) ==> r == (c, [])
    ensures HandPresent(input.hand) ==>
      1 <= |r.1| <= 2 && r.1[0] == CursorTarget(env, input.hand.value[IndexTip])
    ensures forall j :: 1 <= j < |r.1| ==> r.1[j].Click? || r.1[j].Scroll?
    ensures |r.1| <= 1 ==> r.0 == c
    ensures forall k :: Fired(r.1, k) ==>
      input.now - Timer(c, k) > Cooldown(k) && Timer(r.0, k) == input.now
    ensures forall k :: !Fired(r.1, k) ==> Timer(r.0, k) == Timer(c, k)
    ensures forall j :: 0 <= j < |r.1| ==> r.1[j] != Scroll(DefaultScrollAmount)
  {
    if !HandPresent(input.hand) then (c, [])
    else
      var recognition := env.recognizer.Recognize(input.hand);
      var move := CursorTarget(env, input.hand.value[IndexTip]);
      var (c', actions) := Dispatch(c, recognition.gesture, input.now);
      var evs := [move] + actions;
      assert forall k :: Fired(evs, k) ==> IsAction(actions[0], k) by {
        forall k | Fired(evs, k) ensures IsAction(actions[0], k) {
          var j :| 0 <= j < |evs| && IsAction(evs[j], k);
          assert j == 1;
        }
      }
      assert forall k :: IsAction(evs[|evs| - 1], k) ==> Fired(evs, k);
      (c', evs)
  }

  /** The timers after a run of frames from start-up, and the events of each frame. */
  function Trace(env: Env, frames: seq<Input>): (r: (Cooldowns, seq<seq<Event>>))
    requires AllAdmissible(frames)
    ensures |r.1| == |frames|
    decreases |frames|
  {
    if frames == [] then (InitialCooldowns, [])
    else
      var (c, events) := Trace(env, frames[..|frames| - 1]);
      var (c', evs) := Frame(env, c, frames[|frames| - 1]);
      (c', events + [evs])
  }

  /** Frame `i` of a run is handled with the timers left by the frames before it. */
  lemma {:induction false} TraceAt(env: Env, frames: seq<Input>, i: nat)
    requires AllAdmissible(frames) && i < |frames|
    ensures AllAdmissible(frames[..i])
    ensures Trace(env, frames).1[i] == Frame(env, Trace(env, frames[..i]).0, frames[i]).1
    decreases |frames|
  {
    var n := |frames|;
    var prefix, last := frames[..n - 1], frames[n - 1];
    assert frames == prefix + [last];
    TraceSnoc(env, prefix, last);
    if i < n - 1 {
      TraceAt(env, prefix, i);
      assert prefix[..i] == frames[..i] && prefix[i] == frames[i];
    } else {
      assert prefix == frames[..i];
    }
  }

  /** Every frame with a hand moves the cursor exactly once and sends at most one action. */
  lemma EveryHandFrameMovesOnce(env: Env, frames: seq<Input>, i: nat)
    requires AllAdmissible(frames) && i < |frames|
    ensures var evs := Trace(env, frames).1[i];
            (HandPresent(frames[i].hand) ==>
               1 <= |evs| <= 2 && evs[0] == CursorTarget(env, frames[i].hand.value[IndexTip]) &&
               forall j :: 1 <= j < |evs| ==> !evs[j].MoveTo?) &&
            (!HandPresent(frames[i].hand) ==> evs == [])
  {
    TraceAt(env, frames, i);
  }

  /** The application never scrolls up: the gesture that would ask for it is never recognised. */
  lemma NeverScrollsUp(env: Env, frames: seq<Input>, i: nat, j: nat)
    requires AllAdmissible(frames) && i < |frames| && j < |Trace(env, frames).1[i]|
    ensures Trace(env, frames).1[i][j] != Scroll(DefaultScrollAmount)
  {
    TraceAt(env, frames, i);
  }

  /**
   * Each timer stays at least 0, and holds the time of its class's latest
   * action: every action of the run happened after its cooldown and no later
   * than the timer shows.
   */
  lemma {:induction false} TimerBoundsActions(env: Env, frames: seq<Input>, k: ActionClass, i: nat)
    requires AllAdmissible(frames) && i < |frames| && Fired(Trace(env, frames).1[i], k)
    ensures Cooldown(k) < frames[i].now <= Timer(Trace(env, frames).0, k)
    decreases |frames|
  {
    var n := |frames|;
    var prefix := frames[..n - 1];
    var c := Trace(env, prefix).0;
    TimerNonNegative(env, prefix, k);
    if i < n - 1 {
      assert Trace(env, frames).1[i] == Trace(env, prefix).1[i];
      TimerBoundsActions(env, prefix, k, i);
    }
  }

  lemma {:induction false} TimerNonNegative(env: Env, frames: seq<Input>, k: ActionClass)
    requires AllAdmissible(frames)
    ensures 0.0 <= Timer(Trace(env, frames).0, k)
    decreases |frames|
  {
    if frames != [] {
      TimerNonNegative(env, frames[..|frames| - 1], k);
    }
  }

  /**
   * Any two actions of the same class are more than that class's cooldown
   * apart: two clicks of either button more than 0.3 s, two scrolls more
   * than 0.2 s. No assumption is made about the clock.
   */
  lemma ActionsSpaced(env: Env, frames: seq<Input>, k: ActionClass, i: nat, j: nat)
    requires AllAdmissible(frames) && i < j < |frames|
    requires Fired(Trace(env, frames).1[i], k) && Fired(Trace(env, frames).1[j], k)
    ensures frames[j].now - frames[i].now > Cooldown(k)
  {
    var prefix := frames[..j];
    TraceAt(env, frames, j);
    TraceAt(env, frames, i);
    TraceAt(env, prefix, i);
    assert prefix[..i] == frames[..i];
    TimerBoundsActions(env, prefix, k, i);
  }

  /** The same law, spelled out for clicks. */
  lemma ClicksSpaced(env: Env, frames: seq<Input>, i: nat, j: nat)
    requires AllAdmissible(frames) && i < j < |frames|
    requires Fired(Trace(env, frames).1[i], Clicks) && Fired(Trace(env, frames).1[j], Clicks)
    ensures frames[j].now - frames[i].now > 0.3
  {
    ActionsSpaced(env, frames, Clicks, i, j);
  }

  /** A hand with index and middle tips extended and touching: a left-click shape. */
  const PinchedHand: seq<Landmark> :=
    seq(LandmarkCount, i => if i == IndexTip || i == MiddleTip then Landmark(0.0, 10.0, 0.0) else Landmark(0.0, 0.0, 0.0))

  lemma PinchIsLeftClick()
    ensures DefaultRecognizer.Recognize(Some(PinchedHand)).gesture == LeftClick
  {
    assert PinchedHand[IndexTip].y == 10.0 && PinchedHand[IndexPip].y == 0.0;
    assert PinchedHand[MiddleTip].y == 10.0 && PinchedHand[MiddlePip].y == 0.0;
    assert SquaredDistance(PinchedHand[IndexTip], PinchedHand[MiddleTip]) == 0.0;
  }

  /** A pinch frame moves the cursor and then acts as a left-click gesture. */
  lemma PinchFrame(env: Env, c: Cooldowns, now: real)
    requires env.recognizer == DefaultRecognizer
    ensures var d := Dispatch(c, LeftClick, now);
            Frame(env, c, Input(Some(PinchedHand), now)) == (d.0, [CursorTarget(env, PinchedHand[IndexTip])] + d.1)
  {
    PinchIsLeftClick();
    FrameWithHand(env, c, Input(Some(PinchedHand), now));
  }

  /**
   * No hand, the pinch at 0.05 s and at 0.40 s, no hand at 1 s: the only
   * click is on the 0.40 s frame, because the click timer starts at 0.
   */
  lemma PinchFromStartUp(env: Env)
    requires env.recognizer == DefaultRecognizer
    ensures var frames := [Input(None, 0.0), Input(Some(PinchedHand), 0.05),
                           Input(Some(PinchedHand), 0.40), Input(None, 1.0)];
            AllAdmissible(frames) &&
            !Fired(Trace(env, frames).1[1], Clicks) &&
            Trace(env, frames).1[2] == [CursorTarget(env, PinchedHand[IndexTip]), Click(Left)] &&
            Trace(env, frames).1[0] == [] && Trace(env, frames).1[3] == []
  {
    var frames := [Input(None, 0.0), Input(Some(PinchedHand), 0.05),
                   Input(Some(PinchedHand), 0.40), Input(None, 1.0)];
    var p0, p1, p2 := frames[..1], frames[..2], frames[..3];
    assert p0 == [] + [frames[0]] && p1 == p0 + [frames[1]] && p2 == p1 + [frames[2]];
    assert frames == p2 + [frames[3]];
    TraceSnoc(env, [], frames[0]);
    var c0 := Trace(env, p0).0;
    PinchFrame(env, c0, 0.05);
    TraceSnoc(env, p0, frames[1]);
    var c1 := Trace(env, p1).0;
    PinchFrame(env, c1, 0.40);
    TraceSnoc(env, p1, frames[2]);
    TraceSnoc(env, p2, frames[3]);
  }

  /**
   * The same frames on a clock far from 0, as an epoch clock is: both pinch
   * frames click, because they are 0.35 s apart and the first is well past
   * the start value of the timer.
   */
  lemma PinchOnEpochClock(env: Env, t: real)
    requires env.recognizer == DefaultRecognizer && t >= 1.0
    ensures var frames := [Input(None, t), Input(Some(PinchedHand), t + 0.05),
                           Input(Some(PinchedHand), t + 0.40), Input(None, t + 1.0)];
            AllAdmissible(frames) &&
            Trace(env, frames).1[1] == [CursorTarget(env, PinchedHand[IndexTip]), Click(Left)] &&
            Trace(env, frames).1[2] == [CursorTarget(env, PinchedHand[IndexTip]), Click(Left)] &&
            Trace(env, frames).1[0] == [] && Trace(env, frames).1[3] == []
  {
    var frames := [Input(None, t), Input(Some(PinchedHand), t + 0.05),
                   Input(Some(PinchedHand), t + 0.40), Input(None, t + 1.0)];
    var p0, p1, p2 := frames[..1], frames[..2], frames[..3];
    assert p0 == [] + [frames[0]] && p1 == p0 + [frames[1]] && p2 == p1 + [frames[2]];
    assert frames == p2 + [frames[3]];
    TraceSnoc(env, [], frames[0]);
    var c0 := Trace(env, p0).0;
    PinchFrame(env, c0, t + 0.05);
    TraceSnoc(env, p0, frames[1]);
    var c1 := Trace(env, p1).0;
    PinchFrame(env, c1, t + 0.40);
    TraceSnoc(env, p1, frames[2]);
    TraceSnoc(env, p2, frames[3]);
  }

  /** The events of a run, in order, as the operating system receives them. */
  function Flatten(trace: seq<seq<Event>>): seq<Event>
    decreases |trace|
  {
    if trace == [] then [] else Flatten(trace[..|trace| - 1]) + trace[|trace| - 1]
  }

  /** A frame with a hand: the cursor move, then what the action chain sends. */
  lemma FrameWithHand(env: Env, c: Cooldowns, input: Input)
    requires Admissible(input.hand) && HandPresent(input.hand)
    ensures var d := Dispatch(c, env.recognizer.Recognize(input.hand).gesture, input.now);
            Frame(env, c, input) == (d.0, [CursorTarget(env, input.hand.value[IndexTip])] + d.1)
  {
  }

  /** Handling one more frame extends the run by that frame's events. */
  lemma TraceSnoc(env: Env, frames: seq<Input>, input: Input)
    requires AllAdmissible(frames) && Admissible(input.hand)
    ensures AllAdmissible(frames + [input])
    ensures var (c, evs) := Frame(env, Trace(env, frames).0, input);
            Trace(env, frames + [input]) == (c, Trace(env, frames).1 + [evs]) &&
            Flatten(Trace(env, frames + [input]).1) == Flatten(Trace(env, frames).1) + evs
  {
    var extended := frames + [input];
    assert extended[..|extended| - 1] == frames;
    var trace := Trace(env, extended).1;
    assert trace[..|trace| - 1] == Trace(env, frames).1;
  }

  // ---------------------------------------------------------------------
  // The application object.
  // ---------------------------------------------------------------------

  class VirtualMouseApp {
    const gestureRecognizer: GestureRecognizer
    const mouseController: MouseController
    const screenWidth: int
    const screenHeight: int
    var clickCooldown: real
    var scrollCooldown: real
    /** The frames handled so far. */
    ghost var history: seq<Input>

    function Environment(): Env {
      Env(gestureRecognizer, screenWidth, screenHeight)
    }

    /** The timers and everything sent to the operating system follow `Trace` of the history. */
    ghost predicate Valid()
      reads this, mouseController
    {
      && screenWidth == mouseController.screenWidth
      && screenHeight == mouseController.screenHeight
      && AllAdmissible(history)
      && Cooldowns(clickCooldown, scrollCooldown) == Trace(Environment(), history).0
      && mouseController.sent == Flatten(Trace(Environment(), history).1)
    }

    /** Start-up, given the resolution the display reports. */
    constructor (displayWidth: int, displayHeight: int)
      ensures Valid() && fresh(mouseController) && history == []
      ensures gestureRecognizer == DefaultRecognizer
      ensures screenWidth == displayWidth && screenHeight == displayHeight
      ensures clickCooldown == 0.0 && scrollCooldown == 0.0
    {
      gestureRecognizer := DefaultRecognizer;
      var controller := new MouseController(displayWidth, displayHeight);
      var width, height := controller.GetScreenSize();
      mouseController := controller;
      screenWidth, screenHeight := width, height;
      clickCooldown, scrollCooldown := 0.0, 0.0;
      history := [];
    }

    /** Handle one camera frame at time `now`. */
    method Step(hand: Detection, now: real)
      requires Valid() && Admissible(hand)
      modifies this, mouseController
      ensures Valid() && history == old(history) + [Input(hand, now)]
      ensures var (c, evs) := Frame(Environment(), old(Cooldowns(clickCooldown, scrollCooldown)), Input(hand, now));
              Cooldowns(clickCooldown, scrollCooldown) == c &&
              mouseController.sent == old(mouseController.sent) + evs
    {
      ghost var before := Cooldowns(clickCooldown, scrollCooldown);
      ghost var sentBefore := mouseController.sent;
      if hand.Some? && |hand.value| > 0 {
        FrameWithHand(Environment(), before, Input(hand, now));
        var gesture := gestureRecognizer.Recognize(hand).gesture;
        var indexFinger := hand.value[IndexTip];
        var x := MapToScreen(indexFinger.x, FrameWidth, screenWidth);
        var y := MapToScreen(indexFinger.y, FrameHeight, screenHeight);
        mouseController.MoveMouse(x, y);
        HandleGesture(gesture, now);
      }
      assert Cooldowns(clickCooldown, scrollCooldown) == Frame(Environment(), before, Input(hand, now)).0;
      assert mouseController.sent == sentBefore + Frame(Environment(), before, Input(hand, now)).1;
      TraceSnoc(Environment(), history, Input(hand, now));
      history := history + [Input(hand, now)];
    }

    /**
     * The action chain of a frame with a hand: at most one click or scroll,
     * each gated by its class's timer.
     */
    method HandleGesture(gesture: Gesture, now: real)
      modifies this`clickCooldown, this`scrollCooldown, mouseController
      ensures var (c, actions) := Dispatch(old(Cooldowns(clickCooldown, scrollCooldown)), gesture, now);
              Cooldowns(clickCooldown, scrollCooldown) == c &&
              mouseController.sent == old(mouseController.sent) + actions
    {
      if gesture == LeftClick && now - clickCooldown > ClickCooldown {
        mouseController.LeftClick();
        clickCooldown := now;
      } else if gesture == RightClick && now - clickCooldown > ClickCooldown {
        mouseController.RightClick();
        clickCooldown := now;
      } else if gesture == ScrollUp && now - scrollCooldown > ScrollCooldown {
        mouseController.ScrollUp();
        scrollCooldown := now;
      } else if gesture == ScrollDown && now - scrollCooldown > ScrollCooldown {
        mouseController.ScrollDown();
        scrollCooldown := now;
      }
    }

    /** The frame loop, over the frames the camera delivers until it stops or the user quits. */
    method Run(camera: seq<Input>)
      requires Valid() && AllAdmissible(camera)
      modifies this, mouseController
      ensures Valid() && history == old(history) + camera
    {
      var i := 0;
      while i < |camera|
        invariant 0 <= i <= |camera|
        invariant Valid() && history == old(history) + camera[..i]
      {
        Step(camera[i].hand, camera[i].now);
        assert camera[..i + 1] == camera[..i] + [camera[i]];
        i := i + 1;
      }
    }
  }
}
