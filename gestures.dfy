/**
 * The gesture classifier: a pure function from the 21 landmarks of one
 * detected hand to a gesture label and a confidence score.
 *
 * Coordinates are pixels, modelled as `real`. The source compares a square
 * root distance with the threshold; here the comparison is made on squared
 * distances, and `CloseMatchesDistance` proves the two agree.
 */
module GestureRecognition {
  import opened Wrappers

  /** One tracked point of the hand: pixel x, pixel y and relative depth z. */
  datatype Landmark = Landmark(x: real, y: real, z: real)

  /** What the hand detector delivers for one frame: nothing, or a list of landmarks. */
  type Detection = Option<seq<Landmark>>

  const LandmarkCount: nat := 21

  // Indices of the anatomical layout that the classifier reads.
  const ThumbTip: nat := 4
  const IndexPip: nat := 6
  const IndexTip: nat := 8
  const MiddlePip: nat := 10
  const MiddleTip: nat := 12
  const RingPip: nat := 14
  const RingTip: nat := 16
  const PinkyPip: nat := 18
  const PinkyTip: nat := 20

  /** The only landmarks whose position can influence the result. */
  const KeyPoints: set<nat> := {IndexPip, IndexTip, MiddlePip, MiddleTip, RingPip, RingTip, PinkyPip, PinkyTip}

  const DefaultThreshold: real := 30.0

  datatype Gesture = NoGesture | LeftClick | RightClick | ScrollUp | ScrollDown

  datatype Recognition = Recognition(gesture: Gesture, confidence: real)

  const NoRecognition := Recognition(NoGesture, 0.0)

  /** A landmark list the classifier accepts: present and at least 21 entries long. */
  predicate WellFormed(d: Detection) {
    d.Some? && |d.value| >= LandmarkCount
  }

  /** The square of the planar distance of two landmarks; depth is ignored. */
  function SquaredDistance(p: Landmark, q: Landmark): (d: real)
    ensures 0.0 <= d
    ensures p.x == q.x && p.y == q.y ==> d == 0.0
  {
    var dx, dy := p.x - q.x, p.y - q.y;
    SquareFacts(dx);
    SquareFacts(dy);
    dx * dx + dy * dy
  }

  /** A square is non-negative and zero only at zero. */
  lemma SquareFacts(a: real)
    ensures 0.0 <= a * a
    ensures a != 0.0 ==> 0.0 < a * a
  {
  }

  /** The distance does not depend on the order of the two landmarks. */
  lemma SquaredDistanceSymmetric(p: Landmark, q: Landmark)
    ensures SquaredDistance(p, q) == SquaredDistance(q, p)
  {
    NegatedSquare(p.x - q.x);
    NegatedSquare(p.y - q.y);
  }

  lemma NegatedSquare(a: real)
    ensures (-a) * (-a) == a * a
  {
  }

  /** The planar distance of `p` and `q` is below `threshold` (depth is ignored). */
  predicate Close(p: Landmark, q: Landmark, threshold: real): (b: bool)
    ensures b ==> 0.0 < threshold
  {
    0.0 < threshold && SquaredDistance(p, q) < threshold * threshold
  }

  /** Two landmarks at the same planar position are close under every positive threshold. */
  lemma CloseAtSamePoint(p: Landmark, q: Landmark, threshold: real)
    requires p.x == q.x && p.y == q.y
    ensures Close(p, q, threshold) <==> 0.0 < threshold
  {
    CloseMatchesDistance(p, q, threshold, 0.0);
  }

  /** Closeness is symmetric, so the order of the pairs in the rules is immaterial. */
  lemma CloseSymmetric(p: Landmark, q: Landmark, threshold: real)
    ensures Close(p, q, threshold) == Close(q, p, threshold)
  {
    SquaredDistanceSymmetric(p, q);
  }

  /** A finger counts as extended when its tip lies below (larger y than) its middle joint. */
  predicate Extended(lm: seq<Landmark>, tip: nat, pip: nat): (b: bool)
    requires tip < |lm| && pip < |lm|
    ensures b ==> tip != pip
    ensures lm[tip].y <= lm[pip].y ==> !b
  {
    lm[tip].y > lm[pip].y
  }

  /**
   * `Close` is exactly "the Euclidean distance is below the threshold", for
   * every non-negative square root `dist` of the squared distance.
   */
  lemma CloseMatchesDistance(p: Landmark, q: Landmark, threshold: real, dist: real)
    requires 0.0 <= dist && dist * dist == SquaredDistance(p, q)
    ensures Close(p, q, threshold) <==> dist < threshold
  {
    var sq := SquaredDistance(p, q);
    if dist < threshold {
      calc {
        sq;
      ==
        dist * dist;
      <= { MultiplyMonotone(dist, dist, threshold); }
        dist * threshold;
      < { MultiplyStrict(threshold, dist, threshold); }
        threshold * threshold;
      }
    } else if 0.0 < threshold {
      calc {
        threshold * threshold;
      <= { MultiplyMonotone(threshold, threshold, dist); }
        threshold * dist;
      <= { MultiplyMonotone(dist, threshold, dist); }
        dist * dist;
      ==
        sq;
      }
    }
  }

  lemma MultiplyMonotone(k: real, a: real, b: real)
    requires 0.0 <= k && a <= b
    ensures k * a <= k * b
  {
  }

  lemma MultiplyStrict(k: real, a: real, b: real)
    requires 0.0 < k && a < b
    ensures a * k < b * k
  {
  }

  /**
   * The classifier object. `prevY` is set at construction and never read.
   */
  datatype GestureRecognizer = GestureRecognizer(distanceThreshold: real, prevY: real)
  {
    /**
     * Classify one frame. Four rules are tried in a fixed order and the
     * first that matches wins; an absent or short landmark list gives no gesture.
     */
    function Recognize(d: Detection): (r: Recognition)
      ensures !WellFormed(d) ==> r == NoRecognition
      ensures r.gesture != ScrollUp
      ensures r.gesture == NoGesture <==> r.confidence == 0.0
      ensures r.gesture in {LeftClick, RightClick} ==> r.confidence == 0.9
      ensures r.gesture == ScrollDown ==> r.confidence == 0.8
      ensures 0.0 <= r.confidence <= 1.0
    {
      if d.None? || |d.value| < LandmarkCount then NoRecognition
      else
        var lm := d.value;
        var index, middle, ring := lm[IndexTip], lm[MiddleTip], lm[RingTip];
        var indexMiddleClose := Close(index, middle, distanceThreshold);
        var middleRingClose := Close(middle, ring, distanceThreshold);
        var indexExtended := Extended(lm, IndexTip, IndexPip);
        var middleExtended := Extended(lm, MiddleTip, MiddlePip);
        var ringExtended := Extended(lm, RingTip, RingPip);
        var pinkyExtended := Extended(lm, PinkyTip, PinkyPip);
        if indexExtended && middleExtended && indexMiddleClose then
          Recognition(LeftClick, 0.9)
        else if middleExtended && ringExtended && middleRingClose then
          Recognition(RightClick, 0.9)
        else if indexExtended && middleExtended && ringExtended && indexMiddleClose && middleRingClose then
          Recognition(ScrollUp, 0.8)
        else if pinkyExtended && indexExtended && middleExtended then
          Recognition(ScrollDown, 0.8)
        else
          NoRecognition
    }
  }

  const DefaultRecognizer := GestureRecognizer(DefaultThreshold, 0.0)

  // ---------------------------------------------------------------------
  // The classification as a table of guarded rules, tried top to bottom.
  // ---------------------------------------------------------------------

  /** The six facts about a hand that the rules look at. */
  datatype Fingers = Fingers(
    indexExtended: bool, middleExtended: bool, ringExtended: bool, pinkyExtended: bool,
    indexMiddleClose: bool, middleRingClose: bool)

  function FingersOf(lm: seq<Landmark>, threshold: real): Fingers
    requires |lm| >= LandmarkCount
  {
    Fingers(
      Extended(lm, IndexTip, IndexPip), Extended(lm, MiddleTip, MiddlePip),
      Extended(lm, RingTip, RingPip), Extended(lm, PinkyTip, PinkyPip),
      Close(lm[IndexTip], lm[MiddleTip], threshold), Close(lm[MiddleTip], lm[RingTip], threshold))
  }

  datatype Rule = Rule(guard: Fingers -> bool, outcome: Recognition)

  const Rules: seq<Rule> := [
    Rule((f: Fingers) => f.indexExtended && f.middleExtended && f.indexMiddleClose, Recognition(LeftClick, 0.9)),
    Rule((f: Fingers) => f.middleExtended && f.ringExtended && f.middleRingClose, Recognition(RightClick, 0.9)),
    Rule((f: Fingers) => f.indexExtended && f.middleExtended && f.ringExtended && f.indexMiddleClose && f.middleRingClose,
         Recognition(ScrollUp, 0.8)),
    Rule((f: Fingers) => f.pinkyExtended && f.indexExtended && f.middleExtended, Recognition(ScrollDown, 0.8))
  ]

  /** First match wins; no match gives no gesture. */
  function FirstMatch(rules: seq<Rule>, f: Fingers): (r: Recognition)
    ensures r == NoRecognition || exists k :: 0 <= k < |rules| && rules[k].guard(f) && r == rules[k].outcome
    ensures (forall m :: 0 <= m < |rules| ==> !rules[m].guard(f)) ==> r == NoRecognition
  {
    if rules == [] then NoRecognition
    else if rules[0].guard(f) then rules[0].outcome
    else
      var r := FirstMatch(rules[1..], f);
      assert r != NoRecognition ==> exists k :: 1 <= k < |rules| && rules[k].guard(f) && r == rules[k].outcome by {
        if r != NoRecognition {
          var k :| 0 <= k < |rules[1..]| && rules[1..][k].guard(f) && r == rules[1..][k].outcome;
          assert rules[k + 1] == rules[1..][k];
        }
      }
      r
  }

  /** The rule returned is the first whose guard holds. */
  lemma {:induction false} FirstMatchIsFirst(rules: seq<Rule>, f: Fingers, k: nat)
    requires k < |rules| && rules[k].guard(f)
    requires forall m :: 0 <= m < k ==> !rules[m].guard(f)
    ensures FirstMatch(rules, f) == rules[k].outcome
  {
    if k > 0 {
      assert forall m :: 0 <= m < k - 1 ==> rules[1..][m] == rules[m + 1];
      FirstMatchIsFirst(rules[1..], f, k - 1);
    }
  }

  /** The classifier agrees with the rule table on every well-formed hand. */
  lemma RecognizeFollowsRules(g: GestureRecognizer, d: Detection)
    requires WellFormed(d)
    ensures g.Recognize(d) == FirstMatch(Rules, FingersOf(d.value, g.distanceThreshold))
  {
    var f := FingersOf(d.value, g.distanceThreshold);
    var r1, r2, r3 := Rules[1..], Rules[1..][1..], Rules[1..][1..][1..];
    assert r3 == [Rules[3]] && r3[1..] == [];
    assert FirstMatch(r3, f) == if Rules[3].guard(f) then Rules[3].outcome else NoRecognition;
    assert FirstMatch(r2, f) == if Rules[2].guard(f) then Rules[2].outcome else FirstMatch(r3, f);
    assert FirstMatch(r1, f) == if Rules[1].guard(f) then Rules[1].outcome else FirstMatch(r2, f);
  }

  // ---------------------------------------------------------------------
  // Properties of the classifier.
  // ---------------------------------------------------------------------

  /** An absent, empty or short landmark list is (None, 0). */
  lemma ShortInputIsNone(g: GestureRecognizer, d: Detection)
    requires d.None? || |d.value| < LandmarkCount
    ensures g.Recognize(d) == NoRecognition
  {
  }

  /** The rule order as seen from the result: left_click exactly when its own guard holds. */
  lemma LeftClickExactly(g: GestureRecognizer, d: Detection)
    requires WellFormed(d)
    ensures g.Recognize(d) == Recognition(LeftClick, 0.9) <==>
      Extended(d.value, IndexTip, IndexPip) && Extended(d.value, MiddleTip, MiddlePip) &&
      Close(d.value[IndexTip], d.value[MiddleTip], g.distanceThreshold)
  {
  }

  /** right_click only when the left_click guard fails and its own guard holds. */
  lemma RightClickExactly(g: GestureRecognizer, d: Detection)
    requires WellFormed(d)
    ensures g.Recognize(d).gesture == RightClick <==>
      !(Extended(d.value, IndexTip, IndexPip) && Extended(d.value, MiddleTip, MiddlePip) &&
        Close(d.value[IndexTip], d.value[MiddleTip], g.distanceThreshold)) &&
      Extended(d.value, MiddleTip, MiddlePip) && Extended(d.value, RingTip, RingPip) &&
      Close(d.value[MiddleTip], d.value[RingTip], g.distanceThreshold)
  {
  }

  /** The scroll_up guard implies the left_click guard, which is tried first. */
  lemma ScrollUpGuardImpliesLeftClick(f: Fingers)
    requires Rules[2].guard(f)
    ensures Rules[0].guard(f)
  {
  }

  /**
   * scroll_down exactly when pinky, index and middle are extended, the index
   * and middle tips are not close, and the right_click rule fails.
   */
  lemma ScrollDownExactly(g: GestureRecognizer, d: Detection)
    requires WellFormed(d)
    ensures g.Recognize(d) == Recognition(ScrollDown, 0.8) <==>
      Extended(d.value, PinkyTip, PinkyPip) && Extended(d.value, IndexTip, IndexPip) &&
      Extended(d.value, MiddleTip, MiddlePip) &&
      !Close(d.value[IndexTip], d.value[MiddleTip], g.distanceThreshold) &&
      !(Extended(d.value, RingTip, RingPip) &&
        Close(d.value[MiddleTip], d.value[RingTip], g.distanceThreshold))
  {
  }

  /** Two landmark lists that agree on the x and y of the key points. */
  predicate SameKeyPoints(a: seq<Landmark>, b: seq<Landmark>)
    requires |a| >= LandmarkCount && |b| >= LandmarkCount
  {
    forall i :: i in KeyPoints ==> a[i].x == b[i].x && a[i].y == b[i].y
  }

  /**
   * The result depends only on the x and y of landmarks 6, 8, 10, 12, 14, 16,
   * 18 and 20: the thumb, every other landmark, every depth and any extra
   * entries are irrelevant.
   */
  lemma RecognizeReadsOnlyKeyPoints(g: GestureRecognizer, a: Detection, b: Detection)
    requires WellFormed(a) && WellFormed(b) && SameKeyPoints(a.value, b.value)
    ensures g.Recognize(a) == g.Recognize(b)
  {
    assert IndexPip in KeyPoints && IndexTip in KeyPoints && MiddlePip in KeyPoints && MiddleTip in KeyPoints;
    assert RingPip in KeyPoints && RingTip in KeyPoints && PinkyPip in KeyPoints && PinkyTip in KeyPoints;
    assert FingersOf(a.value, g.distanceThreshold) == FingersOf(b.value, g.distanceThreshold);
    RecognizeFollowsRules(g, a);
    RecognizeFollowsRules(g, b);
  }

  /** The stored `prevY` never influences a classification. */
  lemma RecognizeIgnoresPrevY(g: GestureRecognizer, prevY: real, d: Detection)
    ensures g.(prevY := prevY).Recognize(d) == g.Recognize(d)
  {
  }
}
