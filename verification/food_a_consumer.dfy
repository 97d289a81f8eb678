/**
  `food_a_callback`: the Food A stream's consumer. Parsing, the append, the
  threshold test and the clear all sit inside one `try` block, so a message
  that fails to parse does nothing at all. It alerts on a rise of strictly
  more than 1 degree between neighbouring readings of a 20-reading window.
 */
module FoodAConsumer {
  import opened Wrappers
  import opened Text
  import opened Message
  import opened TrendWindow
  import opened Blocks
  import opened Arith

  /** `FOOD_TIME_WINDOW`, in minutes. */
  const TimeWindow: real := 10.0
  /** `FOOD_DEQUE_MAX_LENGTH = int(FOOD_TIME_WINDOW * 2)`: one reading every half minute. */
  const DequeMaxLength: nat := (TimeWindow * 2.0).Floor as nat
  /** `FOOD_TEMP_CHANGE_THRESHOLD`, in degrees F. */
  const TempChangeThreshold: real := 1.0

  /** Food A's instance of the shared detector: a strict rise of 1 degree over 20 readings. */
  const FoodA: Params := Params(DequeMaxLength, TempChangeThreshold, Rise, false)

  /** `any(temp_change > FOOD_TEMP_CHANGE_THRESHOLD for temp_change in temp_changes)`. */
  predicate ThresholdMet(changes: seq<real>) {
    exists j :: 0 <= j < |changes| && changes[j] > TempChangeThreshold
  }

  /** Some neighbouring pair of `w` rises by more than 1 degree. */
  predicate HasRise(w: seq<real>) {
    exists k :: 0 < k < |w| && w[k] - w[k - 1] > TempChangeThreshold
  }

  /**
    `food_a_callback` on the deque `q`, in the file's own control flow, once the
    parsing statements of its `try` block have produced `m`.
   */
  function Callback(q: seq<real>, m: Parsed): (o: Outcome)
    requires |q| <= DequeMaxLength
    ensures o.Handled?
    ensures |q| < 20 ==> |o.deque| < 20
    ensures !m.Reading? ==> o == Handled(q, None)
    ensures |q| < 19 ==> o.alert == None
  {
    match m
    case Reading(timestamp, temperature) =>
      var q1 := Append(q, temperature, DequeMaxLength);
      assert DequeMaxLength == 20;
      assert |q1| < 20 ==> |q1| % 20 == |q1| by {
        if |q1| < 20 { ModSmall(|q1|, 20); }
      }
      if |q1| >= 20 then
        var met := ThresholdMet(Changes(q1, 20));
        Handled(if |q1| % 20 == 0 then [] else q1, if met then Some(timestamp) else None)
      else
        Handled(q1, None)
    case _ => Handled(q, None)
  }

  /** The file's own threshold test is the shared detector's test with the Food A parameters. */
  lemma RiseIsAlarm(w: seq<real>)
    requires |w| == 20
    ensures ThresholdMet(Changes(w, 20)) <==> AnyCrosses(FoodA, Changes(w, 20))
    ensures HasRise(w) <==> AdjacentAlarm(FoodA, w)
    ensures ThresholdMet(Changes(w, 20)) <==> HasRise(w)
  {
    ChangesCoverWindow(FoodA, w);
    var ds := Changes(w, 20);
    assert forall j :: 0 <= j < |ds| ==> (ds[j] > TempChangeThreshold <==> Crosses(FoodA, ds[j]));
    assert forall k :: 0 < k < |w| ==>
      (w[k] - w[k - 1] > TempChangeThreshold <==> Crosses(FoodA, w[k] - w[k - 1]));
  }

  /**
    The reading that completes a block of 20 clears the deque, and alerts with
    its own timestamp exactly when the block holds a neighbouring rise past
    the threshold.
   */
  lemma CallbackCompletesBlock(q: seq<real>, ts: string, v: real)
    requires |q| == 19
    ensures Callback(q, Reading(ts, v)) == Handled([], if HasRise(q + [v]) then Some(ts) else None)
  {
    var w := q + [v];
    assert DequeMaxLength == 20;
    assert Append(q, v, DequeMaxLength) == w;
    RiseIsAlarm(w);
  }

  /** On every deque the `maxlen` allows, the callback is the shared detector step on the parsed message. */
  lemma CallbackIsStep(q: seq<real>, m: Parsed)
    requires |q| <= 20
    ensures Callback(q, m) == Step(FoodA, q, m)
  {
    assert FoodA.capacity == 20 && DequeMaxLength == 20;
    match m
    case Reading(ts, v) =>
      if |q| + 1 < 20 {
        StepFillsBlock(FoodA, q, ts, v);
      } else if |q| + 1 == 20 {
        StepCompletesBlock(FoodA, q, ts, v);
        CallbackCompletesBlock(q, ts, v);
        RiseIsAlarm(q + [v]);
      } else {
        StepOnFullDeque(FoodA, q, ts, v);
        RiseIsAlarm(q[1..] + [v]);
      }
    case _ =>
      StepIgnoresFailure(FoodA, q, m);
  }

  /** The whole run of the consumer over the delivered bodies, from an empty deque. */
  function Replay(bodies: seq<string>, toFloat: string -> Option<real>): (o: Outcome)
    ensures o.Handled? && |o.deque| < 20
  {
    if |bodies| == 0 then Handled([], None)
    else Callback(Replay(bodies[..|bodies| - 1], toFloat).deque, Parse(bodies[|bodies| - 1], toFloat))
  }

  /** After any prefix of the stream the consumer holds the detector's deque and shows its alert. */
  lemma {:induction false} ReplayIsDetector(bodies: seq<string>, toFloat: string -> Option<real>)
    requires |bodies| > 0
    ensures var ms := ParseAll(bodies, toFloat);
            Replay(bodies, toFloat) == Handled(Final(FoodA, ms), AlertAt(FoodA, ms, |ms| - 1))
    decreases |bodies|
  {
    var ms := ParseAll(bodies, toFloat);
    var pre := bodies[..|bodies| - 1];
    assert bodies == pre + [bodies[|bodies| - 1]];
    ParseAllAppend(pre, [bodies[|bodies| - 1]], toFloat);
    assert ParseAll(pre, toFloat) == ms[..|ms| - 1];
    if |pre| > 0 {
      ReplayIsDetector(pre, toFloat);
    }
    CallbackIsStep(Final(FoodA, ms[..|ms| - 1]), ms[|ms| - 1]);
  }

  /**
    Block semantics of the Food A stream: after `n` valid readings the deque
    holds the last `n mod 20`; a message alerts exactly when it is the 20th,
    40th, ... valid reading and its block of 20 holds a neighbouring rise of
    more than 1 degree, and the alert names its own timestamp.
   */
  lemma BlockSemantics(bodies: seq<string>, toFloat: string -> Option<real>)
    requires |bodies| > 0
    ensures var ms := ParseAll(bodies, toFloat);
            var vs := Valids(ms);
            var o := Replay(bodies, toFloat);
            && o.deque == OpenBlock(vs, 20)
            && (o.alert.Some? <==> ms[|ms| - 1].Reading? && |vs| >= 20 && |vs| % 20 == 0 && HasRise(vs[|vs| - 20..]))
            && (o.alert.Some? ==> o.alert.value == ms[|ms| - 1].timestamp)
  {
    var ms := ParseAll(bodies, toFloat);
    var k := |ms| - 1;
    var vs := Valids(ms);
    assert FoodA.capacity == 20;
    ReplayIsDetector(bodies, toFloat);
    var o := Replay(bodies, toFloat);
    assert o == Handled(Final(FoodA, ms), AlertAt(FoodA, ms, k));
    BlockState(FoodA, ms);
    assert o.deque == OpenBlock(vs, 20);
    BlockAlert(FoodA, ms, k);
    assert ms[..k + 1] == ms;
    if |vs| >= 20 {
      RiseIsAlarm(Last(vs, 20));
    }
  }

  /** A last reading 1.5 degrees above a steady window alerts. */
  lemma RiseAboveThresholdAlerts(ts: string)
    ensures Callback(Steady(19, 150.0), Reading(ts, 151.5)) == Handled([], Some(ts))
  {
    var q := Steady(19, 150.0);
    var w := q + [151.5];
    assert HasRise(w) by {
      assert w[19] - w[18] == 1.5;
    }
    CallbackCompletesBlock(q, ts, 151.5);
  }

  /** A rise of exactly 1 degree is not more than the threshold: no alert, and the deque is cleared. */
  lemma RiseOfExactlyThresholdIsQuiet(ts: string)
    ensures Callback(Steady(19, 150.0), Reading(ts, 151.0)) == Handled([], None)
  {
    var q := Steady(19, 150.0);
    var w := q + [151.0];
    assert !HasRise(w) by {
      forall k | 0 < k < |w| ensures !(w[k] - w[k - 1] > TempChangeThreshold) {
        if k < 19 {
          assert w[k] == w[k - 1] == 150.0;
        } else {
          assert w[k] == 151.0 && w[k - 1] == 150.0;
        }
      }
    }
    CallbackCompletesBlock(q, ts, 151.0);
  }
}
