/**
  `food_b_callback`: the Food B stream's consumer. Everything sits inside one
  `try` block, so a message that fails to parse does nothing at all; unlike
  Food A, the clear is tested after the gate rather than within it. It
  alerts on a fall of 1 degree or more between neighbouring readings of a
  20-reading window.
 */
module FoodBConsumer {
  import opened Wrappers
  import opened Text
  import opened Message
  import opened TrendWindow
  import opened Blocks
  import opened Arith

  /** `FOOD_TIME_WINDOW`, in minutes. */
  const TimeWindow: real := 10.0
  /** `FOOD_DEQUE_MAX_LENGTH = int(FOOD_TIME_WINDOW * 2)`: one reading every half minute. */
  const DequeMaxLength: nat := (TimeWindow * 2.0).Floor as nat
  /** `FOOD_TEMP_CHANGE_THRESHOLD`, in degrees F. */
  const TempChangeThreshold: real := 1.0

  /** Food B's instance of the shared detector: an inclusive fall of 1 degree over 20 readings. */
  const FoodB: Params := Params(DequeMaxLength, TempChangeThreshold, Fall, true)

  /** `any(temp_change <= -FOOD_TEMP_CHANGE_THRESHOLD for temp_change in temp_changes)`. */
  predicate ThresholdMet(changes: seq<real>) {
    exists j :: 0 <= j < |changes| && changes[j] <= -TempChangeThreshold
  }

  /** Some neighbouring pair of `w` drops by 1 degree or more. */
  predicate HasDrop(w: seq<real>) {
    exists k :: 0 < k < |w| && w[k] - w[k - 1] <= -TempChangeThreshold
  }

  /**
    `food_b_callback` on the deque `q`, in the file's own control flow, once the
    parsing statements of its `try` block have produced `m`.
   */
  function Callback(q: seq<real>, m: Parsed): (o: Outcome)
    requires |q| <= DequeMaxLength
    ensures o.Handled?
    ensures |q| < 20 ==> |o.deque| < 20
    ensures !m.Reading? ==> o == Handled(q, None)
    ensures |q| < 19 ==> o.alert == None
  {
    match m
    case Reading(timestamp, temperature) =>
      var q1 := Append(q, temperature, DequeMaxLength);
      assert DequeMaxLength == 20;
      assert |q1| < 20 ==> |q1| % 20 == |q1| by {
        if |q1| < 20 { ModSmall(|q1|, 20); }
      }
      var alert := if |q1| >= 20 && ThresholdMet(Changes(q1, 20)) then Some(timestamp) else None;
      Handled(if |q1| % 20 == 0 then [] else q1, alert)
    case _ => Handled(q, None)
  }

  /** The file's own threshold test is the shared detector's test with the Food B parameters. */
  lemma DropIsAlarm(w: seq<real>)
    requires |w| == 20
    ensures ThresholdMet(Changes(w, 20)) <==> AnyCrosses(FoodB, Changes(w, 20))
    ensures HasDrop(w) <==> AdjacentAlarm(FoodB, w)
    ensures ThresholdMet(Changes(w, 20)) <==> HasDrop(w)
  {
    ChangesCoverWindow(FoodB, w);
    var ds := Changes(w, 20);
    assert forall j :: 0 <= j < |ds| ==> (ds[j] <= -TempChangeThreshold <==> Crosses(FoodB, ds[j]));
    assert forall k :: 0 < k < |w| ==>
      (w[k] - w[k - 1] <= -TempChangeThreshold <==> Crosses(FoodB, w[k] - w[k - 1]));
  }

  /**
    The reading that completes a block of 20 clears the deque, and alerts with
    its own timestamp exactly when the block holds a neighbouring drop past
    the threshold.
   */
  lemma CallbackCompletesBlock(q: seq<real>, ts: string, v: real)
    requires |q| == 19
    ensures Callback(q, Reading(ts, v)) == Handled([], if HasDrop(q + [v]) then Some(ts) else None)
  {
    var w := q + [v];
    assert DequeMaxLength == 20;
    assert Append(q, v, DequeMaxLength) == w;
    DropIsAlarm(w);
  }

  /** On every deque the `maxlen` allows, the callback is the shared detector step on the parsed message. */
  lemma CallbackIsStep(q: seq<real>, m: Parsed)
    requires |q| <= 20
    ensures Callback(q, m) == Step(FoodB, q, m)
  {
    assert FoodB.capacity == 20 && DequeMaxLength == 20;
    match m
    case Reading(ts, v) =>
      if |q| + 1 < 20 {
        StepFillsBlock(FoodB, q, ts, v);
      } else if |q| + 1 == 20 {
        StepCompletesBlock(FoodB, q, ts, v);
        CallbackCompletesBlock(q, ts, v);
        DropIsAlarm(q + [v]);
      } else {
        StepOnFullDeque(FoodB, q, ts, v);
        DropIsAlarm(q[1..] + [v]);
      }
    case _ =>
      StepIgnoresFailure(FoodB, q, m);
  }

  /** The whole run of the consumer over the delivered bodies, from an empty deque. */
  function Replay(bodies: seq<string>, toFloat: string -> Option<real>): (o: Outcome)
    ensures o.Handled? && |o.deque| < 20
  {
    if |bodies| == 0 then Handled([], None)
    else Callback(Replay(bodies[..|bodies| - 1], toFloat).deque, Parse(bodies[|bodies| - 1], toFloat))
  }

  /** After any prefix of the stream the consumer holds the detector's deque and shows its alert. */
  lemma {:induction false} ReplayIsDetector(bodies: seq<string>, toFloat: string -> Option<real>)
    requires |bodies| > 0
    ensures var ms := ParseAll(bodies, toFloat);
            Replay(bodies, toFloat) == Handled(Final(FoodB, ms), AlertAt(FoodB, ms, |ms| - 1))
    decreases |bodies|
  {
    var ms := ParseAll(bodies, toFloat);
    var pre := bodies[..|bodies| - 1];
    assert bodies == pre + [bodies[|bodies| - 1]];
    ParseAllAppend(pre, [bodies[|bodies| - 1]], toFloat);
    assert ParseAll(pre, toFloat) == ms[..|ms| - 1];
    if |pre| > 0 {
      ReplayIsDetector(pre, toFloat);
    }
    CallbackIsStep(Final(FoodB, ms[..|ms| - 1]), ms[|ms| - 1]);
  }

  /**
    Block semantics of the Food B stream: after `n` valid readings the deque
    holds the last `n mod 20`; a message alerts exactly when it is the 20th,
    40th, ... valid reading and its block of 20 holds a neighbouring drop of
    1 degree or more, and the alert names its own timestamp.
   */
  lemma BlockSemantics(bodies: seq<string>, toFloat: string -> Option<real>)
    requires |bodies| > 0
    ensures var ms := ParseAll(bodies, toFloat);
            var vs := Valids(ms);
            var o := Replay(bodies, toFloat);
            && o.deque == OpenBlock(vs, 20)
            && (o.alert.Some? <==> ms[|ms| - 1].Reading? && |vs| >= 20 && |vs| % 20 == 0 && HasDrop(vs[|vs| - 20..]))
            && (o.alert.Some? ==> o.alert.value == ms[|ms| - 1].timestamp)
  {
    var ms := ParseAll(bodies, toFloat);
    var k := |ms| - 1;
    var vs := Valids(ms);
    assert FoodB.capacity == 20;
    ReplayIsDetector(bodies, toFloat);
    var o := Replay(bodies, toFloat);
    assert o == Handled(Final(FoodB, ms), AlertAt(FoodB, ms, k));
    BlockState(FoodB, ms);
    assert o.deque == OpenBlock(vs, 20);
    BlockAlert(FoodB, ms, k);
    assert ms[..k + 1] == ms;
    if |vs| >= 20 {
      DropIsAlarm(Last(vs, 20));
    }
  }

  /** A last reading exactly 1 degree below a steady window alerts: the test is inclusive. */
  lemma DropOfExactlyThresholdAlerts(ts: string)
    ensures Callback(Steady(19, 150.0), Reading(ts, 149.0)) == Handled([], Some(ts))
  {
    var q := Steady(19, 150.0);
    var w := q + [149.0];
    assert HasDrop(w) by {
      assert w[19] - w[18] == -1.0;
    }
    CallbackCompletesBlock(q, ts, 149.0);
  }

  /** A rise never alerts on the Food B stream, however large; the deque is still cleared. */
  lemma RiseIsQuiet(ts: string)
    ensures Callback(Steady(19, 150.0), Reading(ts, 170.0)) == Handled([], None)
  {
    var q := Steady(19, 150.0);
    var w := q + [170.0];
    assert !HasDrop(w) by {
      forall k | 0 < k < |w| ensures !(w[k] - w[k - 1] <= -TempChangeThreshold) {
        if k < 19 {
          assert w[k] == w[k - 1] == 150.0;
        } else {
          assert w[k] == 170.0 && w[k - 1] == 150.0;
        }
      }
    }
    CallbackCompletesBlock(q, ts, 170.0);
  }
}
