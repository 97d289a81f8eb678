/**
  `smoker_callback`: the smoker stream's consumer. Its threshold test sits
  after the `try` block, so it also runs when parsing failed; then the
  deque was not touched, and if the message had no timestamp token the
  alert would name an unbound variable.
 */
module SmokerConsumer {
  import opened Wrappers
  import opened Text
  import opened Message
  import opened TrendWindow
  import opened Blocks
  import opened Arith

  /** `SMOKER_TIME_WINDOW`, in minutes. */
  const TimeWindow: real := 2.5
  /** `SMOKER_DEQUE_MAX_LENGTH = int(SMOKER_TIME_WINDOW * 2)`: one reading every half minute. */
  const DequeMaxLength: nat := (TimeWindow * 2.0).Floor as nat
  /** `SMOKER_TEMP_CHANGE_THRESHOLD`, in degrees F. */
  const TempChangeThreshold: real := 15.0

  /** The smoker consumer's instance of the shared detector: an inclusive fall of 15 degrees over 5 readings. */
  const Smoker: Params := Params(DequeMaxLength, TempChangeThreshold, Fall, true)

  /** `any(temp_change <= -SMOKER_TEMP_CHANGE_THRESHOLD for temp_change in temp_changes)`. */
  predicate ThresholdMet(changes: seq<real>) {
    exists j :: 0 <= j < |changes| && changes[j] <= -TempChangeThreshold
  }

  /** Some neighbouring pair of `w` drops by 15 degrees or more. */
  predicate HasDrop(w: seq<real>) {
    exists k :: 0 < k < |w| && w[k] - w[k - 1] <= -TempChangeThreshold
  }

  /**
    `smoker_callback` on the deque `q`, in the file's own control flow, once
    the parsing statements of its `try` block have produced `m`.
   */
  function Callback(q: seq<real>, m: Parsed): (o: Outcome)
    requires |q| <= DequeMaxLength
    ensures |q| < 5 ==> o.Handled? && |o.deque| < 5
    ensures |q| < 5 && !m.Reading? ==> o == Handled(q, None)
    ensures |q| < 4 ==> o.alert == None
  {
    var q1 := if m.Reading? then Append(q, m.value, DequeMaxLength) else q;
    assert DequeMaxLength == 5;
    assert |q1| < 5 ==> |q1| % 5 == |q1| by {
      if |q1| < 5 { ModSmall(|q1|, 5); }
    }
    if |q1| >= 5 then
      var changes := Changes(q1, 5);
      var met := ThresholdMet(changes);
      if met && m.NoTimestamp? then Raised(q1)
      else Handled(if |q1| % 5 == 0 then [] else q1, if met then Some(m.timestamp) else None)
    else
      Handled(q1, None)
  }

  /** The file's own threshold test is the shared detector's test with the smoker parameters. */
  lemma DropIsAlarm(w: seq<real>)
    requires |w| == 5
    ensures ThresholdMet(Changes(w, 5)) <==> AnyCrosses(Smoker, Changes(w, 5))
    ensures HasDrop(w) <==> AdjacentAlarm(Smoker, w)
    ensures ThresholdMet(Changes(w, 5)) <==> HasDrop(w)
  {
    ChangesCoverWindow(Smoker, w);
    var ds := Changes(w, 5);
    assert forall j :: 0 <= j < |ds| ==> (ds[j] <= -TempChangeThreshold <==> Crosses(Smoker, ds[j]));
    assert forall k :: 0 < k < |w| ==>
      (w[k] - w[k - 1] <= -TempChangeThreshold <==> Crosses(Smoker, w[k] - w[k - 1]));
  }

  /**
    The reading that completes a block of 5 clears the deque, and alerts with
    its own timestamp exactly when the block holds a neighbouring drop past
    the threshold.
   */
  lemma CallbackCompletesBlock(q: seq<real>, ts: string, v: real)
    requires |q| == 4
    ensures Callback(q, Reading(ts, v)) == Handled([], if HasDrop(q + [v]) then Some(ts) else None)
  {
    var w := q + [v];
    assert DequeMaxLength == 5;
    assert Append(q, v, DequeMaxLength) == w;
    DropIsAlarm(w);
  }

  /**
    From any deque the consumer can hold (at most 4 readings), the callback
    is the shared detector step on the parsed message.
   */
  lemma CallbackIsStep(q: seq<real>, m: Parsed)
    requires |q| < 5
    ensures Callback(q, m) == Step(Smoker, q, m)
  {
    assert Smoker.capacity == 5 && DequeMaxLength == 5;
    match m
    case Reading(ts, v) =>
      if |q| + 1 < 5 {
        StepFillsBlock(Smoker, q, ts, v);
      } else if |q| + 1 == 5 {
        StepCompletesBlock(Smoker, q, ts, v);
        CallbackCompletesBlock(q, ts, v);
        DropIsAlarm(q + [v]);
      }
    case _ =>
      StepIgnoresFailure(Smoker, q, m);
  }

  /**
    The whole run of the consumer over the delivered bodies, from an empty
    deque; once an exception escapes, the consumer has stopped.
   */
  function Replay(bodies: seq<string>, toFloat: string -> Option<real>): (o: Outcome)
    ensures |o.deque| <= DequeMaxLength
  {
    if |bodies| == 0 then Handled([], None)
    else
      match Replay(bodies[..|bodies| - 1], toFloat)
      case Raised(q) => Raised(q)
      case Handled(q, _) => Callback(q, Parse(bodies[|bodies| - 1], toFloat))
  }

  /**
    The smoker consumer never raises, and after any prefix of the stream it
    holds the detector's deque and shows the detector's alert for the last
    message.
   */
  lemma {:induction false} ReplayIsDetector(bodies: seq<string>, toFloat: string -> Option<real>)
    requires |bodies| > 0
    ensures var ms := ParseAll(bodies, toFloat);
            Replay(bodies, toFloat) == Handled(Final(Smoker, ms), AlertAt(Smoker, ms, |ms| - 1))
    decreases |bodies|
  {
    var ms := ParseAll(bodies, toFloat);
    var pre := bodies[..|bodies| - 1];
    assert bodies == pre + [bodies[|bodies| - 1]];
    ParseAllAppend(pre, [bodies[|bodies| - 1]], toFloat);
    assert ParseAll(pre, toFloat) == ms[..|ms| - 1];
    if |pre| > 0 {
      ReplayIsDetector(pre, toFloat);
    }
    CallbackIsStep(Final(Smoker, ms[..|ms| - 1]), ms[|ms| - 1]);
  }

  /**
    Block semantics of the smoker stream: after `n` valid readings the deque
    holds the last `n mod 5`; a message alerts exactly when it is the 5th,
    10th, 15th, ... valid reading and its block of 5 holds a neighbouring
    drop of 15 degrees or more, and the alert names its own timestamp.
   */
  lemma BlockSemantics(bodies: seq<string>, toFloat: string -> Option<real>)
    requires |bodies| > 0
    ensures var ms := ParseAll(bodies, toFloat);
            var vs := Valids(ms);
            var o := Replay(bodies, toFloat);
            && o.Handled?
            && o.deque == OpenBlock(vs, 5)
            && (o.alert.Some? <==> ms[|ms| - 1].Reading? && |vs| >= 5 && |vs| % 5 == 0 && HasDrop(vs[|vs| - 5..]))
            && (o.alert.Some? ==> o.alert.value == ms[|ms| - 1].timestamp)
  {
    var ms := ParseAll(bodies, toFloat);
    var k := |ms| - 1;
    var vs := Valids(ms);
    assert Smoker.capacity == 5;
    ReplayIsDetector(bodies, toFloat);
    var o := Replay(bodies, toFloat);
    assert o == Handled(Final(Smoker, ms), AlertAt(Smoker, ms, k));
    BlockState(Smoker, ms);
    assert o.deque == OpenBlock(vs, 5);
    BlockAlert(Smoker, ms, k);
    assert ms[..k + 1] == ms;
    if |vs| >= 5 {
      DropIsAlarm(Last(vs, 5));
    }
  }

  /** Four steady readings then a drop of 16 degrees: the fifth reading alerts. */
  lemma SuddenDropAlerts(ts: string)
    ensures Callback([100.0, 100.0, 100.0, 100.0], Reading(ts, 84.0)) == Handled([], Some(ts))
  {
    var q := [100.0, 100.0, 100.0, 100.0];
    var w := q + [84.0];
    assert HasDrop(w) by {
      assert w[4] - w[3] == -16.0;
    }
    CallbackCompletesBlock(q, ts, 84.0);
  }

  /** A rise of 16 degrees is not a fall: no alert, and the deque is still cleared. */
  lemma RiseDoesNotAlert(ts: string)
    ensures Callback([100.0, 100.0, 100.0, 100.0], Reading(ts, 116.0)) == Handled([], None)
  {
    var q := [100.0, 100.0, 100.0, 100.0];
    var w := q + [116.0];
    assert !HasDrop(w) by {
      forall k | 0 < k < |w| ensures !(w[k] - w[k - 1] <= -TempChangeThreshold) {
        assert w[k] - w[k - 1] >= 0.0;
      }
    }
    CallbackCompletesBlock(q, ts, 116.0);
  }

  /**
    A steady fall of 4 degrees per reading loses 16 degrees over the window,
    yet no single neighbouring pair drops by 15, so the window does not alert.
   */
  lemma GradualDropIsMissed(ts: string)
    ensures Callback([100.0, 96.0, 92.0, 88.0], Reading(ts, 84.0)) == Handled([], None)
  {
    var q := [100.0, 96.0, 92.0, 88.0];
    var w := q + [84.0];
    assert !HasDrop(w) by {
      assert w[4] - w[0] <= -TempChangeThreshold;
      forall k | 0 < k < |w| ensures !(w[k] - w[k - 1] <= -TempChangeThreshold) {
        assert w[k] - w[k - 1] == -4.0;
      }
    }
    CallbackCompletesBlock(q, ts, 84.0);
  }
}
