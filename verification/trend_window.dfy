/**
  The detector all three consumers run, as one algorithm with four
  parameters: the window capacity (also the deque's `maxlen`, the gate
  length, the `range` bound and the clearing modulus), the threshold, the
  direction of change that alerts and whether reaching the threshold
  exactly counts.
 */
module TrendWindow {
  import opened Wrappers
  import opened Message
  import opened Arith

  datatype Trend = Fall | Rise

  datatype Params = Params(capacity: nat, threshold: real, trend: Trend, inclusive: bool) {
    predicate Valid() {
      capacity > 0
    }
  }

  /** Whether one temperature change `d` crosses the threshold in the alerting direction. */
  predicate Crosses(p: Params, d: real) {
    match p.trend
    case Fall => if p.inclusive then d <= -p.threshold else d < -p.threshold
    case Rise => if p.inclusive then d >= p.threshold else d > p.threshold
  }

  /**
    `deque(maxlen=maxlen).append(x)`: the newest `min(|q| + 1, maxlen)`
    items of `q + [x]`, the oldest ones evicted.
   */
  function Append<T>(q: seq<T>, x: T, maxlen: nat): (r: seq<T>)
    requires |q| <= maxlen
    ensures |r| == if |q| < maxlen then |q| + 1 else maxlen
    ensures r == (q + [x])[|q| + 1 - |r|..]
  {
    var all := q + [x];
    if |all| > maxlen then all[|all| - maxlen..] else all
  }

  /** Python's negative index `q[i]`, for `-len(q) <= i < 0`. */
  function At<T>(q: seq<T>, i: int): T
    requires -|q| <= i < 0
  {
    q[|q| + i]
  }

  /** `[q[i] - q[i - 1] for i in range(-1, -n, -1)]`: the list the consumers build, newest pair first. */
  function Changes(q: seq<real>, n: nat): (ds: seq<real>)
    requires 1 <= n <= |q|
    ensures |ds| == n - 1
    ensures forall j :: 0 <= j < n - 1 ==> ds[j] == q[|q| - 1 - j] - q[|q| - 2 - j]
  {
    seq(n - 1, j requires 0 <= j < n - 1 => At(q, -1 - j) - At(q, -1 - j - 1))
  }

  /** Python's `any(crosses(d) for d in ds)`. */
  predicate AnyCrosses(p: Params, ds: seq<real>) {
    exists j :: 0 <= j < |ds| && Crosses(p, ds[j])
  }

  /** `n` readings all at temperature `t`: a window with no change at all. */
  function Steady(n: nat, t: real): seq<real> {
    seq(n, _ => t)
  }

  /** The reference condition: some pair of neighbouring readings in `w` crosses the threshold. */
  predicate AdjacentAlarm(p: Params, w: seq<real>) {
    exists k :: 0 < k < |w| && Crosses(p, w[k] - w[k - 1])
  }

  /**
    The changes list of a full window holds exactly the differences of its
    neighbouring readings, so the `any` test is the adjacent-pair condition.
   */
  lemma ChangesCoverWindow(p: Params, w: seq<real>)
    requires |w| >= 1
    ensures AnyCrosses(p, Changes(w, |w|)) <==> AdjacentAlarm(p, w)
  {
    if AnyCrosses(p, Changes(w, |w|)) {
      ChangeIsAdjacent(p, w);
    }
    if AdjacentAlarm(p, w) {
      AdjacentIsChange(p, w);
    }
  }

  /** A crossing entry of the changes list is a crossing neighbouring pair. */
  lemma ChangeIsAdjacent(p: Params, w: seq<real>)
    requires |w| >= 1 && AnyCrosses(p, Changes(w, |w|))
    ensures AdjacentAlarm(p, w)
  {
    var ds := Changes(w, |w|);
    var j :| 0 <= j < |ds| && Crosses(p, ds[j]);
    var k := |w| - 1 - j;
    assert ds[j] == w[k] - w[k - 1];
  }

  /** A crossing neighbouring pair appears in the changes list. */
  lemma AdjacentIsChange(p: Params, w: seq<real>)
    requires AdjacentAlarm(p, w)
    ensures |w| >= 1 && AnyCrosses(p, Changes(w, |w|))
  {
    var ds := Changes(w, |w|);
    var k :| 0 < k < |w| && Crosses(p, w[k] - w[k - 1]);
    var j := |w| - 1 - k;
    assert ds[j] == w[k] - w[k - 1];
  }

  /** The result of one callback: the deque it leaves and the alert it shows, or an escaped exception. */
  datatype Outcome =
    | Handled(deque: seq<real>, alert: Option<string>)
      /** An exception left the callback; `deque` is the deque at that point. */
    | Raised(deque: seq<real>)

  /**
    One observation: a message that failed to parse changes nothing; a
    reading is appended, and once the deque holds a full window the adjacent
    changes are tested, an alert carries the reading's timestamp, and the
    deque is cleared because its length is a multiple of the capacity.
    The lemmas below state each case.
   */
  function Step(p: Params, q: seq<real>, m: Parsed): (o: Outcome)
    requires p.Valid() && |q| <= p.capacity
    ensures o.Handled?
    ensures |q| < p.capacity ==> |o.deque| < p.capacity
  {
    match m
    case Reading(ts, v) =>
      var q1 := Append(q, v, p.capacity);
      if |q1| >= p.capacity then
        ModSelf(p.capacity);
        var alert := if AnyCrosses(p, Changes(q1, p.capacity)) then Some(ts) else None;
        Handled(if |q1| % p.capacity == 0 then [] else q1, alert)
      else
        Handled(q1, None)
    case _ => Handled(q, None)
  }

  /** A message that failed to parse leaves the deque as it was and does not alert. */
  lemma StepIgnoresFailure(p: Params, q: seq<real>, m: Parsed)
    requires p.Valid() && |q| <= p.capacity && !m.Reading?
    ensures Step(p, q, m) == Handled(q, None)
  {
  }

  /** Readings 1 to `capacity - 1` of a block are appended, with no eviction and no alert. */
  lemma StepFillsBlock(p: Params, q: seq<real>, ts: string, v: real)
    requires p.Valid() && |q| + 1 < p.capacity
    ensures Step(p, q, Reading(ts, v)) == Handled(q + [v], None)
  {
  }

  /**
    The reading that completes a block clears the deque, and alerts with its
    own timestamp exactly when some neighbouring pair of the block crosses
    the threshold.
   */
  lemma StepCompletesBlock(p: Params, q: seq<real>, ts: string, v: real)
    requires p.Valid() && |q| + 1 == p.capacity
    ensures Step(p, q, Reading(ts, v)) ==
              Handled([], if AdjacentAlarm(p, q + [v]) then Some(ts) else None)
  {
    var w := q + [v];
    assert Append(q, v, p.capacity) == w;
    ModSelf(p.capacity);
    ChangesCoverWindow(p, w);
  }

  /**
    On a deque already at capacity, which no run from an empty deque
    reaches, `maxlen` evicts the oldest reading first and the rest is as for
    a completed block.
   */
  lemma StepOnFullDeque(p: Params, q: seq<real>, ts: string, v: real)
    requires p.Valid() && |q| == p.capacity
    ensures Step(p, q, Reading(ts, v)) ==
              Handled([], if AdjacentAlarm(p, q[1..] + [v]) then Some(ts) else None)
  {
    var w := q[1..] + [v];
    assert Append(q, v, p.capacity) == w;
    ModSelf(p.capacity);
    ChangesCoverWindow(p, w);
  }
}
