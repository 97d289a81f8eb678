/**
  The detector over a whole stream of messages. Because the deque is
  cleared whenever it fills, the stream falls into blocks of `capacity`
  valid readings: the deque always holds the readings of the unfinished
  block, and only the reading that completes a block can alert.
 */
module Blocks {
  import opened Wrappers
  import opened Message
  import opened TrendWindow
  import opened Arith

  /** The values of the messages that parsed, in arrival order. */
  function Valids(ms: seq<Parsed>): seq<real> {
    if |ms| == 0 then []
    else Valids(ms[..|ms| - 1]) + (if ms[|ms| - 1].Reading? then [ms[|ms| - 1].value] else [])
  }

  /** The newest `n` items of `s`. */
  function Last<T>(s: seq<T>, n: nat): seq<T>
    requires n <= |s|
  {
    s[|s| - n..]
  }

  /** The readings of the block still being filled: the last `|vs| mod c` of them. */
  function OpenBlock(vs: seq<real>, c: nat): (b: seq<real>)
    requires c > 0
  {
    ModAtMost(|vs|, c);
    Last(vs, |vs| % c)
  }

  /** The deque after the detector, started empty, has seen every message of `ms`. */
  function Final(p: Params, ms: seq<Parsed>): (q: seq<real>)
    requires p.Valid()
    ensures |q| < p.capacity
  {
    if |ms| == 0 then [] else Step(p, Final(p, ms[..|ms| - 1]), ms[|ms| - 1]).deque
  }

  /** The alert shown while handling message `k` of `ms`. */
  function AlertAt(p: Params, ms: seq<Parsed>, k: nat): Option<string>
    requires p.Valid() && k < |ms|
  {
    Step(p, Final(p, ms[..k]), ms[k]).alert
  }

  lemma {:induction false} ValidsAppend(a: seq<Parsed>, b: seq<Parsed>)
    ensures Valids(a + b) == Valids(a) + Valids(b)
    decreases |b|
  {
    if |b| == 0 {
      assert a + b == a;
    } else {
      var ab := a + b;
      assert ab[..|ab| - 1] == a + b[..|b| - 1];
      ValidsAppend(a, b[..|b| - 1]);
    }
  }

  /** After `n` valid readings the deque holds exactly the last `n mod capacity` of them. */
  lemma {:induction false} BlockState(p: Params, ms: seq<Parsed>)
    requires p.Valid()
    ensures Final(p, ms) == OpenBlock(Valids(ms), p.capacity)
    decreases |ms|
  {
    if |ms| > 0 {
      var pre, m := ms[..|ms| - 1], ms[|ms| - 1];
      BlockState(p, pre);
      var vs := Valids(pre);
      var q := Final(p, pre);
      var n, c := |vs|, p.capacity;
      ModAtMost(n, c);
      assert q == Last(vs, n % c);
      assert Final(p, ms) == Step(p, q, m).deque;
      if m.Reading? {
        var ws := vs + [m.value];
        assert Valids(ms) == ws;
        ModStep(n, c);
        ModAtMost(n + 1, c);
        if n % c + 1 == c {
          StepCompletesBlock(p, q, m.timestamp, m.value);
          assert Step(p, q, m).deque == [];
          assert OpenBlock(ws, c) == Last(ws, 0);
        } else {
          StepFillsBlock(p, q, m.timestamp, m.value);
          assert Step(p, q, m).deque == q + [m.value];
          assert OpenBlock(ws, c) == Last(ws, n % c + 1);
          assert Last(vs, n % c) + [m.value] == Last(ws, n % c + 1);
        }
      } else {
        StepIgnoresFailure(p, q, m);
        assert Valids(ms) == vs;
      }
    }
  }

  /**
    Message `k` alerts exactly when it is a valid reading that completes a
    block of `capacity` valid readings whose neighbouring pairs cross the
    threshold; the alert then carries that message's timestamp.
   */
  lemma {:induction false} BlockAlert(p: Params, ms: seq<Parsed>, k: nat)
    requires p.Valid() && k < |ms|
    ensures AlertAt(p, ms, k).Some? <==>
              var vs := Valids(ms[..k + 1]);
              && ms[k].Reading?
              && |vs| >= p.capacity
              && |vs| % p.capacity == 0
              && AdjacentAlarm(p, Last(vs, p.capacity))
    ensures AlertAt(p, ms, k).Some? ==> AlertAt(p, ms, k).value == ms[k].timestamp
  {
    var pre, m := ms[..k], ms[k];
    BlockState(p, pre);
    assert ms[..k + 1] == pre + [m];
    var vs := Valids(pre);
    var q := Final(p, pre);
    var n, c := |vs|, p.capacity;
    ModStep(n, c);
    ModAtMost(n, c);
    assert q == Last(vs, n % c);
    assert AlertAt(p, ms, k) == Step(p, q, m).alert;
    if m.Reading? {
      var ws := vs + [m.value];
      assert Valids(ms[..k + 1]) == ws by {
        assert (pre + [m])[..k] == pre;
      }
      if n % c + 1 == c {
        StepCompletesBlock(p, q, m.timestamp, m.value);
        assert q + [m.value] == Last(ws, c);
      } else {
        StepFillsBlock(p, q, m.timestamp, m.value);
      }
    } else {
      StepIgnoresFailure(p, q, m);
      assert Valids(ms[..k + 1]) == vs by {
        assert (pre + [m])[..k] == pre;
      }
    }
  }

  /** A message that fails to parse, inserted anywhere, leaves the final deque as it would have been. */
  lemma InvalidIsolation(p: Params, pre: seq<Parsed>, bad: Parsed, post: seq<Parsed>)
    requires p.Valid() && !bad.Reading?
    ensures Final(p, pre + [bad] + post) == Final(p, pre + post)
  {
    var with, without := pre + [bad] + post, pre + post;
    BlockState(p, with);
    BlockState(p, without);
    ValidsAppend(pre + [bad], post);
    ValidsAppend(pre, [bad]);
    ValidsAppend(pre, post);
    assert [bad][..0] == [];
    assert Valids([bad]) == [];
    assert Valids(with) == Valids(without);
  }

  /** ... nor the alert of the `j`-th message after it. */
  lemma InvalidIsolationAlert(p: Params, pre: seq<Parsed>, bad: Parsed, post: seq<Parsed>, j: nat)
    requires p.Valid() && !bad.Reading? && j < |post|
    ensures AlertAt(p, pre + [bad] + post, |pre| + 1 + j) == AlertAt(p, pre + post, |pre| + j)
  {
    var with, without := pre + [bad] + post, pre + post;
    assert with[..|pre| + 1 + j] == pre + [bad] + post[..j];
    assert without[..|pre| + j] == pre + post[..j];
    assert with[|pre| + 1 + j] == without[|pre| + j] == post[j];
    InvalidIsolation(p, pre, bad, post[..j]);
  }
}
