/**
  Field extraction from a message body, shared by all three consumers:
  the timestamp is token 1 of the whitespace split and the value text is
  field 3 of the colon split, converted by Python's `float()`.
  `float()` itself is a parameter, `toFloat`, a partial parser.
 */
module Message {
  import opened Wrappers
  import opened Text

  /** What the `try` block's parsing statements leave behind. */
  datatype Parsed =
    | Reading(timestamp: string, value: real)
      /** `body_str.split()[1]` raised IndexError: `timestamp` was never bound. */
    | NoTimestamp
      /** `body_str.split(':')[3]` raised IndexError after `timestamp` was bound. */
    | NoValueField(timestamp: string)
      /** `float(...)` raised ValueError after `timestamp` was bound. */
    | BadValue(timestamp: string)

  /** Parses a body in the order the consumers do: timestamp, then value field, then `float()`. */
  function Parse(body: string, toFloat: string -> Option<real>): (m: Parsed)
    ensures m.NoTimestamp? <==> |Tokens(body)| < 2
    ensures m.NoValueField? <==> |Tokens(body)| >= 2 && Count(body, ':') < 3
    ensures !m.NoTimestamp? ==> m.timestamp == Tokens(body)[1]
    ensures m.Reading? ==> toFloat(Split(body, ':')[3]) == Some(m.value)
    ensures m.BadValue? ==> toFloat(Split(body, ':')[3]) == None
  {
    var tokens := Tokens(body);
    if |tokens| < 2 then NoTimestamp
    else
      var fields := Split(body, ':');
      if |fields| < 4 then NoValueField(tokens[1])
      else
        match toFloat(fields[3])
        case None => BadValue(tokens[1])
        case Some(v) => Reading(tokens[1], v)
  }

  /** The parse outcome of each delivered body, in delivery order. */
  function ParseAll(bodies: seq<string>, toFloat: string -> Option<real>): (ms: seq<Parsed>)
    ensures |ms| == |bodies|
    ensures forall i :: 0 <= i < |bodies| ==> ms[i] == Parse(bodies[i], toFloat)
  {
    seq(|bodies|, i requires 0 <= i < |bodies| => Parse(bodies[i], toFloat))
  }

  /**
    Parsing is per message: the outcomes of two delivery runs, one after the
    other, are the outcomes of each run in turn.
   */
  lemma ParseAllAppend(a: seq<string>, b: seq<string>, toFloat: string -> Option<real>)
    ensures ParseAll(a + b, toFloat) == ParseAll(a, toFloat) + ParseAll(b, toFloat)
  {
    var l, r := ParseAll(a + b, toFloat), ParseAll(a, toFloat) + ParseAll(b, toFloat);
    forall i | 0 <= i < |a + b| ensures l[i] == r[i] {
      if i < |a| {
        assert (a + b)[i] == a[i];
      } else {
        assert (a + b)[i] == b[i - |a|];
      }
    }
  }

  /** The body the producer publishes: `f"{time_stamp}: {temperature}"`. */
  function ProducerBody(timeStamp: string, temperature: string): string {
    timeStamp + ": " + temperature
  }

  /**
    With a producer body, the value field is the temperature text behind one
    space exactly when the time stamp holds two colons; with fewer there is
    no field 3 at all.
   */
  lemma ProducerValueField(timeStamp: string, temperature: string)
    requires ':' !in temperature
    ensures Count(timeStamp, ':') < 2 ==> |Split(ProducerBody(timeStamp, temperature), ':')| < 4
    ensures Count(timeStamp, ':') == 2 ==>
              var fields := Split(ProducerBody(timeStamp, temperature), ':');
              |fields| == 4 && fields[3] == " " + temperature
  {
    var tail := " " + temperature;
    var body := ProducerBody(timeStamp, temperature);
    assert body == timeStamp + [':'] + tail;
    assert ':' !in tail by {
      assert forall i :: 0 < i < |tail| ==> tail[i] == temperature[i - 1];
    }
    SplitFree(tail, ':');
    SplitAround(timeStamp, tail, ':');
    var head := Split(timeStamp, ':');
    assert Split(body, ':') == head + [tail];
    assert |head| == Count(timeStamp, ':') + 1;
  }

  /**
    With a producer time stamp of the form `<date> <time>`, token 1 of the
    body is the time followed by the colon the producer appends: the alert
    reports `<time>:`, not the whole time stamp.
   */
  lemma ProducerTimestampToken(date: string, time: string, temperature: string)
    requires IsWord(date) && IsWord(time) && IsWord(temperature)
    ensures Tokens(ProducerBody(date + " " + time, temperature)) == [date, time + ":", temperature]
  {
    var ws := [date, time + ":", temperature];
    assert IsWord(time + ":") by {
      assert forall i :: 0 <= i < |time| ==> (time + ":")[i] == time[i];
    }
    assert Spaced(ws[2..]) == temperature;
    assert Spaced(ws[1..]) == time + ":" + " " + temperature;
    assert Spaced(ws) == ProducerBody(date + " " + time, temperature);
    TokensOfSpaced(ws);
  }

  /**
    A producer body with a `<date> <time>` stamp carrying two colons, and a
    temperature text `float()` accepts behind the added space, parses to that
    temperature and to the time token.
   */
  lemma ProducerBodyParses(date: string, time: string, temperature: string, toFloat: string -> Option<real>, v: real)
    requires IsWord(date) && IsWord(time) && IsWord(temperature) && ':' !in temperature
    requires Count(date + " " + time, ':') == 2
    requires toFloat(" " + temperature) == Some(v)
    ensures Parse(ProducerBody(date + " " + time, temperature), toFloat) == Reading(time + ":", v)
  {
    ProducerTimestampToken(date, time, temperature);
    ProducerValueField(date + " " + time, temperature);
  }
}
