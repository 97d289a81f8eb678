# Smart smoker trend detectors, modelled in Dafny

The repository is a small telemetry pipeline. A producer publishes smoker and food
temperatures as text messages of the form `"<time stamp>: <temperature>"`. Three consumers
(`01-smoker`, `02-food-A`, `03-food-B`) each keep a bounded `deque` of recent temperatures and
run the same per-message callback:

1. parse the body: the timestamp is token 1 of `body.split()`, and the value is
   `float(body.split(':')[3])`;
2. append the value to the deque;
3. once the deque holds a full window, test whether any adjacent difference `d[i] - d[i-1]`
   crosses a directional threshold, and if one does, alert with the message's timestamp;
4. clear the deque, because its length is then a multiple of the window size.

This project models that callback as one algorithm with four parameters
(`TrendWindow.Params`): capacity, threshold, direction and inclusiveness.

| consumer | capacity | alert when some adjacent difference is |
|---|---|---|
| smoker | 5 | `<= -15` |
| Food A | 20 | `> 1` |
| Food B | 20 | `<= -1` |

Modules:

- `Text` (`text.dfy`): Python's `str.split()` and `str.split(':')`, with their round trips.
- `Message` (`message.dfy`): field extraction. It records which statement of the `try` block
  failed, and relates the result to the producer's body format.
- `TrendWindow` (`trend_window.dfy`): the deque with `maxlen`, the changes list, the threshold
  test, and the parameterised `Step`.
- `Blocks` (`blocks.dfy`): the detector over a whole message stream. It shows that the stream
  falls into blocks of `capacity` valid readings.
- `SmokerConsumer`, `FoodAConsumer`, `FoodBConsumer` (one file each): each callback in its own
  file's control flow and constants, proved equal to `Step`. Each file also lifts the block
  properties to the stream of raw bodies and checks concrete examples.

Three natural readings of the consumers that the code does not bear out; the model follows the code:

- A window test against the newest reading. The code compares neighbouring readings:
  `range(-1, -C, -1)` gives the `C-1` neighbouring pairs of the window, and no reading is compared
  with the newest one. `SmokerConsumer.GradualDropIsMissed` shows what follows: a steady fall of
  16 degrees over the window raises no alert, although the smoker file's own docstring
  (Consumer_smoker_bbq.py:3-5) speaks of a drop of more than 15 degrees within the window.
- A sliding window. The deque is cleared as soon as it reaches `maxlen`, so the FIFO eviction of
  `deque(maxlen=...)` never happens, and it never holds more than `capacity - 1` readings between
  callbacks. The windows tested are disjoint blocks of `capacity` readings.
- The value as "everything after the third colon". It is field 3 of the colon split: the text
  between the third and the fourth colon.

In the smoker consumer, the threshold test sits after the `try` block. If a body has fewer than
two whitespace tokens, `timestamp` is never bound. An alert on such a message would then raise
`UnboundLocalError`, which `TrendWindow.Outcome.Raised` models. This needs a deque of 5
readings before the callback, and that state is unreachable.
`SmokerConsumer.Callback` and `SmokerConsumer.ReplayIsDetector` prove that it never happens.

## Model

| member | source | states |
|---|---|---|
| Text.Tokens | Consumer_smoker_bbq.py:38 | every token of `split()` is non-empty and free of whitespace |
| Text.TokensOfSpaced | Consumer_smoker_bbq.py:38 | `split()` gives back exactly the words that were joined by single spaces |
| Text.TokensSkipSpace | Consumer_smoker_bbq.py:38 | leading whitespace never changes the tokens |
| Text.Split | Consumer_smoker_bbq.py:39 | `split(':')` gives one more field than there are colons, and no field holds a colon |
| Text.JoinSplit | Consumer_smoker_bbq.py:39 | re-joining the fields with `':'` gives back the body |
| Text.SplitJoin | Consumer_smoker_bbq.py:39 | splitting undoes joining when no field holds a colon |
| Text.SplitAround | Consumer_smoker_bbq.py:39 | a colon in the text splits it into the fields of the two sides |
| Text.CountFree | Consumer_smoker_bbq.py:39 | text without a colon has no colons to count |
| Text.SplitFree | Consumer_smoker_bbq.py:39 | text without a colon is a single field |
| Message.Parse | Consumer_smoker_bbq.py:37-39 | the parse fails at the timestamp exactly when there are fewer than 2 tokens, and at the value field exactly when there are fewer than 3 colons; otherwise `float()` of field 3 decides; the timestamp is token 1 |
| Message.ParseAllAppend | Consumer_smoker_bbq.py:34-39 | each delivered body is parsed on its own: parsing two runs of messages one after the other gives the outcomes of each run in turn |
| Message.ProducerValueField | Smoker_bbq_producer_logger.py:60 | for a producer body, field 3 is `" " + temperature` when the time stamp has two colons; with fewer there is no field 3 |
| Message.ProducerTimestampToken | Smoker_bbq_producer_logger.py:60 | for a `<date> <time>` stamp, the tokens are date, time followed by `':'`, and the temperature, so the reported timestamp is `<time>:` |
| Message.ProducerBodyParses | Consumer_smoker_bbq.py:38-39 | a well-formed producer body parses to its temperature and its time token |
| TrendWindow.Append | Consumer_smoker_bbq.py:42 | `append` on a `deque(maxlen=…)` keeps the newest `min(len+1, maxlen)` items; below `maxlen` nothing is evicted |
| TrendWindow.ChangesCoverWindow | Consumer_smoker_bbq.py:56-59 | the `any` test on the changes list holds exactly when some neighbouring pair of the window crosses the threshold |
| TrendWindow.ChangeIsAdjacent | Consumer_smoker_bbq.py:56-59 | a crossing entry of the changes list is a crossing neighbouring pair of the window |
| TrendWindow.AdjacentIsChange | Consumer_smoker_bbq.py:56-59 | every crossing neighbouring pair of the window shows up as a crossing entry of the changes list |
| TrendWindow.Step | Consumer_A_smoker_bbq.py:32-62 | the detector never raises, and a deque below capacity stays below capacity |
| TrendWindow.StepIgnoresFailure | Consumer_A_smoker_bbq.py:32-39 | a message that fails to parse leaves the deque as it was and does not alert |
| TrendWindow.StepFillsBlock | Consumer_A_smoker_bbq.py:39-45 | the 1st to (C-1)th readings of a block are appended, nothing is evicted, and there is no alert |
| TrendWindow.StepCompletesBlock | Consumer_A_smoker_bbq.py:39-62 | the C-th reading of a block clears the deque, and alerts with its own timestamp exactly when some neighbouring pair of the block crosses the threshold |
| TrendWindow.StepOnFullDeque | Consumer_A_smoker_bbq.py:39-62 | on a deque already at `maxlen`, the oldest reading is evicted; the resulting window is tested and then cleared |
| Blocks.Final | Consumer_A_smoker_bbq.py:39-62 | after any stream the deque holds fewer than `capacity` readings |
| Blocks.BlockState | Consumer_A_smoker_bbq.py:39-62 | after n valid readings the deque equals the last `n mod C` of them |
| Blocks.BlockAlert | Consumer_A_smoker_bbq.py:45-58 | message k alerts exactly when it is a valid reading, the count of valid readings so far is a positive multiple of C, and the last C of them hold a crossing neighbouring pair; the alert carries message k's timestamp |
| Blocks.ValidsAppend | Consumer_A_smoker_bbq.py:32-39 | the valid readings of a concatenated stream are those of each part, in order |
| Blocks.InvalidIsolation | Consumer_A_smoker_bbq.py:32-67 | inserting a message that fails to parse leaves the final deque unchanged |
| Blocks.InvalidIsolationAlert | Consumer_A_smoker_bbq.py:32-67 | inserting a message that fails to parse changes no later message's alert |
| SmokerConsumer.Callback | Consumer_smoker_bbq.py:42-68 | from a deque of at most 4 readings the callback never raises and leaves at most 4; a failed parse changes nothing and does not alert; the 1st to 4th readings never alert |
| SmokerConsumer.CallbackCompletesBlock | Consumer_smoker_bbq.py:42-68 | the 5th reading clears the deque, and alerts with its own timestamp exactly when some neighbouring drop in the 5 readings is at least 15 |
| SmokerConsumer.DropIsAlarm | Consumer_smoker_bbq.py:56-59 | the file's `<= -15` test over the changes list is the shared detector's test with the smoker parameters, and is the same as some neighbouring drop of at least 15 |
| SmokerConsumer.CallbackIsStep | Consumer_smoker_bbq.py:34-68 | on every reachable deque the smoker callback equals `Step` with capacity 5, threshold 15, fall, inclusive |
| SmokerConsumer.Replay | Consumer_smoker_bbq.py:27 | the deque never exceeds its `maxlen` of 5 |
| SmokerConsumer.ReplayIsDetector | Consumer_smoker_bbq.py:34-68 | over any stream the smoker consumer never raises, and it holds the detector's deque and alert |
| SmokerConsumer.BlockSemantics | Consumer_smoker_bbq.py:42-68 | the deque is the last `n mod 5` valid readings; alerts come only on valid readings 5, 10, 15, …, exactly when that block of 5 has a neighbouring drop of at least 15, with that message's timestamp |
| SmokerConsumer.SuddenDropAlerts | Consumer_smoker_bbq.py:56-64 | 100, 100, 100, 100, 84 alerts on the 5th reading and clears |
| SmokerConsumer.RiseDoesNotAlert | Consumer_smoker_bbq.py:56-68 | 100, 100, 100, 100, 116 does not alert, and the deque is still cleared |
| SmokerConsumer.GradualDropIsMissed | Consumer_smoker_bbq.py:56-68 | 100, 96, 92, 88, 84 falls 16 degrees over the window but does not alert |
| FoodAConsumer.Callback | Consumer_A_smoker_bbq.py:39-67 | the callback never raises; a failed parse changes nothing and does not alert; below 20 the deque stays below 20; readings 1 to 19 of a block never alert |
| FoodAConsumer.CallbackCompletesBlock | Consumer_A_smoker_bbq.py:39-62 | the 20th reading clears the deque, and alerts with its own timestamp exactly when some neighbouring rise in the 20 readings is more than 1 |
| FoodAConsumer.RiseIsAlarm | Consumer_A_smoker_bbq.py:50-53 | the file's `> 1` test over the changes list is the shared test with the Food A parameters, and is the same as some neighbouring rise of more than 1 |
| FoodAConsumer.CallbackIsStep | Consumer_A_smoker_bbq.py:31-67 | on every deque its `maxlen` allows, the Food A callback equals `Step` with capacity 20, threshold 1, rise, strict |
| FoodAConsumer.Replay | Consumer_A_smoker_bbq.py:31-67 | over any stream the consumer keeps fewer than 20 readings and never raises |
| FoodAConsumer.ReplayIsDetector | Consumer_A_smoker_bbq.py:31-67 | over any stream the Food A consumer holds the detector's deque and alert |
| FoodAConsumer.BlockSemantics | Consumer_A_smoker_bbq.py:39-62 | the deque is the last `n mod 20` valid readings; alerts come only on valid readings 20, 40, …, exactly when that block has a neighbouring rise of more than 1, with that message's timestamp |
| FoodAConsumer.RiseAboveThresholdAlerts | Consumer_A_smoker_bbq.py:50-58 | 19 readings at 150 then 151.5 alerts |
| FoodAConsumer.RiseOfExactlyThresholdIsQuiet | Consumer_A_smoker_bbq.py:50-62 | 19 readings at 150 then 151 (a rise of exactly 1) does not alert, and the deque is cleared |
| FoodBConsumer.Callback | Consumer_B_smoker_bbq.py:39-66 | the callback never raises; a failed parse changes nothing and does not alert; below 20 the deque stays below 20; readings 1 to 19 of a block never alert |
| FoodBConsumer.CallbackCompletesBlock | Consumer_B_smoker_bbq.py:39-61 | the 20th reading clears the deque, and alerts with its own timestamp exactly when some neighbouring drop in the 20 readings is at least 1 |
| FoodBConsumer.DropIsAlarm | Consumer_B_smoker_bbq.py:49-52 | the file's `<= -1` test over the changes list is the shared test with the Food B parameters, and is the same as some neighbouring drop of at least 1 |
| FoodBConsumer.CallbackIsStep | Consumer_B_smoker_bbq.py:31-66 | with the clear placed after the gate, the Food B callback still equals `Step` with capacity 20, threshold 1, fall, inclusive, on every deque its `maxlen` allows |
| FoodBConsumer.Replay | Consumer_B_smoker_bbq.py:31-66 | over any stream the consumer keeps fewer than 20 readings and never raises |
| FoodBConsumer.ReplayIsDetector | Consumer_B_smoker_bbq.py:31-66 | over any stream the Food B consumer holds the detector's deque and alert |
| FoodBConsumer.BlockSemantics | Consumer_B_smoker_bbq.py:39-61 | the deque is the last `n mod 20` valid readings; alerts come only on valid readings 20, 40, …, exactly when that block has a neighbouring drop of at least 1, with that message's timestamp |
| FoodBConsumer.DropOfExactlyThresholdAlerts | Consumer_B_smoker_bbq.py:49-57 | 19 readings at 150 then 149 (a drop of exactly 1) alerts |
| FoodBConsumer.RiseIsQuiet | Consumer_B_smoker_bbq.py:49-61 | 19 readings at 150 then 170 does not alert, and the deque is cleared |

## Left out

- Transport: the `pika` connection, the durable queue declaration, `basic_consume`,
  `start_consuming`, `main()` and the `KeyboardInterrupt` handling. Repeated delivery of
  messages to the callback is modelled by each consumer's `Replay`.
- `body.decode('utf-8')`: the body is already a string. A decode error (a `ValueError`) is not
  modelled.
- `float()`: this is the parameter `toFloat: string -> Option<real>`. Temperatures are exact
  `real`s, so IEEE rounding in the subtractions is not modelled.
- Non-finite temperatures: Python's `float()` accepts `"nan"`, `"inf"` and `"-infinity"` (with
  surrounding spaces), and the consumers then append the value. A `real` has no such values, so
  `toFloat` must map those texts either to `None` or to some finite number. Neither matches
  Python. A NaN reading takes a slot in the block, and no comparison with it is true, so its two
  neighbouring pairs never cross. An infinite reading makes a difference of plus or minus
  infinity, which crosses any threshold in its direction. The model promises nothing about
  streams that carry such values.
- The `print` calls: an alert is the `Some(timestamp)` a callback returns, not console output.
- The producer (`Smoker_bbq_producer_logger.py`): CSV reading, pacing, publishing, the browser
  and logging. Only its message format (line 60) is used, as `Message.ProducerBody`.
- Independence of the three streams. Each consumer is a separate process with its own deque,
  and the model gives each consumer its own state, so there is nothing to prove.
- Message.ProducerValueField: says nothing about time stamps with three or more colons. Field 3
  then lies inside the time stamp, and it can still happen to equal `" " + temperature`, so no
  "only if" holds in that case.
- SmokerConsumer.Replay: its own contract only bounds the deque by `maxlen`. That it never
  raises and stays below 5 is stated by `SmokerConsumer.ReplayIsDetector`.
