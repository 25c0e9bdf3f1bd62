# SensorDataMocker playback core in Dafny

SensorDataMocker replays PEMFC (fuel-cell) sensor telemetry: it reads CSV
rows, turns each row into a JSON payload and POSTs the payloads to an HTTP
endpoint at a fixed pace. Two scripts do this: `generator.py` plays three
channels in lockstep, and `generator_one_by_one.py` plays one. This project
models their common core and proves properties of it:

- **The payload converter** `convert_row_to_json` (module `Convert`).
  - A CSV row is a sequence of (header, text) pairs in header order.
  - A value holding a `'.'` goes through `float()`; any other value goes
    through `int()`. A `ValueError` from the chosen parse keeps the
    original text.
  - The key `pw` is renamed `PW`, and every other key is kept.
  - The function is the same, line for line, in both scripts. It is
    modelled once, and the table cites both copies.
  - `ConvertRowToJson` is the loop that fills the dictionary. It is proved
    equal to `PayloadOf`, a fold of the row in order, so a later write to
    the same key wins.
- **The text forms involved** (module `Decimal`).
  - The integer literals `int()` accepts and the float literals with a
    decimal point that `float()` accepts.
  - `str()` of an `int`.
- **URL substitution** (module `Url`). `str.replace` of every
  `{pemfc_id}` by the channel id in decimal.
- **The playback driver** of each script (modules `Generator` and
  `GeneratorOneByOne`, sharing module `Playback`).
  - `Run` first checks every start index: `start < 0` or
    `start + offset > total_rows` ends the run before anything is sent.
    The outcome names the first start that failed.
  - Otherwise `Play` runs the loop over `range(offset)`. Each step
    converts the row at `start_k + i` of every channel and posts it to
    that channel's URL, in declaration order, then sleeps.
  - A post is a `Send(channel, row, url, payload)` event and the pause is
    a `Sleep` event. The loop is proved to produce `Schedule`, the
    specification of the whole trace.
  - Lemmas about `Schedule` give the order of events and their counts,
    the rows each channel receives, and that every row index read lies
    within the rows.

A negative `offset` passes the range check whenever `0 <= start` and
`start + offset <= total_rows`; `range(offset)` is then empty, so the run
sends nothing. The number of steps is `Steps(offset)`, that is
`max(offset, 0)`.

## Model

| member | source | states |
|---|---|---|
| Convert.ConvertValue | generator.py:30-37 | a value with a '.' never becomes an int and one without never becomes a float; a float keeps its text; a value kept as text is the original value unchanged |
| Convert.ConvertRowToJson | generator.py:21-44 | the loop that fills the payload returns exactly PayloadOf(row), the in-order fold of the row's entries |
| Convert.PayloadKeys | generator.py:27-44 | the payload's keys are exactly the row's keys, with "pw" replaced by "PW" when present; nothing else is added or dropped |
| Convert.PayloadLastWrite | generator.py:28-42 | the entry under a payload key is the converted value of the last row entry that writes that key, so key order decides pw/PW collisions |
| Convert.PayloadPassThrough | generator.py:41-42 | in a row with distinct headers, every key other than "pw" and "PW" is in the payload under its own name with its converted value |
| Convert.PayloadRenamesPw | generator.py:39-40 | the "pw" value is stored under "PW" and no "pw" key remains, unless a later "PW" column overwrites it |
| Convert.ConvertFallback | generator.py:30-37 | the original text is kept exactly when the selected parse (float with a '.', int without) fails |
| Convert.ConvertIntRoundTrip | generator.py:34-35 | every int written with str() converts back to that int |
| Convert.ConvertLeadingZeros | generator_one_by_one.py:30-31 | an extra leading zero does not change the converted int ("007" and "7" both give 7) |
| Convert.ConvertPointFloat | generator_one_by_one.py:28-29 | "1.5" takes the float path and succeeds |
| Convert.ConvertNoPointText | generator_one_by_one.py:26-33 | "1e5", "inf" and "" hold no '.', go to int() only, fail, and stay text |
| Convert.PayloadPwCollision | generator_one_by_one.py:35-38 | a row with "pw" then "PW" yields only "PW", holding the later value |
| Decimal.ParseInt | generator.py:34-37 | int(s): defined as Some of the signed digit value when s is an optional sign followed by one or more ASCII digits, and None (the ValueError) otherwise |
| Decimal.IsFloatText | generator.py:32-33 | float(s) succeeds, for the texts holding a '.': defined as an optional sign, digits with one point and at least one digit, and an optional exponent |
| Decimal.IntToString | generator.py:68-70 | str(n): defined as '-' for a negative n followed by the canonical digits of abs(n); its contract states the text is never empty, and IntToStringRoundTrip states int() reads it back as n |
| Decimal.DecimalDigitsValue | generator.py:68 | the digits of n are digits, read back as n, and start with '0' only for 0 |
| Decimal.IntToStringRoundTrip | generator.py:68-70 | str(n) holds only digits and '-', and int() reads it back as n |
| Decimal.LeadingZerosIgnored | generator.py:35 | a leading zero does not change the value of a digit string |
| Decimal.FloatTextHasPoint | generator.py:32-33 | every literal the float path accepts contains a '.' |
| Decimal.IntTextHasNoPoint | generator.py:34-35 | no literal the int path accepts contains a '.' |
| Url.ReplaceAll | generator.py:68-70 | str.replace: defined as a left-to-right scan that replaces each occurrence, skips past it and copies the text between occurrences |
| Url.ReplaceAllFirst | generator.py:68-70 | the first occurrence of the pattern is replaced: a + pat + b, with no occurrence starting inside a, becomes a + rep + replace of b |
| Url.FormatUrl | generator_one_by_one.py:64 | the channel URL: defined as the template with "{pemfc_id}" replaced by str(id); FormatUrlFirst and FormatUrlSubstitutes state what that gives |
| Url.FormatUrlFirst | generator.py:68-70 | str(id) stands where the first placeholder stood: a + "{pemfc_id}" + b gives a + str(id) + the substituted b |
| Url.FormatUrlExample | generator_one_by_one.py:64 | the template "h/{pemfc_id}/d" for channel 3 gives "h/3/d" |
| Url.ReplaceAllNoOccurrence | generator.py:68-70 | replace leaves a text without the pattern unchanged |
| Url.ReplaceAllRemovesAll | generator.py:68-70 | when the replacement shares no character with the pattern, no occurrence of the pattern survives replace |
| Url.FormatUrlSubstitutes | generator_one_by_one.py:64 | a channel URL holds no "{pemfc_id}", and a template without one is used unchanged |
| Playback.FirstOutOfRange | generator.py:73-76 | finds the first start, in declaration order, that fails the range check; None exactly when all starts pass |
| Playback.InRangeFits | generator.py:73-85 | starts that pass the check keep every index start + i, 0 <= i < offset, within the rows |
| Playback.PayloadsAt | generator.py:83-89 | entry j of the payload sequence is the converted row j |
| Playback.StepSendsAt | generator.py:91-98 | within a step, the k-th send goes to the k-th channel |
| Playback.ScheduleLength | generator.py:78-100 | a trace of n steps holds n * (channels + 1) events |
| Playback.ScheduleAt | generator.py:78-100 | step-major order: event k of block i is the send of row start_k + i to channel k, and the last event of each block is the sleep |
| Playback.SchedulePrefix | generator.py:78-100 | the trace of the first m steps is a prefix of the trace of all steps |
| Playback.ScheduleSendsInRange | generator.py:78-89 | after a passed check, every send reads a valid row inside its own channel's range and carries that row's payload to that channel's URL |
| Playback.RangeAt | generator.py:79-81 | Range(lo, n) lists lo, lo + 1, ..., lo + n - 1 in increasing order |
| Playback.StepRowsSentTo | generator.py:79-98 | each channel gets exactly one send per step, of row start + i |
| Playback.StepCounts | generator.py:91-100 | one step makes one send per channel and one sleep |
| Playback.ScheduleRowsSentTo | generator.py:78-98 | channel k is sent exactly rows start_k, ..., start_k + steps - 1, in increasing order |
| Playback.ScheduleSendCount | generator.py:78-98 | n steps make n * channels sends |
| Playback.ScheduleSleepCount | generator.py:78-100 | n steps sleep n times, once per step |
| Generator.Run | generator.py:65-100 | completes iff FirstOutOfRange finds no failing start, that is iff all three starts pass the check; an abort names the first failing start and carries no sends; a completed run's trace is the schedule of the three substituted URLs over max(offset, 0) steps |
| Generator.Play | generator.py:78-100 | the loop's trace equals the three-channel schedule of the converted rows |
| Generator.StepAppends | generator.py:79-100 | one loop iteration appends PEMFC1, PEMFC2 and PEMFC3's sends of row start + i, then the sleep |
| Generator.ThreeSends | generator.py:91-100 | a three-channel step is send 1, send 2, send 3, sleep |
| Generator.ThreeBlock | generator.py:78-100 | block i of a three-channel trace is the sends of row start_k + i to URL k for k = 1, 2, 3, then the sleep; 4 * steps events in all |
| Generator.ThreeCounts | generator.py:78-100 | a three-channel trace makes 3 * steps sends and steps sleeps; channel k gets exactly rows start_k, ... in order; every row sent is valid |
| Generator.ThreeChannelCounts | generator.py:72-100 | a run that passed the check makes 3 * max(offset, 0) sends and max(offset, 0) sleeps, and sends each channel its rows start_k, ..., start_k + offset - 1 |
| GeneratorOneByOne.Run | generator_one_by_one.py:61-82 | completes iff the start passes the check; an abort names the start; a completed run's trace is the one-channel schedule to the substituted URL |
| GeneratorOneByOne.Play | generator_one_by_one.py:72-82 | the loop's trace equals the one-channel schedule of the converted rows |
| GeneratorOneByOne.StepAppends | generator_one_by_one.py:73-82 | one loop iteration appends the send of row start + i, then the sleep |
| GeneratorOneByOne.OneSend | generator_one_by_one.py:79-82 | a one-channel step is one send, then the sleep |
| GeneratorOneByOne.OneBlock | generator_one_by_one.py:72-82 | event 2i is the send of row start + i to the channel URL, and event 2i + 1 is the sleep |
| GeneratorOneByOne.OneCounts | generator_one_by_one.py:72-82 | a one-channel trace makes steps sends and steps sleeps, of rows start, ..., start + steps - 1 in order, each valid |
| GeneratorOneByOne.OneChannelCounts | generator_one_by_one.py:67-82 | a run that passed the check sends exactly rows start, ..., start + offset - 1 in increasing order, max(offset, 0) sends and as many sleeps |

## Left out

- Argument parsing (`parse_arguments`): the parsed values are parameters of `Run`.
- CSV reading with `csv.DictReader`: the rows are an input sequence. Ragged rows, where the reader produces a `None` key or value and the converter would raise `TypeError`, are not modelled.
- `post_data`: the HTTP POST, its status-code check and its exception logging are the `Send` event; network behaviour and responses are not modelled.
- `time.sleep` and its interval: a `Sleep` event without a duration.
- Generator.Run: the interval is taken to be a valid sleep length. A negative or NaN interval makes `time.sleep` raise `ValueError`, uncaught, so with `offset >= 1` the source run ends after the three sends of its first step; the model's completed trace has all `max(offset, 0)` steps.
- GeneratorOneByOne.Run: the interval is taken to be a valid sleep length. A negative or NaN interval makes `time.sleep` raise `ValueError`, uncaught, so with `offset >= 1` the source run ends after the one send of its first step; the model's completed trace has all `max(offset, 0)` steps.
- All printing and logging, including the message naming the failing start, which `Aborted(start)` records instead.
- `echo_server.py` is not part of this model (a Flask route echoing the JSON body).
- Convert.ConvertValue: `int()` is modelled on an optional sign and ASCII digits only; Python's `int()` also accepts surrounding whitespace, `_` separators and non-ASCII digits, which are not modelled.
- Convert.ConvertValue: `float()` is modelled for texts holding a '.' (the only ones the converter passes to it) as sign, ASCII digits with one point, optional exponent; surrounding whitespace, `_` separators and non-ASCII decimal digits (which `float()` accepts, "١.٥" reading as 1.5) are not modelled, so such values are kept as text here. Float values are not computed: `FloatV` keeps the accepted text.
- Convert.ConvertValue: the limit on integer text length is not modelled. CPython 3.11 and later, and the security releases back to 3.7.14, make `int()` raise `ValueError` for a decimal literal of more than 4300 digits, so the source keeps such a value as text where the model gives `IntV`.
- Playback.PayloadAt: the schedule gives an empty payload to a row index outside the rows; such an index is never reached on a run that passed the check (ScheduleSendsInRange).
- `Run` and `Play` split `main` into its check and its loop; the split introduces no behaviour of its own.
