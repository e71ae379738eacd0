# zabbix_anomaly change finder, modelled in Dafny

The Go program `zabbix_anomaly` scores a Zabbix item's recent history with a two-stage
change-point detector ("ChangeFinder") and sends the recent scores back to Zabbix. This
project models its core and proves properties of the model:

- **The change finder** (`ChangeFinder`, `sum`, `(*ChangeFinder).Update`, `NewChangePoint`).
  A finder holds two SDAR detectors from a foreign library, a smoothing buffer bounded by
  `Smooth`, the last input `Last` and the last score `LastScore`. `Update(v)` either returns
  the stored score or makes one pass through both stages:
  - It returns the stored score when `v` repeats `Last` and `LastScore < 3.0` (the
    repeat-value guard).
  - Otherwise it feeds `v` to the outlier detector `O`, pushes O's score onto the buffer
    (dropping the oldest entry when the buffer grows past `Smooth`), and feeds the buffer's
    mean to the change detector `S`.
- **The look-back arithmetic** of `main`. The item's `delay` string loses one trailing `m`,
  `h`, `d` or `w`, which picks 60, 3600, 86400 or 604800 seconds per unit. The rest is
  parsed as a decimal count. `from_time = now - count * multiplier * num`.
- **The scoring loop** of `main`. Every history sample is fed to the finder in order. The
  `(clock, score)` pairs with `clock > now - interval` are collected for the sender.

Files and modules:

- `detector.dfy`, module `Detectors`. A detector is a class whose state is the list of
  inputs it has received, `Log`. Its score is `Library(term, discount, Log)`, where
  `Library` is a function-valued parameter that stands for the foreign SDAR code. Nothing
  is assumed about the score values it returns. The model does assume that the library is
  deterministic and keeps no other state: a score is a function of the term, the discount
  and every input received so far, so an earlier score can be recomputed from the prefix
  of inputs it was returned for.
- `finder_model.dfy`, module `FinderModel`. The reference model on values: `State`, one
  step `Step`, and `Run`, the state a sequence of calls leads to from a fresh finder. It
  also holds the stream lemmas: what each detector receives, what the buffer holds,
  idempotence of the guard.
- `composer.dfy`, module `Composer`. The `ChangeFinder` class and the loop-based `Sum`.
  `Valid()` says the fields equal `Run` over every input passed so far. `Update` is proved
  to perform exactly one `Step`.
- `schedule.dfy`, module `Schedule`. The delay suffix, the count parse and `from_time`.
- `history.dfy`, module `History`. The send-window predicate and the scoring loop.

Scores and values are `real`. The guard's float equality (`v == finder.Last`) is exact
real equality.

A fresh finder has `Last = 0` and `LastScore = 0`, the Go zero values: `NewChangePoint`
never sets `Last`, so a first call with 0 is short-circuited and returns 0.

## Model

| member | source | states |
|---|---|---|
| Detectors.Detector.constructor | zabbix_anomaly.go:58-59 | a detector is built with its term and discount and has received no input |
| Detectors.Detector.Update | zabbix_anomaly.go:40 | feeding a value appends it to the detector's input log; the score returned is the library's score for the whole log |
| Composer.Sum | zabbix_anomaly.go:26-32 | the loop's result is the left-to-right total of the sequence, 0 for the empty one |
| FinderModel.SumOfCons | zabbix_anomaly.go:26-32 | summing from the left equals summing from the right (first element plus the rest) |
| FinderModel.MeanBounds | zabbix_anomaly.go:47 | the mean fed to the change stage lies between the smallest and the largest score in the buffer |
| FinderModel.PushKeepsLast | zabbix_anomaly.go:41-45 | with Smooth >= 1 and a buffer within its bound, append-then-drop-one keeps exactly the last min(old length + 1, Smooth) elements of old buffer + [r]; the result is non-empty and within the bound |
| FinderModel.PushLastN | zabbix_anomaly.go:41-45 | pushing a score onto the window of a score stream gives the window of the extended stream |
| FinderModel.LastNAt | zabbix_anomaly.go:41-45 | the window keeps the most recent elements in order; the oldest are evicted first |
| FinderModel.OutputsAt | zabbix_anomaly.go:40 | the j-th outlier score is the library's score for the first j+1 inputs the outlier detector received |
| FinderModel.GuardFreezes | zabbix_anomaly.go:37-38 | when v equals Last and LastScore < 3.0, the step changes nothing: same score, same buffer, neither detector fed |
| FinderModel.UnguardedFeedsBoth | zabbix_anomaly.go:39-47 | when v differs from Last or LastScore >= 3.0 (even for a repeated value), O is fed v, the buffer is the bounded window of old buffer + [O's score], and S is fed the mean of the new buffer |
| FinderModel.StepRecordsLast | zabbix_anomaly.go:50-53 | after every step Last is v, and the score is the old one when the guard fires, else S's new score |
| FinderModel.StepIdempotent | zabbix_anomaly.go:37-53 | a second call with the same value, after a call that scored below 3.0, returns the same score and leaves the whole state unchanged |
| FinderModel.FreshZeroIsGuarded | zabbix_anomaly.go:56-63 | a fresh finder has Last = 0, LastScore = 0 and an empty buffer, so a first call with 0 returns 0 and feeds no detector |
| FinderModel.RunLast | zabbix_anomaly.go:50 | after any sequence of calls Last is the latest input, 0 before the first call |
| FinderModel.FiredExactlyOnRepeats | zabbix_anomaly.go:37 | the guard fires on call i exactly when its input equals the input of call i-1 (0 for the first call) and the score returned by call i-1 (0 for the first call) is below 3.0 |
| FinderModel.RunOutlierLog | zabbix_anomaly.go:37-40 | over any sequence of calls, O receives exactly the inputs on which the guard did not fire, in call order |
| FinderModel.RunBuffer | zabbix_anomaly.go:41-45 | the buffer always holds the last Smooth scores O has returned, and never more than Smooth entries |
| FinderModel.RunChangeLog | zabbix_anomaly.go:47-53 | S receives one value per input O received: the mean of the window of O's scores at that point; the score returned is always S's latest score, 0 before S is first fed |
| FinderModel.RunRepeated | zabbix_anomaly.go:37-38 | once a value has scored below 3.0, repeating it any number of times leaves the finder where it was |
| Composer.ChangeFinder.NewChangePoint | zabbix_anomaly.go:56-63 | two fresh detectors built from the given terms and discounts, Smooth set, Last = LastScore = 0, empty buffer |
| Composer.ChangeFinder.Update | zabbix_anomaly.go:34-54 | one call performs exactly one reference step: guarded calls return the old score and leave buffer and detectors untouched; other calls feed O with v and S with the buffer mean; Last = v, LastScore = the returned score, buffer within Smooth |
| Composer.FinderInvariants | zabbix_anomaly.go:34-54 | between calls, any finder's O has received exactly the unguarded inputs, its buffer is the window of O's last Smooth scores, S has received the window means, and LastScore is S's latest score |
| Schedule.SuffixRemovedOnce | zabbix_anomaly.go:116-129 | a trailing m, h, d or w is removed exactly once, even when what precedes it also ends in a unit letter, and picks 60, 3600, 86400 or 604800 |
| Schedule.NoSuffixKept | zabbix_anomaly.go:116-129 | a delay not ending in m, h, d or w is parsed whole, with multiplier 1 |
| Schedule.ParseDecimalRoundTrip | zabbix_anomaly.go:130 | the decimal count parse recovers every rendered count, unsigned, with + or with - |
| Schedule.ParseDecimalRejectsTrailing | zabbix_anomaly.go:130 | a count ending in a non-digit does not parse |
| Schedule.FromTimeUnits | zabbix_anomaly.go:115-132 | from_time is now - n * multiplier * num for a count n with no suffix and with each of the suffixes m, h, d, w |
| Schedule.FromTimeIgnoresSeconds | zabbix_anomaly.go:115-132 | as written, a delay with the seconds suffix such as 30s has count 0, so from_time is now |
| Schedule.FromTimeWithSecondsCorrect | zabbix_anomaly.go:115-132 | with the seconds suffix handled, Ns reaches back n * num seconds; every delay not ending in s gives the as-written result |
| History.RecentMembers | zabbix_anomaly.go:153-156 | a scored point is sent exactly when its clock is greater than now - interval |
| History.RecentIsSuffix | zabbix_anomaly.go:153-156 | on samples in clock order, the points sent are a suffix of all scored points (the trailing window) |
| History.ScoreHistory | zabbix_anomaly.go:145-157 | every sample's value is fed to the finder in order; the result is the recent samples' (clock, score) pairs, each score being the one its own call returned |

## Left out

- The SDAR numerics inside the detector library (mean, autocovariance, Yule-Walker solve, variance floor, log-likelihood). That code is foreign and not shown. A detector is an oracle, and no claim is made about its score values, finiteness or convergence. Whether the library rejects a bad term or discount is unknown, so the model accepts any parameters.
- Composer.ChangeFinder.NewChangePoint: requires smoothTerm >= 1. With `smoothTerm <= 0` the Go code empties the buffer after every append (`Buffer[1:]` at line 44) and divides 0 by 0 at line 47 for every unguarded call. The model does not describe that NaN path.
- Go `float64` semantics: rounding, NaN and infinities. Values and scores are reals, and the guard compares them exactly.
- Network I/O: the Zabbix API login, `item.get`, `history.get`, `zabbix_sender.Send` and TCP address resolution. So is everything that depends on their replies: the JSON type assertions, the loop over several items (where the last item's delay and host win) and the host name.
- Flag parsing, `fmt.Printf` output, and the `ParseFloat` / `FormatFloat` / clock `ParseInt` conversions of the scoring loop. History.ScoreHistory receives samples whose clock and value are already parsed.
- History.ScoreHistory: the window is checked against one fixed `now`. The Go loop calls `time.Now()` afresh for each sample at line 154, so later samples can see a slightly later `now`.
- History.RecentIsSuffix assumes the history is in clock order. The `history.get` call does not ask Zabbix to sort it.
- Schedule.DelayCount: only `ParseInt`'s syntax errors are modelled (the ignored error leaves 0). Its clamping of out-of-range counts to the int64 limits is not.
- Schedule.FromTime: integers are unbounded. The int64 overflow of `count * multiplier * num` is not modelled.
- `Buffer2`: the field is declared and never used.

## Findings

| source | as written | input that shows it | evidently intended | confidence | as-written member | corrected member |
|---|---|---|---|---|---|---|
| zabbix_anomaly.go:115-132 | only the suffixes m, h, d and w are stripped; a delay such as `30s` fails to parse, the ignored error leaves count 0, and from_time equals now | item delay `30s` | the comment names the Zabbix 3.4 time-suffix feature, whose suffixes include s (seconds); `30s` should reach back 30 * num seconds | medium, not executed | Schedule.FromTimeIgnoresSeconds | Schedule.FromTimeWithSecondsCorrect |
