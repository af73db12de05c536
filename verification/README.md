# Pose clock — a Dafny model

The project is an interactive clock for a university building. A slider over a
photograph of the buildings shows how much of today's opening hours has
passed. The exact time is revealed only after the person in front of the
camera performs three randomly chosen body poses in order. A pose classifier
recognises the poses, and a separate training page records labelled pose data
for it.

This project models the logic inside the drawing code, in three parts:

- **The pose-sequence game** of `sketch.js`. `clock.js` repeats the same match
  block; it is modelled once, since both copies have the same guard, the same
  one-slot advance and the same timers.
  - The game state: three target slots, each with a name and a state
    (current, default or performed), the last detected pose, the green-flash
    flag and the reveal flag.
  - Every browser callback is one event with a pure step function: a
    classification result, a frame of the drawing loop, and the expiry of
    the 300 ms flash timer or the 10 s reveal timer.
  - Timers are never cancelled or tied to a round. The model counts how many
    of each kind are pending.
  - New rounds come from `getUniqueRandomNumbers`. It is modelled over a
    finite sequence of `Math.random` results in [0, 1).
- **The time helpers** of `clock.js`, identical in `sketch.js`:
  - the Monday-first day remap and the opening-hours table;
  - the day-fraction and slider clamps;
  - `printTime` padding;
  - `decimalTimeToString` and `stringTimeToDecimal`.

  They are modelled over exact reals and unbounded integers.
- **Training-data collection** in `trainingModel.js`:
  - the case-insensitive key table;
  - the inactive → waiting → collecting → inactive recorder, driven by key
    presses and an explicit queue of the timers `keyPressed` schedules;
  - the gate on `getPoses`;
  - the keypoint feature vector `[x0, y0, x1, y1, …]` that the training page
    and `classifyPose` build alike.

Modules:

- `Wrappers`: Option.
- `Catalog`: the nine pose names.
- `Sampler`: `getUniqueRandomNumbers`.
- `PoseGame`, `PoseGameProps`, `PoseGameScenario`: the game.
- `Digits`: number text, `padStart` and digit parsing.
- `Clock`: the time helpers.
- `Keypoints`: the feature vector.
- `Trainer`, `TrainerProps`: the recorder.

Where the code does something other than a reader might expect, the model
follows the code:

- **Timers.** The flash and reveal timers are not tied to the round that set
  them and are never cancelled, where one might expect a new round to cancel
  them. In the code's own delays this matters inside one round: a flash timer
  (300 ms) of one match clears the flag that a later match of the same round
  raised, when the two matches come less than 300 ms apart. The next round
  starts only when the 10 000 ms reveal timer fires, so with those delays
  every flash timer of a round has fired before the next round exists. The
  model has no clock for the game: pending timers are counters and any
  pending timer may fire next, so it allows more orders than the delays do,
  a leftover flash timer firing in the next round among them. Every property
  proved holds for all of these orders.
- **Too many poses requested.** Asking for more distinct poses than the
  catalogue holds might be expected to fail; the code's loop never ends
  instead. The model returns `None`, and `Sampler.TooManyNeverFinishes` proves
  that no supply of random numbers lets it finish.
- **A pose held across rounds.** The detected pose is not reset when a new
  round starts, where one might expect each round to wait for a fresh
  detection. A person still holding the pose that ended the last round, or
  any earlier detection, advances the new round at once when its first slot
  names that pose (`PoseGameProps.StaleDetectionCarriesOver`).
- **Several detected bodies.** A match by any one of several bodies might be
  expected to count. In the code each classification result overwrites the
  detected pose, so only the last result before a frame counts. The model has
  one `Classified` event per result.

With no current slot the code does nothing on a frame, as expected: a round
has no current slot only while the time is revealed, and then the
`!timeRevealed` conjunct of the guard fails. Both sides of the comparison are
`undefined`, so that the guard would hold and slot −1 would be indexed, only
in a state with no current slot and no reveal. The model keeps that path
(`Outcome.Crashed`) and `PoseGameProps.StepPreservesInv` proves no reachable
state is on it.

## Model

| member | source | states |
|---|---|---|
| Catalog.PosesWellFormed | sketch.js:51-61 | the catalogue has nine non-empty, pairwise distinct names |
| Sampler.Draw | sketch.js:320 | one draw `floor(u·(max−min+1))+min` lies in [min, max] for u in [0, 1) |
| Sampler.GetUniqueRandomNumbers | sketch.js:317-323 | succeeds exactly when the draws hold `count` distinct values; the result is the first `count` distinct draws in first-draw (Set insertion) order, so it has `count` elements, pairwise distinct, each drawn, each in [min, max] |
| Sampler.Fill | sketch.js:318-322 | the Set loop only adds to the values it holds: they stay a prefix of the result, which has exactly `count` values, stays free of repeats, and is out of reach when fewer draws remain than values are missing |
| Sampler.FirstOccurrencesFacts | sketch.js:318-322 | the Set's insertion order has no repeats and holds exactly the drawn values |
| Sampler.FirstOccurrencesPrefix | sketch.js:319-321 | drawing more never reorders values the Set already holds |
| Sampler.FillIsFirstOccurrences | sketch.js:318-322 | the while loop stops at the first prefix of the draws that has `count` distinct values and returns those values in insertion order |
| Sampler.TooManyNeverFinishes | sketch.js:319-321 | asking for more distinct values than [min, max] holds never finishes |
| Sampler.IntRange | sketch.js:320 | the integer range [min, max] as a set with max−min+1 elements |
| Sampler.DistinctInRangeBound | sketch.js:319-321 | at most max−min+1 distinct values fit in the range |
| PoseGame.GotResults | sketch.js:136-153 | an error keeps the detected pose; a result above 0.98 (strictly) gives its label; any other result gives "" |
| PoseGame.SetTargetPoses | sketch.js:306-315 | succeeds exactly when the draws offer three distinct indices; slot i is named `poses[idx[i]]`; slot 0 is current and slots 1-2 default; the names are distinct and from the catalogue |
| PoseGame.FreshTargets | sketch.js:310-314 | the array built from three distinct indices: slot i is named `poses[idx[i]]`, slot 0 current and slots 1-2 default, names distinct and from the catalogue |
| PoseGame.MatchBlock | sketch.js:250-282 | the match block never draws; it throws exactly when nothing is current, the detection is undefined and the reveal is closed; when the guard fails nothing changes; otherwise the names and detection stay, the flash is raised with one more flash timer, and one more reveal timer exactly when the reveal opens (clock.js lines 250-276 hold the same block) |
| PoseGame.FrameStep | sketch.js:228-232 | a frame draws only when the targets are not yet set, runs out of draws exactly then, and otherwise is the match block; afterwards the targets are set |
| PoseGame.FlashExpiry | sketch.js:279-281 | the 300 ms callback lowers the flash and uses one flash timer, changing nothing else |
| PoseGame.RevealExpiry | sketch.js:267-270 | the 10 000 ms callback never throws, runs out of draws exactly when the sampler does, and otherwise installs a fresh round with slot 0 current, closes the reveal and uses one reveal timer, keeping the detected pose and the flash |
| PoseGame.FindCurrent | sketch.js:273 | findIndex: the first current slot, or −1 when there is none |
| PoseGame.CurrentSetPose | sketch.js:251 | `find(...)?.poseName`: the name of the first slot, in array order, that is current; undefined exactly when no slot is current |
| PoseGameProps.SingleCurrent | sketch.js:251-276 | in a reachable state during a round exactly one slot is current, earlier ones performed and later ones default; during the reveal all three are performed |
| PoseGameProps.InitialInv | sketch.js:6-9 | the state before the first frame satisfies the invariant |
| PoseGameProps.MatchAdvancesOneSlot | sketch.js:250-282 | a matching frame outside the reveal raises the flash and arms its timer; it performs current slot k and makes k+1 current, or for k = 2 opens the reveal and arms its timer; performed slots grow by one |
| PoseGameProps.NoMatchNoChange | sketch.js:251-252 | during the reveal, or with a detected pose other than the current name, a frame changes nothing |
| PoseGameProps.MatchIff | sketch.js:251-252 | in a reachable state a frame changes the state if and only if the reveal is closed and the detected pose is the current name |
| PoseGameProps.StepPreservesInv | sketch.js:250-282 | every event keeps the invariant and never throws; the oracle can run out only on the first frame or a reveal expiry (see also sketch.js lines 136-153 and 228-232) |
| PoseGameProps.MatchPreservesInv | sketch.js:250-276 | the match block keeps the slot shape and the name facts |
| PoseGameProps.RevealExpiryRestarts | sketch.js:267-270 | the reveal expiry installs a fresh sequence with slot 0 current and closes the reveal, failing only on an exhausted oracle |
| PoseGameProps.FlashExpiryOnlyClearsFlash | sketch.js:279-281 | the flash expiry lowers only the flash flag; the slots, the reveal flag and the detected pose stay |
| PoseGameProps.FlashDoesNotBlock | sketch.js:250-276 | a frame does the same whether the flash flag is up or down |
| PoseGameProps.ClassifiedThenFrame | sketch.js:250-276 | a result followed by a frame advances exactly when its label is the current name and its confidence is above 0.98 (see also sketch.js lines 136-153) |
| PoseGameProps.ThresholdBoundary | sketch.js:148 | confidence exactly 0.98 gives ""; 0.981 gives the label |
| PoseGameProps.FramesAdvanceAtMostOne | sketch.js:250-276 | any number of frames with an unchanged detected pose advance at most one slot (see also sketch.js lines 308-314) |
| PoseGameProps.FramesIdle | sketch.js:251-252 | frames over a state the match block leaves alone change nothing |
| PoseGameProps.RunKeepsInv | sketch.js:228-282 | every run of events from a state with the invariant keeps it and never throws |
| PoseGameProps.ReachableInv | sketch.js:228-282 | every state reachable from the start satisfies the invariant |
| PoseGameProps.StaleDetectionCarriesOver | sketch.js:267-270 | the detected pose survives a reveal expiry, so a new round whose first name equals it advances at once (see also sketch.js lines 251-252) |
| PoseGameScenario.FirstFrame | sketch.js:306-323 | the first frame with draws 0.0, 0.2, 0.5 sets slots 0, 1, 4 (see also sketch.js lines 228-232) |
| PoseGameScenario.Round | sketch.js:250-282 | the full sequence: right pose, flash expiry, wrong pose, second pose, third pose, ignored pose during the reveal |
| PoseGameScenario.AfterReveal | sketch.js:267-270 | the reveal expiry with draws giving 8, 8, 0, 4 skips the repeat and starts round 8, 0, 4 (see also sketch.js lines 317-323) |
| Clock.DayIndex | clock.js:179-180 | `(getDay()+6)%7`: Sunday to 6, any other day d to d−1, always in 0..6 |
| Clock.DayIndexBijective | clock.js:179-183 | the remap is a bijection of 0..6 |
| Clock.HoursOn | clock.js:38-46 | the table row is always in bounds; weekdays 8 to 23, the weekend closed (see also clock.js line 183) |
| Clock.Now | clock.js:186 | the decimal hours of a clock reading lie inside the hour it shows |
| Clock.SliderSplit | clock.js:179-198 | the split of one frame stays on the image; on a closed day it stays at the left edge; on a weekday it is at the left edge before 08:00 and at the right edge from 23:00 |
| Clock.Constrain | clock.js:191 | p5 `constrain`: the value clamped into [low, high], unchanged when already inside (see also clock.js line 198) |
| Clock.DayFraction | clock.js:186-191 | 0 when the day has no opening hours; otherwise in [0, 1], 0 before opening, 1 after closing, elapsed/duration in between |
| Clock.SplitX | clock.js:195-198 | the split lies in [clockSliderX, clockSliderX + imgWidth] |
| Clock.SplitXUnclamped | clock.js:195-198 | for a fraction in [0, 1] the second clamp changes nothing |
| Clock.SplitXMonotone | clock.js:186-198 | a later time never moves the split left |
| Clock.TimeField | clock.js:585-587 | a field below 100 has two digits that read back as its value, with a leading '0' iff it is below 10 |
| Clock.PrintTime | clock.js:581-588 | eight characters `HH:MM:SS`, each field two digits reading back as its value, leading '0' iff below 10 |
| Clock.Round | clock.js:604 | `Math.round`: the integer within half of x, halves rounded up |
| Clock.DecimalTimeToString | clock.js:598-612 | for hours in 0..99, five characters `HH:MM` whose fields read back as the floor and the rounded minutes of the fraction; a whole number ends in ":00" |
| Clock.FractionMinutes | clock.js:604 | the rounded minutes lie in 0..60 and are 0 for a whole number |
| Clock.HoursMinutes | clock.js:607-611 | both padded fields joined by ':'; fields below 100 read back as the values |
| Clock.Split | clock.js:616 | `split(':')`: at least one part, none containing the separator |
| Clock.JoinSplit | clock.js:616 | splitting loses nothing: joining the parts gives the text back |
| Clock.StringTimeToDecimal | clock.js:614-622 | a number exactly when both of the first two fields are numbers, and then hours + minutes/60 |
| Clock.FieldNumber | clock.js:616 | `Number` of a field of digits (the empty field included) is the value of those digits |
| Clock.ParseClockText | clock.js:614-622 | `HH:MM` text parses to h + m/60 |
| Clock.DecimalOfClock | clock.js:598-604 | for m < 60, h + m/60 has floor h and rounded minutes m |
| Clock.StringRoundTrip | clock.js:598-622 | `decimalTimeToString(stringTimeToDecimal(s)) == s` for every `HH:MM` text with MM below 60 |
| Clock.ClockTextDetermined | clock.js:607-611 | two-digit text is fixed by the values it denotes |
| Clock.DecimalRoundTrip | clock.js:598-622 | for h < 100 and m < 60, h + m/60 prints as a clock text that parses back to h + m/60 |
| Clock.SixtyMinutes | clock.js:604-611 | as written, 8.999 prints as "08:60" |
| Clock.DecimalTimeToMinuteText | clock.js:598-612 | corrected: round to whole minutes first, then split into hours and minutes; the minutes are always below 60 |
| Clock.MinuteTextMeansNearestMinute | clock.js:598-622 | the corrected text parses back to the time rounded to the nearest minute |
| Clock.MinuteTextAgrees | clock.js:598-612 | wherever the as-written minutes stay below 60, both conversions print the same |
| Clock.OpeningLabels | clock.js:209-210 | the slider labels, printed with the corrected conversion, read "08:00" and "23:00" on weekdays and "00:00" at both ends at the weekend, the same text the as-written conversion gives (see also clock.js lines 38-46) |
| Clock.WholeHourText | clock.js:598-612 | a whole hour below 100 prints as its padded hour and ":00" either way |
| Digits.NatToString | clock.js:607-608 | `toString` of a non-negative integer: one digit below 10, two below 100, no leading zero |
| Digits.IntToString | clock.js:607-608 | `toString` of an integer: the digits of its magnitude, after a minus sign when it is negative |
| Digits.ParseNatToString | clock.js:607-608 | reading the text back gives the number |
| Digits.NatToStringParse | clock.js:607-608 | digit text with no extra leading zero is the text of its value |
| Digits.PadStart | clock.js:607-608 | `padStart`: left-fills to the width, keeps longer text unchanged |
| Keypoints.Flatten | trainingModel.js:149-154 | two coordinates per keypoint, x before y, in keypoint order |
| Keypoints.FlattenUnflatten | trainingModel.js:149-154 | the keypoints can be read back from the vector |
| Keypoints.UnflattenFlatten | trainingModel.js:149-154 | every even-length vector encodes some keypoint sequence |
| Keypoints.FlattenInjective | trainingModel.js:149-154 | different poses give different vectors |
| Keypoints.KeypointInputs | sketch.js:125-132 | the push-x-then-y loop computes exactly Flatten, the vector the training page records |
| Trainer.ToUpper | trainingModel.js:27 | upper case character by character, same length |
| Trainer.UpperChar | trainingModel.js:27 | `toUpperCase` of one character: a lower-case ASCII letter goes to its capital, long s to S, dotless i to I, anything else unchanged |
| Trainer.IsPoseKey | trainingModel.js:27 | the `some` test: a pose key is one character whose upper case is a capital letter (TrainerProps.PoseKeyIff gives the exact set) |
| Trainer.FindIndex | trainingModel.js:32 | the first row with the key, or −1 when no row has it |
| Trainer.Lookup | trainingModel.js:27 | `find` gives a name exactly when `some` holds, and it is the name of the row with the upper-cased key (see also trainingModel.js line 32) |
| Trainer.KeyPressed | trainingModel.js:26-43 | a pose key sets waiting and the label and schedules the collecting and inactive timers 5000 and 15000 ms on; any other key changes nothing |
| Trainer.Earliest | trainingModel.js:35-42 | the timer that fires next: the earliest due, the first scheduled among equals |
| Trainer.FireNext | trainingModel.js:35-42 | the timer that fires is the earliest due, the first scheduled among equal dues; it alone leaves the queue, the others stay in their order, the state becomes what it sets and the clock moves to its due time, which no pending timer precedes |
| Trainer.NewSample | trainingModel.js:144-160 | the sample is the keypoint vector with target [label], or two empty lists when there is no pose |
| Trainer.GetPoses | trainingModel.js:131-142 | a non-empty detection replaces the pose; a sample is added exactly when poses were detected and the state is collecting |
| TrainerProps.TableWellFormed | trainingModel.js:47-57 | nine rows with distinct one-letter keys, and the labels are the game's catalogue in order |
| TrainerProps.PoseKeyIff | trainingModel.js:27 | a key starts a recording iff it is one character among the nine letters in either case or the long s (see also trainingModel.js lines 47-57) |
| TrainerProps.CommandKeysAreNotPoseKeys | trainingModel.js:14-24 | Enter and space never start a recording (see also trainingModel.js line 27) |
| TrainerProps.KeyCaseInsensitive | trainingModel.js:27 | upper-casing the key first changes nothing (see also trainingModel.js line 32) |
| TrainerProps.LookupInCatalog | trainingModel.js:32 | a pose key's label is one of the catalogue's poses (see also trainingModel.js lines 47-57) |
| TrainerProps.StepPreservesInv | trainingModel.js:13-44 | no timer is ever overdue; the label is set whenever the recorder is busy or a timer is pending; every sample is empty or an even vector with one catalogue label (see also trainingModel.js lines 131-160) |
| TrainerProps.RunKeepsInv | trainingModel.js:13-44 | any run of events keeps the invariant (see also trainingModel.js lines 131-160) |
| TrainerProps.SamplesAlwaysLabelled | trainingModel.js:138-160 | every recorded sample is empty or labelled with a catalogue pose, never undefined |
| TrainerProps.SinglePress | trainingModel.js:31-42 | with nothing pending, a press gives collecting at +5000 ms and inactive at +15000 ms, then nothing is pending (see also trainingModel.js lines 10-11) |
| TrainerProps.OverlappingPresses | trainingModel.js:31-42 | D at 0 and U at 3000: U records from 5000, and D's stale timer stops it at 15000 while U's stop is still pending for 18000 |
| TrainerProps.RunFires | trainingModel.js:35-42 | n timer events fire the n earliest timers, one at a time |

## Left out

- The two `draw` copies differ outside the match block: `clock.js` calls `renderCurrentPoseImageAcrossTheCameraFrame` even while the time is revealed, where `sketch.js` guards that call with `!timeRevealed`. During the reveal no slot is current, so the call hands an undefined image to p5's `image`. What that does, from drawing nothing to throwing and stopping the frame loop at the first reveal, depends on p5, which is not part of this model.
- p5 rendering is not modelled: images, text, fonts, layout constants, the mirrored video and the state-colour ellipse. It is drawing with no logic.
- The ml5 calls are not modelled: PoseNet, `classify`, `load`, `train`, `save`, `saveData`, `loadData` and `normalizeData`. These are foreign ML services. A classification reaches the model as a label and a confidence, or as an error. The Enter and space branches of `keyPressed` only call these services, so the model records no state change for them.
- Webcam capture and asset preloading are I/O.
- `Math.random` becomes a finite sequence of reals in [0, 1). When that sequence runs out before three distinct indices are drawn, the model says `Exhausted`, where the source would keep drawing.
- `setTimeout` and the wall clock:
  - game timers are pending counters, and an expiry event may come while one is pending;
  - training timers are an explicit queue with a millisecond clock;
  - the real delays between events are not modelled.
- `hour()`, `minute()`, `second()` and `getDay()` are parameters.
- `printTodaysDate` is locale formatting and is not modelled.
- Floating point is not modelled. Numbers are exact reals, so the 0.98 threshold and the minute fraction carry no rounding error.
- `Clock.FieldNumber`: reads only empty or all-digit fields. JavaScript's `Number` also accepts surrounding white space, signs, decimals, exponents, `Infinity` and the `0x`, `0b` and `0o` prefixes. The model treats every other field as NaN.
- `Trainer.UpperChar`, `Trainer.ToUpper`: `UpperChar` maps only the ASCII letters, long s and dotless i, and `ToUpper` maps a string character by character, keeping its length. All other Unicode case mappings are left out, including the ones that change a string's length (ß to "SS"). None of them can produce a one-letter table key.
- `Digits.IntToString`: the exponent notation `toString` uses for very large numbers is left out. `Clock.DecimalTimeToString` accepts any real, so such hours can reach it, but the program's own inputs are the table's hours, between 0 and 23.
- The `skeleton` field read by `getPoses` is drawing data and is not modelled.

## Findings

| source | as written | input that shows it | evidently intended | confidence | as-written member | corrected member |
|---|---|---|---|---|---|---|
| clock.js:598-612 (also sketch.js:609-623) | the minutes are `Math.round` of the fraction, so they can reach 60 | `decimalTimeToString(8.999)` gives "08:60" | round the whole time to minutes first, giving "09:00" | not executed | Clock.SixtyMinutes | Clock.DecimalTimeToMinuteText, Clock.MinuteTextMeansNearestMinute |
