# Object tracker detection loop, in Dafny

This project models the per-frame decision logic of the object tracker in
`js/object_tracking.js`. A phone camera feeds COCO-SSD, and the tracker
reacts to people and ten animal species. For each frame, `detectFrame` does
four things:

- It keeps the predictions whose class is in the `objetivosValidos` list and
  whose score is strictly above 0.5.
- It draws a box and a caption `"<class> (<pct>%)"` for each kept prediction.
- It asks a one-variable throttle (`ultimoEnvio`, window `INTERVALO_ENVIO` =
  1000 ms) whether to send `"<class>:<pct>"` over the Bluetooth UART. On a
  send it also updates the label and score indicators of the page.
- It resets both indicators to `"--"` when nothing qualified.

The model is functional. The detector output, the clock and the carried state
are inputs, and the draw commands, the UART sends and the new state are
outputs.

Modules, leaves first:

- `Targets` (`targets.dfy`): the taxonomy, the threshold 0.5, the 1000 ms
  window, the initial timestamp 0 and the `"--"` placeholder.
- `Optional`, `Decimal` (`optional.dfy`, `decimal.dfy`): how JavaScript spells
  an integral number in a template literal or in `textContent`, plus the
  inverse reading.
- `Message` (`message.dfy`): the wire format `"<class>:<pct>"`, with a parser
  on the receiving side that serves as its partner.
- `Detection` (`detection.dfy`): the `Prediction` and `BBox` records, the
  qualification test, the rounding `Math.round(score * 100)`, the filter, the
  caption and its anchor, and the draw commands.
- `Throttle` (`throttle.dfy`): the lazy time gate.
- `Frame` (`frame.dfy`): one prediction (`Handle`), the `forEach` loop
  (`ProcessAll`) and the whole frame (`DetectFrame`). These functions only
  compute. Their properties are stated by the lemmas `LoopDraws`,
  `LoopSpacing`, `LoopSendCount`, `LoopShowsLastSend`, `LoopSendsIffDue`,
  `LoopFirstSend` and `FrameContract`.
- `FrameProperties` (`frame_properties.dfy`): properties that relate several
  predictions, clock readings or frames. It also holds `Run`, the frame loop
  rescheduled by `requestAnimationFrame`, over a finite sequence of frames.

Modelling choices:

- Clock: the source reads `Date.now()` once per qualifying prediction. The
  model therefore takes one clock value per prediction. The sequence has the
  same length as the predictions, and a value is only consulted when its
  prediction qualifies. `DetectFrameAt` is the special case of a single
  reading per frame.
- Scores are `real`. `Math.round(x)` rounds to the nearest integer with halves
  going up, which is `Floor(x + 1/2)`.
- A UART send is recorded as `Send(report, at)`. The text the transport
  receives is `Format(report)`. `at` is the clock value that becomes the new
  `ultimoEnvio`.
- The code does not select one detection per frame. Every qualifying
  prediction is drawn and reaches the throttle check at line 99. With one
  clock reading per frame this reduces to "the first qualifying prediction
  is reported, if the window has elapsed" (`AtMostOneSendPerFrame`). With
  separate readings a second send in the same frame is possible, but only if
  more than 1000 ms pass inside the loop. The model follows the code: it
  never singles out the highest-scoring detection.
- `ultimoEnvio` never decreases, whatever the clock does. A send needs
  `now > ultimoEnvio + 1000`. No assumption that the clock is non-decreasing
  is needed.

## Model

| member | source | states |
|---|---|---|
| Targets.TaxonomySize | js/object_tracking.js:18-21 | the taxonomy has eleven distinct labels |
| Targets.IsTargetIsMembership | js/object_tracking.js:18-21 | the class test used by the filter holds exactly for the labels listed in `objetivosValidos` |
| Targets.TargetsHaveNoColon | js/object_tracking.js:18-21 | no target label contains the message separator `:` |
| Targets.CarIsNotATarget | js/object_tracking.js:82 | a COCO-SSD class outside the list, such as "car", does not pass the class test |
| Targets.TargetExamples | js/object_tracking.js:18-21 | "person", "dog" and "cat" pass the class test |
| Decimal.NatToDecimal | js/object_tracking.js:101 | the spelling of a number is non-empty, all digits, with no leading zero, and has one digit iff the number is below 10 |
| Decimal.NatRoundTrip | js/object_tracking.js:101 | reading back the decimal spelling of a natural number gives the number |
| Decimal.IntToDecimal | js/object_tracking.js:101 | an integer's spelling starts with '-' iff it is negative, and is all digits otherwise |
| Decimal.IntRoundTrip | js/object_tracking.js:101 | reading back the spelling of any integer gives the integer |
| Decimal.IntToDecimalInjective | js/object_tracking.js:101 | two different percentages are never spelled the same |
| Message.Format | js/object_tracking.js:101 | the message starts with the class and then the ':' separator, followed by at least one character |
| Message.RoundTrip | js/object_tracking.js:100-101 | splitting a message at its first ':' and reading the number gives back the class and the percentage, for any class without ':' |
| Message.FormatInjective | js/object_tracking.js:101 | different (class, percentage) reports give different messages |
| Detection.Percent | js/object_tracking.js:84 | the percentage is within half a unit of `score * 100`: `pct - 1/2 <= score*100 < pct + 1/2`, so halves round up |
| Detection.PercentUnique | js/object_tracking.js:84 | any integer within those bounds is the percentage, so the rounding is fully determined |
| Detection.QualifyingPercentRange | js/object_tracking.js:82-84 | a qualifying score in (0.5, 1] gives a percentage in [50, 100] |
| Detection.PercentExamples | js/object_tracking.js:84 | 0.87 gives 87, 0.846 gives 85, 0.5001 gives 50, 0.625 gives 63 and 1 gives 100 |
| Detection.Filter | js/object_tracking.js:80-83 | the kept predictions are no more than the input |
| Detection.FilterMembership | js/object_tracking.js:80-83 | a prediction is kept iff it is in the frame and qualifies, meaning its class is a target and its score is strictly above 0.5 |
| Detection.FilterEmpty | js/object_tracking.js:78-83 | nothing is kept iff no prediction of the frame qualifies |
| Detection.FilterAppend | js/object_tracking.js:80-82 | the filter works prediction by prediction: filtering a concatenation concatenates the filtered parts, in order |
| Detection.FilterIdempotent | js/object_tracking.js:82 | filtering the kept predictions again keeps all of them |
| Detection.LabelAnchor | js/object_tracking.js:94 | the caption's x is the box's x; its y is the box's top edge minus 10 when that edge's y exceeds 20, and exactly 20 otherwise; so it lies above the box iff the edge's y exceeds 20, and never at y 10 or less |
| Detection.Annotate | js/object_tracking.js:89-94 | each annotated prediction contributes exactly two draw commands |
| Detection.AnnotateAppend | js/object_tracking.js:89-94 | annotations are emitted prediction by prediction, in order |
| Detection.ReportIsReadable | js/object_tracking.js:101 | the UART text of a qualifying prediction parses back to exactly its class and percentage |
| Throttle.Check | js/object_tracking.js:99-107 | a send happens iff more than 1000 ms have passed since the last one; a send stores `now`, a suppression keeps the timestamp; the timestamp never decreases |
| Throttle.SuppressedStaysSuppressed | js/object_tracking.js:99 | a suppressed check leaves the state alone, and so does any check at an earlier time |
| Throttle.CooldownAfterSend | js/object_tracking.js:99-107 | after a send, every check within the next 1000 ms is suppressed |
| Throttle.WindowScenario | js/object_tracking.js:99-107 | checks at t0, t0+500 and t0+1500 send, are suppressed, and send |
| Frame.ShownMessage | js/object_tracking.js:101-109 | when the indicators show a send, its UART text is the label indicator, then ':', then the score indicator |
| Frame.SpacedAdvances | js/object_tracking.js:99-107 | a run of throttled sends moves the timestamp forward, by more than 1000 ms if anything was sent |
| Frame.SpacedAppend | js/object_tracking.js:99-107 | two consecutive runs of throttled sends together still space every pair of sends by more than 1000 ms |
| Frame.Handle | js/object_tracking.js:82-110 | one prediction raises the detection flag iff it qualifies, and then draws its box and caption (nothing otherwise); it sends iff it qualifies and more than 1000 ms have passed since the last send, at most once, exactly its own report stamped with the current time, and the indicators then show that report; without a send the state is unchanged |
| Frame.LoopDraws | js/object_tracking.js:80-95 | the loop draws a box and a caption for exactly the qualifying predictions, in order, whatever the throttle state and clock; the detection flag is raised iff one qualifies |
| Frame.LoopSpacing | js/object_tracking.js:80-112 | within a frame, the first send is more than 1000 ms after the incoming timestamp, any two sends are more than 1000 ms apart, and the timestamp ends at the last send; without sends the state is unchanged |
| Frame.LoopSendCount | js/object_tracking.js:80-112 | a frame never sends more messages than it has qualifying predictions |
| Frame.LoopShowsLastSend | js/object_tracking.js:104-109 | after the loop, the indicators show the last report sent in the frame |
| Frame.LoopSendsIffDue | js/object_tracking.js:80-107 | the loop sends nothing iff no qualifying prediction was read more than 1000 ms after the incoming timestamp; so if any qualifying prediction is read more than 1000 ms after the incoming timestamp, the frame sends at least once, starting with the first such prediction |
| Frame.LoopFirstSend | js/object_tracking.js:80-107 | the first send of the loop is the report of the first qualifying prediction read more than 1000 ms after the incoming timestamp, stamped with that reading |
| Frame.FrameContract | js/object_tracking.js:70-122 | a frame clears and redraws the video, then draws two commands per qualifying prediction. It sends nothing iff no qualifying prediction was read more than 1000 ms after the incoming timestamp, and its first send is the first such prediction, stamped with its reading. Its sends respect the window, and the timestamp never decreases. With nothing qualifying it sends nothing and resets the indicators to "--". With sends suppressed it changes no state. After a send the indicators show the last report |
| FrameProperties.SendTimesFromClock | js/object_tracking.js:97-107 | every send is stamped with one of the frame's clock readings |
| FrameProperties.SentAreQualifyingReports | js/object_tracking.js:82-104 | every report sent is the report of a qualifying prediction of the frame |
| FrameProperties.DrawsIgnoreThrottle | js/object_tracking.js:86-99 | what a frame draws does not depend on the throttle state or the clock |
| FrameProperties.ProcessAppend | js/object_tracking.js:80-112 | the loop over a concatenation is the loop over the first part followed by the loop over the second, from the state the first part left |
| FrameProperties.InertHead | js/object_tracking.js:80-82 | a non-qualifying prediction at the front of the loop is skipped |
| FrameProperties.InsertedIsSkipped | js/object_tracking.js:80-82 | a non-qualifying prediction anywhere in the loop is skipped, whatever its clock reading |
| FrameProperties.NonQualifyingIsInert | js/object_tracking.js:80-82 | adding a prediction that does not qualify anywhere in a frame changes nothing: no drawing, no message and no indicator update. Examples are a score of exactly 0.5 or a class like "car" |
| FrameProperties.ConstantClockLoop | js/object_tracking.js:97-107 | with one clock reading, the loop sends at most once. It sends iff something qualifies and the window has elapsed. What it sends is the first qualifying prediction's report, and the timestamp becomes that reading |
| FrameProperties.AtMostOneSendPerFrame | js/object_tracking.js:97-107 | with one clock reading per frame: at most one message, sent iff something qualifies and more than 1000 ms have passed. The message is the first qualifying prediction's report, and the timestamp becomes `now` exactly when it is sent |
| FrameProperties.RunFrame | js/object_tracking.js:121 | frame i of a run is the frame step applied to detector output i, in the state left by frame i-1 |
| FrameProperties.RunSpaced | js/object_tracking.js:97-107 | over any number of frames, any two sends are more than 1000 ms apart, and the last-send timestamp never decreases |
| FrameProperties.RunClearsEveryEmptyFrame | js/object_tracking.js:115-118 | every frame of a run in which nothing qualifies sends nothing and leaves the indicators at "--"/"--", not only the first such frame |
| FrameProperties.DogAndCarExample | js/object_tracking.js:80-110 | a dog at 0.87 and a car at 0.9, with the window elapsed: only the dog is drawn, with caption "dog (87%)" at (10, 20); "dog:87" is sent and the indicators show dog / 87 |
| FrameProperties.CooldownIsNotPerClass | js/object_tracking.js:99-107 | "cat:90" sent at t0 suppresses a dog at t0+200: the cooldown is global, not per class, and the dog is still drawn |
| FrameProperties.SingleCandidateFrame | js/object_tracking.js:82-110 | a frame with one qualifying prediction always draws it. It sends the prediction and updates the indicators iff the window has elapsed, and otherwise leaves the state untouched |
| FrameProperties.FixedCandidateScenario | js/object_tracking.js:99-107 | one candidate seen at t0, t0+500 and t0+1500 is reported, then suppressed but still drawn, then reported again |
| FrameProperties.FirstDetectionIsReported | js/object_tracking.js:14-15 | from the initial timestamp 0, the first qualifying frame read after 1000 ms of epoch time reports its first qualifying prediction |

## Left out

- `initIA` and `startCamera` (js/object_tracking.js:26-65) are left out. They are model loading, camera access and promise plumbing, with no decision logic.
- `model.detect` (line 72) is a foreign call. Its output is an input sequence of predictions. Its failures, which propagate out of `detectFrame`, are not modelled.
- `sendUARTData` (line 104) is defined in `bluetooth_uart.js`, which is not part of this model. A send is recorded as a `Send` whose text is `Format(report)`.
- Canvas styling (colours, line width, font, lines 87-93) is presentation only and is not recorded. `clearRect` and `drawImage` (lines 75-76) appear as the opaque commands `ClearCanvas` and `DrawVideoFrame`.
- `requestAnimationFrame` (line 121) is host scheduling. `Run` folds the frame step over a finite sequence of frames, and the infinite loop is not modelled.
- `Date.now()` (line 97) is a parameter: one reading per prediction.
- Floating point is not modelled. Scores and box coordinates are exact reals, so IEEE double artefacts of `score * 100` and `Math.round` are not reproduced.
- The `if(labelEl)` and `if(scoreEl)` null checks (lines 108-109, 116-117) are not modelled. Both indicator elements are assumed present.
- Decimal.NatToDecimal: JavaScript writes numbers of 1e21 and above in exponent notation. This is not modelled, because percentages of detector scores stay at most 100.
- FrameProperties.SentAreQualifyingReports: states that each sent report belongs to a qualifying prediction. It does not state that sends follow prediction order. Order follows from `ProcessAppend` and `Handle` but is not written as its own lemma.
- FrameProperties.Run: its own contract only fixes the number of frames. What each frame is comes from `RunFrame`, and the throttle guarantee across frames comes from `RunSpaced`.
