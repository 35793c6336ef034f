/** Properties of the detection loop that relate several frames, several
    predictions or several clock readings. */
module FrameProperties {
  import opened Targets
  import opened Decimal
  import opened Message
  import opened Detection
  import opened Frame

  /** Every send is stamped with one of the clock readings of its frame. */
  lemma {:induction false} SendTimesFromClock(ps: seq<Prediction>, clock: seq<int>, st: State)
    requires |clock| == |ps|
    ensures forall s :: s in ProcessAll(ps, clock, st).sent ==> s.at in clock
    decreases |ps|
  {
    if |ps| > 0 {
      var h := Handle(ps[0], clock[0], st);
      SendTimesFromClock(ps[1..], clock[1..], h.state);
      assert clock == [clock[0]] + clock[1..];
    }
  }

  /** Every report sent is the report of a qualifying prediction of the frame. */
  lemma {:induction false} SentAreQualifyingReports(ps: seq<Prediction>, clock: seq<int>, st: State)
    requires |clock| == |ps|
    ensures forall s :: s in ProcessAll(ps, clock, st).sent ==>
      exists q :: q in Filter(ps) && s.report == ReportOf(q)
    decreases |ps|
  {
    if |ps| > 0 {
      var h := Handle(ps[0], clock[0], st);
      SentAreQualifyingReports(ps[1..], clock[1..], h.state);
      FilterCons(ps);
      if h.sent != [] {
        assert ps[0] in Filter(ps);
      }
    }
  }

  /** What a frame draws depends only on its predictions: neither the
      throttle state nor the clock changes it. */
  lemma DrawsIgnoreThrottle(ps: seq<Prediction>, c1: seq<int>, s1: State, c2: seq<int>, s2: State)
    requires |c1| == |ps| && |c2| == |ps|
    ensures DetectFrame(ps, c1, s1).draws == DetectFrame(ps, c2, s2).draws
  {
    LoopDraws(ps, c1, s1);
    LoopDraws(ps, c2, s2);
  }

  /** Looping over a concatenation is looping over each part in turn. */
  lemma {:induction false} ProcessAppend(a: seq<Prediction>, ca: seq<int>, b: seq<Prediction>, cb: seq<int>, st: State)
    requires |ca| == |a| && |cb| == |b|
    ensures var ra := ProcessAll(a, ca, st);
      ProcessAll(a + b, ca + cb, st) == Then(ra, ProcessAll(b, cb, ra.state))
    decreases |a|
  {
    if |a| == 0 {
      assert a + b == b && ca + cb == cb;
      var rb := ProcessAll(b, cb, st);
      assert [] + rb.draws == rb.draws && [] + rb.sent == rb.sent;
    } else {
      assert (a + b)[1..] == a[1..] + b;
      assert (ca + cb)[1..] == ca[1..] + cb;
      var h := Handle(a[0], ca[0], st);
      ProcessAppend(a[1..], ca[1..], b, cb, h.state);
      var ra' := ProcessAll(a[1..], ca[1..], h.state);
      var rb := ProcessAll(b, cb, ra'.state);
      assert ProcessAll(a + b, ca + cb, st) == Then(h, Then(ra', rb));
      ThenAssociative(h, ra', rb);
    }
  }

  /** A non-qualifying head is skipped. */
  lemma InertHead(p: Prediction, t: int, ys: seq<Prediction>, cy: seq<int>, st: State)
    requires |cy| == |ys| && !Qualifies(p)
    ensures ProcessAll([p] + ys, [t] + cy, st) == ProcessAll(ys, cy, st)
  {
    assert ([p] + ys)[1..] == ys && ([t] + cy)[1..] == cy;
    var r := ProcessAll(ys, cy, st);
    assert [] + r.draws == r.draws && [] + r.sent == r.sent;
  }

  lemma InsertedIsSkipped(xs: seq<Prediction>, cx: seq<int>, p: Prediction, t: int,
                          ys: seq<Prediction>, cy: seq<int>, st: State)
    requires |cx| == |xs| && |cy| == |ys| && !Qualifies(p)
    ensures ProcessAll(xs + [p] + ys, cx + [t] + cy, st) == ProcessAll(xs + ys, cx + cy, st)
  {
    assert xs + [p] + ys == xs + ([p] + ys);
    assert cx + [t] + cy == cx + ([t] + cy);
    var rx := ProcessAll(xs, cx, st);
    InertHead(p, t, ys, cy, rx.state);
    ProcessAppend(xs, cx, [p] + ys, [t] + cy, st);
    ProcessAppend(xs, cx, ys, cy, st);
  }

  /** A prediction that does not qualify (a non-target class, or a score of
      at most 0.5) changes nothing: inserting it anywhere in a frame, with
      any clock reading, leaves drawings, sends and state as they were. */
  lemma NonQualifyingIsInert(xs: seq<Prediction>, cx: seq<int>, p: Prediction, t: int,
                             ys: seq<Prediction>, cy: seq<int>, st: State)
    requires |cx| == |xs| && |cy| == |ys|
    requires !Qualifies(p)
    ensures DetectFrame(xs + [p] + ys, cx + [t] + cy, st) == DetectFrame(xs + ys, cx + cy, st)
  {
    InsertedIsSkipped(xs, cx, p, t, ys, cy, st);
  }

  /** The same clock reading for every prediction of a frame. */
  function ConstantClock(now: int, n: nat): (clock: seq<int>)
    ensures |clock| == n
    ensures forall i :: 0 <= i < n ==> clock[i] == now
  {
    seq(n, _ => now)
  }

  /** A frame in which the clock is read once. */
  function DetectFrameAt(ps: seq<Prediction>, now: int, st: State): FrameResult
  {
    DetectFrame(ps, ConstantClock(now, |ps|), st)
  }

  /** With one clock reading, the loop sends at most once: iff something
      qualifies and the window has elapsed, and then it sends the first
      qualifying prediction's report. */
  lemma {:induction false} ConstantClockLoop(ps: seq<Prediction>, now: int, st: State)
    ensures var r := ProcessAll(ps, ConstantClock(now, |ps|), st);
      && |r.sent| <= 1
      && (r.sent != [] <==> Filter(ps) != [] && now - st.lastSend > SendInterval)
      && (r.sent != [] ==> r.sent == [Send(ReportOf(Filter(ps)[0]), now)])
      && r.state.lastSend == (if r.sent != [] then now else st.lastSend)
    decreases |ps|
  {
    if |ps| > 0 {
      var clock := ConstantClock(now, |ps|);
      assert clock[1..] == ConstantClock(now, |ps| - 1);
      var h := Handle(ps[0], now, st);
      FilterCons(ps);
      ConstantClockLoop(ps[1..], now, h.state);
    }
  }

  /** With one clock reading per frame, at most one message is sent per frame:
      the report of the first qualifying prediction, exactly when the window
      since the last send has elapsed. */
  lemma AtMostOneSendPerFrame(ps: seq<Prediction>, now: int, st: State)
    ensures var f := DetectFrameAt(ps, now, st);
      && |f.sent| <= 1
      && (|f.sent| == 1 <==> Filter(ps) != [] && now - st.lastSend > SendInterval)
      && (|f.sent| == 1 ==> f.sent == [Send(ReportOf(Filter(ps)[0]), now)])
      && f.state.lastSend == (if |f.sent| == 1 then now else st.lastSend)
  {
    ConstantClockLoop(ps, now, st);
  }

  /** Detector output and clock readings of one frame. */
  datatype Tick = Tick(predictions: seq<Prediction>, clock: seq<int>)

  predicate WellFormed(t: Tick)
  {
    |t.clock| == |t.predictions|
  }

  /** All sends of a sequence of frames, in order. */
  function AllSent(frames: seq<FrameResult>): seq<Send>
  {
    if |frames| == 0 then [] else frames[0].sent + AllSent(frames[1..])
  }

  /** State after a sequence of frames that started in `st`. */
  function FinalState(frames: seq<FrameResult>, st: State): State
  {
    if |frames| == 0 then st else frames[|frames| - 1].state
  }

  /** State entering frame `i` of a run. */
  function StateBefore(frames: seq<FrameResult>, st: State, i: nat): State
    requires i <= |frames|
  {
    if i == 0 then st else frames[i - 1].state
  }

  /** The loop rescheduling itself frame after frame, starting in `st`. */
  function Run(ticks: seq<Tick>, st: State): (frames: seq<FrameResult>)
    requires forall i :: 0 <= i < |ticks| ==> WellFormed(ticks[i])
    ensures |frames| == |ticks|
    decreases |ticks|
  {
    if |ticks| == 0 then []
    else
      assert WellFormed(ticks[0]);
      var f := DetectFrame(ticks[0].predictions, ticks[0].clock, st);
      [f] + Run(ticks[1..], f.state)
  }

  /** Frame `i` of a run is the frame step applied to tick `i` in the state
      left by frame `i - 1`. */
  lemma {:induction false} RunFrame(ticks: seq<Tick>, st: State, i: nat)
    requires forall k :: 0 <= k < |ticks| ==> WellFormed(ticks[k])
    requires i < |ticks|
    ensures WellFormed(ticks[i])
    ensures Run(ticks, st)[i]
         == DetectFrame(ticks[i].predictions, ticks[i].clock, StateBefore(Run(ticks, st), st, i))
    decreases i
  {
    assert WellFormed(ticks[0]) && WellFormed(ticks[i]);
    var f := DetectFrame(ticks[0].predictions, ticks[0].clock, st);
    var rest := Run(ticks[1..], f.state);
    var frames := Run(ticks, st);
    assert frames == [f] + rest;
    if i == 0 {
      assert frames[0] == f;
      assert StateBefore(frames, st, i) == st;
    } else {
      assert ticks[1..][i - 1] == ticks[i];
      assert frames[i] == rest[i - 1];
      RunFrame(ticks[1..], f.state, i - 1);
      var before := StateBefore(rest, f.state, i - 1);
      if i == 1 {
        assert before == frames[0].state;
      } else {
        assert before == frames[i - 1].state;
      }
      assert before == StateBefore(frames, st, i);
      assert rest[i - 1] == DetectFrame(ticks[1..][i - 1].predictions, ticks[1..][i - 1].clock, before);
    }
  }

  /** Over any number of frames, any two sends are more than the window
      apart, the first comes more than the window after the starting
      timestamp, and the last-send timestamp never decreases. */
  lemma {:induction false} RunSpaced(ticks: seq<Tick>, st: State)
    requires forall i :: 0 <= i < |ticks| ==> WellFormed(ticks[i])
    ensures var frames := Run(ticks, st);
      && Spaced(AllSent(frames), st.lastSend, FinalState(frames, st).lastSend)
      && FinalState(frames, st).lastSend >= st.lastSend
    decreases |ticks|
  {
    if |ticks| > 0 {
      assert WellFormed(ticks[0]);
      var f := DetectFrame(ticks[0].predictions, ticks[0].clock, st);
      var rest := Run(ticks[1..], f.state);
      var frames := Run(ticks, st);
      assert frames == [f] + rest;
      assert frames[1..] == rest;
      assert AllSent(frames) == f.sent + AllSent(rest);
      assert FinalState(frames, st) == FinalState(rest, f.state);
      FrameContract(ticks[0].predictions, ticks[0].clock, st);
      RunSpaced(ticks[1..], f.state);
      SpacedAppend(f.sent, AllSent(rest), st.lastSend, f.state.lastSend, FinalState(rest, f.state).lastSend);
      SpacedAdvances(AllSent(frames), st.lastSend, FinalState(frames, st).lastSend);
    }
  }

  /** Every frame in which nothing qualifies sends nothing and leaves the
      indicators at "--"/"--", whatever happened before and whatever the
      throttle state. */
  lemma RunClearsEveryEmptyFrame(ticks: seq<Tick>, st: State, i: nat)
    requires forall k :: 0 <= k < |ticks| ==> WellFormed(ticks[k])
    requires i < |ticks| && Filter(ticks[i].predictions) == []
    ensures Run(ticks, st)[i].state.display == Cleared
    ensures Run(ticks, st)[i].sent == []
  {
    RunFrame(ticks, st, i);
    FrameContract(ticks[i].predictions, ticks[i].clock, StateBefore(Run(ticks, st), st, i));
  }

  lemma SpellingExamples()
    ensures IntToDecimal(87) == "87" && IntToDecimal(90) == "90"
    ensures Format(Report("dog", 87)) == "dog:87"
    ensures Format(Report("cat", 90)) == "cat:90"
  {
    assert NatToDecimal(8) == "8" && NatToDecimal(7) == "7";
    assert NatToDecimal(9) == "9" && NatToDecimal(0) == "0";
  }

  /** The end-to-end example: a dog at 0.87 and a car at 0.9 with the
      window elapsed. Only the dog is drawn, reported and displayed. */
  lemma DogAndCarExample(t: int, t': int, st: State)
    requires t - st.lastSend > SendInterval
    ensures var dog := Prediction("dog", 0.87, BBox(10.0, 10.0, 100.0, 100.0));
      var car := Prediction("car", 0.9, BBox(0.0, 0.0, 5.0, 5.0));
      var f := DetectFrame([dog, car], [t, t'], st);
      && f.draws == [ClearCanvas, DrawVideoFrame, StrokeRect(dog.bbox),
                     FillText("dog (87%)", Point(10.0, 20.0))]
      && f.sent == [Send(Report("dog", 87), t)]
      && f.sent[0].Text() == "dog:87"
      && f.state == State(t, Display("dog", "87"))
  {
    var dog := Prediction("dog", 0.87, BBox(10.0, 10.0, 100.0, 100.0));
    var car := Prediction("car", 0.9, BBox(0.0, 0.0, 5.0, 5.0));
    PercentExamples();
    SpellingExamples();
    TargetExamples();
    CarIsNotATarget();
    assert Qualifies(dog) && !Qualifies(car);
    assert ReportOf(dog) == Report("dog", 87);
    assert LabelText(dog) == "dog (87%)";
    assert Annotation(dog) == [StrokeRect(dog.bbox), FillText("dog (87%)", Point(10.0, 20.0))];
    NonQualifyingIsInert([dog], [t], car, t', [], [], st);
    assert [dog] + [car] + [] == [dog, car] && [t] + [t'] + [] == [t, t'];
    assert [dog] + [] == [dog] && [t] + [] == [t] == ConstantClock(t, 1);
    SingleCandidateFrame(dog, t, st);
  }

  /** The cooldown is global: a cat reported at t0 suppresses a dog at t0 + 200. */
  lemma CooldownIsNotPerClass(t0: int, st: State, catBox: BBox, dogBox: BBox)
    requires t0 - st.lastSend > SendInterval
    ensures var cat := Prediction("cat", 0.9, catBox);
      var dog := Prediction("dog", 0.9, dogBox);
      var f1 := DetectFrameAt([cat], t0, st);
      var f2 := DetectFrameAt([dog], t0 + 200, f1.state);
      && f1.sent == [Send(Report("cat", 90), t0)]
      && f1.sent[0].Text() == "cat:90"
      && f2.sent == []
      && f2.state == f1.state
      && |f2.draws| == 4
  {
    var cat := Prediction("cat", 0.9, catBox);
    var dog := Prediction("dog", 0.9, dogBox);
    PercentUnique(0.9, 90);
    SpellingExamples();
    TargetExamples();
    assert Qualifies(cat) && Qualifies(dog);
    assert ReportOf(cat) == Report("cat", 90);
    SingleCandidateFrame(cat, t0, st);
    var f1 := DetectFrameAt([cat], t0, st);
    SingleCandidateFrame(dog, t0 + 200, f1.state);
  }

  /** A frame holding a single qualifying prediction: it is always drawn,
      and it is sent, with the indicators updated, iff the window has
      elapsed; otherwise the state is untouched. */
  lemma SingleCandidateFrame(p: Prediction, now: int, st: State)
    requires Qualifies(p)
    ensures DetectFrameAt([p], now, st)
         == if now - st.lastSend > SendInterval
            then FrameResult([ClearCanvas, DrawVideoFrame] + Annotation(p), [Send(ReportOf(p), now)],
                       State(now, Display(p.cls, IntToDecimal(Percent(p.score)))))
            else FrameResult([ClearCanvas, DrawVideoFrame] + Annotation(p), [], st)
  {
    var clock := ConstantClock(now, 1);
    assert clock == [now];
    var h := Handle(p, now, st);
    assert [p][1..] == [] && clock[1..] == [];
    assert ProcessAll([p], clock, st) == Then(h, Pass([], [], h.state, false));
    assert h.draws + [] == h.draws && h.sent + [] == h.sent;
    if now - st.lastSend > SendInterval {
      assert h.sent == [Send(ReportOf(p), now)];
      assert h.state == State(now, Display(p.cls, IntToDecimal(Percent(p.score))));
    } else {
      assert h.sent == [] && h.state == st;
    }
  }

  /** A fixed candidate seen at t0, t0 + 500 and t0 + 1500: reported,
      suppressed (but still drawn), reported again. */
  lemma FixedCandidateScenario(p: Prediction, t0: int, st: State)
    requires Qualifies(p) && t0 - st.lastSend > SendInterval
    ensures var f1 := DetectFrameAt([p], t0, st);
      var f2 := DetectFrameAt([p], t0 + 500, f1.state);
      var f3 := DetectFrameAt([p], t0 + 1500, f2.state);
      && f1.sent == [Send(ReportOf(p), t0)]
      && f2.sent == [] && f2.draws == f1.draws
      && f3.sent == [Send(ReportOf(p), t0 + 1500)]
  {
    SingleCandidateFrame(p, t0, st);
    var f1 := DetectFrameAt([p], t0, st);
    SingleCandidateFrame(p, t0 + 500, f1.state);
    var f2 := DetectFrameAt([p], t0 + 500, f1.state);
    SingleCandidateFrame(p, t0 + 1500, f2.state);
  }

  /** From the initial state any qualifying frame read later than 1000 ms
      after the epoch reports its first qualifying prediction. */
  lemma FirstDetectionIsReported(ps: seq<Prediction>, now: int, display: Display)
    requires Filter(ps) != [] && now > NeverSent + SendInterval
    ensures DetectFrameAt(ps, now, State(NeverSent, display)).sent
         == [Send(ReportOf(Filter(ps)[0]), now)]
  {
    AtMostOneSendPerFrame(ps, now, State(NeverSent, display));
  }
}
