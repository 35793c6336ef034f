/** One run of the detection loop body: every prediction of the frame goes
    through the filter, is annotated when it qualifies, and asks the throttle
    for a UART send; afterwards the indicators are cleared if nothing
    qualified. The clock and the detector output are parameters. */
module Frame {
  import opened Targets
  import opened Decimal
  import opened Message
  import opened Detection
  import opened Throttle

  /** Text of the label and score indicators of the page. */
  datatype Display = Display(labelText: string, scoreText: string)

  const Cleared: Display := Display(Placeholder, Placeholder)

  /** State carried from frame to frame: the last-send timestamp and the indicators. */
  datatype State = State(lastSend: int, display: Display)

  /** One UART send: the report, and the clock value recorded as the new
      last-send timestamp. The transport itself only receives `Text()`. */
  datatype Send = Send(report: Report, at: int)
  {
    /** The text handed to the UART. */
    function Text(): string
    {
      Format(report)
    }
  }

  /** Result of the per-prediction loop over (a part of) a frame. `detected`
      is the flag raised by any qualifying prediction. */
  datatype Pass = Pass(draws: seq<DrawCmd>, sent: seq<Send>, state: State, detected: bool)

  /** Result of a whole frame. */
  datatype FrameResult = FrameResult(draws: seq<DrawCmd>, sent: seq<Send>, state: State)

  /** The indicators show the class and the percentage that `s` reported. */
  predicate Shows(d: Display, s: Send)
  {
    d == Display(s.report.cls, IntToDecimal(s.report.pct))
  }

  /** When the indicators show a send, the UART text is exactly the label
      indicator, ':' and the score indicator. */
  lemma ShownMessage(d: Display, s: Send)
    requires Shows(d, s)
    ensures s.Text() == d.labelText + ":" + d.scoreText
  {
  }

  /** Sends leave the throttle state `from` and end in state `to`; the first
      comes strictly more than the send window after `from`, and any two
      sends are strictly more than the send window apart, in order. */
  predicate Spaced(sent: seq<Send>, from: int, to: int)
  {
    && (|sent| == 0 ==> to == from)
    && (|sent| > 0 ==> sent[0].at - from > SendInterval && sent[|sent| - 1].at == to)
    && (forall i, j :: 0 <= i < j < |sent| ==> sent[j].at - sent[i].at > SendInterval)
  }

  lemma SpacedAdvances(sent: seq<Send>, from: int, to: int)
    requires Spaced(sent, from, to)
    ensures to >= from
    ensures sent != [] ==> to - from > SendInterval
  {
    if |sent| > 1 {
      assert sent[|sent| - 1].at - sent[0].at > SendInterval;
    }
  }

  lemma SpacedAppend(a: seq<Send>, b: seq<Send>, x: int, y: int, z: int)
    requires Spaced(a, x, y) && Spaced(b, y, z)
    ensures Spaced(a + b, x, z)
  {
    SpacedAdvances(a, x, y);
    SpacedAdvances(b, y, z);
    var c := a + b;
    forall i, j | 0 <= i < j < |c|
      ensures c[j].at - c[i].at > SendInterval
    {
      if j < |a| {
        assert c[i] == a[i] && c[j] == a[j];
      } else if i >= |a| {
        assert c[i] == b[i - |a|] && c[j] == b[j - |a|];
      } else {
        assert c[i] == a[i] && c[j] == b[j - |a|];
        if i < |a| - 1 {
          assert a[|a| - 1].at - a[i].at > SendInterval;
        }
        if j > |a| {
          assert b[j - |a|].at - b[0].at > SendInterval;
        }
      }
    }
  }

  /** Sequential composition of two loop passes. */
  function Then(a: Pass, b: Pass): Pass
  {
    Pass(a.draws + b.draws, a.sent + b.sent, b.state, a.detected || b.detected)
  }

  lemma ThenAssociative(x: Pass, y: Pass, z: Pass)
    ensures Then(Then(x, y), z) == Then(x, Then(y, z))
  {
    assert (x.draws + y.draws) + z.draws == x.draws + (y.draws + z.draws);
    assert (x.sent + y.sent) + z.sent == x.sent + (y.sent + z.sent);
  }

  /** Handling of one prediction, read from the clock at `now`. */
  function Handle(p: Prediction, now: int, st: State): (r: Pass)
    ensures r.detected <==> Qualifies(p)
    ensures Spaced(r.sent, st.lastSend, r.state.lastSend)
    ensures |r.sent| <= 1
    ensures r.sent != [] <==> Qualifies(p) && now - st.lastSend > SendInterval
    ensures r.draws == (if Qualifies(p) then Annotation(p) else [])
    ensures r.sent == [] ==> r.state == st
    ensures r.sent != [] ==>
      && Qualifies(p)
      && r.sent[0] == Send(ReportOf(p), now)
      && Shows(r.state.display, r.sent[0])
  {
    if !Qualifies(p) then Pass([], [], st, false)
    else
      var g := Check(now, st.lastSend);
      if g.send then
        var report := ReportOf(p);
        Pass(Annotation(p), [Send(report, now)],
             State(g.lastSend, Display(p.cls, IntToDecimal(report.pct))), true)
      else
        Pass(Annotation(p), [], st, true)
  }

  /** The per-prediction loop: `clock[i]` is the time read while handling
      `ps[i]` (it is only consulted when `ps[i]` qualifies). */
  function ProcessAll(ps: seq<Prediction>, clock: seq<int>, st: State): Pass
    requires |clock| == |ps|
    decreases |ps|
  {
    if |ps| == 0 then Pass([], [], st, false)
    else
      var h := Handle(ps[0], clock[0], st);
      Then(h, ProcessAll(ps[1..], clock[1..], h.state))
  }

  /** The loop draws every qualifying prediction, in order, whatever the
      throttle does, and raises the detection flag iff one qualifies. */
  lemma {:induction false} LoopDraws(ps: seq<Prediction>, clock: seq<int>, st: State)
    requires |clock| == |ps|
    ensures ProcessAll(ps, clock, st).draws == Annotate(Filter(ps))
    ensures ProcessAll(ps, clock, st).detected <==> Filter(ps) != []
    decreases |ps|
  {
    if |ps| > 0 {
      var h := Handle(ps[0], clock[0], st);
      LoopDraws(ps[1..], clock[1..], h.state);
      var head := if Qualifies(ps[0]) then [ps[0]] else [];
      FilterCons(ps);
      AnnotateAppend(head, Filter(ps[1..]));
      assert Annotate(head) == h.draws;
    }
  }

  /** The loop's sends respect the throttle window and leave the last-send
      timestamp at the last of them; without sends no state changes. */
  lemma {:induction false} LoopSpacing(ps: seq<Prediction>, clock: seq<int>, st: State)
    requires |clock| == |ps|
    ensures var r := ProcessAll(ps, clock, st);
      && Spaced(r.sent, st.lastSend, r.state.lastSend)
      && (r.sent == [] ==> r.state == st)
    decreases |ps|
  {
    if |ps| > 0 {
      var h := Handle(ps[0], clock[0], st);
      var rest := ProcessAll(ps[1..], clock[1..], h.state);
      LoopSpacing(ps[1..], clock[1..], h.state);
      SpacedAppend(h.sent, rest.sent, st.lastSend, h.state.lastSend, rest.state.lastSend);
    }
  }

  /** Each qualifying prediction sends at most once. */
  lemma {:induction false} LoopSendCount(ps: seq<Prediction>, clock: seq<int>, st: State)
    requires |clock| == |ps|
    ensures |ProcessAll(ps, clock, st).sent| <= |Filter(ps)|
    decreases |ps|
  {
    if |ps| > 0 {
      var h := Handle(ps[0], clock[0], st);
      LoopSendCount(ps[1..], clock[1..], h.state);
      FilterCons(ps);
    }
  }

  /** After the loop, the indicators show its last send, if any. */
  lemma {:induction false} LoopShowsLastSend(ps: seq<Prediction>, clock: seq<int>, st: State)
    requires |clock| == |ps|
    ensures var r := ProcessAll(ps, clock, st);
      r.sent != [] ==> Shows(r.state.display, r.sent[|r.sent| - 1])
    decreases |ps|
  {
    if |ps| > 0 {
      var h := Handle(ps[0], clock[0], st);
      var rest := ProcessAll(ps[1..], clock[1..], h.state);
      LoopShowsLastSend(ps[1..], clock[1..], h.state);
      LoopSpacing(ps[1..], clock[1..], h.state);
      var r := ProcessAll(ps, clock, st);
      if rest.sent != [] {
        assert r.sent[|r.sent| - 1] == rest.sent[|rest.sent| - 1];
      } else if h.sent != [] {
        assert r.sent == h.sent;
      }
    }
  }

  /** Prediction `k` qualifies and was read more than the send window after
      `lastSend`: it would send if the timestamp were still `lastSend`. */
  predicate DueAt(ps: seq<Prediction>, clock: seq<int>, lastSend: int, k: int)
    requires |clock| == |ps| && 0 <= k < |ps|
  {
    Qualifies(ps[k]) && clock[k] - lastSend > SendInterval
  }

  /** No prediction of the frame is due. */
  predicate NoneDue(ps: seq<Prediction>, clock: seq<int>, lastSend: int)
    requires |clock| == |ps|
  {
    forall i :: 0 <= i < |ps| ==> !DueAt(ps, clock, lastSend, i)
  }

  /** Prediction `k` is the first due one. */
  predicate FirstDueAt(ps: seq<Prediction>, clock: seq<int>, lastSend: int, k: int)
    requires |clock| == |ps| && 0 <= k < |ps|
  {
    DueAt(ps, clock, lastSend, k) && forall i :: 0 <= i < k ==> !DueAt(ps, clock, lastSend, i)
  }

  /** NoneDue splits at the head of a non-empty frame. */
  lemma NoneDueCons(ps: seq<Prediction>, clock: seq<int>, lastSend: int)
    requires |clock| == |ps| > 0
    ensures NoneDue(ps, clock, lastSend)
        <==> !DueAt(ps, clock, lastSend, 0) && NoneDue(ps[1..], clock[1..], lastSend)
  {
    if !DueAt(ps, clock, lastSend, 0) && NoneDue(ps[1..], clock[1..], lastSend) {
      forall i | 0 < i < |ps|
        ensures !DueAt(ps, clock, lastSend, i)
      {
        assert !DueAt(ps[1..], clock[1..], lastSend, i - 1);
        assert ps[1..][i - 1] == ps[i] && clock[1..][i - 1] == clock[i];
      }
    }
    if NoneDue(ps, clock, lastSend) {
      forall i | 0 <= i < |ps| - 1
        ensures !DueAt(ps[1..], clock[1..], lastSend, i)
      {
        assert !DueAt(ps, clock, lastSend, i + 1);
        assert ps[1..][i] == ps[i + 1] && clock[1..][i] == clock[i + 1];
      }
    }
  }

  /** The loop sends nothing iff no prediction is due against the incoming
      last-send timestamp: until the first send the timestamp does not move,
      so the first due prediction always sends. */
  lemma {:induction false} LoopSendsIffDue(ps: seq<Prediction>, clock: seq<int>, st: State)
    requires |clock| == |ps|
    ensures ProcessAll(ps, clock, st).sent == [] <==> NoneDue(ps, clock, st.lastSend)
    decreases |ps|
  {
    if |ps| > 0 {
      var h := Handle(ps[0], clock[0], st);
      LoopSendsIffDue(ps[1..], clock[1..], h.state);
      NoneDueCons(ps, clock, st.lastSend);
    }
  }

  /** A first due prediction of the tail is the first due prediction of the
      whole frame when the head is not due. */
  lemma FirstDueShift(ps: seq<Prediction>, clock: seq<int>, lastSend: int, k: int)
    requires |clock| == |ps| > 0 && 0 <= k < |ps| - 1
    requires FirstDueAt(ps[1..], clock[1..], lastSend, k)
    requires !DueAt(ps, clock, lastSend, 0)
    ensures FirstDueAt(ps, clock, lastSend, k + 1)
    ensures ps[k + 1] == ps[1..][k] && clock[k + 1] == clock[1..][k]
  {
    forall i | 0 < i < k + 1
      ensures !DueAt(ps, clock, lastSend, i)
    {
      assert !DueAt(ps[1..], clock[1..], lastSend, i - 1);
      assert ps[1..][i - 1] == ps[i] && clock[1..][i - 1] == clock[i];
    }
    assert DueAt(ps[1..], clock[1..], lastSend, k);
  }

  /** The first send of the loop is the report of the first due prediction,
      stamped with that prediction's own clock reading. */
  lemma {:induction false} LoopFirstSend(ps: seq<Prediction>, clock: seq<int>, st: State)
    requires |clock| == |ps|
    ensures var r := ProcessAll(ps, clock, st);
      r.sent != [] ==>
        exists k :: 0 <= k < |ps| && FirstDueAt(ps, clock, st.lastSend, k)
                 && r.sent[0] == Send(ReportOf(ps[k]), clock[k])
    decreases |ps|
  {
    if |ps| > 0 {
      var h := Handle(ps[0], clock[0], st);
      var rest := ProcessAll(ps[1..], clock[1..], h.state);
      var r := ProcessAll(ps, clock, st);
      assert r.sent == h.sent + rest.sent;
      if h.sent != [] {
        assert FirstDueAt(ps, clock, st.lastSend, 0);
        assert r.sent[0] == h.sent[0];
      } else if rest.sent != [] {
        LoopFirstSend(ps[1..], clock[1..], h.state);
        var k :| 0 <= k < |ps| - 1 && FirstDueAt(ps[1..], clock[1..], st.lastSend, k)
               && rest.sent[0] == Send(ReportOf(ps[1..][k]), clock[1..][k]);
        FirstDueShift(ps, clock, st.lastSend, k);
        assert r.sent[0] == rest.sent[0];
      }
    }
  }

  /** One frame: clear and redraw the video, run the loop, then reset the
      indicators when nothing qualified. */
  function DetectFrame(ps: seq<Prediction>, clock: seq<int>, st: State): FrameResult
    requires |clock| == |ps|
  {
    var r := ProcessAll(ps, clock, st);
    var display := if r.detected then r.state.display else Cleared;
    FrameResult([ClearCanvas, DrawVideoFrame] + r.draws, r.sent, State(r.state.lastSend, display))
  }

  /** What one frame does: draws the video then every qualifying prediction;
      sends respect the window and the last-send timestamp never decreases;
      with nothing qualifying it sends nothing and clears the indicators;
      with something qualifying but throttled it changes no state; it sends
      iff some qualifying prediction was read after the window had elapsed,
      and its first send is the first such prediction; after a send the indicators show the last send. */
  lemma FrameContract(ps: seq<Prediction>, clock: seq<int>, st: State)
    requires |clock| == |ps|
    ensures var f := DetectFrame(ps, clock, st);
      && f.draws == [ClearCanvas, DrawVideoFrame] + Annotate(Filter(ps))
      && |f.draws| == 2 + 2 * |Filter(ps)|
      && Spaced(f.sent, st.lastSend, f.state.lastSend)
      && f.state.lastSend >= st.lastSend
      && |f.sent| <= |Filter(ps)|
      && (Filter(ps) == [] ==> f.sent == [] && f.state == State(st.lastSend, Cleared))
      && (Filter(ps) != [] && f.sent == [] ==> f.state == st)
      && (f.sent == [] <==> NoneDue(ps, clock, st.lastSend))
      && (f.sent != [] ==>
            exists k :: 0 <= k < |ps| && FirstDueAt(ps, clock, st.lastSend, k)
                     && f.sent[0] == Send(ReportOf(ps[k]), clock[k]))
      && (f.sent != [] ==> Shows(f.state.display, f.sent[|f.sent| - 1]))
  {
    var r := ProcessAll(ps, clock, st);
    LoopDraws(ps, clock, st);
    LoopSpacing(ps, clock, st);
    LoopSendCount(ps, clock, st);
    LoopShowsLastSend(ps, clock, st);
    LoopSendsIffDue(ps, clock, st);
    LoopFirstSend(ps, clock, st);
    SpacedAdvances(r.sent, st.lastSend, r.state.lastSend);
  }
}
