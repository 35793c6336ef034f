/** One COCO-SSD prediction and everything the tracker derives from it alone:
    whether it qualifies, its rounded percentage, its label text and anchor,
    its report, and the two draw commands that annotate it. */
module Detection {
  import opened Targets
  import opened Optional
  import opened Decimal
  import opened Message

  /** Bounding box [x, y, width, height] in canvas pixels. */
  datatype BBox = BBox(x: real, y: real, width: real, height: real)

  /** A raw detector output: class label, confidence score and box. */
  datatype Prediction = Prediction(cls: string, score: real, bbox: BBox)

  datatype Point = Point(x: real, y: real)

  /** Canvas operations. Styling (colour, line width, font) is not recorded. */
  datatype DrawCmd =
    | ClearCanvas
    | DrawVideoFrame
    | StrokeRect(box: BBox)
    | FillText(text: string, at: Point)

  /** A prediction is acted upon iff its class is a target and its score is
      strictly above the threshold. */
  predicate Qualifies(p: Prediction)
  {
    IsTarget(p.cls) && p.score > ScoreThreshold
  }

  /** `Math.round(score * 100)`: the nearest integer, halves rounded up. */
  function Percent(score: real): (pct: int)
    ensures pct as real - 0.5 <= score * 100.0 < pct as real + 0.5
  {
    (score * 100.0 + 0.5).Floor
  }

  /** Any integer meeting the round-half-up bounds is the percentage. */
  lemma PercentUnique(score: real, n: int)
    requires n as real - 0.5 <= score * 100.0 < n as real + 0.5
    ensures Percent(score) == n
  {
  }

  /** A qualifying score in (0.5, 1] becomes a percentage in [50, 100]. */
  lemma QualifyingPercentRange(p: Prediction)
    requires Qualifies(p) && p.score <= 1.0
    ensures 50 <= Percent(p.score) <= 100
  {
  }

  lemma PercentExamples()
    ensures Percent(0.87) == 87
    ensures Percent(0.846) == 85
    ensures Percent(0.5001) == 50
    ensures Percent(0.625) == 63
    ensures Percent(1.0) == 100
  {
    PercentUnique(0.87, 87);
    PercentUnique(0.846, 85);
    PercentUnique(0.5001, 50);
    PercentUnique(0.625, 63);
    PercentUnique(1.0, 100);
  }

  /** The qualifying predictions, in detector order. */
  function Filter(ps: seq<Prediction>): (qs: seq<Prediction>)
    ensures |qs| <= |ps|
    ensures forall i :: 0 <= i < |qs| ==> Qualifies(qs[i])
  {
    if |ps| == 0 then []
    else (if Qualifies(ps[0]) then [ps[0]] else []) + Filter(ps[1..])
  }

  /** Filter splits at the head of a non-empty sequence. */
  lemma FilterCons(ps: seq<Prediction>)
    requires |ps| > 0
    ensures Filter(ps) == (if Qualifies(ps[0]) then [ps[0]] else []) + Filter(ps[1..])
  {
  }

  /** Filter keeps exactly the qualifying predictions of its input. */
  lemma {:induction false} FilterMembership(ps: seq<Prediction>)
    ensures forall q :: q in Filter(ps) <==> q in ps && Qualifies(q)
    decreases |ps|
  {
    if |ps| > 0 {
      FilterMembership(ps[1..]);
      assert ps == [ps[0]] + ps[1..];
    }
  }

  /** Nothing qualifies iff the filtered sequence is empty. */
  lemma FilterEmpty(ps: seq<Prediction>)
    ensures Filter(ps) == [] <==> forall i :: 0 <= i < |ps| ==> !Qualifies(ps[i])
  {
    FilterMembership(ps);
    if Filter(ps) != [] {
      assert Filter(ps)[0] in Filter(ps);
    }
  }

  lemma {:induction false} FilterAppend(a: seq<Prediction>, b: seq<Prediction>)
    ensures Filter(a + b) == Filter(a) + Filter(b)
    decreases |a|
  {
    if |a| > 0 {
      assert (a + b)[1..] == a[1..] + b;
      FilterAppend(a[1..], b);
    } else {
      assert a + b == b;
    }
  }

  /** Filtering twice keeps the same predictions as filtering once. */
  lemma {:induction false} FilterIdempotent(ps: seq<Prediction>)
    ensures Filter(Filter(ps)) == Filter(ps)
    decreases |ps|
  {
    if |ps| > 0 {
      var head := if Qualifies(ps[0]) then [ps[0]] else [];
      FilterAppend(head, Filter(ps[1..]));
      FilterIdempotent(ps[1..]);
      assert Filter(head) == head;
    }
  }

  /** Where the label of a box is written: 10 px above its top edge, or on
      the 20 px line when the box starts within 20 px of the canvas top. */
  function LabelAnchor(b: BBox): (pt: Point)
    ensures pt.x == b.x
    ensures b.y > 20.0 ==> b.y - pt.y == 10.0
    ensures b.y <= 20.0 ==> pt.y == 20.0
    ensures pt.y > 10.0
    ensures pt.y < b.y <==> b.y > 20.0
  {
    Point(b.x, if b.y > 20.0 then b.y - 10.0 else 20.0)
  }

  /** What a qualifying prediction reports: its class and rounded percentage. */
  function ReportOf(p: Prediction): Report
  {
    Report(p.cls, Percent(p.score))
  }

  /** The UART text of a qualifying prediction reads back as its report:
      target labels never contain the ':' separator. */
  lemma ReportIsReadable(p: Prediction)
    requires Qualifies(p)
    ensures Parse(Format(ReportOf(p))) == Some(ReportOf(p))
  {
    TargetsHaveNoColon(p.cls);
    RoundTrip(ReportOf(p));
  }

  /** The on-canvas caption "<class> (<pct>%)". */
  function LabelText(p: Prediction): string
  {
    p.cls + " (" + IntToDecimal(Percent(p.score)) + "%)"
  }

  /** The two commands that annotate one qualifying prediction. */
  function Annotation(p: Prediction): seq<DrawCmd>
  {
    [StrokeRect(p.bbox), FillText(LabelText(p), LabelAnchor(p.bbox))]
  }

  /** Annotations of a sequence of predictions, in order. */
  function Annotate(qs: seq<Prediction>): (cmds: seq<DrawCmd>)
    ensures |cmds| == 2 * |qs|
  {
    if |qs| == 0 then [] else Annotation(qs[0]) + Annotate(qs[1..])
  }

  lemma {:induction false} AnnotateAppend(a: seq<Prediction>, b: seq<Prediction>)
    ensures Annotate(a + b) == Annotate(a) + Annotate(b)
    decreases |a|
  {
    if |a| > 0 {
      assert (a + b)[1..] == a[1..] + b;
      AnnotateAppend(a[1..], b);
    } else {
      assert a + b == b;
    }
  }
}
