/** The UART message a report becomes: "<class>:<percentage>", e.g. "dog:85",
    and the reading of such a message on the receiving side. */
module Message {
  import opened Optional
  import opened Decimal

  /** What one send reports: a class label and an integer percentage. */
  datatype Report = Report(cls: string, pct: int)

  /** The wire text of a report. */
  function Format(r: Report): (m: string)
    ensures |m| > |r.cls| + 1
    ensures m[..|r.cls|] == r.cls && m[|r.cls|] == ':'
  {
    r.cls + ":" + IntToDecimal(r.pct)
  }

  /** Position of the first ':' in `m`, or |m| when there is none. */
  function FirstColon(m: string): (k: nat)
    ensures k <= |m|
    ensures forall i :: 0 <= i < k ==> m[i] != ':'
    ensures k < |m| ==> m[k] == ':'
  {
    if |m| == 0 then 0
    else if m[0] == ':' then 0
    else 1 + FirstColon(m[1..])
  }

  /** Splits a message at its first ':' and reads the number after it. */
  function Parse(m: string): (r: Option<Report>)
    ensures r.Some? ==> ':' !in r.value.cls
  {
    var k := FirstColon(m);
    if k == |m| then None
    else
      match ParseInt(m[k + 1..])
      case None => None
      case Some(n) =>
        assert forall c :: c in m[..k] ==> c != ':';
        Some(Report(m[..k], n))
  }

  /** A report whose label has no ':' survives the trip over the wire. */
  lemma RoundTrip(r: Report)
    requires ':' !in r.cls
    ensures Parse(Format(r)) == Some(r)
  {
    var m := Format(r);
    var k := FirstColon(m);
    assert k == |r.cls|;
    assert m[k + 1..] == IntToDecimal(r.pct);
    IntRoundTrip(r.pct);
  }

  /** Two different reports never produce the same message. */
  lemma FormatInjective(a: Report, b: Report)
    requires ':' !in a.cls && ':' !in b.cls
    ensures Format(a) == Format(b) ==> a == b
  {
    RoundTrip(a);
    RoundTrip(b);
  }
}
