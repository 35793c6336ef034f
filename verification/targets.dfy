/** Process-wide constants of the object tracker: the target taxonomy, the
    confidence threshold, the UART send window and the indicator placeholder. */
module Targets {

  /** COCO-SSD class labels the tracker reacts to: people and ten animal species. */
  const ValidTargets: seq<string> :=
    ["person", "dog", "cat", "bird", "horse", "sheep", "cow", "elephant", "bear", "zebra", "giraffe"]

  /** A prediction must score strictly above this to be acted upon. */
  const ScoreThreshold: real := 0.5

  /** Minimum spacing, in milliseconds, between two UART sends (strictly exceeded). */
  const SendInterval: int := 1000

  /** Value of the last-send timestamp before anything has been sent. */
  const NeverSent: int := 0

  /** Text the label and score indicators show when nothing is detected. */
  const Placeholder: string := "--"

  /** Membership test of the taxonomy, by string equality as `includes`
      does on a list of strings. */
  predicate IsTarget(cls: string)
  {
    TargetFrom(cls, 0)
  }

  /** `cls` equals one of the taxonomy labels from position `i` on. */
  predicate TargetFrom(cls: string, i: nat)
    decreases |ValidTargets| - i
  {
    i < |ValidTargets| && (ValidTargets[i] == cls || TargetFrom(cls, i + 1))
  }

  lemma {:induction false} TargetFromIsMembership(cls: string, i: nat)
    requires i <= |ValidTargets|
    ensures TargetFrom(cls, i) <==> cls in ValidTargets[i..]
    decreases |ValidTargets| - i
  {
    if i < |ValidTargets| {
      TargetFromIsMembership(cls, i + 1);
      assert ValidTargets[i..] == [ValidTargets[i]] + ValidTargets[i + 1..];
    }
  }

  /** A class is a target iff it is one of the listed labels. */
  lemma IsTargetIsMembership(cls: string)
    ensures IsTarget(cls) <==> cls in ValidTargets
  {
    TargetFromIsMembership(cls, 0);
  }

  /** The taxonomy has eleven distinct labels. */
  lemma TaxonomySize()
    ensures |ValidTargets| == 11
    ensures forall i, j :: 0 <= i < j < |ValidTargets| ==> ValidTargets[i] != ValidTargets[j]
  {
  }

  /** No target label contains the message separator ':'. */
  lemma TargetsHaveNoColon(cls: string)
    requires IsTarget(cls)
    ensures ':' !in cls
  {
    IsTargetIsMembership(cls);
    assert forall k :: 0 <= k < |ValidTargets| ==> ':' !in ValidTargets[k];
  }

  /** "car" is a COCO-SSD class but not a target. */
  lemma CarIsNotATarget()
    ensures !IsTarget("car")
  {
  }

  lemma TargetExamples()
    ensures IsTarget("person") && IsTarget("dog") && IsTarget("cat")
  {
  }
}
