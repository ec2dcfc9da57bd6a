/**
 * The score normalisers of hybrid search: each maps one issue attribute into [0, 1], with
 * the more actionable value scoring higher. Floats are modelled as reals.
 */
module Normalizers {

  /** `normalizeStatus`: actionable states score high, finished ones low, unknown ones in the middle. */
  function NormalizeStatus(status: string): (v: real)
    ensures 0.0 <= v <= 1.0
    ensures v == 1.0 <==> status == "open"
    ensures v == 0.0 <==> status == "tombstone"
    ensures status == "in_progress" ==> v == 0.8
    ensures status == "closed" ==> v == 0.1
    ensures status !in {"open", "in_progress", "closed", "tombstone"} ==> v == 0.5
  {
    match status
    case "open" => 1.0
    case "in_progress" => 0.8
    case "blocked" => 0.5
    case "closed" => 0.1
    case "tombstone" => 0.0
    case _ => 0.5
  }

  /** Open work outranks work in progress, which outranks blocked, closed and deleted work, in that order. */
  lemma StatusOrder()
    ensures NormalizeStatus("open") > NormalizeStatus("in_progress") > NormalizeStatus("blocked")
    ensures NormalizeStatus("blocked") > NormalizeStatus("closed") > NormalizeStatus("tombstone")
  {
  }

  /** `normalizePriority`: P0 through P4 step down by 0.2 from 1.0; any other value scores 0.5. */
  function NormalizePriority(priority: int): (v: real)
    ensures 0.0 <= v <= 1.0
    ensures 0 <= priority <= 4 ==> v == 1.0 - 0.2 * priority as real
    ensures !(0 <= priority <= 4) ==> v == 0.5
  {
    match priority
    case 0 => 1.0
    case 1 => 0.8
    case 2 => 0.6
    case 3 => 0.4
    case 4 => 0.2
    case _ => 0.5
  }

  /** Among P0 to P4, a more urgent priority always scores strictly higher. */
  lemma PriorityStrictlyDecreasing(a: int, b: int)
    requires 0 <= a < b <= 4
    ensures NormalizePriority(a) > NormalizePriority(b)
  {
  }

  /**
   * `normalizeImpact`: 0.5 when nothing blocks anything (maximum 0, checked first); then 0 for
   * no blockers, 1 at or above the maximum, and the fraction of the maximum in between.
   */
  function NormalizeImpact(blockerCount: int, maxBlockerCount: int): (v: real)
    ensures 0.0 <= v <= 1.0
    ensures maxBlockerCount == 0 ==> v == 0.5
    ensures maxBlockerCount != 0 && blockerCount <= 0 ==> v == 0.0
    ensures maxBlockerCount != 0 && blockerCount > 0 && blockerCount >= maxBlockerCount ==> v == 1.0
    ensures 0 < blockerCount < maxBlockerCount ==> v * maxBlockerCount as real == blockerCount as real
  {
    if maxBlockerCount == 0 then 0.5
    else if blockerCount <= 0 then 0.0
    else if blockerCount >= maxBlockerCount then 1.0
    else blockerCount as real / maxBlockerCount as real
  }

  /** With a fixed positive maximum, more blockers never lower the impact score. */
  lemma ImpactMonotone(a: int, b: int, max: int)
    requires max > 0 && a <= b
    ensures NormalizeImpact(a, max) <= NormalizeImpact(b, max)
  {
    if 0 < a < max && 0 < b < max {
      assert a as real / max as real <= b as real / max as real;
    }
  }
}
