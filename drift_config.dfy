/**
 * Drift-detection configuration: the default thresholds, the validation that backfills
 * omitted staleness settings and then range-checks every threshold, the list of disabled
 * alert types, and the per-label staleness overrides that can only tighten the thresholds.
 *
 * Go's float64 thresholds are modelled as reals; only comparisons are made on them.
 */
module DriftConfig {
  import opened Wrappers

  /** A per-label override; a zero field means "not overridden". */
  datatype LabelConfig = LabelConfig(staleWarningDays: int, staleCriticalDays: int, inProgressStaleMultiplier: real)

  /** The configuration as a value, field for field. A `None` override is a nil entry in Go. */
  datatype Settings = Settings(
    densityWarningPct: real, densityInfoPct: real, nodeGrowthInfoPct: real, edgeGrowthInfoPct: real,
    blockedIncreaseThreshold: int, actionableDecreaseWarningPct: real, actionableIncreaseInfoPct: real,
    pageRankChangeWarningPct: real, staleWarningDays: int, staleCriticalDays: int,
    inProgressStaleMultiplier: real, blockingCascadeInfo: int, blockingCascadeWarning: int,
    disabledAlerts: seq<string>, labelOverrides: map<string, Option<LabelConfig>>)

  /** The reasons `Validate` rejects a configuration, in the order it checks them. */
  datatype ValidationError =
    | DensityWarningRange | DensityInfoRange | NodeGrowthRange | EdgeGrowthRange
    | BlockedIncreaseNegative | ActionableDecreaseRange | ActionableIncreaseRange | PageRankChangeRange
    | StaleDaysNotPositive | StaleCriticalBelowWarning | MultiplierRange
    | CascadeNegative | CascadeWarningBelowInfo
    | LabelStaleNegative(labelName: string) | LabelCriticalBelowWarning(labelName: string)
    | LabelMultiplierRange(labelName: string)

  /** `DefaultConfig`. */
  const Defaults: Settings :=
    Settings(50.0, 20.0, 25.0, 25.0, 5, 30.0, 20.0, 50.0, 14, 30, 0.5, 3, 5, [], map[])

  /** The omitted staleness settings take their default values; nothing else changes. */
  function Backfill(s: Settings): (r: Settings)
    ensures r.staleWarningDays == (if s.staleWarningDays == 0 then Defaults.staleWarningDays else s.staleWarningDays)
    ensures r.staleCriticalDays == (if s.staleCriticalDays == 0 then Defaults.staleCriticalDays else s.staleCriticalDays)
    ensures r.inProgressStaleMultiplier ==
            (if s.inProgressStaleMultiplier == 0.0 then Defaults.inProgressStaleMultiplier else s.inProgressStaleMultiplier)
    ensures r.(staleWarningDays := s.staleWarningDays, staleCriticalDays := s.staleCriticalDays,
               inProgressStaleMultiplier := s.inProgressStaleMultiplier) == s
  {
    var s1 := if s.staleWarningDays == 0 then s.(staleWarningDays := Defaults.staleWarningDays) else s;
    var s2 := if s1.staleCriticalDays == 0 then s1.(staleCriticalDays := Defaults.staleCriticalDays) else s1;
    if s2.inProgressStaleMultiplier == 0.0 then s2.(inProgressStaleMultiplier := Defaults.inProgressStaleMultiplier) else s2
  }

  /** Every global threshold is in its range and the paired thresholds are ordered. */
  predicate ScalarValid(s: Settings)
  {
    0.0 <= s.densityInfoPct <= s.densityWarningPct <= 1000.0 &&
    0.0 <= s.nodeGrowthInfoPct <= 1000.0 && 0.0 <= s.edgeGrowthInfoPct <= 1000.0 &&
    s.blockedIncreaseThreshold >= 0 &&
    0.0 <= s.actionableDecreaseWarningPct <= 100.0 && 0.0 <= s.actionableIncreaseInfoPct <= 1000.0 &&
    0.0 <= s.pageRankChangeWarningPct <= 1000.0 &&
    0 < s.staleWarningDays <= s.staleCriticalDays &&
    0.0 < s.inProgressStaleMultiplier <= 5.0 &&
    0 <= s.blockingCascadeInfo <= s.blockingCascadeWarning
  }

  /**
   * The global checks of `Validate`, in order: the first one that fails, or `None`.
   */
  function ScalarError(s: Settings): (e: Option<ValidationError>)
    ensures e.None? <==> ScalarValid(s)
    ensures e.Some? ==> !e.value.LabelStaleNegative? && !e.value.LabelCriticalBelowWarning? && !e.value.LabelMultiplierRange?
  {
    if s.densityWarningPct < 0.0 || s.densityWarningPct > 1000.0 then Some(DensityWarningRange)
    else if s.densityInfoPct < 0.0 || s.densityInfoPct > s.densityWarningPct then Some(DensityInfoRange)
    else if s.nodeGrowthInfoPct < 0.0 || s.nodeGrowthInfoPct > 1000.0 then Some(NodeGrowthRange)
    else if s.edgeGrowthInfoPct < 0.0 || s.edgeGrowthInfoPct > 1000.0 then Some(EdgeGrowthRange)
    else if s.blockedIncreaseThreshold < 0 then Some(BlockedIncreaseNegative)
    else if s.actionableDecreaseWarningPct < 0.0 || s.actionableDecreaseWarningPct > 100.0 then Some(ActionableDecreaseRange)
    else if s.actionableIncreaseInfoPct < 0.0 || s.actionableIncreaseInfoPct > 1000.0 then Some(ActionableIncreaseRange)
    else if s.pageRankChangeWarningPct < 0.0 || s.pageRankChangeWarningPct > 1000.0 then Some(PageRankChangeRange)
    else if s.staleWarningDays <= 0 || s.staleCriticalDays <= 0 then Some(StaleDaysNotPositive)
    else if s.staleCriticalDays < s.staleWarningDays then Some(StaleCriticalBelowWarning)
    else if s.inProgressStaleMultiplier <= 0.0 || s.inProgressStaleMultiplier > 5.0 then Some(MultiplierRange)
    else if s.blockingCascadeInfo < 0 || s.blockingCascadeWarning < 0 then Some(CascadeNegative)
    else if s.blockingCascadeWarning < s.blockingCascadeInfo then Some(CascadeWarningBelowInfo)
    else None
  }

  /**
   * An override is acceptable when its days are not negative, its critical days are not below
   * its warning days where both are set, and its multiplier lies in [0, 5].
   */
  predicate LabelValid(lc: LabelConfig)
  {
    lc.staleWarningDays >= 0 && lc.staleCriticalDays >= 0 &&
    !(lc.staleWarningDays > 0 && lc.staleCriticalDays > 0 && lc.staleCriticalDays < lc.staleWarningDays) &&
    0.0 <= lc.inProgressStaleMultiplier <= 5.0
  }

  /** The checks on one override, in order. */
  function LabelError(name: string, lc: LabelConfig): (e: Option<ValidationError>)
    ensures e.None? <==> LabelValid(lc)
    ensures e.Some? ==> e.value.LabelStaleNegative? || e.value.LabelCriticalBelowWarning? || e.value.LabelMultiplierRange?
    ensures e.Some? ==> e.value.labelName == name
  {
    if lc.staleWarningDays < 0 || lc.staleCriticalDays < 0 then Some(LabelStaleNegative(name))
    else if lc.staleWarningDays > 0 && lc.staleCriticalDays > 0 && lc.staleCriticalDays < lc.staleWarningDays then
      Some(LabelCriticalBelowWarning(name))
    else if lc.inProgressStaleMultiplier < 0.0 || lc.inProgressStaleMultiplier > 5.0 then Some(LabelMultiplierRange(name))
    else None
  }

  /** Every non-nil override is acceptable. */
  predicate OverridesValid(overrides: map<string, Option<LabelConfig>>)
  {
    forall l :: l in overrides && overrides[l].Some? ==> LabelValid(overrides[l].value)
  }

  /** A configuration that `Validate` accepts once it has been backfilled. */
  predicate Valid(s: Settings)
  {
    ScalarValid(s) && OverridesValid(s.labelOverrides)
  }

  /**
   * The override checks of `Validate`, over the labels in Go's unspecified map order: `None`
   * when every non-nil override is acceptable, otherwise the error of some unacceptable one.
   */
  method CheckLabelOverrides(overrides: map<string, Option<LabelConfig>>) returns (err: Option<ValidationError>)
    ensures err.None? <==> OverridesValid(overrides)
    ensures err.Some? ==> exists l :: l in overrides && overrides[l].Some? && err == LabelError(l, overrides[l].value)
  {
    var labels := MapKeys(overrides);
    for i := 0 to |labels|
      invariant forall j :: 0 <= j < i && overrides[labels[j]].Some? ==> LabelValid(overrides[labels[j]].value)
    {
      var lc := overrides[labels[i]];
      if lc.None? {
        continue;
      }
      var e := LabelError(labels[i], lc.value);
      if e.Some? {
        return e;
      }
    }
    forall l | l in overrides && overrides[l].Some? ensures LabelValid(overrides[l].value) {
      var j :| 0 <= j < |labels| && labels[j] == l;
    }
    return None;
  }

  /**
   * The checks of `Validate` after the backfill: the first failing global check, or else the
   * error of some unacceptable label override, or else nothing. On success the density,
   * staleness, multiplier and cascade thresholds are in range and ordered.
   */
  method CheckSettings(s: Settings) returns (err: Option<ValidationError>)
    ensures err == None <==> Valid(s)
    ensures !ScalarValid(s) ==> err == ScalarError(s)
    ensures ScalarValid(s) && err.Some? ==>
      exists l :: l in s.labelOverrides && s.labelOverrides[l].Some? && err == LabelError(l, s.labelOverrides[l].value)
    ensures err == None ==>
      0.0 <= s.densityInfoPct <= s.densityWarningPct <= 1000.0 && 0 < s.staleWarningDays <= s.staleCriticalDays &&
      0.0 < s.inProgressStaleMultiplier <= 5.0 && 0 <= s.blockingCascadeInfo <= s.blockingCascadeWarning
  {
    err := ScalarError(s);
    if err.None? {
      err := CheckLabelOverrides(s.labelOverrides);
    }
  }

  /** The defaults need no backfill and pass every check. */
  lemma DefaultsValid()
    ensures Backfill(Defaults) == Defaults
    ensures Valid(Defaults)
  {
  }

  // ---------------------------------------------------------------- staleness thresholds

  /** Warning days, critical days and the in-progress multiplier. */
  datatype Staleness = Staleness(warnDays: int, critDays: int, inProgressMult: real)

  /** The override recorded for a label, if any (a missing label and a nil entry alike give `None`). */
  function Override(overrides: map<string, Option<LabelConfig>>, name: string): (r: Option<LabelConfig>)
    ensures r.Some? <==> name in overrides && overrides[name].Some?
    ensures r.Some? ==> r.value == overrides[name].value
  {
    if name in overrides then overrides[name] else None
  }

  /** One label's override applied: each positive override value that is tighter replaces the current one. */
  function Tighten(t: Staleness, lc: Option<LabelConfig>): (r: Staleness)
    ensures r.warnDays <= t.warnDays && r.critDays <= t.critDays && r.inProgressMult <= t.inProgressMult
  {
    match lc
    case None => t
    case Some(c) =>
      Staleness(if c.staleWarningDays > 0 && c.staleWarningDays < t.warnDays then c.staleWarningDays else t.warnDays,
                if c.staleCriticalDays > 0 && c.staleCriticalDays < t.critDays then c.staleCriticalDays else t.critDays,
                if c.inProgressStaleMultiplier > 0.0 && c.inProgressStaleMultiplier < t.inProgressMult
                then c.inProgressStaleMultiplier else t.inProgressMult)
  }

  /** The thresholds after the overrides of `labels` have been applied one by one. */
  function Tightened(base: Staleness, overrides: map<string, Option<LabelConfig>>, labels: seq<string>): Staleness
  {
    if labels == [] then base
    else Tighten(Tightened(base, overrides, labels[..|labels| - 1]), Override(overrides, labels[|labels| - 1]))
  }

  /**
   * The thresholds never loosen: each result is at most the configured value and at most every
   * positive override of a matching label.
   */
  lemma {:induction false} TightenedIsLowerBound(base: Staleness, overrides: map<string, Option<LabelConfig>>,
                                                 labels: seq<string>)
    ensures var r := Tightened(base, overrides, labels);
      r.warnDays <= base.warnDays && r.critDays <= base.critDays && r.inProgressMult <= base.inProgressMult
    ensures var r := Tightened(base, overrides, labels);
      forall i :: 0 <= i < |labels| && Override(overrides, labels[i]).Some? ==>
        var c := Override(overrides, labels[i]).value;
        (c.staleWarningDays > 0 ==> r.warnDays <= c.staleWarningDays) &&
        (c.staleCriticalDays > 0 ==> r.critDays <= c.staleCriticalDays) &&
        (c.inProgressStaleMultiplier > 0.0 ==> r.inProgressMult <= c.inProgressStaleMultiplier)
  {
    if labels != [] {
      var init := labels[..|labels| - 1];
      TightenedIsLowerBound(base, overrides, init);
      forall i | 0 <= i < |labels| - 1 ensures labels[i] == init[i] { }
    }
  }

  /**
   * Each result is attained: it is the configured value or the positive override of some
   * matching label. With the lower bound, each result is exactly that minimum.
   */
  lemma {:induction false} TightenedIsAttained(base: Staleness, overrides: map<string, Option<LabelConfig>>,
                                               labels: seq<string>)
    ensures var r := Tightened(base, overrides, labels);
      r.warnDays == base.warnDays ||
      exists i :: 0 <= i < |labels| && Override(overrides, labels[i]).Some? &&
        0 < Override(overrides, labels[i]).value.staleWarningDays == r.warnDays
    ensures var r := Tightened(base, overrides, labels);
      r.critDays == base.critDays ||
      exists i :: 0 <= i < |labels| && Override(overrides, labels[i]).Some? &&
        0 < Override(overrides, labels[i]).value.staleCriticalDays == r.critDays
    ensures var r := Tightened(base, overrides, labels);
      r.inProgressMult == base.inProgressMult ||
      exists i :: 0 <= i < |labels| && Override(overrides, labels[i]).Some? &&
        0.0 < Override(overrides, labels[i]).value.inProgressStaleMultiplier == r.inProgressMult
  {
    if labels != [] {
      var init := labels[..|labels| - 1];
      TightenedIsAttained(base, overrides, init);
      forall i | 0 <= i < |labels| - 1 ensures labels[i] == init[i] { }
    }
  }

  /** Without overrides the configured thresholds come back unchanged. */
  lemma {:induction false} TightenedWithoutOverrides(base: Staleness, labels: seq<string>)
    ensures Tightened(base, map[], labels) == base
  {
    if labels != [] {
      TightenedWithoutOverrides(base, labels[..|labels| - 1]);
    }
  }

  // ---------------------------------------------------------------- the configuration object

  /** `Config`: the thresholds as mutable fields, since `Validate` backfills them in place. */
  class Config {
    var densityWarningPct: real
    var densityInfoPct: real
    var nodeGrowthInfoPct: real
    var edgeGrowthInfoPct: real
    var blockedIncreaseThreshold: int
    var actionableDecreaseWarningPct: real
    var actionableIncreaseInfoPct: real
    var pageRankChangeWarningPct: real
    var staleWarningDays: int
    var staleCriticalDays: int
    var inProgressStaleMultiplier: real
    var blockingCascadeInfo: int
    var blockingCascadeWarning: int
    var disabledAlerts: seq<string>
    var labelOverrides: map<string, Option<LabelConfig>>

    /** The fields as a value. */
    function Value(): Settings
      reads this
    {
      Settings(densityWarningPct, densityInfoPct, nodeGrowthInfoPct, edgeGrowthInfoPct,
               blockedIncreaseThreshold, actionableDecreaseWarningPct, actionableIncreaseInfoPct,
               pageRankChangeWarningPct, staleWarningDays, staleCriticalDays, inProgressStaleMultiplier,
               blockingCascadeInfo, blockingCascadeWarning, disabledAlerts, labelOverrides)
    }

    /** `DefaultConfig`. */
    constructor Default()
      ensures Value() == Defaults
    {
      densityWarningPct := 50.0;
      densityInfoPct := 20.0;
      nodeGrowthInfoPct := 25.0;
      edgeGrowthInfoPct := 25.0;
      blockedIncreaseThreshold := 5;
      actionableDecreaseWarningPct := 30.0;
      actionableIncreaseInfoPct := 20.0;
      pageRankChangeWarningPct := 50.0;
      staleWarningDays := 14;
      staleCriticalDays := 30;
      inProgressStaleMultiplier := 0.5;
      blockingCascadeInfo := 3;
      blockingCascadeWarning := 5;
      disabledAlerts := [];
      labelOverrides := map[];
    }

    /** The backfill step of `Validate`, in place. */
    method BackfillFields()
      modifies this
      ensures Value() == Backfill(old(Value()))
    {
      if staleWarningDays == 0 {
        staleWarningDays := Defaults.staleWarningDays;
      }
      if staleCriticalDays == 0 {
        staleCriticalDays := Defaults.staleCriticalDays;
      }
      if inProgressStaleMultiplier == 0.0 {
        inProgressStaleMultiplier := Defaults.inProgressStaleMultiplier;
      }
    }

    /**
     * `Validate`: backfills the omitted staleness settings, then reports the first failing
     * global check, or else the error of some unacceptable label override, or else nothing.
     */
    method Validate() returns (err: Option<ValidationError>)
      modifies this
      ensures Value() == Backfill(old(Value()))
      ensures err == None <==> Valid(Value())
      ensures !ScalarValid(Value()) ==> err == ScalarError(Value())
      ensures ScalarValid(Value()) && err.Some? ==>
        exists l :: l in labelOverrides && labelOverrides[l].Some? && err == LabelError(l, labelOverrides[l].value)
    {
      BackfillFields();
      err := CheckSettings(Value());
    }

    /** `IsAlertDisabled`: whether the alert type is in the disabled list. */
    method IsAlertDisabled(alertType: string) returns (disabled: bool)
      ensures disabled <==> alertType in disabledAlerts
    {
      for i := 0 to |disabledAlerts|
        invariant alertType !in disabledAlerts[..i]
      {
        if disabledAlerts[i] == alertType {
          return true;
        }
      }
      return false;
    }

    /** `GetStalenessThresholds`: the configured thresholds tightened by the issue's labels. */
    method GetStalenessThresholds(labels: seq<string>) returns (warnDays: int, critDays: int, inProgressMult: real)
      ensures Staleness(warnDays, critDays, inProgressMult) ==
              Tightened(Staleness(staleWarningDays, staleCriticalDays, inProgressStaleMultiplier), labelOverrides, labels)
    {
      var base := Staleness(staleWarningDays, staleCriticalDays, inProgressStaleMultiplier);
      warnDays, critDays, inProgressMult := staleWarningDays, staleCriticalDays, inProgressStaleMultiplier;
      if |labelOverrides| == 0 {
        TightenedWithoutOverrides(base, labels);
        return;
      }
      for i := 0 to |labels|
        invariant Staleness(warnDays, critDays, inProgressMult) == Tightened(base, labelOverrides, labels[..i])
      {
        assert labels[..i + 1][..i] == labels[..i];
        if labels[i] !in labelOverrides || labelOverrides[labels[i]].None? {
          continue;
        }
        var lc := labelOverrides[labels[i]].value;
        if lc.staleWarningDays > 0 && lc.staleWarningDays < warnDays {
          warnDays := lc.staleWarningDays;
        }
        if lc.staleCriticalDays > 0 && lc.staleCriticalDays < critDays {
          critDays := lc.staleCriticalDays;
        }
        if lc.inProgressStaleMultiplier > 0.0 && lc.inProgressStaleMultiplier < inProgressMult {
          inProgressMult := lc.inProgressStaleMultiplier;
        }
      }
      assert labels[..|labels|] == labels;
    }
  }
}
