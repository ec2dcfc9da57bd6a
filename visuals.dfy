/**
 * Small visual classifiers of the terminal UI: the heat-map gradient for a score in [0, 1],
 * the per-repository colour picked by a string hash, and the text of a repository badge.
 */
module Visuals {
  import opened Wrappers

  /** A colour: a fixed hex code, or the theme's muted colour (whose code lives in the theme). */
  datatype Color = Hex(code: string) | Muted

  const GradientLow: Color := Hex("#44475A")
  const GradientMid: Color := Hex("#6272A4")
  const GradientHigh: Color := Hex("#BD93F9")
  const GradientPeak: Color := Hex("#FF79C6")

  /** The four steps of the gradient, coolest first. */
  const Gradient: seq<Color> := [GradientLow, GradientMid, GradientHigh, GradientPeak]

  /** Which step of the gradient a score falls on; every bound is strict. */
  function HeatmapStep(score: real): (step: nat)
    ensures step < 4
    ensures step == 3 <==> score > 0.8
    ensures step == 2 <==> 0.5 < score <= 0.8
    ensures step == 1 <==> 0.2 < score <= 0.5
    ensures step == 0 <==> score <= 0.2
  {
    if score > 0.8 then 3
    else if score > 0.5 then 2
    else if score > 0.2 then 1
    else 0
  }

  /** `GetHeatmapColor`. */
  function HeatmapColor(score: real): (c: Color)
    ensures c in Gradient
    ensures c == Gradient[HeatmapStep(score)]
  {
    if score > 0.8 then GradientPeak
    else if score > 0.5 then GradientHigh
    else if score > 0.2 then GradientMid
    else GradientLow
  }

  /** A higher score never gets a cooler colour. */
  lemma HeatmapMonotone(a: real, b: real)
    requires a <= b
    ensures HeatmapStep(a) <= HeatmapStep(b)
  {
  }

  /** The colours at and around the band edges. */
  lemma HeatmapExamples()
    ensures HeatmapColor(0.9) == GradientPeak && HeatmapColor(0.6) == GradientHigh
    ensures HeatmapColor(0.3) == GradientMid && HeatmapColor(0.1) == GradientLow
    ensures HeatmapColor(0.8) == GradientHigh && HeatmapColor(0.5) == GradientMid && HeatmapColor(0.2) == GradientLow
  {
  }

  /** The palette of repository colours. */
  const RepoColors: seq<Color> := [
    Hex("#FF6B6B"), Hex("#4ECDC4"), Hex("#45B7D1"), Hex("#96CEB4"),
    Hex("#DDA0DD"), Hex("#F7DC6F"), Hex("#BB8FCE"), Hex("#85C1E9")
  ]

  /** The hash of `GetRepoColor`: each character's code folded in as `hash*31 + c`, reduced after every step. */
  function RepoHash(prefix: string): (h: nat)
    ensures h < |RepoColors|
  {
    if prefix == [] then 0
    else (RepoHash(prefix[..|prefix| - 1]) * 31 + prefix[|prefix| - 1] as int) % |RepoColors|
  }

  /** The same hash with no reduction until the end: the polynomial `sum c_i * 31^(n-1-i)`. */
  function Polynomial(s: string): nat
  {
    if s == [] then 0 else Polynomial(s[..|s| - 1]) * 31 + s[|s| - 1] as int
  }

  /** Reducing after every step gives the same hash as reducing the whole polynomial once. */
  lemma {:induction false} RepoHashIsPolynomialMod(s: string)
    ensures RepoHash(s) == Polynomial(s) % |RepoColors|
  {
    if s != [] {
      var init := s[..|s| - 1];
      var c := s[|s| - 1] as int;
      RepoHashIsPolynomialMod(init);
      ModStep(Polynomial(init), c);
    }
  }

  /** `(a % 8 * 31 + c) % 8 == (a * 31 + c) % 8`. */
  lemma ModStep(a: nat, c: int)
    ensures (a % 8 * 31 + c) % 8 == (a * 31 + c) % 8
  {
    var q := a / 8;
    assert a * 31 + c == (a % 8 * 31 + c) + 8 * (q * 31);
    ModAddMultiple(a % 8 * 31 + c, q * 31);
  }

  /** A value already below the modulus is its own remainder. */
  lemma SmallMod(x: nat, m: nat)
    requires x < m
    ensures x % m == x
  {
  }

  lemma ModAddMultiple(x: int, k: int)
    ensures (x + 8 * k) % 8 == x % 8
  {
  }

  /** `GetRepoColor`: the muted colour for no prefix, otherwise the palette entry the hash picks. */
  method GetRepoColor(prefix: string) returns (c: Color)
    ensures prefix == "" ==> c == Muted
    ensures prefix != "" ==> c == RepoColors[RepoHash(prefix)]
    ensures prefix != "" ==> c in RepoColors
  {
    if prefix == "" {
      return Muted;
    }
    var hash := 0;
    for i := 0 to |prefix|
      invariant 0 <= hash < |RepoColors|
      invariant hash == RepoHash(prefix[..i])
    {
      assert prefix[..i + 1][..i] == prefix[..i];
      hash := (hash * 31 + prefix[i] as int) % |RepoColors|;
    }
    assert prefix[..|prefix|] == prefix;
    if hash < 0 {
      hash := -hash;
    }
    SmallMod(hash, |RepoColors|);
    c := RepoColors[hash % |RepoColors|];
  }

  /** The text of `RenderRepoBadge`: nothing for no prefix, else the upper-cased (ASCII letters only) first four characters in brackets. */
  function RepoBadgeText(prefix: string): (t: string)
    ensures prefix == "" ==> t == ""
    ensures prefix != "" ==> |t| == 2 + (if |prefix| > 4 then 4 else |prefix|)
    ensures prefix != "" ==> t[0] == '[' && t[|t| - 1] == ']'
    ensures prefix != "" ==> forall i :: 1 <= i < |t| - 1 ==> t[i] == UpperChar(prefix[i - 1])
  {
    if prefix == "" then ""
    else
      var display := Upper(prefix);
      var short := if |display| > 4 then display[..4] else display;
      "[" + short + "]"
  }

  /** A long prefix shows the same badge as its first four characters. */
  lemma RepoBadgeTruncates(prefix: string)
    requires |prefix| >= 4
    ensures RepoBadgeText(prefix) == RepoBadgeText(prefix[..4])
  {
    var a := RepoBadgeText(prefix);
    var b := RepoBadgeText(prefix[..4]);
    assert |a| == |b| == 6;
    forall i | 0 <= i < 6 ensures a[i] == b[i] {
      if 1 <= i < 5 {
        assert prefix[..4][i - 1] == prefix[i - 1];
      }
    }
  }

  /** The badge the unit test pins down for a short prefix. */
  lemma RepoBadgeExamples()
    ensures RepoBadgeText("api") == "[API]"
    ensures RepoBadgeText("") == ""
  {
    var t := RepoBadgeText("api");
    assert t[1] == 'A' && t[2] == 'P' && t[3] == 'I';
  }
}
