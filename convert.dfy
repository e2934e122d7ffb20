/**
 * The grind-setting conversion engine: piecewise-linear interpolation of a
 * setting of one grinder onto the scale of another, over the click positions
 * where both grinders are calibrated.
 *
 * Numbers are `real`, so clamping and interpolation are exact. The source
 * formats numbers with `String(...)`; here a formatted number is kept as
 * `Number(x)` and a label taken verbatim as `Label(s)`.
 */
module Convert {
  import opened Wrappers

  /** One labelled position of a text-scale grinder: the value compared and the label shown. */
  datatype TextSetting = TextSetting(value: real, display: string)

  /**
   * A grinder's settings, one per click position from 0; `None` is a position
   * without calibration data.
   */
  datatype Grinder =
    | Numeric(id: string, name: string, numbers: seq<Option<real>>)
    | Text(id: string, name: string, labels: seq<Option<TextSetting>>)

  /** A string of the result: `Number(x)` is the number x formatted, `Label(s)` is s itself. */
  datatype Shown = Number(x: real) | Label(text: string)

  /** `value` is the number whose formatted form the source returns as its `value` string. */
  datatype ConversionResult = ConversionResult(value: real, display: Shown, min: Shown, max: Shown, exact: bool)

  datatype DisplayRange = DisplayRange(min: Shown, max: Shown)

  datatype Range = Range(min: real, max: real, display: DisplayRange)

  // ---------------------------------------------------------------------------
  // Settings of one grinder
  // ---------------------------------------------------------------------------

  function Count(g: Grinder): nat
  {
    match g
    case Numeric(_, _, numbers) => |numbers|
    case Text(_, _, labels) => |labels|
  }

  /** Position i exists and is calibrated. */
  predicate Present(g: Grinder, i: nat)
  {
    if g.Numeric? then i < |g.numbers| && g.numbers[i].Some? else i < |g.labels| && g.labels[i].Some?
  }

  /** The underlying numeric value at a calibrated position; the source throws on an absent one. */
  function SettingValue(g: Grinder, i: nat): (v: real)
    requires Present(g, i)
    ensures g.Numeric? ==> g.numbers[i] == Some(v)
    ensures g.Text? ==> g.labels[i].Some? && g.labels[i].value.value == v
  {
    match g
    case Numeric(_, _, numbers) => numbers[i].value
    case Text(_, _, labels) => labels[i].value.value
  }

  /** The setting at position i as a user sees it; the empty string for an absent position. */
  function DisplayValue(g: Grinder, i: nat): (r: Shown)
    requires i < Count(g)
    ensures !Present(g, i) ==> r == Label("")
    ensures Present(g, i) && g.Numeric? ==> r == Number(SettingValue(g, i))
    ensures Present(g, i) && g.Text? ==> r.Label? && g.labels[i] == Some(TextSetting(SettingValue(g, i), r.text))
  {
    match g
    case Numeric(_, _, numbers) =>
      if numbers[i].None? then Label("") else Number(numbers[i].value)
    case Text(_, _, labels) =>
      if labels[i].None? then Label("") else Label(labels[i].value.display)
  }

  predicate StrictlyIncreasing(s: seq<nat>)
  {
    forall i, j :: 0 <= i < j < |s| ==> s[i] < s[j]
  }

  predicate NonDecreasing(s: seq<real>)
  {
    forall i, j :: 0 <= i < j < |s| ==> s[i] <= s[j]
  }

  /** Coarseness never decreases as the click position grows (the catalog's assumption, not checked by the source). */
  ghost predicate Monotone(g: Grinder)
  {
    forall i: nat, j: nat :: i < j && Present(g, i) && Present(g, j) ==> SettingValue(g, i) <= SettingValue(g, j)
  }

  /** The calibrated positions below n, in ascending order. */
  function ValidIndicesBelow(g: Grinder, n: nat): (r: seq<nat>)
    ensures StrictlyIncreasing(r)
    ensures forall k :: 0 <= k < |r| ==> r[k] < n && Present(g, r[k])
    ensures forall i: nat :: i < n && Present(g, i) ==> i in r
  {
    if n == 0 then []
    else ValidIndicesBelow(g, n - 1) + (if Present(g, n - 1) then [n - 1] else [])
  }

  /** The calibrated positions of a grinder, in ascending order. */
  function ValidIndices(g: Grinder): (r: seq<nat>)
    ensures StrictlyIncreasing(r)
    ensures forall i: nat :: i in r <==> Present(g, i)
  {
    ValidIndicesBelow(g, Count(g))
  }

  /** The range of a grinder's calibrated values, or None when no position is calibrated. */
  function GetRange(g: Grinder): (r: Option<Range>)
    ensures r.None? <==> forall i: nat :: !Present(g, i)
  {
    var indices := ValidIndices(g);
    if |indices| == 0 then None
    else
      var first := indices[0];
      var last := indices[|indices| - 1];
      Some(Range(SettingValue(g, first), SettingValue(g, last),
                 DisplayRange(DisplayValue(g, first), DisplayValue(g, last))))
  }

  /** GetRange reports the first and the last calibrated positions. */
  lemma GetRangeEnds(g: Grinder)
    requires GetRange(g).Some?
    ensures exists first: nat, last: nat ::
      && Present(g, first) && Present(g, last) && first <= last
      && (forall i: nat :: Present(g, i) ==> first <= i <= last)
      && GetRange(g).value == Range(SettingValue(g, first), SettingValue(g, last),
                                    DisplayRange(DisplayValue(g, first), DisplayValue(g, last)))
  {
    var indices := ValidIndices(g);
    var first, last := indices[0], indices[|indices| - 1];
    assert first in indices && last in indices;
    assert Present(g, first) && Present(g, last);
    assert first <= last;
    forall i: nat | Present(g, i)
      ensures first <= i <= last
    {
      assert i in indices;
      var k :| 0 <= k < |indices| && indices[k] == i;
    }
    assert GetRange(g).value == Range(SettingValue(g, first), SettingValue(g, last),
                                      DisplayRange(DisplayValue(g, first), DisplayValue(g, last)));
  }

  // ---------------------------------------------------------------------------
  // Overlap of two grinders
  // ---------------------------------------------------------------------------

  /** The positions of si that also occur in ti, in the order of si. */
  function Overlap(si: seq<nat>, ti: seq<nat>): (r: seq<nat>)
    ensures forall x :: x in r <==> x in si && x in ti
    ensures StrictlyIncreasing(si) ==> StrictlyIncreasing(r)
  {
    if si == [] then []
    else
      var rest := si[..|si| - 1];
      var last := si[|si| - 1];
      var r' := Overlap(rest, ti);
      assert StrictlyIncreasing(si) ==> forall k :: 0 <= k < |r'| ==> r'[k] < last by {
        if StrictlyIncreasing(si) {
          forall k | 0 <= k < |r'| ensures r'[k] < last {
            assert r'[k] in rest;
          }
        }
      }
      r' + (if last in ti then [last] else [])
  }

  /** The positions calibrated in both grinders, ascending. */
  function OverlapOf(source: Grinder, target: Grinder): (r: seq<nat>)
    ensures StrictlyIncreasing(r)
    ensures forall k :: 0 <= k < |r| ==> Present(source, r[k]) && Present(target, r[k])
    ensures forall i: nat :: Present(source, i) && Present(target, i) ==> i in r
  {
    var r := Overlap(ValidIndices(source), ValidIndices(target));
    assert forall k :: 0 <= k < |r| ==> r[k] in r;
    r
  }

  /** An ascending list of positions is determined by its members. */
  lemma {:induction false} AscendingDetermined(r: seq<nat>, s: seq<nat>)
    requires StrictlyIncreasing(r) && StrictlyIncreasing(s)
    requires forall x :: x in r <==> x in s
    ensures r == s
  {
    assert r != [] ==> r[0] in s;
    assert s != [] ==> s[0] in r;
    if r != [] {
      assert r[0] == s[0] by {
        assert r[0] in s;
        assert s[0] in r;
      }
      forall x
        ensures x in r[1..] <==> x in s[1..]
      {
        assert x in r[1..] <==> x in r && x != r[0];
        assert x in s[1..] <==> x in s && x != s[0];
      }
      AscendingDetermined(r[1..], s[1..]);
      assert r == [r[0]] + r[1..] && s == [s[0]] + s[1..];
    }
  }

  /** ValidIndices is the one ascending list of exactly the calibrated positions. */
  lemma ValidIndicesExactly(g: Grinder, r: seq<nat>)
    requires StrictlyIncreasing(r)
    requires forall i: nat :: i in r <==> Present(g, i)
    ensures ValidIndices(g) == r
  {
    AscendingDetermined(ValidIndices(g), r);
  }

  /** OverlapOf is the one ascending list of exactly the positions calibrated in both grinders. */
  lemma OverlapOfExactly(source: Grinder, target: Grinder, r: seq<nat>)
    requires StrictlyIncreasing(r)
    requires forall i: nat :: i in r <==> Present(source, i) && Present(target, i)
    ensures OverlapOf(source, target) == r
  {
    var o := OverlapOf(source, target);
    assert forall x :: x in o ==> Present(source, x) && Present(target, x) by {
      forall x | x in o ensures Present(source, x) && Present(target, x) {
        var k :| 0 <= k < |o| && o[k] == x;
      }
    }
    AscendingDetermined(o, r);
  }

  /** The values of a grinder at the given calibrated positions. */
  function ValuesAt(g: Grinder, indices: seq<nat>): (vs: seq<real>)
    requires forall k :: 0 <= k < |indices| ==> Present(g, indices[k])
    ensures |vs| == |indices|
    ensures forall k :: 0 <= k < |indices| ==> vs[k] == SettingValue(g, indices[k])
  {
    seq(|indices|, k requires 0 <= k < |indices| => SettingValue(g, indices[k]))
  }

  /** The settings of a text grinder at the given calibrated positions. */
  function TextSettingsAt(g: Grinder, indices: seq<nat>): (ts: seq<TextSetting>)
    requires g.Text?
    requires forall k :: 0 <= k < |indices| ==> Present(g, indices[k])
    ensures |ts| == |indices|
    ensures forall k :: 0 <= k < |indices| ==>
      ts[k].value == SettingValue(g, indices[k]) && DisplayValue(g, indices[k]) == Label(ts[k].display)
  {
    assert forall k :: 0 <= k < |indices| ==> Present(g, indices[k]) && indices[k] < |g.labels| && g.labels[indices[k]].Some?;
    seq(|indices|, k requires 0 <= k < |indices| => g.labels[indices[k]].value)
  }

  function SourceValues(source: Grinder, target: Grinder): (sv: seq<real>)
    ensures |sv| == |OverlapOf(source, target)|
  {
    ValuesAt(source, OverlapOf(source, target))
  }

  function TargetValues(source: Grinder, target: Grinder): (tv: seq<real>)
    ensures |tv| == |OverlapOf(source, target)|
  {
    ValuesAt(target, OverlapOf(source, target))
  }

  /** Values read at ascending positions of a monotone grinder are sorted. */
  lemma ValuesAtSorted(g: Grinder, indices: seq<nat>)
    requires Monotone(g) && StrictlyIncreasing(indices)
    requires forall k :: 0 <= k < |indices| ==> Present(g, indices[k])
    ensures NonDecreasing(ValuesAt(g, indices))
  {
    var vs := ValuesAt(g, indices);
    forall i, j | 0 <= i < j < |vs| ensures vs[i] <= vs[j] {
      assert Present(g, indices[i]) && Present(g, indices[j]);
    }
  }

  // ---------------------------------------------------------------------------
  // Arithmetic steps
  // ---------------------------------------------------------------------------

  function Min(a: real, b: real): real { if a <= b then a else b }

  function Max(a: real, b: real): real { if a >= b then a else b }

  function Abs(x: real): real { if x < 0.0 then -x else x }

  /** Math.max(lo, Math.min(hi, x)): x restricted to [lo, hi]; lo wins when the bounds cross. */
  function Clamp(x: real, lo: real, hi: real): (c: real)
    ensures lo <= hi ==> lo <= c <= hi
    ensures lo <= hi ==> (c == x <==> lo <= x <= hi)
    ensures lo <= hi && x < lo ==> c == lo
    ensures lo <= hi && hi < x ==> c == hi
    ensures hi < lo ==> c == lo
  {
    Max(lo, Min(hi, x))
  }

  lemma ClampMonotone(x: real, y: real, lo: real, hi: real)
    requires x <= y
    ensures Clamp(x, lo, hi) <= Clamp(y, lo, hi)
  {
  }

  /** Math.round(x * 10) / 10: the nearest tenth, halves rounded up. */
  function Round1(x: real): (r: real)
    ensures x - 0.05 < r <= x + 0.05
    ensures (r * 10.0).Floor as real == r * 10.0
  {
    ((x * 10.0 + 0.5).Floor as real) / 10.0
  }

  /** A whole number of tenths within (x - 0.05, x + 0.05] is the rounding of x: there is only one. */
  lemma Round1Unique(x: real, tenths: int)
    requires x - 0.05 < tenths as real / 10.0 <= x + 0.05
    ensures Round1(x) == tenths as real / 10.0
  {
    var y := x * 10.0 + 0.5;
    var n := y.Floor;
    assert Round1(x) == n as real / 10.0;
    assert y - 1.0 < tenths as real <= y;
    assert n as real <= y < n as real + 1.0;
    assert tenths < n + 1 && n < tenths + 1;
  }

  /** A value that already is a whole number of tenths is left as it is. */
  lemma Round1Keeps(x: real, tenths: int)
    requires x == tenths as real / 10.0
    ensures Round1(x) == x
  {
    assert x * 10.0 + 0.5 == tenths as real + 0.5;
    assert (x * 10.0 + 0.5).Floor == tenths;
  }

  lemma Round1Monotone(x: real, y: real)
    requires x <= y
    ensures Round1(x) <= Round1(y)
  {
    assert (x * 10.0 + 0.5).Floor <= (y * 10.0 + 0.5).Floor;
  }

  // ---------------------------------------------------------------------------
  // Bracketing and interpolation
  // ---------------------------------------------------------------------------

  /**
   * The bracket scan started at position i: the first j >= i whose upper
   * neighbour reaches c, or the last segment when none does.
   */
  function BracketFrom(sv: seq<real>, c: real, i: nat): (lower: nat)
    requires i <= |sv| - 2
    ensures i <= lower <= |sv| - 2
    ensures sv[lower + 1] >= c || lower == |sv| - 2
    ensures forall j :: i < j <= lower ==> sv[j] < c
    decreases |sv| - i
  {
    if sv[i + 1] >= c || i == |sv| - 2 then i else BracketFrom(sv, c, i + 1)
  }

  /** The lower end of the segment that brackets c. */
  function Bracket(sv: seq<real>, c: real): (lower: nat)
    requires |sv| >= 2
    ensures lower <= |sv| - 2
    ensures sv[lower + 1] >= c || lower == |sv| - 2
    ensures forall j :: 0 < j <= lower ==> sv[j] < c
  {
    BracketFrom(sv, c, 0)
  }

  /** The three properties of Bracket single it out. */
  lemma BracketUnique(sv: seq<real>, c: real, lower: nat)
    requires |sv| >= 2 && lower <= |sv| - 2
    requires sv[lower + 1] >= c || lower == |sv| - 2
    requires forall j :: 0 < j <= lower ==> sv[j] < c
    ensures lower == Bracket(sv, c)
  {
  }

  /** For sorted values and c in their range, the chosen segment contains c. */
  lemma BracketContains(sv: seq<real>, c: real)
    requires |sv| >= 2 && NonDecreasing(sv)
    requires sv[0] <= c <= sv[|sv| - 1]
    ensures sv[Bracket(sv, c)] <= c <= sv[Bracket(sv, c) + 1]
  {
    var l := Bracket(sv, c);
    if l > 0 {
      assert sv[l] < c;
    }
  }

  /** `Math.min(lower + 1, len - 1)`, the upper end of the bracketing segment. */
  function MinIndex(a: int, b: int): int { if a <= b then a else b }

  /**
   * The value at c on the straight segment from (s0, t0) to (s1, t1); t0 when
   * the segment is flat, so that nothing is divided by zero.
   */
  function Lerp(s0: real, s1: real, t0: real, t1: real, c: real): (r: real)
    ensures s0 == s1 ==> r == t0
  {
    if s0 == s1 then t0
    else
      var fraction := (c - s0) / (s1 - s0);
      t0 + fraction * (t1 - t0)
  }

  /** Off a flat segment, (c, Lerp(..., c)) lies on the line through the segment's end points. */
  lemma LerpOnLine(s0: real, s1: real, t0: real, t1: real, c: real)
    requires s0 != s1
    ensures (Lerp(s0, s1, t0, t1, c) - t0) * (s1 - s0) == (c - s0) * (t1 - t0)
  {
    OnTheLine(c - s0, s1 - s0, t1 - t0);
  }

  /** Scaling a rise by the fraction x / w of a run w puts the point on the line of slope rise / w. */
  lemma OnTheLine(x: real, w: real, rise: real)
    requires w != 0.0
    ensures (x / w * rise) * w == x * rise
  {
    calc {
      (x / w * rise) * w;
      (x / w * w) * rise;
      { assert x / w * w == x; }
      x * rise;
    }
  }

  lemma FractionBounds(x: real, w: real)
    requires 0.0 <= x <= w && w > 0.0
    ensures 0.0 <= x / w <= 1.0
  {
  }

  lemma FractionMonotone(x1: real, x2: real, w: real)
    requires x1 <= x2 && w > 0.0
    ensures x1 / w <= x2 / w
  {
  }

  /** A fraction in [0, 1] of a step stays between 0 and the step. */
  lemma ScaledStep(f: real, d: real)
    requires 0.0 <= f <= 1.0
    ensures d >= 0.0 ==> 0.0 <= f * d <= d
    ensures d <= 0.0 ==> d <= f * d <= 0.0
  {
    if d >= 0.0 {
      assert f * d <= 1.0 * d;
    } else {
      assert f * d >= 1.0 * d;
    }
  }

  /** Scaling by a non-negative factor keeps the order. */
  lemma ScaleMonotone(f1: real, f2: real, d: real)
    requires f1 <= f2 && d >= 0.0
    ensures f1 * d <= f2 * d
  {
    assert f2 * d - f1 * d == (f2 - f1) * d;
  }

  /** On a rising segment that contains c, the value lies between the segment's end values. */
  lemma LerpWithin(s0: real, s1: real, t0: real, t1: real, c: real)
    requires s0 <= c <= s1 && t0 <= t1
    ensures t0 <= Lerp(s0, s1, t0, t1, c) <= t1
  {
    if s0 != s1 {
      var f, d := (c - s0) / (s1 - s0), t1 - t0;
      FractionBounds(c - s0, s1 - s0);
      ScaledStep(f, d);
      assert Lerp(s0, s1, t0, t1, c) == t0 + f * d;
    }
  }

  /** On a rising segment the value grows with c. */
  lemma LerpMonotone(s0: real, s1: real, t0: real, t1: real, c1: real, c2: real)
    requires s0 <= s1 && t0 <= t1 && c1 <= c2
    ensures Lerp(s0, s1, t0, t1, c1) <= Lerp(s0, s1, t0, t1, c2)
  {
    if s0 != s1 {
      var w, d := s1 - s0, t1 - t0;
      var f1, f2 := (c1 - s0) / w, (c2 - s0) / w;
      FractionMonotone(c1 - s0, c2 - s0, w);
      ScaleMonotone(f1, f2, d);
      assert Lerp(s0, s1, t0, t1, c1) == t0 + f1 * d;
      assert Lerp(s0, s1, t0, t1, c2) == t0 + f2 * d;
    }
  }

  /** The segment's end points map to its end values. */
  lemma LerpAtEnds(s0: real, s1: real, t0: real, t1: real)
    ensures Lerp(s0, s1, t0, t1, s0) == t0
    ensures s0 != s1 ==> Lerp(s0, s1, t0, t1, s1) == t1
  {
    if s0 != s1 {
      var w := s1 - s0;
      assert (s0 - s0) / w == 0.0;
      assert (s1 - s0) / w == 1.0;
    }
  }

  /** The target value matching c by linear interpolation on the bracketing segment. */
  function Interpolate(sv: seq<real>, tv: seq<real>, c: real): (r: real)
    requires |sv| == |tv| >= 2
    ensures var lo := Bracket(sv, c);
      && (sv[lo] == sv[lo + 1] ==> r == tv[lo])
      && (sv[lo] != sv[lo + 1] ==>
            (r - tv[lo]) * (sv[lo + 1] - sv[lo]) == (c - sv[lo]) * (tv[lo + 1] - tv[lo]))
  {
    var lower := Bracket(sv, c);
    var upper := MinIndex(lower + 1, |sv| - 1);
    if lower == upper then tv[lower]
    else if sv[lower] == sv[upper] then Lerp(sv[lower], sv[upper], tv[lower], tv[upper], c)
    else
      LerpOnLine(sv[lower], sv[upper], tv[lower], tv[upper], c);
      Lerp(sv[lower], sv[upper], tv[lower], tv[upper], c)
  }

  /** The segment is never empty, and interpolation is Lerp on it. */
  lemma InterpolateOnBracket(sv: seq<real>, tv: seq<real>, c: real)
    requires |sv| == |tv| >= 2
    ensures var lo := Bracket(sv, c);
      && MinIndex(lo + 1, |sv| - 1) == lo + 1
      && Interpolate(sv, tv, c) == Lerp(sv[lo], sv[lo + 1], tv[lo], tv[lo + 1], c)
  {
  }

  /** The segment is never empty, and on a flat one the lower target value is used without dividing. */
  lemma InterpolateFlat(sv: seq<real>, tv: seq<real>, c: real)
    requires |sv| == |tv| >= 2
    ensures MinIndex(Bracket(sv, c) + 1, |sv| - 1) == Bracket(sv, c) + 1
    ensures sv[Bracket(sv, c)] == sv[Bracket(sv, c) + 1] ==> Interpolate(sv, tv, c) == tv[Bracket(sv, c)]
  {
  }

  /** On a rising segment that contains c, the result lies between the segment's target values. */
  lemma InterpolateWithinSegment(sv: seq<real>, tv: seq<real>, c: real)
    requires |sv| == |tv| >= 2
    requires sv[Bracket(sv, c)] <= c <= sv[Bracket(sv, c) + 1]
    requires tv[Bracket(sv, c)] <= tv[Bracket(sv, c) + 1]
    ensures tv[Bracket(sv, c)] <= Interpolate(sv, tv, c) <= tv[Bracket(sv, c) + 1]
  {
    var l := Bracket(sv, c);
    var s0, s1, t0, t1 := sv[l], sv[l + 1], tv[l], tv[l + 1];
    InterpolateOnBracket(sv, tv, c);
    LerpWithin(s0, s1, t0, t1, c);
  }

  /** The result is linear in c on one segment, so it grows with c there. */
  lemma InterpolateMonotoneOnSegment(sv: seq<real>, tv: seq<real>, c1: real, c2: real)
    requires |sv| == |tv| >= 2
    requires c1 <= c2 && Bracket(sv, c1) == Bracket(sv, c2)
    requires sv[Bracket(sv, c1)] <= sv[Bracket(sv, c1) + 1]
    requires tv[Bracket(sv, c1)] <= tv[Bracket(sv, c1) + 1]
    ensures Interpolate(sv, tv, c1) <= Interpolate(sv, tv, c2)
  {
    var l := Bracket(sv, c1);
    var s0, s1, t0, t1 := sv[l], sv[l + 1], tv[l], tv[l + 1];
    InterpolateOnBracket(sv, tv, c1);
    InterpolateOnBracket(sv, tv, c2);
    LerpMonotone(s0, s1, t0, t1, c1, c2);
  }

  /**
   * Interpolation is monotone: for sorted source and target values, a larger
   * input in the source range never gives a smaller result.
   */
  lemma InterpolateMonotone(sv: seq<real>, tv: seq<real>, c1: real, c2: real)
    requires |sv| == |tv| >= 2
    requires NonDecreasing(sv) && NonDecreasing(tv)
    requires sv[0] <= c1 <= c2 <= sv[|sv| - 1]
    ensures Interpolate(sv, tv, c1) <= Interpolate(sv, tv, c2)
  {
    var l1, l2 := Bracket(sv, c1), Bracket(sv, c2);
    BracketContains(sv, c1);
    BracketContains(sv, c2);
    if l1 == l2 {
      InterpolateMonotoneOnSegment(sv, tv, c1, c2);
    } else {
      assert l1 <= l2;
      InterpolateWithinSegment(sv, tv, c1);
      InterpolateWithinSegment(sv, tv, c2);
      assert tv[l1 + 1] <= tv[l2];
    }
  }

  /**
   * At a calibration point the result is that point's target value: with
   * sorted source values and k the first position holding c, c maps to tv[k].
   */
  lemma InterpolateAtCalibration(sv: seq<real>, tv: seq<real>, k: nat)
    requires |sv| == |tv| >= 2 && k < |sv|
    requires NonDecreasing(sv)
    requires forall j :: 0 <= j < k ==> sv[j] < sv[k]
    ensures Interpolate(sv, tv, sv[k]) == tv[k]
  {
    var c := sv[k];
    if k == 0 {
      BracketUnique(sv, c, 0);
      InterpolateOnBracket(sv, tv, c);
      LerpAtEnds(sv[0], sv[1], tv[0], tv[1]);
    } else {
      assert sv[k - 1] < sv[k];
      BracketUnique(sv, c, k - 1);
      InterpolateOnBracket(sv, tv, c);
      LerpAtEnds(sv[k - 1], sv[k], tv[k - 1], tv[k]);
    }
  }

  // ---------------------------------------------------------------------------
  // Snapping to the nearest text setting
  // ---------------------------------------------------------------------------

  function Distance(ts: TextSetting, x: real): real
  {
    Abs(x - ts.value)
  }

  /** The left-to-right scan over ts[..n]: the first setting of least distance to x. */
  function NearestIn(ts: seq<TextSetting>, x: real, n: nat): (k: nat)
    requires 1 <= n <= |ts|
    ensures k < n
    ensures forall j :: 0 <= j < n ==> Distance(ts[k], x) <= Distance(ts[j], x)
    ensures forall j :: 0 <= j < k ==> Distance(ts[j], x) > Distance(ts[k], x)
  {
    if n == 1 then 0
    else
      var best := NearestIn(ts, x, n - 1);
      if Distance(ts[n - 1], x) < Distance(ts[best], x) then n - 1 else best
  }

  /** The first setting of least distance to x, over all of ts. */
  function Nearest(ts: seq<TextSetting>, x: real): (k: nat)
    requires |ts| >= 1
    ensures k < |ts|
    ensures forall j :: 0 <= j < |ts| ==> Distance(ts[k], x) <= Distance(ts[j], x)
    ensures forall j :: 0 <= j < k ==> Distance(ts[j], x) > Distance(ts[k], x)
  {
    NearestIn(ts, x, |ts|)
  }

  // ---------------------------------------------------------------------------
  // The conversion, as a specification
  // ---------------------------------------------------------------------------

  /** The input clamped into the range of the source values. */
  function ClampInput(sv: seq<real>, input: real): real
    requires |sv| >= 1
  {
    Clamp(input, sv[0], sv[|sv| - 1])
  }

  /** The interpolated target value of an input, clamped into the range of the target values. */
  function Position(sv: seq<real>, tv: seq<real>, input: real): (r: real)
    requires |sv| == |tv| >= 2
    ensures tv[0] <= r
    ensures tv[0] <= tv[|tv| - 1] ==> r <= tv[|tv| - 1]
  {
    Clamp(Interpolate(sv, tv, ClampInput(sv, input)), tv[0], tv[|tv| - 1])
  }

  /** For sorted source and target values, a larger input never gives a smaller position. */
  lemma PositionMonotone(sv: seq<real>, tv: seq<real>, v1: real, v2: real)
    requires |sv| == |tv| >= 2
    requires NonDecreasing(sv) && NonDecreasing(tv)
    requires v1 <= v2
    ensures Position(sv, tv, v1) <= Position(sv, tv, v2)
  {
    var c1, c2 := ClampInput(sv, v1), ClampInput(sv, v2);
    ClampMonotone(v1, v2, sv[0], sv[|sv| - 1]);
    assert sv[0] <= sv[|sv| - 1];
    InterpolateMonotone(sv, tv, c1, c2);
    ClampMonotone(Interpolate(sv, tv, c1), Interpolate(sv, tv, c2), tv[0], tv[|tv| - 1]);
  }

  /**
   * A source value at a calibration point is left alone by clamping and lands
   * on that point's target value (k the first position holding it).
   */
  lemma PositionAtCalibration(sv: seq<real>, tv: seq<real>, k: nat)
    requires |sv| == |tv| >= 2 && k < |sv|
    requires NonDecreasing(sv) && NonDecreasing(tv)
    requires forall j :: 0 <= j < k ==> sv[j] < sv[k]
    ensures ClampInput(sv, sv[k]) == sv[k]
    ensures Position(sv, tv, sv[k]) == tv[k]
  {
    assert sv[0] <= sv[k] <= sv[|sv| - 1];
    InterpolateAtCalibration(sv, tv, k);
    assert tv[0] <= tv[k] <= tv[|tv| - 1];
  }

  /** The interpolated target value of an input, for two grinders that share a calibrated range. */
  function TargetPosition(source: Grinder, target: Grinder, input: real): real
    requires |OverlapOf(source, target)| >= 2
  {
    Position(SourceValues(source, target), TargetValues(source, target), input)
  }

  /** The result record for the target: a rounded number, or the nearest labelled setting. */
  function Output(target: Grinder, overlap: seq<nat>, tv: seq<real>, result: real, exact: bool): (r: ConversionResult)
    requires |overlap| == |tv| >= 1
    requires forall k :: 0 <= k < |overlap| ==> Present(target, overlap[k])
    ensures r.exact == exact
    ensures target.Numeric? ==>
      && r.value == Round1(result) && r.display == Number(r.value)
      && r.min == Number(tv[0]) && r.max == Number(tv[|tv| - 1])
    ensures target.Text? ==>
      && Present(target, overlap[0]) && Present(target, overlap[|overlap| - 1])
      && r.min == DisplayValue(target, overlap[0]) && r.max == DisplayValue(target, overlap[|overlap| - 1])
      && exists k :: 0 <= k < |overlap| && r.value == SettingValue(target, overlap[k])
                                         && r.display == DisplayValue(target, overlap[k])
  {
    if target.Numeric? then
      var rounded := Round1(result);
      ConversionResult(rounded, Number(rounded), Number(tv[0]), Number(tv[|tv| - 1]), exact)
    else
      var settings := TextSettingsAt(target, overlap);
      var k := Nearest(settings, result);
      var closest := settings[k];
      assert closest.value == SettingValue(target, overlap[k]);
      assert Label(closest.display) == DisplayValue(target, overlap[k]);
      ConversionResult(closest.value, Label(closest.display),
                       DisplayValue(target, overlap[0]), DisplayValue(target, overlap[|overlap| - 1]),
                       exact)
  }

  /** What the conversion returns for a source, a target and an input value. */
  function Conversion(source: Grinder, target: Grinder, input: real): (r: Option<ConversionResult>)
    ensures r.None? <==> |OverlapOf(source, target)| < 2
  {
    OverlapNeedsCalibration(source, target);
    if |ValidIndices(source)| < 2 || |ValidIndices(target)| < 2 then None
    else if |OverlapOf(source, target)| < 2 then None
    else
      var sv := SourceValues(source, target);
      var tv := TargetValues(source, target);
      Some(Output(target, OverlapOf(source, target), tv, Position(sv, tv, input), ClampInput(sv, input) == input))
  }

  /** A sequence that holds two different elements has at least two of them. */
  lemma TwoDistinctElements(s: seq<nat>, a: nat, b: nat)
    requires a in s && b in s && a != b
    ensures |s| >= 2
  {
  }

  /**
   * Two shared calibrated positions are two calibrated positions of each
   * grinder: the separate check on each grinder never decides on its own.
   */
  lemma OverlapNeedsCalibration(source: Grinder, target: Grinder)
    ensures |OverlapOf(source, target)| >= 2 ==> |ValidIndices(source)| >= 2 && |ValidIndices(target)| >= 2
  {
    var overlap := OverlapOf(source, target);
    if |overlap| >= 2 {
      var si, ti := ValidIndices(source), ValidIndices(target);
      assert overlap == Overlap(si, ti);
      assert overlap[0] in overlap && overlap[1] in overlap;
      assert overlap[0] < overlap[1];
      TwoDistinctElements(si, overlap[0], overlap[1]);
      TwoDistinctElements(ti, overlap[0], overlap[1]);
    }
  }

  /** When the grinders share two calibrated positions, the result is the output record for the interpolated value. */
  lemma ConversionOutput(source: Grinder, target: Grinder, input: real)
    requires |OverlapOf(source, target)| >= 2
    ensures Conversion(source, target, input)
         == Some(Output(target, OverlapOf(source, target), TargetValues(source, target),
                        TargetPosition(source, target, input),
                        ClampInput(SourceValues(source, target), input) == input))
  {
    OverlapNeedsCalibration(source, target);
  }

  // ---------------------------------------------------------------------------
  // The conversion, step by step
  // ---------------------------------------------------------------------------

  /**
   * The bracket scan and the interpolation: find the segment of sourceValues
   * that brackets clamped, then interpolate linearly on it.
   */
  method InterpolateScan(sourceValues: seq<real>, targetValues: seq<real>, clamped: real) returns (result: real)
    requires |sourceValues| == |targetValues| >= 2
    ensures result == Interpolate(sourceValues, targetValues, clamped)
  {
    var n := |sourceValues|;
    var lower := 0;
    var i := 0;
    while i < n - 1
      invariant 0 <= i <= n - 1
      invariant lower == if i == 0 then 0 else i - 1
      invariant forall j :: 0 < j <= i ==> sourceValues[j] < clamped
    {
      if sourceValues[i + 1] >= clamped {
        lower := i;
        break;
      }
      lower := i;
      i := i + 1;
    }
    BracketUnique(sourceValues, clamped, lower);
    var upper := MinIndex(lower + 1, n - 1);

    if lower == upper || sourceValues[lower] == sourceValues[upper] {
      result := targetValues[lower];
    } else {
      var fraction := (clamped - sourceValues[lower]) / (sourceValues[upper] - sourceValues[lower]);
      result := targetValues[lower] + fraction * (targetValues[upper] - targetValues[lower]);
    }
  }

  /** The nearest-setting scan: the first of the settings closest to result. */
  method SnapToNearest(settings: seq<TextSetting>, result: real) returns (closest: TextSetting)
    requires |settings| >= 1
    ensures closest == settings[Nearest(settings, result)]
  {
    closest := settings[0];
    var closestDist := Abs(result - closest.value);
    for k := 0 to |settings|
      invariant closest == settings[NearestIn(settings, result, if k == 0 then 1 else k)]
      invariant closestDist == Distance(closest, result)
    {
      var ts := settings[k];
      var dist := Abs(result - ts.value);
      if dist < closestDist {
        closest := ts;
        closestDist := dist;
      }
    }
  }

  /**
   * Convert a setting of source to target: None without two calibrated
   * positions in each grinder and two shared ones; otherwise the result of
   * the conversion over the shared positions.
   */
  method Convert(source: Grinder, target: Grinder, inputValue: real) returns (r: Option<ConversionResult>)
    ensures r == Conversion(source, target, inputValue)
  {
    var sourceIndices := ValidIndices(source);
    var targetIndices := ValidIndices(target);
    if |sourceIndices| < 2 || |targetIndices| < 2 {
      return None;
    }

    var overlap := Overlap(sourceIndices, targetIndices);
    if |overlap| < 2 {
      return None;
    }

    var record := ConvertOnOverlap(source, target, overlap, inputValue);
    return Some(record);
  }

  /**
   * The conversion over the shared positions: clamp the input into the source
   * range, interpolate, clamp into the target range and build the record.
   */
  method ConvertOnOverlap(source: Grinder, target: Grinder, overlap: seq<nat>, inputValue: real)
    returns (record: ConversionResult)
    requires |ValidIndices(source)| >= 2 && |ValidIndices(target)| >= 2
    requires overlap == OverlapOf(source, target) && |overlap| >= 2
    ensures Conversion(source, target, inputValue) == Some(record)
  {
    var sourceValues := ValuesAt(source, overlap);
    var targetValues := ValuesAt(target, overlap);
    var n := |sourceValues|;

    var targetMin, targetMax := targetValues[0], targetValues[n - 1];
    var sourceMin, sourceMax := sourceValues[0], sourceValues[n - 1];

    var clamped := Clamp(inputValue, sourceMin, sourceMax);

    var result := InterpolateScan(sourceValues, targetValues, clamped);
    result := Clamp(result, targetMin, targetMax);

    var exact := clamped == inputValue;

    assert sourceValues == SourceValues(source, target) && targetValues == TargetValues(source, target);
    assert exact == (ClampInput(sourceValues, inputValue) == inputValue);
    assert result == TargetPosition(source, target, inputValue);
    ConversionOutput(source, target, inputValue);

    record := ResultRecord(target, overlap, targetValues, result, exact);
  }

  /**
   * The result record: for a numeric target the value rounded to one decimal,
   * for a text target the nearest labelled setting; the range is the first
   * and last target settings of the overlap.
   */
  method ResultRecord(target: Grinder, overlap: seq<nat>, targetValues: seq<real>, result: real, exact: bool)
    returns (record: ConversionResult)
    requires |overlap| == |targetValues| >= 1
    requires forall k :: 0 <= k < |overlap| ==> Present(target, overlap[k])
    ensures record == Output(target, overlap, targetValues, result, exact)
  {
    var n := |targetValues|;
    if target.Numeric? {
      var rounded := Round1(result);
      return ConversionResult(rounded, Number(rounded), Number(targetValues[0]), Number(targetValues[n - 1]), exact);
    }

    var validTargetSettings := TextSettingsAt(target, overlap);
    var closest := SnapToNearest(validTargetSettings, result);

    return ConversionResult(closest.value, Label(closest.display),
                            DisplayValue(target, overlap[0]), DisplayValue(target, overlap[|overlap| - 1]),
                            exact);
  }
}
