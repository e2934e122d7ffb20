/**
 * What the conversion promises: when it gives no result, when a result is
 * exact, what clamping does, that calibration points convert exactly, that
 * the conversion is monotone, and how the output for each kind of target is
 * chosen.
 */
module ConvertProperties {
  import opened Wrappers
  import opened Convert

  /** A grinder with fewer than two calibrated positions gives no result, as source or as target. */
  lemma AbsentWithoutCalibration(source: Grinder, target: Grinder, input: real)
    requires |ValidIndices(source)| < 2 || |ValidIndices(target)| < 2
    ensures Conversion(source, target, input) == None
  {
  }

  /**
   * `exact` holds exactly when clamping left the input alone: for a source
   * range [lo, hi] with lo <= hi, exactly when lo <= input <= hi.
   */
  lemma ExactIffInSourceRange(source: Grinder, target: Grinder, input: real)
    requires Conversion(source, target, input).Some?
    ensures var sv := SourceValues(source, target);
      && |sv| >= 2
      && (sv[0] <= sv[|sv| - 1] ==>
            (Conversion(source, target, input).value.exact <==> sv[0] <= input <= sv[|sv| - 1]))
      && (sv[|sv| - 1] < sv[0] ==>
            (Conversion(source, target, input).value.exact <==> input == sv[0]))
  {
  }

  /** Both ends of the source range convert exactly. */
  lemma BoundariesAreExact(source: Grinder, target: Grinder)
    requires |OverlapOf(source, target)| >= 2
    ensures var sv := SourceValues(source, target);
      && Conversion(source, target, sv[0]).Some?
      && Conversion(source, target, sv[0]).value.exact
      && (sv[0] <= sv[|sv| - 1] ==>
            Conversion(source, target, sv[|sv| - 1]).Some? && Conversion(source, target, sv[|sv| - 1]).value.exact)
  {
    var sv, tv := SourceValues(source, target), TargetValues(source, target);
    var lo, hi := sv[0], sv[|sv| - 1];
    assert ClampInput(sv, lo) == lo;
    ConversionOutput(source, target, lo);
    OutputExactOnly(target, OverlapOf(source, target), tv, TargetPosition(source, target, lo), true);
    if lo <= hi {
      assert ClampInput(sv, hi) == hi;
      ConversionOutput(source, target, hi);
      OutputExactOnly(target, OverlapOf(source, target), tv, TargetPosition(source, target, hi), true);
    }
  }

  /** Changing only whether the input was exact changes only the `exact` field. */
  lemma OutputExactOnly(target: Grinder, overlap: seq<nat>, tv: seq<real>, result: real, exact: bool)
    requires |overlap| == |tv| >= 1
    requires forall k :: 0 <= k < |overlap| ==> Present(target, overlap[k])
    ensures Output(target, overlap, tv, result, exact) == Output(target, overlap, tv, result, true).(exact := exact)
  {
  }

  /** Past either end of the source range, the input clamps to that end, as the end itself does. */
  lemma ClampPastEnds(sv: seq<real>, input: real)
    requires |sv| >= 1
    ensures input < sv[0] ==> ClampInput(sv, input) == sv[0] == ClampInput(sv, sv[0]) != input
    ensures sv[0] <= sv[|sv| - 1] < input ==>
      ClampInput(sv, input) == sv[|sv| - 1] == ClampInput(sv, sv[|sv| - 1]) != input
  {
  }

  /**
   * An input that clamps to the source value `end`, without being `end`
   * itself, gives the record of `end` marked not exact.
   */
  lemma ClampsToEnd(source: Grinder, target: Grinder, input: real, end: real)
    requires |OverlapOf(source, target)| >= 2
    requires ClampInput(SourceValues(source, target), input) == ClampInput(SourceValues(source, target), end) != input
    ensures Conversion(source, target, input).Some? && Conversion(source, target, end).Some?
    ensures Conversion(source, target, input).value == Conversion(source, target, end).value.(exact := false)
  {
    var sv, tv, overlap := SourceValues(source, target), TargetValues(source, target), OverlapOf(source, target);
    var x := TargetPosition(source, target, input);
    assert x == TargetPosition(source, target, end);
    ConversionOutput(source, target, input);
    ConversionOutput(source, target, end);
    OutputExactOnly(target, overlap, tv, x, false);
    OutputExactOnly(target, overlap, tv, x, ClampInput(sv, end) == end);
  }

  /** An input below the source range gives the result of the lowest source value, marked not exact. */
  lemma ClampsBelowRange(source: Grinder, target: Grinder, input: real)
    requires |OverlapOf(source, target)| >= 2
    requires input < SourceValues(source, target)[0]
    ensures Conversion(source, target, input).Some?
    ensures Conversion(source, target, SourceValues(source, target)[0]).Some?
    ensures Conversion(source, target, input).value
         == Conversion(source, target, SourceValues(source, target)[0]).value.(exact := false)
  {
    ClampPastEnds(SourceValues(source, target), input);
    ClampsToEnd(source, target, input, SourceValues(source, target)[0]);
  }

  /** An input above the source range gives the result of the highest source value, marked not exact. */
  lemma ClampsAboveRange(source: Grinder, target: Grinder, input: real)
    requires |OverlapOf(source, target)| >= 2
    requires var sv := SourceValues(source, target); sv[0] <= sv[|sv| - 1] < input
    ensures Conversion(source, target, input).Some?
    ensures Conversion(source, target, SourceValues(source, target)[|SourceValues(source, target)| - 1]).Some?
    ensures Conversion(source, target, input).value
         == Conversion(source, target, SourceValues(source, target)[|SourceValues(source, target)| - 1]).value.(exact := false)
  {
    ClampPastEnds(SourceValues(source, target), input);
    ClampsToEnd(source, target, input, SourceValues(source, target)[|SourceValues(source, target)| - 1]);
  }

  /** For monotone grinders the source and target values at the overlap are sorted. */
  lemma OverlapValuesSorted(source: Grinder, target: Grinder)
    requires Monotone(source) && Monotone(target)
    ensures NonDecreasing(SourceValues(source, target)) && NonDecreasing(TargetValues(source, target))
  {
    ValuesAtSorted(source, OverlapOf(source, target));
    ValuesAtSorted(target, OverlapOf(source, target));
  }

  /**
   * A calibration point converts to its own target value, exactly: for
   * monotone grinders and k the first overlap position whose source value is
   * the input, the interpolated target value is the target value at k.
   */
  lemma CalibrationPointsConvertExactly(source: Grinder, target: Grinder, k: nat)
    requires |OverlapOf(source, target)| >= 2 && k < |OverlapOf(source, target)|
    requires Monotone(source) && Monotone(target)
    requires var sv := SourceValues(source, target); forall j :: 0 <= j < k ==> sv[j] < sv[k]
    ensures var sv, tv := SourceValues(source, target), TargetValues(source, target);
      && Position(sv, tv, sv[k]) == tv[k]
      && Conversion(source, target, sv[k]).Some?
      && Conversion(source, target, sv[k]).value.exact
  {
    var sv, tv := SourceValues(source, target), TargetValues(source, target);
    OverlapValuesSorted(source, target);
    PositionAtCalibration(sv, tv, k);
    ConversionOutput(source, target, sv[k]);
    OutputExactOnly(target, OverlapOf(source, target), tv, TargetPosition(source, target, sv[k]), true);
  }

  /**
   * For monotone grinders the conversion is monotone: a larger input never
   * gives a smaller interpolated value, nor a smaller numeric result.
   */
  lemma ConversionMonotone(source: Grinder, target: Grinder, v1: real, v2: real)
    requires |OverlapOf(source, target)| >= 2
    requires Monotone(source) && Monotone(target)
    requires v1 <= v2
    ensures var sv, tv := SourceValues(source, target), TargetValues(source, target);
      Position(sv, tv, v1) <= Position(sv, tv, v2)
  {
    OverlapValuesSorted(source, target);
    PositionMonotone(SourceValues(source, target), TargetValues(source, target), v1, v2);
  }

  /** For monotone grinders and a numeric target, a larger input never gives a smaller result. */
  lemma NumericResultMonotone(source: Grinder, target: Grinder, v1: real, v2: real)
    requires target.Numeric? && |OverlapOf(source, target)| >= 2
    requires Monotone(source) && Monotone(target)
    requires v1 <= v2
    ensures Conversion(source, target, v1).Some? && Conversion(source, target, v2).Some?
    ensures Conversion(source, target, v1).value.value <= Conversion(source, target, v2).value.value
  {
    ConversionMonotone(source, target, v1, v2);
    Round1Monotone(TargetPosition(source, target, v1), TargetPosition(source, target, v2));
    ConversionOutput(source, target, v1);
    ConversionOutput(source, target, v2);
  }

  /**
   * A numeric target reports the interpolated value rounded to one decimal
   * (so within 0.05 of it), and its range as the first and last target
   * values of the overlap.
   */
  lemma NumericTargetRounds(source: Grinder, target: Grinder, input: real)
    requires target.Numeric? && Conversion(source, target, input).Some?
    ensures |OverlapOf(source, target)| >= 2
    ensures var sv, tv := SourceValues(source, target), TargetValues(source, target);
      var x := Position(sv, tv, input);
      var res := Conversion(source, target, input).value;
      && res.value == Round1(x)
      && x - 0.05 < res.value <= x + 0.05
      && res.display == Number(res.value)
      && res.min == Number(tv[0]) && res.max == Number(tv[|tv| - 1])
      && tv[0] <= x && (tv[0] <= tv[|tv| - 1] ==> x <= tv[|tv| - 1])
  {
  }

  /** A text target reports its range as the labels at the first and last overlap positions. */
  lemma TextTargetRangeLabels(source: Grinder, target: Grinder, input: real)
    requires target.Text? && |OverlapOf(source, target)| >= 2
    ensures Conversion(source, target, input).Some?
    ensures var overlap := OverlapOf(source, target);
      var res := Conversion(source, target, input).value;
      && res.min == DisplayValue(target, overlap[0])
      && res.max == DisplayValue(target, overlap[|overlap| - 1])
      && res.min.Label? && res.max.Label?
  {
    ConversionOutput(source, target, input);
  }

  /**
   * (value, text) is the setting at some overlap position k that is nearest
   * to x, and no overlap position before k is as near.
   */
  ghost predicate IsFirstNearest(target: Grinder, overlap: seq<nat>, x: real, value: real, text: string)
    requires forall j :: 0 <= j < |overlap| ==> Present(target, overlap[j])
  {
    && target.Text?
    && exists k :: (
         && 0 <= k < |overlap|
         && SettingValue(target, overlap[k]) == value
         && DisplayValue(target, overlap[k]) == Label(text)
         && (forall j :: 0 <= j < |overlap| ==> Abs(x - value) <= Abs(x - SettingValue(target, overlap[j])))
         && (forall j :: 0 <= j < k ==> Abs(x - SettingValue(target, overlap[j])) > Abs(x - value)))
  }

  /**
   * A text target reports the overlap setting nearest to the interpolated
   * value, the first such setting on a tie.
   */
  lemma TextTargetSnapsToNearest(source: Grinder, target: Grinder, input: real)
    requires target.Text? && |OverlapOf(source, target)| >= 2
    ensures Conversion(source, target, input).Some?
    ensures Conversion(source, target, input).value.display.Label?
    ensures IsFirstNearest(target, OverlapOf(source, target), TargetPosition(source, target, input),
                           Conversion(source, target, input).value.value,
                           Conversion(source, target, input).value.display.text)
  {
    var overlap := OverlapOf(source, target);
    var sv, tv := SourceValues(source, target), TargetValues(source, target);
    var x := TargetPosition(source, target, input);
    var settings := TextSettingsAt(target, overlap);
    var k := Nearest(settings, x);
    ConversionOutput(source, target, input);
    var res := Conversion(source, target, input).value;
    assert res == Output(target, overlap, tv, x, ClampInput(sv, input) == input);
    assert res.value == settings[k].value && res.display == Label(settings[k].display);
    SnapWitness(target, overlap, settings, x, k, res.value, res.display.text);
  }

  lemma SnapWitness(target: Grinder, overlap: seq<nat>, settings: seq<TextSetting>, x: real, k: nat, value: real, text: string)
    requires target.Text? && |settings| == |overlap| >= 1
    requires forall j :: 0 <= j < |overlap| ==> Present(target, overlap[j])
    requires settings == TextSettingsAt(target, overlap)
    requires k == Nearest(settings, x) && settings[k] == TextSetting(value, text)
    ensures IsFirstNearest(target, overlap, x, value, text)
  {
    forall j | 0 <= j < |overlap|
      ensures Abs(x - value) <= Abs(x - SettingValue(target, overlap[j]))
    {
      assert Distance(settings[k], x) <= Distance(settings[j], x);
    }
    forall j | 0 <= j < k
      ensures Abs(x - SettingValue(target, overlap[j])) > Abs(x - value)
    {
      assert Distance(settings[j], x) > Distance(settings[k], x);
    }
    assert SettingValue(target, overlap[k]) == value && DisplayValue(target, overlap[k]) == Label(text);
  }
}
