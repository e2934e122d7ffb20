/**
 * The grinders of the test fixtures and the conversions the test suite
 * expects of them, stated on the model.
 */
module ConvertExamples {
  import opened Wrappers
  import opened Convert
  import opened ConvertProperties

  /** Five calibrated positions, values 1 to 5. */
  const NumericGrinder: Grinder :=
    Numeric("numeric-1", "Numeric Grinder", [Some(1.0), Some(2.0), Some(3.0), Some(4.0), Some(5.0)])

  /** Five calibrated positions, values 10 to 50. */
  const NumericGrinder2: Grinder :=
    Numeric("numeric-2", "Numeric Grinder 2", [Some(10.0), Some(20.0), Some(30.0), Some(40.0), Some(50.0)])

  /** Labelled settings at positions 1 to 3. */
  const TextGrinder: Grinder :=
    Text("text-1", "Text Grinder",
         [None, Some(TextSetting(5.0, "Fine")), Some(TextSetting(10.0, "Medium")), Some(TextSetting(15.0, "Coarse")), None])

  /** Only position 10 is calibrated. */
  const NoOverlapGrinder: Grinder :=
    Numeric("no-overlap", "No Overlap Grinder",
            [None, None, None, None, None, None, None, None, None, None, Some(100.0)])

  /** No position is calibrated. */
  const EmptyGrinder: Grinder := Numeric("empty", "Empty Grinder", [None, None, None])

  /** Two positions with the same value, and a target over them. */
  const FlatSource: Grinder := Numeric("flat", "Flat", [Some(5.0), Some(5.0)])
  const FlatTarget: Grinder := Numeric("target", "Target", [Some(10.0), Some(20.0)])

  // ---------------------------------------------------------------------------
  // Calibrated positions of the fixtures
  // ---------------------------------------------------------------------------

  lemma NumericPositions()
    ensures forall i: nat :: Present(NumericGrinder, i) <==> i in [0, 1, 2, 3, 4]
    ensures forall i: nat :: Present(NumericGrinder2, i) <==> i in [0, 1, 2, 3, 4]
  {
  }

  lemma TextPositions()
    ensures forall i: nat :: Present(TextGrinder, i) <==> i in [1, 2, 3]
  {
  }

  lemma SparsePositions()
    ensures forall i: nat :: Present(NoOverlapGrinder, i) <==> i in [10]
    ensures forall i: nat :: Present(EmptyGrinder, i) <==> i in []
  {
  }

  lemma NumericIndices()
    ensures ValidIndices(NumericGrinder) == [0, 1, 2, 3, 4]
    ensures ValidIndices(NumericGrinder2) == [0, 1, 2, 3, 4]
  {
    NumericPositions();
    ValidIndicesExactly(NumericGrinder, [0, 1, 2, 3, 4]);
    ValidIndicesExactly(NumericGrinder2, [0, 1, 2, 3, 4]);
  }

  lemma TextIndices()
    ensures ValidIndices(TextGrinder) == [1, 2, 3]
  {
    TextPositions();
    ValidIndicesExactly(TextGrinder, [1, 2, 3]);
  }

  lemma SparseIndices()
    ensures ValidIndices(NoOverlapGrinder) == [10]
    ensures ValidIndices(EmptyGrinder) == []
  {
    SparsePositions();
    ValidIndicesExactly(NoOverlapGrinder, [10]);
    ValidIndicesExactly(EmptyGrinder, []);
  }

  // ---------------------------------------------------------------------------
  // getRange
  // ---------------------------------------------------------------------------

  /** The range of a numeric grinder is its first and last values, shown as numbers. */
  lemma NumericRange()
    ensures GetRange(NumericGrinder) == Some(Range(1.0, 5.0, DisplayRange(Number(1.0), Number(5.0))))
  {
    NumericIndices();
  }

  /** The range of a text grinder is shown by the labels at its first and last calibrated positions. */
  lemma TextRange()
    ensures GetRange(TextGrinder) == Some(Range(5.0, 15.0, DisplayRange(Label("Fine"), Label("Coarse"))))
  {
    TextIndices();
  }

  /** A grinder without calibrated positions has no range. */
  lemma EmptyRange()
    ensures GetRange(EmptyGrinder) == None
  {
    SparseIndices();
  }

  // ---------------------------------------------------------------------------
  // convert: numeric to numeric
  // ---------------------------------------------------------------------------

  lemma NumericOverlapPositions()
    ensures forall i: nat :: i in [0, 1, 2, 3, 4] <==> Present(NumericGrinder, i) && Present(NumericGrinder2, i)
  {
    NumericPositions();
  }

  lemma NumericOverlap()
    ensures OverlapOf(NumericGrinder, NumericGrinder2) == [0, 1, 2, 3, 4]
  {
    NumericOverlapPositions();
    OverlapOfExactly(NumericGrinder, NumericGrinder2, [0, 1, 2, 3, 4]);
  }

  lemma NumericOverlapValues()
    ensures SourceValues(NumericGrinder, NumericGrinder2) == [1.0, 2.0, 3.0, 4.0, 5.0]
    ensures TargetValues(NumericGrinder, NumericGrinder2) == [10.0, 20.0, 30.0, 40.0, 50.0]
  {
    NumericOverlap();
    NumericValuesAt();
  }

  lemma NumericValuesAt()
    ensures ValuesAt(NumericGrinder, [0, 1, 2, 3, 4]) == [1.0, 2.0, 3.0, 4.0, 5.0]
    ensures ValuesAt(NumericGrinder2, [0, 1, 2, 3, 4]) == [10.0, 20.0, 30.0, 40.0, 50.0]
  {
    var v1 := ValuesAt(NumericGrinder, [0, 1, 2, 3, 4]);
    assert v1[0] == 1.0 && v1[1] == 2.0 && v1[2] == 3.0 && v1[3] == 4.0 && v1[4] == 5.0;
    var v2 := ValuesAt(NumericGrinder2, [0, 1, 2, 3, 4]);
    assert v2[0] == 10.0 && v2[1] == 20.0 && v2[2] == 30.0 && v2[3] == 40.0 && v2[4] == 50.0;
  }

  /** The numeric result for an input whose interpolated value x is a whole number of tenths. */
  lemma NumericResult(input: real, x: real, tenths: int, exact: bool)
    requires x == tenths as real / 10.0
    requires Position([1.0, 2.0, 3.0, 4.0, 5.0], [10.0, 20.0, 30.0, 40.0, 50.0], input) == x
    requires exact <==> 1.0 <= input <= 5.0
    ensures Conversion(NumericGrinder, NumericGrinder2, input)
         == Some(ConversionResult(x, Number(x), Number(10.0), Number(50.0), exact))
  {
    NumericOverlap();
    NumericOverlapValues();
    NumericIndices();
    Round1Keeps(x, tenths);
  }

  /** 3 is a calibration point: it converts to 30, exactly, and the range is 10 to 50. */
  lemma ConvertsCalibrationPoint()
    ensures Conversion(NumericGrinder, NumericGrinder2, 3.0)
         == Some(ConversionResult(30.0, Number(30.0), Number(10.0), Number(50.0), true))
  {
    NumericResult(3.0, 30.0, 300, true);
  }

  /** 2.5 lies halfway between 2 and 3, so it converts to 25. */
  lemma InterpolatesBetweenPoints()
    ensures Conversion(NumericGrinder, NumericGrinder2, 2.5)
         == Some(ConversionResult(25.0, Number(25.0), Number(10.0), Number(50.0), true))
  {
    NumericResult(2.5, 25.0, 250, true);
  }

  /** 0 is clamped to 1: the low end of the target range, not exact. */
  lemma ClampsBelow()
    ensures Conversion(NumericGrinder, NumericGrinder2, 0.0)
         == Some(ConversionResult(10.0, Number(10.0), Number(10.0), Number(50.0), false))
  {
    NumericResult(0.0, 10.0, 100, false);
  }

  /** 10 is clamped to 5: the high end of the target range, not exact. */
  lemma ClampsAbove()
    ensures Conversion(NumericGrinder, NumericGrinder2, 10.0)
         == Some(ConversionResult(50.0, Number(50.0), Number(10.0), Number(50.0), false))
  {
    NumericResult(10.0, 50.0, 500, false);
  }

  /** The low end of the source range converts exactly to the low end of the target range. */
  lemma ConvertsLowBoundary()
    ensures Conversion(NumericGrinder, NumericGrinder2, 1.0)
         == Some(ConversionResult(10.0, Number(10.0), Number(10.0), Number(50.0), true))
  {
    NumericResult(1.0, 10.0, 100, true);
  }

  /** The high end of the source range converts exactly to the high end of the target range. */
  lemma ConvertsHighBoundary()
    ensures Conversion(NumericGrinder, NumericGrinder2, 5.0)
         == Some(ConversionResult(50.0, Number(50.0), Number(10.0), Number(50.0), true))
  {
    NumericResult(5.0, 50.0, 500, true);
  }

  // ---------------------------------------------------------------------------
  // convert: numeric to text
  // ---------------------------------------------------------------------------

  lemma TextOverlapPositions()
    ensures forall i: nat :: i in [1, 2, 3] <==> Present(NumericGrinder, i) && Present(TextGrinder, i)
  {
    NumericPositions();
    TextPositions();
  }

  lemma TextOverlap()
    ensures OverlapOf(NumericGrinder, TextGrinder) == [1, 2, 3]
  {
    TextOverlapPositions();
    OverlapOfExactly(NumericGrinder, TextGrinder, [1, 2, 3]);
  }

  lemma TextOverlapValues()
    ensures SourceValues(NumericGrinder, TextGrinder) == [2.0, 3.0, 4.0]
    ensures TargetValues(NumericGrinder, TextGrinder) == [5.0, 10.0, 15.0]
  {
    TextOverlap();
    TextValuesAt();
  }

  lemma TextValuesAt()
    ensures ValuesAt(NumericGrinder, [1, 2, 3]) == [2.0, 3.0, 4.0]
    ensures ValuesAt(TextGrinder, [1, 2, 3]) == [5.0, 10.0, 15.0]
  {
    var v1 := ValuesAt(NumericGrinder, [1, 2, 3]);
    assert v1[0] == 2.0 && v1[1] == 3.0 && v1[2] == 4.0;
    var v2 := ValuesAt(TextGrinder, [1, 2, 3]);
    assert v2[0] == 5.0 && v2[1] == 10.0 && v2[2] == 15.0;
  }

  /** 2 converts to 5, which is the setting labelled "Fine"; the range is shown as Fine to Coarse. */
  lemma SnapsToFine()
    ensures Conversion(NumericGrinder, TextGrinder, 2.0)
         == Some(ConversionResult(5.0, Label("Fine"), Label("Fine"), Label("Coarse"), true))
  {
    TextOverlap();
    TextOverlapValues();
    FineInterpolation();
    assert TargetPosition(NumericGrinder, TextGrinder, 2.0) == 5.0;
    assert ClampInput([2.0, 3.0, 4.0], 2.0) == 2.0;
    ConversionOutput(NumericGrinder, TextGrinder, 2.0);
    FineOutput();
  }

  /** Over the shared positions, source value 2 lies at target value 5. */
  lemma FineInterpolation()
    ensures Position([2.0, 3.0, 4.0], [5.0, 10.0, 15.0], 2.0) == 5.0
  {
  }

  lemma FineOutput()
    ensures Output(TextGrinder, [1, 2, 3], [5.0, 10.0, 15.0], 5.0, true)
         == ConversionResult(5.0, Label("Fine"), Label("Fine"), Label("Coarse"), true)
  {
    TextSettingsOfOverlap();
    NearestToFine();
  }

  lemma TextSettingsOfOverlap()
    ensures TextSettingsAt(TextGrinder, [1, 2, 3])
         == [TextSetting(5.0, "Fine"), TextSetting(10.0, "Medium"), TextSetting(15.0, "Coarse")]
  {
  }

  lemma NearestToFine()
    ensures Nearest([TextSetting(5.0, "Fine"), TextSetting(10.0, "Medium"), TextSetting(15.0, "Coarse")], 5.0) == 0
  {
    var ts := [TextSetting(5.0, "Fine"), TextSetting(10.0, "Medium"), TextSetting(15.0, "Coarse")];
    assert Distance(ts[0], 5.0) == 0.0;
  }

  /** For any input the range of a text target is shown as Fine to Coarse. */
  lemma TextRangeLabels(input: real)
    ensures Conversion(NumericGrinder, TextGrinder, input).Some?
    ensures Conversion(NumericGrinder, TextGrinder, input).value.min == Label("Fine")
    ensures Conversion(NumericGrinder, TextGrinder, input).value.max == Label("Coarse")
  {
    TextOverlap();
    TextTargetRangeLabels(NumericGrinder, TextGrinder, input);
    TextEnds();
  }

  lemma TextEnds()
    ensures DisplayValue(TextGrinder, 1) == Label("Fine")
    ensures DisplayValue(TextGrinder, 3) == Label("Coarse")
  {
  }

  // ---------------------------------------------------------------------------
  // convert: no result, and equal source values
  // ---------------------------------------------------------------------------

  /** A grinder with fewer than two calibrated positions gives no result, on either side. */
  lemma NoResultWithoutCalibration()
    ensures Conversion(NumericGrinder, NoOverlapGrinder, 3.0) == None
    ensures Conversion(EmptyGrinder, NumericGrinder, 1.0) == None
  {
    SparseIndices();
    AbsentWithoutCalibration(NumericGrinder, NoOverlapGrinder, 3.0);
    AbsentWithoutCalibration(EmptyGrinder, NumericGrinder, 1.0);
  }

  /** Two adjacent overlap positions with the same source value give the target value of the first. */
  lemma FlatSegment()
    ensures Conversion(FlatSource, FlatTarget, 5.0).Some?
    ensures Conversion(FlatSource, FlatTarget, 5.0).value.value == 10.0
  {
    FlatIndices();
    FlatValues();
    assert Position([5.0, 5.0], [10.0, 20.0], 5.0) == 10.0;
    Round1Keeps(10.0, 100);
  }

  lemma FlatPositions()
    ensures forall i: nat :: Present(FlatSource, i) <==> i in [0, 1]
    ensures forall i: nat :: Present(FlatTarget, i) <==> i in [0, 1]
  {
  }

  lemma FlatIndices()
    ensures ValidIndices(FlatSource) == [0, 1] && ValidIndices(FlatTarget) == [0, 1]
    ensures OverlapOf(FlatSource, FlatTarget) == [0, 1]
  {
    FlatPositions();
    ValidIndicesExactly(FlatSource, [0, 1]);
    ValidIndicesExactly(FlatTarget, [0, 1]);
    OverlapOfExactly(FlatSource, FlatTarget, [0, 1]);
  }

  lemma FlatValues()
    ensures SourceValues(FlatSource, FlatTarget) == [5.0, 5.0]
    ensures TargetValues(FlatSource, FlatTarget) == [10.0, 20.0]
  {
    FlatIndices();
  }
}
