/**
 * calculateInsulin of the single-factor calculator: only the current glucose and
 * the carbohydrates are checked; the carbohydrate and correction doses are plain
 * quotients of whatever the settings fields parse to, and only the total is
 * clamped at zero.
 */
module InsuCalcDose {
  import opened Wrappers
  import opened JsNumbers

  /** The doses shown after a calculation. */
  datatype InsulinDose = InsulinDose(carbDose: Num, correctionDose: Num, totalDose: Num)

  /** The only way the calculation stops: the alert asking to fill the fields. */
  datatype DoseError = FillFields

  /**
   * The calculation on the parsed values of the five fields. A settings field that
   * does not parse or holds zero is not rejected: it carries NaN or an infinity
   * into the doses.
   */
  function CalculateInsulin(currentGlucose: Option<real>, carbs: Option<real>, carbRatio: Option<real>,
                            correctionFactor: Option<real>, targetGlucose: Option<real>): (r: Result<InsulinDose, DoseError>)
    ensures r.Err? <==> Falsy(currentGlucose) || Falsy(carbs)
    ensures r.Ok? ==> !IsNegative(r.value.totalDose)
    ensures r.Ok? && carbRatio.Some? && correctionFactor.Some? && targetGlucose.Some? &&
            carbRatio.value != 0.0 && correctionFactor.value != 0.0 ==>
      var d := r.value;
      d.carbDose.Finite? && d.carbDose.v * carbRatio.value == carbs.value &&
      d.correctionDose.Finite? &&
      d.correctionDose.v * correctionFactor.value == currentGlucose.value - targetGlucose.value &&
      d.totalDose.Finite? &&
      d.totalDose.v >= d.carbDose.v + d.correctionDose.v &&
      (d.carbDose.v + d.correctionDose.v >= 0.0 ==> d.totalDose.v == d.carbDose.v + d.correctionDose.v) &&
      (d.carbDose.v + d.correctionDose.v < 0.0 ==> d.totalDose.v == 0.0)
  {
    if Falsy(currentGlucose) || Falsy(carbs) then
      Err(FillFields)
    else
      var carbDose := Div(Finite(carbs.value), FromParsed(carbRatio));
      var glucoseDifference := Sub(Finite(currentGlucose.value), FromParsed(targetGlucose));
      var correctionDose := Div(glucoseDifference, FromParsed(correctionFactor));
      Ok(InsulinDose(carbDose, correctionDose, MaxZero(Add(carbDose, correctionDose))))
  }

  /** Below the target with a positive factor the correction dose is negative: it is not clamped. */
  lemma NegativeCorrection(currentGlucose: real, carbs: real, carbRatio: Option<real>, correctionFactor: real, targetGlucose: real)
    requires currentGlucose != 0.0 && carbs != 0.0
    requires correctionFactor > 0.0 && currentGlucose < targetGlucose
    ensures var r := CalculateInsulin(Some(currentGlucose), Some(carbs), carbRatio, Some(correctionFactor), Some(targetGlucose));
      r.Ok? && r.value.correctionDose.Finite? && r.value.correctionDose.v < 0.0
  {
    var d := currentGlucose - targetGlucose;
    assert d / correctionFactor < 0.0;
  }

  /** A settings field that does not parse makes the total NaN. */
  lemma MissingSettingGivesNaN(currentGlucose: real, carbs: real, carbRatio: Option<real>,
                               correctionFactor: Option<real>, targetGlucose: Option<real>)
    requires currentGlucose != 0.0 && carbs != 0.0
    requires carbRatio.None? || correctionFactor.None? || targetGlucose.None?
    ensures var r := CalculateInsulin(Some(currentGlucose), Some(carbs), carbRatio, correctionFactor, targetGlucose);
      r.Ok? && r.value.totalDose.NaN?
  {
  }

  /** A zero carbohydrate ratio with positive carbohydrates makes the carbohydrate dose, and the total, infinite. */
  lemma ZeroCarbRatioGivesInfinity(currentGlucose: real, carbs: real, correctionFactor: real, targetGlucose: real)
    requires currentGlucose != 0.0 && carbs > 0.0 && correctionFactor != 0.0
    ensures var r := CalculateInsulin(Some(currentGlucose), Some(carbs), Some(0.0), Some(correctionFactor), Some(targetGlucose));
      r.Ok? && r.value.carbDose == PosInf && r.value.totalDose == PosInf
  {
  }

  /**
   * A zero correction factor divides the distance to the target by zero: above the target the
   * correction and the total are +Infinity, below it the correction is -Infinity and the total
   * is clamped to 0, and at the target both are NaN.
   */
  lemma ZeroCorrectionFactor(currentGlucose: real, carbs: real, carbRatio: real, targetGlucose: real)
    requires currentGlucose != 0.0 && carbs != 0.0 && carbRatio != 0.0
    ensures var r := CalculateInsulin(Some(currentGlucose), Some(carbs), Some(carbRatio), Some(0.0), Some(targetGlucose));
      r.Ok? &&
      (currentGlucose > targetGlucose ==> r.value.correctionDose == PosInf && r.value.totalDose == PosInf) &&
      (currentGlucose < targetGlucose ==> r.value.correctionDose == NegInf && r.value.totalDose == Finite(0.0)) &&
      (currentGlucose == targetGlucose ==> r.value.correctionDose == NaN && r.value.totalDose == NaN)
  {
  }

  /** A meal without carbohydrates cannot be calculated: zero carbohydrates is falsy and rejected. */
  lemma ZeroCarbsRejected(currentGlucose: Option<real>, carbRatio: Option<real>, correctionFactor: Option<real>, targetGlucose: Option<real>)
    ensures CalculateInsulin(currentGlucose, Some(0.0), carbRatio, correctionFactor, targetGlucose) == Err(FillFields)
  {
  }

  /** Far enough below the target the correction outweighs the meal and the total is clamped to zero. */
  lemma ExampleClampedTotal()
    ensures CalculateInsulin(Some(60.0), Some(15.0), Some(15.0), Some(20.0), Some(100.0))
      == Ok(InsulinDose(Finite(1.0), Finite(-2.0), Finite(0.0)))
  {
  }
}
