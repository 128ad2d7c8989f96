/**
 * The two calculators side by side, given the same factor, ratio and target:
 * they agree at or above the target, and below it the single-factor one lets the
 * negative correction eat into the carbohydrate dose.
 */
module Variants {
  import opened Wrappers
  import opened JsNumbers
  import Calculadora
  import InsuCalcDose

  /** At or above the target, with a meal, both calculators give the same total. */
  lemma SameTotalAtOrAboveTarget(fsi: real, razaoCarb: real, meta: real, glicemiaAtual: real, carboidratos: real)
    requires fsi > 0.0 && razaoCarb > 0.0 && meta > 0.0 && carboidratos > 0.0
    requires glicemiaAtual >= meta
    ensures var portugues := Calculadora.Calcular(Some(fsi), Some(razaoCarb), Some(meta), Some(glicemiaAtual), Some(carboidratos));
      var simples := InsuCalcDose.CalculateInsulin(Some(glicemiaAtual), Some(carboidratos), Some(razaoCarb), Some(fsi), Some(meta));
      portugues.Ok? && simples.Ok? && simples.value.totalDose == Finite(portugues.value.total)
  {
    var portugues := Calculadora.Calcular(Some(fsi), Some(razaoCarb), Some(meta), Some(glicemiaAtual), Some(carboidratos));
    var simples := InsuCalcDose.CalculateInsulin(Some(glicemiaAtual), Some(carboidratos), Some(razaoCarb), Some(fsi), Some(meta));
    var d := simples.value;
    assert d.carbDose.v == portugues.value.carboidratos by {
      assert d.carbDose.v * razaoCarb == portugues.value.carboidratos * razaoCarb;
    }
    if glicemiaAtual == meta {
      assert d.correctionDose.v == 0.0;
    } else {
      assert d.correctionDose.v == portugues.value.correcao by {
        assert d.correctionDose.v * fsi == portugues.value.correcao * fsi;
      }
    }
  }

  /** Below the target, with a meal, the single-factor total is strictly smaller. */
  lemma SmallerTotalBelowTarget(fsi: real, razaoCarb: real, meta: real, glicemiaAtual: real, carboidratos: real)
    requires fsi > 0.0 && razaoCarb > 0.0 && glicemiaAtual > 0.0 && carboidratos > 0.0
    requires glicemiaAtual < meta
    ensures var portugues := Calculadora.Calcular(Some(fsi), Some(razaoCarb), Some(meta), Some(glicemiaAtual), Some(carboidratos));
      var simples := InsuCalcDose.CalculateInsulin(Some(glicemiaAtual), Some(carboidratos), Some(razaoCarb), Some(fsi), Some(meta));
      portugues.Ok? && simples.Ok? && simples.value.totalDose.Finite? &&
      simples.value.totalDose.v < portugues.value.total
  {
    var portugues := Calculadora.Calcular(Some(fsi), Some(razaoCarb), Some(meta), Some(glicemiaAtual), Some(carboidratos));
    var simples := InsuCalcDose.CalculateInsulin(Some(glicemiaAtual), Some(carboidratos), Some(razaoCarb), Some(fsi), Some(meta));
    var d := simples.value;
    assert d.carbDose.v == portugues.value.carboidratos by {
      assert d.carbDose.v * razaoCarb == portugues.value.carboidratos * razaoCarb;
    }
    assert d.correctionDose.v < 0.0 by {
      assert d.correctionDose.v * fsi < 0.0;
    }
  }

  /** Without carbohydrates only the four-period calculator gives a dose. */
  lemma OnlyFourPeriodAcceptsNoCarbs(fsi: real, razaoCarb: real, meta: real, glicemiaAtual: real)
    requires fsi > 0.0 && razaoCarb > 0.0 && meta > 0.0 && glicemiaAtual > 0.0
    ensures Calculadora.Calcular(Some(fsi), Some(razaoCarb), Some(meta), Some(glicemiaAtual), Some(0.0)).Ok?
    ensures InsuCalcDose.CalculateInsulin(Some(glicemiaAtual), Some(0.0), Some(razaoCarb), Some(fsi), Some(meta)).Err?
  {
  }
}
