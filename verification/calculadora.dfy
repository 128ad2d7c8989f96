/**
 * calcularInsulina of the four-period calculator: the correction-factor field
 * chosen by the period of the day, the two-stage validation and the dose
 * arithmetic (correction clamped at zero, carbohydrate dose only for a
 * positive carbohydrate amount, total as their sum).
 */
module Calculadora {
  import opened Wrappers
  import opened JsNumbers
  import Configuracoes

  /** The values of the period select, in page order. */
  const Periods: seq<string> := ["manha", "tarde", "noite", "madrugada"]

  predicate IsAsciiLower(c: char)
  {
    'a' <= c <= 'z'
  }

  predicate IsAsciiUpper(c: char)
  {
    'A' <= c <= 'Z'
  }

  /** `toUpperCase` on one character, for the ASCII letters. */
  function ToUpper(c: char): (u: char)
    ensures IsAsciiLower(c) ==> IsAsciiUpper(u) && u as int == c as int - 32
    ensures !IsAsciiLower(c) ==> u == c
  {
    if IsAsciiLower(c) then (c as int - 32) as char else c
  }

  /** The id of the correction-factor field of a period: "fsi" and the period with its first character upper-cased. */
  function FsiFieldId(periodo: string): (id: string)
    ensures |id| == |periodo| + 3 && id[..3] == "fsi"
    ensures periodo != [] ==> id[3] == ToUpper(periodo[0]) && id[4..] == periodo[1..]
  {
    "fsi" + (if periodo == [] then "" else [ToUpper(periodo[0])] + periodo[1..])
  }

  /** Two periods that do not start with a capital letter never share a field. */
  lemma FsiFieldIdInjective(p: string, q: string)
    requires p == [] || !IsAsciiUpper(p[0])
    requires q == [] || !IsAsciiUpper(q[0])
    ensures FsiFieldId(p) == FsiFieldId(q) ==> p == q
  {
    if FsiFieldId(p) == FsiFieldId(q) {
      assert |p| == |q|;
      if p != [] {
        assert p[0] == q[0] by {
          assert ToUpper(p[0]) == FsiFieldId(p)[3] == ToUpper(q[0]);
        }
        assert p == [p[0]] + p[1..] && q == [q[0]] + q[1..];
      }
    }
  }

  /** Each period of the select names the settings field that holds its factor. */
  lemma PeriodFields()
    ensures forall i :: 0 <= i < |Periods| ==> FsiFieldId(Periods[i]) == Configuracoes.SettingsKeys[i + 1]
  {
    assert FsiFieldId("manha") == "fsiManha";
    assert FsiFieldId("tarde") == "fsiTarde";
    assert FsiFieldId("noite") == "fsiNoite";
    assert FsiFieldId("madrugada") == "fsiMadrugada";
  }

  /** Among the periods that do not start with a capital, exactly the four of the select have a field. */
  lemma PeriodHasField(periodo: string)
    requires periodo == [] || !IsAsciiUpper(periodo[0])
    ensures FsiFieldId(periodo) in Configuracoes.SettingsKeys <==> periodo in Periods
  {
    PeriodFields();
    if FsiFieldId(periodo) in Configuracoes.SettingsKeys {
      var i :| 0 <= i < |Configuracoes.SettingsKeys| && Configuracoes.SettingsKeys[i] == FsiFieldId(periodo);
      assert FsiFieldId(periodo)[..3] == "fsi";
      assert i != 0 by {
        assert Configuracoes.SettingsKeys[0][0] == 'p';
      }
      assert i < 5 by {
        assert Configuracoes.SettingsKeys[5][0] == 'r';
        assert Configuracoes.SettingsKeys[6][0] == 'm';
      }
      FsiFieldIdInjective(periodo, Periods[i - 1]);
    }
  }

  /** The correction dose: (glicemiaAtual - meta) / fsi, replaced by zero when negative. */
  function DoseCorrecao(glicemiaAtual: real, meta: real, fsi: real): (dose: real)
    requires fsi > 0.0
    ensures dose >= 0.0
    ensures dose == 0.0 <==> glicemiaAtual <= meta
    ensures dose > 0.0 ==> dose * fsi == glicemiaAtual - meta
  {
    var dose := (glicemiaAtual - meta) / fsi;
    if dose < 0.0 then 0.0 else dose
  }

  /** The carbohydrate dose: carboidratos / razaoCarb for a present, positive amount, zero otherwise. */
  function DoseCarboidratos(carboidratos: Option<real>, razaoCarb: real): (dose: real)
    requires razaoCarb > 0.0
    ensures dose >= 0.0
    ensures dose > 0.0 <==> carboidratos.Some? && carboidratos.value > 0.0
    ensures dose > 0.0 ==> dose * razaoCarb == carboidratos.value
  {
    if !Falsy(carboidratos) && carboidratos.value > 0.0 then carboidratos.value / razaoCarb else 0.0
  }

  /** The doses shown after a calculation. */
  datatype Dose = Dose(correcao: real, carboidratos: real, total: real)

  /** Why a calculation shows no result: an alert for a missing or non-positive value, or a field the page lacks. */
  datatype CalcError = CamposEmFalta | ValoresNaoPositivos | ElementoInexistente(id: string)

  /**
   * The calculation on the parsed values. The four required values are checked for
   * presence first (NaN or zero stops it), then for positivity; only then are the
   * doses computed.
   */
  function Calcular(fsi: Option<real>, razaoCarb: Option<real>, meta: Option<real>,
                    glicemiaAtual: Option<real>, carboidratos: Option<real>): (r: Result<Dose, CalcError>)
    ensures r == Err(CamposEmFalta) <==> Falsy(fsi) || Falsy(razaoCarb) || Falsy(meta) || Falsy(glicemiaAtual)
    ensures r == Err(ValoresNaoPositivos) <==>
      !(Falsy(fsi) || Falsy(razaoCarb) || Falsy(meta) || Falsy(glicemiaAtual)) &&
      (fsi.value < 0.0 || razaoCarb.value < 0.0 || meta.value < 0.0 || glicemiaAtual.value < 0.0)
    ensures r.Ok? <==>
      fsi.Some? && razaoCarb.Some? && meta.Some? && glicemiaAtual.Some? &&
      fsi.value > 0.0 && razaoCarb.value > 0.0 && meta.value > 0.0 && glicemiaAtual.value > 0.0
    ensures r.Ok? ==>
      var d := r.value;
      d.total == d.correcao + d.carboidratos && d.total >= 0.0 &&
      d.correcao >= 0.0 && (d.correcao == 0.0 <==> glicemiaAtual.value <= meta.value) &&
      (d.correcao > 0.0 ==> d.correcao * fsi.value == glicemiaAtual.value - meta.value) &&
      d.carboidratos >= 0.0 && (d.carboidratos > 0.0 <==> carboidratos.Some? && carboidratos.value > 0.0) &&
      (d.carboidratos > 0.0 ==> d.carboidratos * razaoCarb.value == carboidratos.value)
  {
    if Falsy(fsi) || Falsy(razaoCarb) || Falsy(meta) || Falsy(glicemiaAtual) then
      Err(CamposEmFalta)
    else if fsi.value <= 0.0 || razaoCarb.value <= 0.0 || meta.value <= 0.0 || glicemiaAtual.value <= 0.0 then
      Err(ValoresNaoPositivos)
    else
      var correcao := DoseCorrecao(glicemiaAtual.value, meta.value, fsi.value);
      var doseCarboidratos := DoseCarboidratos(carboidratos, razaoCarb.value);
      Ok(Dose(correcao, doseCarboidratos, correcao + doseCarboidratos))
  }

  /** The value of a page element, or the error reading `.value` of a missing one raises. */
  function Campo(campos: map<string, string>, id: string): (r: Result<string, CalcError>)
    ensures r.Ok? <==> id in campos
    ensures r.Ok? ==> r.value == campos[id]
    ensures r.Err? ==> r.error == ElementoInexistente(id)
  {
    if id in campos then Ok(campos[id]) else Err(ElementoInexistente(id))
  }

  /** The page has the period select and every field the calculation reads. */
  predicate HasCalcFields(campos: map<string, string>)
  {
    "periodoFSI" in campos && FsiFieldId(campos["periodoFSI"]) in campos &&
    "razaoCarboidrato" in campos && "metaGlicemia" in campos && "glicemiaAtual" in campos && "carboidratos" in campos
  }

  /**
   * calcularInsulina on the page: the period select picks the factor field, every
   * value is read through `parseFloat` (`parse`), and the calculation runs on them.
   */
  function CalcularInsulina(campos: map<string, string>, parse: string -> Option<real>): (r: Result<Dose, CalcError>)
    ensures "periodoFSI" !in campos ==> r == Err(ElementoInexistente("periodoFSI"))
    ensures "periodoFSI" in campos && FsiFieldId(campos["periodoFSI"]) !in campos ==>
      r == Err(ElementoInexistente(FsiFieldId(campos["periodoFSI"])))
    ensures (r.Err? && r.error.ElementoInexistente?) <==> !HasCalcFields(campos)
    ensures r.Err? && r.error.ElementoInexistente? ==> r.error.id !in campos
    ensures HasCalcFields(campos) ==>
      r == Calcular(parse(campos[FsiFieldId(campos["periodoFSI"])]), parse(campos["razaoCarboidrato"]),
                    parse(campos["metaGlicemia"]), parse(campos["glicemiaAtual"]), parse(campos["carboidratos"]))
  {
    var periodo :- Campo(campos, "periodoFSI");
    var fsi :- Campo(campos, FsiFieldId(periodo));
    var razaoCarb :- Campo(campos, "razaoCarboidrato");
    var meta :- Campo(campos, "metaGlicemia");
    var glicemiaAtual :- Campo(campos, "glicemiaAtual");
    var carboidratos :- Campo(campos, "carboidratos");
    Calcular(parse(fsi), parse(razaoCarb), parse(meta), parse(glicemiaAtual), parse(carboidratos))
  }

  /** A page with all settings fields and a period from the select never fails for a missing element. */
  lemma PageAlwaysHasFactorField(campos: map<string, string>, parse: string -> Option<real>)
    requires Configuracoes.HasSettingsFields(campos) && "glicemiaAtual" in campos && "carboidratos" in campos
    requires campos["periodoFSI"] in Periods
    ensures HasCalcFields(campos)
    ensures !CalcularInsulina(campos, parse).Err? || !CalcularInsulina(campos, parse).error.ElementoInexistente?
  {
    var periodo := campos["periodoFSI"];
    PeriodFields();
    var i :| 0 <= i < |Periods| && Periods[i] == periodo;
    assert FsiFieldId(periodo) in Configuracoes.SettingsKeys;
  }

  /** Above the target with carbohydrates: 80 mg/dL over with factor 50 and 60 g at 15 g/U. */
  lemma ExampleAboveTarget()
    ensures Calcular(Some(50.0), Some(15.0), Some(100.0), Some(180.0), Some(60.0)) == Ok(Dose(1.6, 4.0, 5.6))
  {
  }

  /** Below the target the correction is zero, not negative, and the total is the carbohydrate dose. */
  lemma ExampleBelowTarget()
    ensures Calcular(Some(50.0), Some(15.0), Some(100.0), Some(90.0), Some(60.0)) == Ok(Dose(0.0, 4.0, 4.0))
  {
  }

  /** No carbohydrates and a reading below the target: nothing to inject. */
  lemma ExampleNoCarbs()
    ensures Calcular(Some(50.0), Some(15.0), Some(100.0), Some(90.0), Some(0.0)) == Ok(Dose(0.0, 0.0, 0.0))
  {
  }

  /** An empty ratio field parses to NaN and stops the calculation at the first check. */
  lemma ExampleMissingRatio()
    ensures Calcular(Some(50.0), None, Some(100.0), Some(180.0), Some(60.0)) == Err(CamposEmFalta)
  {
  }
}
