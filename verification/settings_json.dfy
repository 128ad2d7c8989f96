/**
 * The JSON text saveSettings stores: `JSON.stringify` of the three-field settings
 * record, and the reading of exactly that shape back. String escaping follows
 * QuoteJSONString (section 25.5.2.3 of ECMA-262): quote, backslash and the five
 * short control escapes, `\u00xx` with lower-case hex digits for the other
 * control characters.
 */
module SettingsJson {
  import opened Wrappers

  /** The settings record saveSettings builds from its three fields. */
  datatype Settings = Settings(carbRatio: string, correctionFactor: string, targetGlucose: string)

  const Backspace: char := '\U{8}'
  const FormFeed: char := '\U{C}'

  /** The value of a hexadecimal digit, either case. */
  function HexValue(c: char): (r: Option<nat>)
    ensures r.Some? ==> r.value < 16
  {
    if '0' <= c <= '9' then Some(c as int - '0' as int)
    else if 'a' <= c <= 'f' then Some(c as int - 'a' as int + 10)
    else if 'A' <= c <= 'F' then Some(c as int - 'A' as int + 10)
    else None
  }

  /** The lower-case digit `JSON.stringify` writes for a value below 16. */
  function HexDigit(n: nat): (c: char)
    requires n < 16
    ensures HexValue(c) == Some(n)
  {
    if n < 10 then ('0' as int + n) as char else ('a' as int + n - 10) as char
  }

  /** How one character of a string value is written inside the quotes. */
  function EscapeChar(c: char): (e: string)
    ensures e != []
  {
    if c == '"' then "\\\""
    else if c == '\\' then "\\\\"
    else if c == Backspace then "\\b"
    else if c == '\t' then "\\t"
    else if c == '\n' then "\\n"
    else if c == FormFeed then "\\f"
    else if c == '\r' then "\\r"
    else if (c as int) < 0x20 then "\\u00" + [HexDigit(c as int / 16), HexDigit(c as int % 16)]
    else [c]
  }

  function Escape(s: string): string
  {
    if s == [] then [] else EscapeChar(s[0]) + Escape(s[1..])
  }

  /** A string value as `JSON.stringify` writes it. */
  function Quote(s: string): string
  {
    "\"" + Escape(s) + "\""
  }

  /** The four hex digits of a `\u` escape, as a number. */
  function HexQuad(s: string): (r: Option<nat>)
    requires |s| == 4
  {
    var a :- HexValue(s[0]);
    var b :- HexValue(s[1]);
    var c :- HexValue(s[2]);
    var d :- HexValue(s[3]);
    Some(((a * 16 + b) * 16 + c) * 16 + d)
  }

  /** The character an escape stands for (the text after the backslash) and how many characters it takes. */
  function ReadEscape(s: string): (r: Option<(char, nat)>)
    ensures r.Some? ==> 1 <= r.value.1 <= |s|
  {
    if s == [] then None
    else if s[0] == '"' || s[0] == '\\' || s[0] == '/' then Some((s[0], 1))
    else if s[0] == 'b' then Some((Backspace, 1))
    else if s[0] == 'f' then Some((FormFeed, 1))
    else if s[0] == 'n' then Some(('\n', 1))
    else if s[0] == 'r' then Some(('\r', 1))
    else if s[0] == 't' then Some(('\t', 1))
    else if s[0] == 'u' && |s| >= 5 then
      var code :- HexQuad(s[1..5]);
      if code < 0xD800 || 0xDFFF < code then Some((code as char, 5)) else None
    else None
  }

  /** A `\u` escape of a surrogate, such as the first half of `\ud83d\ude00`, stands for no character here. */
  lemma SurrogateEscapeRejected(hex: string)
    requires |hex| == 4 && HexQuad(hex).Some? && 0xD800 <= HexQuad(hex).value <= 0xDFFF
    ensures ReadEscape("u" + hex) == None
  {
    assert ("u" + hex)[1..5] == hex;
  }

  /**
   * The content of a string value, read from just after its opening quote: the
   * unescaped characters and the text after the closing quote. A raw control
   * character or an unknown escape is a syntax error.
   */
  function ReadString(s: string): (r: Option<(string, string)>)
    ensures r.Some? ==> |r.value.1| < |s|
    decreases |s|
  {
    if s == [] then None
    else if s[0] == '"' then Some(([], s[1..]))
    else if s[0] == '\\' then
      var e :- ReadEscape(s[1..]);
      var tail :- ReadString(s[1 + e.1..]);
      Some(([e.0] + tail.0, tail.1))
    else if (s[0] as int) < 0x20 then None
    else
      var tail :- ReadString(s[1..]);
      Some(([s[0]] + tail.0, tail.1))
  }

  /** Reading past one written character adds that character in front of what follows. */
  lemma ReadEscapedChar(c: char, t: string)
    ensures ReadString(EscapeChar(c) + t) ==
      match ReadString(t)
      case None => None
      case Some(tail) => Some(([c] + tail.0, tail.1))
  {
    var s := EscapeChar(c) + t;
    if c == '"' || c == '\\' || c == Backspace || c == '\t' || c == '\n' || c == FormFeed || c == '\r' {
      assert s[0] == '\\' && ReadEscape(s[1..]) == Some((c, 1));
      assert s[2..] == t;
    } else if (c as int) < 0x20 {
      var hi, lo := HexDigit(c as int / 16), HexDigit(c as int % 16);
      assert s[1..] == ['u', '0', '0', hi, lo] + t;
      assert s[1..][1..5] == ['0', '0', hi, lo];
      assert HexQuad(['0', '0', hi, lo]) == Some(c as int);
      assert s[6..] == t;
    } else {
      assert s[0] == c && s[1..] == t;
    }
  }

  /** Reading an escaped value and its closing quote gives back the value and the text after it. */
  lemma {:induction false} ReadEscapedString(v: string, rest: string)
    ensures ReadString(Escape(v) + "\"" + rest) == Some((v, rest))
  {
    if v == [] {
      assert Escape(v) + "\"" + rest == "\"" + rest;
    } else {
      ReadEscapedString(v[1..], rest);
      ReadEscapedChar(v[0], Escape(v[1..]) + "\"" + rest);
      assert Escape(v) + "\"" + rest == EscapeChar(v[0]) + (Escape(v[1..]) + "\"" + rest);
      assert [v[0]] + v[1..] == v;
    }
  }

  const CarbRatioLabel := "{\"carbRatio\":"
  const CorrectionFactorLabel := ",\"correctionFactor\":"
  const TargetGlucoseLabel := ",\"targetGlucose\":"

  /** `JSON.stringify` of the settings record: its three properties in the order they were created. */
  function Stringify(settings: Settings): string
  {
    CarbRatioLabel + Quote(settings.carbRatio) +
    (CorrectionFactorLabel + Quote(settings.correctionFactor) +
    (TargetGlucoseLabel + Quote(settings.targetGlucose) + "}"))
  }

  /** A property name followed by a string value: the value and the text after it. */
  function ReadField(s: string, name: string): (r: Option<(string, string)>)
    ensures r.Some? ==> |r.value.1| < |s|
  {
    var n := |name|;
    if n < |s| && s[..n] == name && s[n] == '"' then ReadString(s[n + 1..]) else None
  }

  /**
   * Reading back a settings record from a text of `Stringify`'s shape. The values may use any
   * JSON escape except a `\u` escape of a surrogate, which is read as a syntax error.
   */
  function Parse(text: string): Option<Settings>
  {
    var carbRatio :- ReadField(text, CarbRatioLabel);
    var correctionFactor :- ReadField(carbRatio.1, CorrectionFactorLabel);
    var targetGlucose :- ReadField(correctionFactor.1, TargetGlucoseLabel);
    if targetGlucose.1 == "}" then Some(Settings(carbRatio.0, correctionFactor.0, targetGlucose.0)) else None
  }

  lemma ReadQuotedField(name: string, v: string, rest: string)
    ensures ReadField(name + Quote(v) + rest, name) == Some((v, rest))
  {
    var s := name + Quote(v) + rest;
    assert s[..|name|] == name && s[|name|] == '"';
    assert s[|name| + 1..] == Escape(v) + "\"" + rest;
    ReadEscapedString(v, rest);
  }

  /** Parsing what was stringified gives back the same record. */
  lemma ParseStringify(settings: Settings)
    ensures Parse(Stringify(settings)) == Some(settings)
  {
    var rest3 := TargetGlucoseLabel + Quote(settings.targetGlucose) + "}";
    var rest2 := CorrectionFactorLabel + Quote(settings.correctionFactor) + rest3;
    ReadQuotedField(CarbRatioLabel, settings.carbRatio, rest2);
    ReadQuotedField(CorrectionFactorLabel, settings.correctionFactor, rest3);
    ReadQuotedField(TargetGlucoseLabel, settings.targetGlucose, "}");
  }
}
