/**
 * The settings half of script.js: the page's settings fields saved to cookies named
 * `insulina_<field id>`, loaded back from `document.cookie`, and cleared.
 */
module Configuracoes {
  import opened Wrappers
  import opened Strings
  import opened Cookies

  /** Marks the cookies that belong to the calculator. */
  const Prefix := "insulina_"

  /** Attributes of a saved setting: kept for one year (31536000 seconds), for the whole site. */
  const SaveAttributes := "; max-age=31536000; path=/"
  const OneYear := 31536000

  /** Attributes that delete a cookie. */
  const DeleteAttributes := "; max-age=0; path=/"

  /** The max-age written in each attribute text is the one the jar is given with it. */
  lemma AttributesMaxAge()
    ensures SaveAttributes == MaxAgeAttributes(OneYear) && MaxAgeOf(SaveAttributes) == Some(OneYear)
    ensures DeleteAttributes == MaxAgeAttributes(0) && MaxAgeOf(DeleteAttributes) == Some(0)
  {
    SaveAttributesText();
    DeleteAttributesText();
    MaxAgeRoundTrip(OneYear);
    MaxAgeRoundTrip(0);
  }

  lemma SaveAttributesText()
    ensures SaveAttributes == MaxAgeAttributes(OneYear)
  {
    var written := "; max-age=" + "31536000" + "; path=/";
    assert written == SaveAttributes;
    DecimalOneYear();
  }

  lemma DeleteAttributesText()
    ensures DeleteAttributes == MaxAgeAttributes(0)
  {
    assert Decimal(0) == "0";
    var written := "; max-age=" + "0" + "; path=/";
    assert written == DeleteAttributes;
  }

  lemma DecimalOneYear()
    ensures Decimal(OneYear) == "31536000"
  {
    DecimalSnoc(3, 1);
    DecimalSnoc(31, 5);
    DecimalSnoc(315, 3);
    DecimalSnoc(3153, 6);
    DecimalSnoc(31536, 0);
    DecimalSnoc(315360, 0);
    DecimalSnoc(3153600, 0);
    assert Decimal(3) == "3";
  }

  /** The ids of the settings fields, in the order salvarConfiguracoes lists them. */
  const SettingsKeys: seq<string> :=
    ["periodoFSI", "fsiManha", "fsiTarde", "fsiNoite", "fsiMadrugada", "razaoCarboidrato", "metaGlicemia"]

  /** The values limparConfiguracoes puts back in the settings fields. */
  const Defaults: map<string, string> :=
    map["periodoFSI" := "manha", "fsiManha" := "", "fsiTarde" := "", "fsiNoite" := "",
        "fsiMadrugada" := "", "razaoCarboidrato" := "", "metaGlicemia" := "100"]

  predicate HasSettingsFields(fields: map<string, string>)
  {
    forall k :: k in SettingsKeys ==> k in fields
  }

  /** A value that survives the trip through a cookie untouched: no ';', no '=', nothing to trim. */
  predicate CookieSafe(v: string)
  {
    ';' !in v && '=' !in v && IsTrimmed(v)
  }

  lemma SettingsCookieNames()
    ensures forall k :: k in SettingsKeys ==> ValidName(Prefix + k)
  {
    forall k | k in SettingsKeys
      ensures ValidName(Prefix + k)
    {
      assert k != [] && ';' !in k && '=' !in k && !IsWhitespace(k[|k| - 1]);
      PrefixedValid(k);
    }
  }

  /** The prefix followed by a key with no ';' or '=' that does not end in white space is a cookie name. */
  lemma PrefixedValid(k: string)
    requires k != [] && ';' !in k && '=' !in k && !IsWhitespace(k[|k| - 1])
    ensures ValidName(Prefix + k)
  {
    var n := Prefix + k;
    assert n[0] == 'i' && n[|n| - 1] == k[|k| - 1];
    assert forall c :: c in n ==> c in Prefix || c in k;
  }

  // ---------------------------------------------------------------- saving

  /** The cookie text salvarConfiguracoes assigns for one setting. */
  function SaveText(key: string, value: string): string
  {
    Prefix + key + "=" + value + SaveAttributes
  }

  /** The cookie texts for the given fields, in order. */
  function SaveTexts(fields: map<string, string>, keys: seq<string>): (texts: seq<string>)
    requires forall k :: k in keys ==> k in fields
    ensures |texts| == |keys|
  {
    if keys == [] then []
    else
      var k := keys[|keys| - 1];
      SaveTexts(fields, keys[..|keys| - 1]) + [SaveText(k, fields[k])]
  }

  /** The cookie values those texts leave in the jar, by cookie name: each field's value up to its first ';', trimmed. */
  function SavedValues(fields: map<string, string>, keys: seq<string>): map<string, string>
    requires forall k :: k in keys ==> k in fields
  {
    if keys == [] then map[]
    else
      var k := keys[|keys| - 1];
      SavedValues(fields, keys[..|keys| - 1])[Prefix + k := Trim(UpTo(fields[k], ';'))]
  }

  lemma PrefixInjective(a: string, b: string)
    ensures Prefix + a == Prefix + b ==> a == b
  {
    assert (Prefix + a)[|Prefix|..] == a && (Prefix + b)[|Prefix|..] == b;
  }

  lemma {:induction false} SavedValuesAt(fields: map<string, string>, keys: seq<string>)
    requires forall k :: k in keys ==> k in fields
    ensures forall m :: m in SavedValues(fields, keys) ==> StartsWith(m, Prefix)
    ensures forall k :: Prefix + k in SavedValues(fields, keys) <==> k in keys
    ensures forall k :: k in keys ==> SavedValues(fields, keys)[Prefix + k] == Trim(UpTo(fields[k], ';'))
  {
    if keys != [] {
      var init := keys[..|keys| - 1];
      var last := keys[|keys| - 1];
      assert keys == init + [last];
      assert forall k :: k in init ==> k in keys;
      SavedValuesAt(fields, init);
      PrefixedName(Prefix + last, last);
      forall k
        ensures Prefix + k in SavedValues(fields, keys) <==> k in keys
        ensures k in keys ==> SavedValues(fields, keys)[Prefix + k] == Trim(UpTo(fields[k], ';'))
      {
        PrefixInjective(k, last);
      }
    }
  }

  /** Saving overwrites or adds exactly the fields' cookies and leaves the rest of the jar as it was. */
  lemma {:induction false} SavedJar(j: Jar, fields: map<string, string>, keys: seq<string>)
    requires forall k :: k in keys ==> k in fields && ValidName(Prefix + k)
    ensures AssignedAll(j, SaveTexts(fields, keys), OneYear).values == j.values + SavedValues(fields, keys)
  {
    if keys != [] {
      var init := keys[..|keys| - 1];
      var k := keys[|keys| - 1];
      assert k in keys;
      assert forall m :: m in init ==> m in keys;
      SavedJar(j, fields, init);
      var before := AssignedAll(j, SaveTexts(fields, init), OneYear);
      AssignedAllLast(j, fields, keys);
      AssignedSaveText(before, k, fields[k]);
      UnionUpdate(j.values, SavedValues(fields, init), Prefix + k, Trim(UpTo(fields[k], ';')));
    }
  }

  /** Saving the fields of `keys` is saving all but the last, then the last. */
  lemma AssignedAllLast(j: Jar, fields: map<string, string>, keys: seq<string>)
    requires keys != [] && forall k :: k in keys ==> k in fields
    ensures var init := keys[..|keys| - 1];
      var k := keys[|keys| - 1];
      AssignedAll(j, SaveTexts(fields, keys), OneYear)
      == Assigned(AssignedAll(j, SaveTexts(fields, init), OneYear), SaveText(k, fields[k]), OneYear)
  {
    var texts := SaveTexts(fields, keys);
    assert texts[..|texts| - 1] == SaveTexts(fields, keys[..|keys| - 1]);
  }

  lemma UnionUpdate(a: map<string, string>, b: map<string, string>, key: string, v: string)
    ensures (a + b)[key := v] == a + b[key := v]
  {
  }

  /** One save text stores the field's value, cut at its first ';' and trimmed, under the prefixed name. */
  lemma AssignedSaveText(j: Jar, key: string, value: string)
    requires ValidName(Prefix + key)
    ensures Assigned(j, SaveText(key, value), OneYear).values == j.values[Prefix + key := Trim(UpTo(value, ';'))]
  {
    ParsePair(SaveText(key, value), Prefix + key, value, SaveAttributes);
    AssignedStores(j, SaveText(key, value), OneYear, Cookie(Prefix + key, Trim(UpTo(value, ';'))));
  }

  /** One more field saved: the jar after the first `i + 1` texts is the jar after `i` texts with the next one assigned. */
  lemma SaveStep(j: Jar, before: Jar, after: Jar, fields: map<string, string>, i: nat)
    requires HasSettingsFields(fields) && i < |SettingsKeys|
    requires before == AssignedAll(j, SaveTexts(fields, SettingsKeys[..i]), OneYear)
    requires after == Assigned(before, SaveText(SettingsKeys[i], fields[SettingsKeys[i]]), OneYear)
    ensures after == AssignedAll(j, SaveTexts(fields, SettingsKeys[..i + 1]), OneYear)
  {
    var done, key := SettingsKeys[..i + 1], SettingsKeys[i];
    assert done[..i] == SettingsKeys[..i] && done[i] == key;
    var earlier := SaveTexts(fields, SettingsKeys[..i]);
    var texts := SaveTexts(fields, done);
    assert texts == earlier + [SaveText(key, fields[key])];
    assert texts[..i] == earlier;
  }

  // ---------------------------------------------------------------- loading

  /** One piece of `document.cookie` as carregarConfiguracoes reads it: trimmed, split on '=', the first two parts kept. */
  function ParsePiece(piece: string): (string, Option<string>)
  {
    var parts := Split(Trim(piece), '=');
    (parts[0], if |parts| > 1 then Some(parts[1]) else None)
  }

  /** The setting a cookie name carries: the name without its prefix. */
  function SettingOf(name: string): string
    requires StartsWith(name, Prefix)
  {
    name[|Prefix|..]
  }

  /** Each piece of `document.cookie` as carregarConfiguracoes reads it. */
  function Parsed(pieces: seq<string>): (parsed: seq<(string, Option<string>)>)
    ensures |parsed| == |pieces|
    ensures forall i :: 0 <= i < |pieces| ==> parsed[i] == ParsePiece(pieces[i])
  {
    seq(|pieces|, i requires 0 <= i < |pieces| => ParsePiece(pieces[i]))
  }

  /**
   * The object carregarConfiguracoes fills from the read pieces: for every name that starts
   * with the prefix, the name without the prefix mapped to the value (missing when the
   * piece has no '='); a later piece overrides an earlier one.
   */
  function Gather(parsed: seq<(string, Option<string>)>): map<string, Option<string>>
  {
    if parsed == [] then map[]
    else
      var config := Gather(parsed[..|parsed| - 1]);
      var (nome, valor) := parsed[|parsed| - 1];
      if StartsWith(nome, Prefix) then config[SettingOf(nome) := valor] else config
  }

  /** The object carregarConfiguracoes fills from the pieces of `document.cookie`. */
  function Collect(pieces: seq<string>): map<string, Option<string>>
  {
    Gather(Parsed(pieces))
  }

  /** The settings carregarConfiguracoes reads from a `document.cookie` text. */
  function ParseConfig(header: string): map<string, Option<string>>
  {
    Collect(Split(header, ';'))
  }

  lemma PrefixedName(name: string, k: string)
    ensures (StartsWith(name, Prefix) && SettingOf(name) == k) <==> name == Prefix + k
  {
    if name == Prefix + k {
      assert name[..|Prefix|] == Prefix && name[|Prefix|..] == k;
    }
    if StartsWith(name, Prefix) {
      assert name == name[..|Prefix|] + name[|Prefix|..];
    }
  }

  /** The settings stored in a jar, by setting name: the value of each `insulina_` cookie up to its first '='. */
  function StoredConfig(values: map<string, string>): map<string, Option<string>>
  {
    map k | k in (set n | n in values && StartsWith(n, Prefix) :: SettingOf(n)) && Prefix + k in values
      :: Some(UpTo(values[Prefix + k], '='))
  }

  lemma StoredConfigAt(values: map<string, string>, k: string)
    ensures k in StoredConfig(values) <==> Prefix + k in values
  {
    PrefixedName(Prefix + k, k);
  }

  /** How carregarConfiguracoes reads the i-th cookie of the jar: its own name and its value up to the first '='. */
  lemma ParseJarPiece(j: Jar, i: nat)
    requires Valid(j) && i < |j.order|
    ensures ParsePiece(Piece(j, i)) == (j.order[i], Some(UpTo(j.values[j.order[i]], '=')))
  {
    var n := j.order[i];
    assert n in j.order;
    var v := j.values[n];
    assert WellFormed(Cookie(n, v));
    var s := n + "=" + v;
    assert Trim(Piece(j, i)) == s by {
      PairTrimmed(n, v);
      if i > 0 {
        assert Piece(j, i) == [' '] + s;
        TrimLeadingSpace(s);
      } else {
        assert Piece(j, i) == s;
      }
    }
    ParsePieceOf(Piece(j, i), n, v);
  }

  lemma ParsePieceOf(piece: string, n: string, v: string)
    requires Trim(piece) == n + "=" + v && '=' !in n
    ensures ParsePiece(piece) == (n, Some(UpTo(v, '=')))
  {
    PieceParts(n, v);
  }

  /** A name and a trimmed value joined by '=' need no trimming. */
  lemma PairTrimmed(n: string, v: string)
    requires ValidName(n) && IsTrimmed(v)
    ensures IsTrimmed(n + "=" + v)
  {
    var s := n + "=" + v;
    assert s[0] == n[0];
    if v != [] { assert s[|s| - 1] == v[|v| - 1]; }
  }

  /** Split on '=', a pair gives the name first and the value up to its first '=' second. */
  lemma PieceParts(n: string, v: string)
    requires '=' !in n
    ensures var parts := Split(n + "=" + v, '=');
      |parts| > 1 && parts[0] == n && parts[1] == UpTo(v, '=')
  {
    assert n + "=" + v == n + ['='] + v;
    SplitAfter(n, '=', v);
    SplitFirst(v, '=');
  }

  /** The settings a list of cookie names carries, read as carregarConfiguracoes reads them. */
  function NamedConfig(names: seq<string>, values: map<string, string>): map<string, Option<string>>
    requires forall n :: n in names ==> n in values
  {
    if names == [] then map[]
    else
      var config := NamedConfig(names[..|names| - 1], values);
      var name := names[|names| - 1];
      if StartsWith(name, Prefix) then config[SettingOf(name) := Some(UpTo(values[name], '='))] else config
  }

  /** Pieces that read as the given names and their values gather into the settings those names carry. */
  lemma {:induction false} GatherNamed(parsed: seq<(string, Option<string>)>, names: seq<string>, values: map<string, string>)
    requires |parsed| == |names|
    requires forall n :: n in names ==> n in values
    requires forall i :: 0 <= i < |parsed| ==> parsed[i] == (names[i], Some(UpTo(values[names[i]], '=')))
    ensures Gather(parsed) == NamedConfig(names, values)
  {
    if parsed != [] {
      var m := |parsed| - 1;
      assert forall n :: n in names[..m] ==> n in names;
      GatherNamed(parsed[..m], names[..m], values);
    }
  }

  /** Every cookie of the jar reads as its own name and its value up to the first '='. */
  lemma JarPieces(j: Jar)
    requires Valid(j)
    ensures forall n :: n in j.order ==> n in j.values
    ensures forall i :: 0 <= i < |Pieces(j)| ==>
      ParsePiece(Pieces(j)[i]) == (j.order[i], Some(UpTo(j.values[j.order[i]], '=')))
  {
    forall i | 0 <= i < |Pieces(j)|
      ensures ParsePiece(Pieces(j)[i]) == (j.order[i], Some(UpTo(j.values[j.order[i]], '=')))
    {
      ParseJarPiece(j, i);
    }
  }

  lemma {:induction false} NamedConfigAt(names: seq<string>, values: map<string, string>)
    requires forall n :: n in names ==> n in values
    ensures forall k :: k in NamedConfig(names, values) <==> Prefix + k in names
    ensures forall k :: k in NamedConfig(names, values) ==> NamedConfig(names, values)[k] == Some(UpTo(values[Prefix + k], '='))
  {
    if names != [] {
      var init := names[..|names| - 1];
      var name := names[|names| - 1];
      assert names == init + [name];
      assert forall n :: n in init ==> n in names;
      NamedConfigAt(init, values);
      forall k
        ensures k in NamedConfig(names, values) <==> Prefix + k in names
        ensures k in NamedConfig(names, values) ==> NamedConfig(names, values)[k] == Some(UpTo(values[Prefix + k], '='))
      {
        PrefixedName(name, k);
      }
    }
  }

  /** A map that holds, for every `insulina_` cookie, the cookie's value up to its first '=' is the stored configuration. */
  lemma StoredConfigUnique(config: map<string, Option<string>>, values: map<string, string>)
    requires forall k :: k in config <==> Prefix + k in values
    requires forall k :: k in config ==> Prefix + k in values && config[k] == Some(UpTo(values[Prefix + k], '='))
    ensures config == StoredConfig(values)
  {
    forall k
      ensures k in config <==> k in StoredConfig(values)
    {
      StoredConfigAt(values, k);
    }
  }

  /** An empty jar reads as "", which holds no settings. */
  lemma EmptyHeader()
    ensures ParseConfig("") == map[]
  {
    assert Split("", ';') == [""];
    assert Split("", '=') == [""];
    assert Parsed([""]) == [ParsePiece("")];
  }

  /** Loading reads back exactly the settings the jar stores: the `insulina_` cookies, prefix removed. */
  lemma ReadBack(j: Jar)
    requires Valid(j)
    ensures ParseConfig(Header(j)) == StoredConfig(j.values)
  {
    if j.order == [] {
      assert j.values == map[];
      EmptyHeader();
      StoredConfigUnique(map[], j.values);
    } else {
      HeaderSplit(j);
      JarPieces(j);
      GatherNamed(Parsed(Pieces(j)), j.order, j.values);
      NamedConfigAt(j.order, j.values);
      StoredConfigUnique(NamedConfig(j.order, j.values), j.values);
    }
  }

  /** The fields after carregarConfiguracoes copies the loaded values in: only a value that is present and not empty is copied, into a field that exists. */
  function Filled(fields: map<string, string>, config: map<string, Option<string>>): map<string, string>
  {
    map k | k in fields :: if k in config && config[k].Some? && config[k].value != "" then config[k].value else fields[k]
  }

  lemma FilledUnique(result: map<string, string>, fields: map<string, string>, config: map<string, Option<string>>)
    requires result.Keys == fields.Keys
    requires forall k :: k in result ==>
      result[k] == if k in config && config[k].Some? && config[k].value != "" then config[k].value else fields[k]
    ensures result == Filled(fields, config)
  {
  }

  /** The settings salvarConfiguracoes writes, as carregarConfiguracoes would return them. */
  function SavedConfig(fields: map<string, string>): map<string, Option<string>>
    requires HasSettingsFields(fields)
  {
    map k | k in SettingsKeys :: Some(fields[k])
  }

  /**
   * Loading after saving returns the saved settings, over whatever other `insulina_`
   * cookies the jar already held, when no saved value holds ';' or '=' or surrounding space.
   */
  lemma SaveThenLoad(j: Jar, fields: map<string, string>)
    requires Valid(j) && HasSettingsFields(fields)
    requires forall k :: k in SettingsKeys ==> CookieSafe(fields[k])
    ensures ParseConfig(Header(AssignedAll(j, SaveTexts(fields, SettingsKeys), OneYear)))
         == StoredConfig(j.values) + SavedConfig(fields)
  {
    var r := AssignedAll(j, SaveTexts(fields, SettingsKeys), OneYear);
    SettingsCookieNames();
    SavedJar(j, fields, SettingsKeys);
    ReadBack(r);
    StoredAfterSave(j.values, fields);
  }

  /** The stored settings after saving: the saved fields over the settings stored before. */
  lemma StoredAfterSave(values: map<string, string>, fields: map<string, string>)
    requires HasSettingsFields(fields)
    requires forall k :: k in SettingsKeys ==> CookieSafe(fields[k])
    ensures StoredConfig(values + SavedValues(fields, SettingsKeys)) == StoredConfig(values) + SavedConfig(fields)
  {
    var after := values + SavedValues(fields, SettingsKeys);
    SavedValuesAt(fields, SettingsKeys);
    var config := StoredConfig(values) + SavedConfig(fields);
    forall k
      ensures k in config <==> Prefix + k in after
      ensures k in config ==> Prefix + k in after && config[k] == Some(UpTo(after[Prefix + k], '='))
    {
      StoredConfigAt(values, k);
    }
    StoredConfigUnique(config, after);
  }

  // ---------------------------------------------------------------- clearing

  /** The name limparConfiguracoes takes from one piece of `document.cookie`: the text before its first '=', trimmed. */
  function ClearName(piece: string): string
  {
    Trim(Split(piece, '=')[0])
  }

  /** The cookie names limparConfiguracoes deletes while going through the pieces. */
  function DeletedBy(pieces: seq<string>): set<string>
  {
    set p | p in pieces && StartsWith(ClearName(p), Prefix) :: ClearName(p)
  }

  function PrefixedNames(values: map<string, string>): set<string>
  {
    set n | n in values && StartsWith(n, Prefix)
  }

  /** The jar after clearing: every `insulina_` cookie gone, every other cookie kept with its value. */
  function Cleared(j: Jar): (r: Jar)
    requires Valid(j)
    ensures Valid(r)
    ensures forall n :: n in r.values <==> n in j.values && !StartsWith(n, Prefix)
    ensures forall n :: n in r.values ==> r.values[n] == j.values[n]
  {
    Removed(j, PrefixedNames(j.values))
  }

  lemma ClearJarPiece(j: Jar, i: nat)
    requires Valid(j) && i < |j.order|
    ensures ClearName(Piece(j, i)) == j.order[i]
  {
    var n := j.order[i];
    assert n in j.order;
    var v := j.values[n];
    assert WellFormed(Cookie(n, v));
    var lead := if i == 0 then "" else " ";
    assert Piece(j, i) == lead + n + ['='] + v;
    SplitAfter(lead + n, '=', v);
    if i > 0 {
      TrimLeadingSpace(n);
      assert lead + n == [' '] + n;
    } else {
      assert lead + n == n;
    }
  }

  /** Going through the pieces of `document.cookie` deletes exactly the jar's `insulina_` cookies. */
  lemma ClearNames(j: Jar)
    requires Valid(j)
    ensures DeletedBy(Split(Header(j), ';')) == PrefixedNames(j.values)
  {
    if j.order == [] {
      assert j.values == map[];
      assert Split("", ';') == [""];
      assert ClearName("") == "";
    } else {
      HeaderSplit(j);
      forall n
        ensures n in DeletedBy(Pieces(j)) <==> n in PrefixedNames(j.values)
      {
        if n in DeletedBy(Pieces(j)) {
          DeletedIsPrefixed(j, n);
        }
        if n in PrefixedNames(j.values) {
          PrefixedIsDeleted(j, n);
        }
      }
    }
  }

  /** A name the clearing loop deletes is one of the jar's `insulina_` cookies. */
  lemma DeletedIsPrefixed(j: Jar, n: string)
    requires Valid(j) && n in DeletedBy(Pieces(j))
    ensures n in PrefixedNames(j.values)
  {
    var ps := Pieces(j);
    var p :| p in ps && StartsWith(ClearName(p), Prefix) && ClearName(p) == n;
    var i :| 0 <= i < |ps| && ps[i] == p;
    ClearJarPiece(j, i);
    assert j.order[i] in j.order;
  }

  /** Every `insulina_` cookie of the jar is deleted by the clearing loop. */
  lemma PrefixedIsDeleted(j: Jar, n: string)
    requires Valid(j) && n in PrefixedNames(j.values)
    ensures n in DeletedBy(Pieces(j))
  {
    var ps := Pieces(j);
    assert n in j.order;
    var i :| 0 <= i < |j.order| && j.order[i] == n;
    ClearJarPiece(j, i);
    assert ps[i] in ps;
  }

  /** A cleared jar holds no settings, so loading from it finds none and changes no field. */
  lemma ClearThenLoad(j: Jar, fields: map<string, string>)
    requires Valid(j)
    ensures ParseConfig(Header(Cleared(j))) == map[]
    ensures Filled(fields, ParseConfig(Header(Cleared(j)))) == fields
  {
    var r := Cleared(j);
    ReadBack(r);
    NothingStored(r.values);
    FilledNothing(fields);
  }

  lemma FilledNothing(fields: map<string, string>)
    ensures Filled(fields, map[]) == fields
  {
  }

  /** Without `insulina_` cookies there are no stored settings. */
  lemma NothingStored(values: map<string, string>)
    requires forall n :: n in values ==> !StartsWith(n, Prefix)
    ensures StoredConfig(values) == map[]
  {
    forall k
      ensures k !in StoredConfig(values)
    {
      StoredConfigAt(values, k);
      assert (Prefix + k)[..|Prefix|] == Prefix;
    }
  }

  // ---------------------------------------------------------------- the page

  /** The page's value-holding elements by id: the settings fields and the dose inputs. */
  class Page {
    var fields: map<string, string>

    /** salvarConfiguracoes: one cookie `insulina_<id>=<value>` per settings field, in field order. */
    method SalvarConfiguracoes(jar: CookieJar)
      requires HasSettingsFields(fields)
      modifies jar
      ensures jar.State() == AssignedAll(old(jar.State()), SaveTexts(fields, SettingsKeys), OneYear)
    {
      for i := 0 to |SettingsKeys|
        invariant jar.State() == AssignedAll(old(jar.State()), SaveTexts(fields, SettingsKeys[..i]), OneYear)
      {
        var key := SettingsKeys[i];
        ghost var before := jar.State();
        jar.Assign(Prefix + key + "=" + fields[key] + SaveAttributes, OneYear);
        SaveStep(old(jar.State()), before, jar.State(), fields, i);
      }
      assert SettingsKeys[..|SettingsKeys|] == SettingsKeys;
    }

    /** carregarConfiguracoes: read the settings from `document.cookie`, then copy each present, non-empty one into its field. */
    method CarregarConfiguracoes(jar: CookieJar)
      requires Valid(jar.State())
      modifies this
      ensures fields == Filled(old(fields), ParseConfig(jar.Read()))
    {
      var config := ReadConfig(Split(jar.Read(), ';'));
      FillFields(config);
    }

    /** The second loop of carregarConfiguracoes: each present, non-empty setting goes into the field with its id, when there is one. */
    method FillFields(config: map<string, Option<string>>)
      modifies this
      ensures fields == Filled(old(fields), config)
    {
      var pending := config.Keys;
      while pending != {}
        invariant pending <= config.Keys
        invariant fields.Keys == old(fields).Keys
        invariant forall k :: k in fields ==>
          fields[k] == if k in config && k !in pending && config[k].Some? && config[k].value != "" then config[k].value else old(fields)[k]
        decreases pending
      {
        var campo :| campo in pending;
        var valor := config[campo];
        if campo in fields && valor.Some? && valor.value != "" {
          fields := fields[campo := valor.value];
        }
        pending := pending - {campo};
      }
      FilledUnique(fields, old(fields), config);
    }

    /** limparConfiguracoes, once the user has confirmed: delete every `insulina_` cookie and put the defaults back in the fields. */
    method LimparConfiguracoes(jar: CookieJar, confirmado: bool)
      requires Valid(jar.State()) && HasSettingsFields(fields)
      modifies this, jar
      ensures confirmado ==> jar.State() == Cleared(old(jar.State())) && fields == old(fields) + Defaults
      ensures !confirmado ==> jar.State() == old(jar.State()) && fields == old(fields)
    {
      if confirmado {
        DeleteSettingsCookies(jar);
        ResetFields(fields);
        fields := fields["periodoFSI" := "manha"];
        fields := fields["fsiManha" := ""];
        fields := fields["fsiTarde" := ""];
        fields := fields["fsiNoite" := ""];
        fields := fields["fsiMadrugada" := ""];
        fields := fields["razaoCarboidrato" := ""];
        fields := fields["metaGlicemia" := "100"];
      }
    }
  }

  /** The loop of limparConfiguracoes: every piece of `document.cookie` whose trimmed name starts with the prefix is assigned again with max-age 0. */
  method DeleteSettingsCookies(jar: CookieJar)
    requires Valid(jar.State())
    modifies jar
    ensures jar.State() == Cleared(old(jar.State()))
  {
    ClearNames(jar.State());
    var cookies := Split(jar.Read(), ';');
    DeletePieces(jar, cookies);
  }

  /** The deletions for each piece in turn; what they remove is the set of prefixed names the pieces carry. */
  method DeletePieces(jar: CookieJar, cookies: seq<string>)
    requires forall p :: p in cookies ==> ';' !in p
    modifies jar
    ensures jar.State() == Removed(old(jar.State()), DeletedBy(cookies))
  {
    ghost var j0 := jar.State();
    assert DeletedBy(cookies[..0]) == {};
    RemovedNothing(j0);
    for i := 0 to |cookies|
      invariant jar.State() == Removed(j0, DeletedBy(cookies[..i]))
    {
      var nome := ClearName(cookies[i]);
      DeleteStep(j0, cookies, i);
      if StartsWith(nome, Prefix) {
        assert cookies[i] in cookies;
        ClearNameValid(cookies[i]);
        DeleteText(jar.State(), nome, DeleteAttributes);
        jar.Assign(nome + "=" + DeleteAttributes, 0);
      }
    }
    assert cookies[..|cookies|] == cookies;
  }

  /** One more piece of the loop in DeleteSettingsCookies deletes at most its own name. */
  lemma DeleteStep(j0: Jar, cookies: seq<string>, i: nat)
    requires i < |cookies|
    ensures var nome := ClearName(cookies[i]);
      Removed(j0, DeletedBy(cookies[..i + 1]))
      == if StartsWith(nome, Prefix) then Removed(Removed(j0, DeletedBy(cookies[..i])), {nome})
         else Removed(j0, DeletedBy(cookies[..i]))
  {
    var nome := ClearName(cookies[i]);
    var before := DeletedBy(cookies[..i]);
    var after := DeletedBy(cookies[..i + 1]);
    DeletedByStep(cookies, i);
    if StartsWith(nome, Prefix) {
      assert after == before + {nome};
      RemovedTwice(j0, before, {nome});
    } else {
      assert after == before;
    }
  }

  /** The text limparConfiguracoes assigns deletes the cookie it names. */
  lemma DeleteText(j: Jar, name: string, attributes: string)
    requires ValidName(name) && attributes != [] && attributes[0] == ';'
    ensures Assigned(j, name + "=" + attributes, 0) == Removed(j, {name})
  {
    EmptyValue(name, attributes);
    AssignedDeletes(j, name + "=" + attributes, 0, Cookie(name, ""));
  }

  lemma EmptyValue(name: string, attributes: string)
    requires ValidName(name) && attributes != [] && attributes[0] == ';'
    ensures ParseCookie(name + "=" + attributes) == Some(Cookie(name, ""))
  {
    var text := name + "=" + attributes;
    assert text == name + "=" + "" + attributes;
    ParsePair(text, name, "", attributes);
  }

  lemma DeletedByStep(cookies: seq<string>, i: nat)
    requires i < |cookies|
    ensures var nome := ClearName(cookies[i]);
      DeletedBy(cookies[..i + 1]) == DeletedBy(cookies[..i]) + (if StartsWith(nome, Prefix) then {nome} else {})
  {
    assert cookies[..i + 1] == cookies[..i] + [cookies[i]];
  }

  lemma ResetFields(f: map<string, string>)
    ensures f["periodoFSI" := "manha"]["fsiManha" := ""]["fsiTarde" := ""]["fsiNoite" := ""]
             ["fsiMadrugada" := ""]["razaoCarboidrato" := ""]["metaGlicemia" := "100"] == f + Defaults
  {
  }

  /** A prefixed name taken from a piece without ';' is one a cookie can carry. */
  lemma ClearNameValid(piece: string)
    requires ';' !in piece && StartsWith(ClearName(piece), Prefix)
    ensures ValidName(ClearName(piece))
  {
    var first := Split(piece, '=')[0];
    assert first in Split(piece, '=');
    SplitFirst(piece, '=');
    TrimWithout(first, ';');
    TrimWithout(first, '=');
  }

  lemma GatherStep(cookies: seq<string>, i: nat)
    requires i < |cookies|
    ensures var (nome, valor) := ParsePiece(cookies[i]);
      Gather(Parsed(cookies[..i + 1])) ==
        if StartsWith(nome, Prefix) then Gather(Parsed(cookies[..i]))[SettingOf(nome) := valor]
        else Gather(Parsed(cookies[..i]))
  {
    assert Parsed(cookies[..i + 1])[..i] == Parsed(cookies[..i]);
  }

  /** The loop of carregarConfiguracoes over the pieces of `document.cookie`. */
  method ReadConfig(cookies: seq<string>) returns (config: map<string, Option<string>>)
    ensures config == Collect(cookies)
  {
    config := map[];
    for i := 0 to |cookies|
      invariant config == Gather(Parsed(cookies[..i]))
    {
      var parts := Split(Trim(cookies[i]), '=');
      var nome := parts[0];
      var valor := if |parts| > 1 then Some(parts[1]) else None;
      if StartsWith(nome, Prefix) {
        config := config[nome[|Prefix|..] := valor];
      }
      GatherStep(cookies, i);
    }
    assert cookies[..|cookies|] == cookies;
  }
}
