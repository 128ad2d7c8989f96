# InsuCalc in Dafny

A model of the two insulin-dose calculators of the InsuCalc repository and of the
way each keeps its settings in the browser.

- **The four-period calculator** (`script.js`). `calcularInsulina` picks the
  correction factor (FSI) of the selected period of the day, validates the four
  required values in two stages, and computes a correction dose clamped at zero, a
  carbohydrate dose that is zero without a positive amount of carbohydrates, and
  their sum. Its settings live in cookies named `insulina_<field id>`.
  `salvarConfiguracoes` writes one cookie per settings field,
  `carregarConfiguracoes` parses `document.cookie` back into the fields, and
  `limparConfiguracoes` deletes the `insulina_` cookies and resets the fields.
- **The single-factor calculator** (`InsuCalc/script.js`). `calculateInsulin`
  checks only the current glucose and the carbohydrates, divides by settings it
  never validates, and clamps only the total. `saveSettings` and `loadSettings`
  keep the three settings as one JSON item of `localStorage`. The language
  preference is a second item that defaults to `'pt'`.

Modules:

| module | file | what it holds |
|---|---|---|
| `Wrappers` | wrappers.dfy | `Option` and `Result` |
| `Strings` | strings.dfy | JavaScript `trim`, `indexOf`, `split`, `startsWith` on `seq<char>` |
| `JsNumbers` | js_numbers.dfy | JavaScript numbers: finite reals, the two infinities and NaN, with `+`, `-`, `/`, `Math.max(0, x)` and falsiness |
| `Cookies` | cookies.dfy | the browser's cookie jar behind `document.cookie`: parsing an assignment (section 5.2 of RFC 6265) and serialising the jar (section 5.4 of RFC 6265) |
| `Configuracoes` | configuracoes.dfy | cookie save, load and clear of `script.js`, as a `Page` class over the jar |
| `Calculadora` | calculadora.dfy | `calcularInsulina` and the period-to-field-id derivation |
| `InsuCalcDose` | insucalc_dose.dfy | `calculateInsulin` |
| `SettingsJson` | settings_json.dfy | `JSON.stringify` of the settings record and the reading of that text back |
| `InsuCalcSettings` | insucalc_settings.dfy | `localStorage`, `saveSettings`, `loadSettings`, `setLanguage` and the start-up language |
| `Variants` | variants.dfy | the two calculators compared |

`parseFloat` results are `Option<real>`, with `None` standing for NaN. So the
JavaScript test `!x` is "NaN or zero" (`JsNumbers.Falsy`). The four-period
calculator never divides by an unchecked value, so its doses are plain reals. The
single-factor calculator can divide by NaN or zero, so its doses are `JsNumbers.Num`
values. The model states which inputs produce NaN or an infinity (a missing setting, a zero carbohydrate ratio, a zero correction factor), and does not
assume positive settings.

The two calculators differ in ways the model keeps as the code has them:

- `calculateInsulin` rejects zero carbohydrates (`!carbs`), while
  `calcularInsulina` accepts them and gives a zero carbohydrate dose.
- `calculateInsulin` validates none of the three settings. A missing ratio gives
  a NaN dose, not an error.
- `calculateInsulin` does not clamp the correction dose. Below the target it is
  negative and reduces the total.
- In `calcularInsulina`, the second check (`<= 0`) can only be failed by negative
  values, because zero has already been rejected as falsy by the first check.

## Model

| member | source | states |
|---|---|---|
| Calculadora.FsiFieldId | script.js:176-178 | the factor field id is "fsi" followed by the period, first character upper-cased, rest unchanged |
| Calculadora.ToUpper | script.js:178 | definition: `toUpperCase` on the first character: an ASCII lower-case letter becomes its capital, any other character stays |
| Calculadora.FsiFieldIdInjective | script.js:178 | two periods not starting with a capital never map to the same field id |
| Calculadora.PeriodFields | script.js:42 | manha, tarde, noite, madrugada give fsiManha, fsiTarde, fsiNoite, fsiMadrugada, the settings fields |
| Calculadora.PeriodHasField | script.js:178-179 | a period not starting with a capital has a factor field among the settings exactly when it is one of the four select values |
| Calculadora.DoseCorrecao | script.js:204-211 | the correction dose is never negative, is zero exactly when the glucose is at or below the target, and otherwise times FSI gives glucose minus target |
| Calculadora.DoseCarboidratos | script.js:215-218 | the carbohydrate dose is positive exactly when carbohydrates are present and positive, is then carbs / ratio, and is zero otherwise |
| Calculadora.Calcular | script.js:190-221 | stops for missing values exactly when one of the four is NaN or zero, and for non-positive values exactly when none is missing but one is negative; gives doses exactly when all four are present and positive; the total is the sum of the two doses and is never negative |
| Calculadora.Campo | script.js:179-186 | definition: reading a field succeeds exactly when the element exists, else fails naming it |
| Calculadora.CalcularInsulina | script.js:173-186 | the calculation stops for a missing element exactly when the period select, the factor field it picks, the ratio, target, glucose or carbohydrate field is missing, and names an id that is missing (the select or the factor field when those are absent); with every element present the result is the calculation on the parsed field values |
| Calculadora.HasCalcFields | script.js:173-186 | definition: the period select, the factor field its value picks, and the ratio, target, glucose and carbohydrate fields all exist |
| Calculadora.PageAlwaysHasFactorField | script.js:178-179 | a page with the settings fields and a period from the select never stops for a missing element |
| Calculadora.ExampleAboveTarget | script.js:204-221 | 180 mg/dL, target 100, FSI 50, 60 g at 15 g/U give 1.6 + 4.0 = 5.6 U |
| Calculadora.ExampleBelowTarget | script.js:204-221 | 90 mg/dL below target 100 gives no correction; the total is the 4.0 U carbohydrate dose |
| Calculadora.ExampleNoCarbs | script.js:215-221 | 90 mg/dL, target 100, 0 g give 0, 0 and 0 U |
| Calculadora.ExampleMissingRatio | script.js:190-193 | an empty ratio (NaN) stops the calculation at the presence check |
| Configuracoes.SettingsCookieNames | script.js:76 | every `insulina_<field id>` is a cookie name the browser accepts unchanged |
| Configuracoes.PrefixedValid | script.js:76 | the prefix followed by an id without ';' or '=' and not ending in white space is a valid cookie name |
| Configuracoes.SaveText | script.js:76 | the text assigned for one field: `insulina_<id>=<value>; max-age=31536000; path=/` |
| Configuracoes.AttributesMaxAge | script.js:76 | the attribute texts for saving (here) and deleting (script.js:137) are the ones written for max-age 31536000 and 0, and read back as those max-ages |
| Configuracoes.SaveTexts | script.js:75-77 | definition: one such text per settings field, in field order; `Page.SalvarConfiguracoes` assigns them in turn |
| Configuracoes.SavedValues | script.js:75-77 | the cookie values those texts leave, by cookie name; `SavedValuesAt` states what it holds |
| Configuracoes.SavedValuesAt | script.js:75-77 | the saved cookies are exactly the prefixed field ids, each holding its field's value cut at ';' and trimmed |
| Configuracoes.SavedJar | script.js:75-77 | after saving, the jar holds the saved cookies over its earlier content, and every other cookie is unchanged |
| Configuracoes.AssignedSaveText | script.js:76 | one assigned text stores the field's value under `insulina_<id>` |
| Configuracoes.AssignedAllLast | script.js:75-77 | saving the fields of a list is saving all but the last, then the last |
| Configuracoes.SaveStep | script.js:75-77 | one more pass of the save loop assigns the next field's text to the jar the earlier passes left |
| Configuracoes.ParsePiece | script.js:102 | one piece trimmed and split on '=': the first part is the name, the second (absent when there is no '=') the value |
| Configuracoes.SettingOf | script.js:105 | definition: `nome.replace('insulina_', '')` on a name that starts with the prefix, which removes that leading prefix |
| Configuracoes.Parsed | script.js:101-102 | definition: each piece of `document.cookie` is read on its own as trimmed and split on '=' |
| Configuracoes.Gather | script.js:101-107 | the settings object the forEach fills: every name starting with `insulina_`, prefix removed, mapped to its value, a later piece overriding an earlier one |
| Configuracoes.Collect | script.js:97-107 | the settings object built from the pieces of `document.cookie` |
| Configuracoes.ParseConfig | script.js:97-107 | the settings object built from a `document.cookie` text split on ';'; `ReadBack` states what it gives for a jar |
| Configuracoes.PieceParts | script.js:102 | splitting `name=value` on '=' gives the name and then the value up to its first '=' |
| Configuracoes.ParsePieceOf | script.js:102 | a piece that trims to `name=value` reads as that name and the value up to its first '=' |
| Configuracoes.ParseJarPiece | script.js:97-102 | every cookie of the jar, as `document.cookie` shows it, reads back as its own name and value up to the first '=' |
| Configuracoes.JarPieces | script.js:97-102 | the same for all cookies of the jar at once |
| Configuracoes.GatherNamed | script.js:101-107 | pieces that read as given names gather into the settings those names carry, later ones overriding earlier |
| Configuracoes.NamedConfigAt | script.js:103-106 | a setting is gathered exactly when its prefixed name is among the cookies, with that cookie's value |
| Configuracoes.StoredConfigAt | script.js:103-106 | a setting is stored exactly when the jar holds its prefixed cookie |
| Configuracoes.StoredConfig | script.js:97-108 | definition: the reference the loading is stated against: each `insulina_` cookie of the jar, prefix removed, with its value up to the first '=' |
| Configuracoes.StoredConfigUnique | script.js:103-106 | any map with those settings and values is the stored configuration |
| Configuracoes.EmptyHeader | script.js:97-102 | an empty `document.cookie` loads no setting |
| Configuracoes.ReadBack | script.js:97-108 | loading gives exactly the `insulina_` cookies of the jar, prefix removed, each value up to its first '=' |
| Configuracoes.GatherStep | script.js:101-107 | one more piece adds or overrides at most the setting it names |
| Configuracoes.ReadConfig | script.js:97-108 | the forEach loop builds exactly the gathered settings |
| Configuracoes.FilledUnique | script.js:111-116 | the fields after copying are determined by the old fields and the loaded settings |
| Configuracoes.Filled | script.js:111-116 | the fields after copying: a field takes the loaded value when that value is present and not empty, and keeps its own otherwise; no field is added |
| Configuracoes.SaveThenLoad | script.js:75-108 | loading after saving gives every saved field's value back, over the `insulina_` cookies already there, when values hold no ';' or '=' and no surrounding space |
| Configuracoes.SavedConfig | script.js:58-77 | definition: the settings a save writes, each settings field id mapped to its value |
| Configuracoes.StoredAfterSave | script.js:75-108 | the stored settings after saving are the saved fields over the settings stored before |
| Configuracoes.Cleared | script.js:130-139 | the cleared jar is valid, keeps exactly the cookies whose name does not start with `insulina_`, with their values |
| Configuracoes.ClearName | script.js:134 | the name taken from one piece: the text before its first '=', trimmed |
| Configuracoes.DeletedBy | script.js:133-136 | the names the loop deletes: those taken from the pieces that start with `insulina_`; `ClearNames` states which they are for a jar |
| Configuracoes.ClearJarPiece | script.js:134 | the name clearing takes from a cookie's piece is that cookie's name |
| Configuracoes.ClearNames | script.js:130-136 | going through the pieces selects exactly the jar's `insulina_` cookies |
| Configuracoes.DeletedIsPrefixed | script.js:133-136 | every name the loop deletes is one of the jar's `insulina_` cookies |
| Configuracoes.PrefixedIsDeleted | script.js:133-136 | every `insulina_` cookie of the jar is deleted by the loop |
| Configuracoes.ClearNameValid | script.js:134-137 | a selected name is one the deleting assignment can address |
| Configuracoes.DeleteText | script.js:137 | the text `<name>=; max-age=0; path=/` deletes exactly the named cookie |
| Configuracoes.EmptyValue | script.js:137 | that text parses as the named cookie with an empty value |
| Configuracoes.DeletedByStep | script.js:133-136 | one more piece adds at most its own prefixed name to the names deleted |
| Configuracoes.DeleteStep | script.js:133-139 | one more piece deletes at most its own prefixed name from the jar |
| Configuracoes.DeletePieces | script.js:133-139 | the forEach loop deletes exactly the prefixed names the pieces carry |
| Configuracoes.DeleteSettingsCookies | script.js:130-139 | the deleting loop leaves the cleared jar |
| Configuracoes.ClearThenLoad | script.js:97-139 | after clearing, loading finds no setting and changes no field |
| Configuracoes.NothingStored | script.js:103 | a jar without `insulina_` cookies stores no setting |
| Configuracoes.ResetFields | script.js:142-148 | the seven assignments put the defaults in the settings fields and touch nothing else |
| Configuracoes.Page.SalvarConfiguracoes | script.js:55-77 | the jar is the old jar after the field texts are assigned in field order |
| Configuracoes.Page.CarregarConfiguracoes | script.js:95-117 | the fields become the old fields filled from the settings parsed out of `document.cookie` |
| Configuracoes.Page.FillFields | script.js:111-116 | only present, non-empty values are copied, and only into existing fields |
| Configuracoes.Page.LimparConfiguracoes | script.js:126-148 | confirmed: the jar is cleared and the fields take the defaults; not confirmed: nothing changes |
| Cookies.ParseCookie | script.js:76 | a parsed cookie has a valid name and a trimmed value without ';' |
| Cookies.ParsePair | script.js:76 | `name=value` with attributes parses as that name and the value cut at ';' and trimmed |
| Cookies.PairOf | script.js:76 | the name-value pair of such a text ends at the first ';' of the value |
| Cookies.NameOf | script.js:76 | the name of such a pair ends at its first '=' |
| Cookies.Removed | script.js:137 | removing names keeps the jar valid and leaves exactly the cookies whose names were not removed, each with its value unchanged |
| Cookies.FilterOut | script.js:137 | the jar order without the removed names: exactly the other names, still without repeats |
| Cookies.FilterOutAppend | script.js:137 | removing names from a concatenation removes them from each part, so the kept cookies keep their relative order |
| Cookies.RemovedTwice | script.js:133-139 | two removals are one removal of both name sets |
| Cookies.Stored | script.js:76 | storing a well-formed cookie keeps the jar valid |
| Cookies.Assigned | script.js:76 | assigning any text keeps the jar valid |
| Cookies.AssignedStores | script.js:76 | an assignment with positive max-age sets that cookie's value |
| Cookies.AssignedDeletes | script.js:137 | an assignment with max-age 0 deletes that cookie |
| Cookies.AssignedAll | script.js:75-77 | definition: the texts assigned one after another with the same max-age; it keeps the jar valid |
| Cookies.Decimal | script.js:76 | a number's decimal digits: never empty, only '0' to '9' |
| Cookies.DecimalRoundTrip | script.js:76 | reading the decimal digits written for a number gives the number back |
| Cookies.MaxAgeAttributes | script.js:76 | definition: `; max-age=<digits>; path=/` |
| Cookies.MaxAgeRoundTrip | script.js:76 | the max-age read from the attribute text written for a max-age is that max-age |
| Cookies.Pieces | script.js:97 | definition: `document.cookie` has one piece per cookie, in jar order |
| Cookies.Piece | script.js:97 | definition: one cookie's `name=value` in `document.cookie`, with the space after the previous ';'; it holds no ';' |
| Cookies.Header | script.js:97 | the `document.cookie` text: the pieces joined by "; ", empty for an empty jar; `HeaderSplit` states that splitting gives the pieces back |
| Cookies.HeaderSplit | script.js:97 | splitting `document.cookie` on ';' gives exactly those pieces |
| Cookies.CookieJar.constructor | script.js:97 | a page's `document.cookie` starts from an empty jar, which is valid |
| Cookies.CookieJar.Assign | script.js:76 | the jar after an assignment is the parsed cookie stored or deleted |
| Cookies.CookieJar.Read | script.js:97 | definition: the `document.cookie` getter (also read at script.js:130) is the header of the current jar |
| Strings.Trim | script.js:102 | the result neither starts nor ends with white space and is no longer than the text; an already trimmed text is returned as it is |
| Strings.IsWhitespace | script.js:102 | definition: the white space and line terminators `trim` removes |
| Strings.StripsTo | script.js:102 | definition: a text reached by removing white-space characters from either end, one at a time |
| Strings.TrimStrips | script.js:102 | trimming removes only white space at the ends: the trimmed text is reached from the text by removing end white space |
| Strings.TrimUnique | script.js:102 | any text reached by removing end white space that has none left at either end is the trimmed text |
| Strings.TrimDropsFirst | script.js:102 | a leading white-space character does not change the trimmed text |
| Strings.TrimDropsLast | script.js:102 | a trailing white-space character does not change the trimmed text |
| Strings.TrimWithout | script.js:134 | trimming introduces no character |
| Strings.Split | script.js:97 | split never gives an empty list, no piece holds the separator, and joining the pieces gives the text back |
| Strings.SplitJoin | script.js:97 | splitting a join of separator-free pieces gives the pieces back |
| Strings.UpTo | script.js:102 | the prefix before the first separator holds no separator and is followed by one unless it is the whole text |
| Strings.IndexOf | script.js:102 | `indexOf`, with "not found" as the length: no earlier occurrence, and the character at the index when found |
| Strings.Join | script.js:97 | definition: the pieces with the separator between them; `SplitJoin` states that `Split` inverts it |
| Strings.StartsWith | script.js:103 | definition: `startsWith`, also used at script.js:135 |
| InsuCalcDose.CalculateInsulin | InsuCalc/script.js:110-131 | stops exactly when the glucose or the carbohydrates are NaN or zero; the total is never negative; with defined, non-zero ratio and factor the doses are finite, carbDose times ratio is the carbohydrates, correctionDose times factor is glucose minus target, and the total is their sum clamped at zero |
| JsNumbers.FromParsed | InsuCalc/script.js:113-115 | a parsed setting as a number: the value, or NaN when it did not parse |
| JsNumbers.Falsy | InsuCalc/script.js:118 | `!x` on a parsed number: true exactly for NaN and zero |
| JsNumbers.Neg | InsuCalc/script.js:127 | negation: swaps the infinities, keeps NaN |
| JsNumbers.Add | InsuCalc/script.js:131 | `x + y`: NaN when either is NaN or for opposite infinities, an infinity when one is infinite, the sum of two finite values |
| JsNumbers.Sub | InsuCalc/script.js:127 | `x - y` as `x + (-y)` |
| JsNumbers.Div | InsuCalc/script.js:124-128 | `x / y`: NaN for NaN, 0/0 and infinity over infinity; a signed infinity for a non-zero finite over zero; zero for a finite over an infinity; the quotient of two finite values |
| InsuCalcDose.NegativeCorrection | InsuCalc/script.js:127-128 | below the target with a positive factor the correction dose is negative |
| InsuCalcDose.MissingSettingGivesNaN | InsuCalc/script.js:113-131 | a settings field that does not parse gives a NaN total instead of an error |
| InsuCalcDose.ZeroCarbRatioGivesInfinity | InsuCalc/script.js:124 | a zero ratio with positive carbohydrates gives an infinite carbohydrate dose and total |
| InsuCalcDose.ZeroCorrectionFactor | InsuCalc/script.js:127-128 | a zero correction factor gives +Infinity correction and total above the target, -Infinity correction and a total clamped to 0 below it, and NaN for both at the target |
| InsuCalcDose.ZeroCarbsRejected | InsuCalc/script.js:118-121 | zero carbohydrates stops the calculation |
| InsuCalcDose.ExampleClampedTotal | InsuCalc/script.js:131 | 60 mg/dL, target 100, factor 20, 15 g at 15 g/U give 1.0 and -2.0 U and a total of 0 |
| JsNumbers.MaxZero | InsuCalc/script.js:131 | `Math.max(0, x)` is never negative, is NaN exactly for NaN, keeps non-negative values and turns negative ones into 0 |
| SettingsJson.ReadEscapedChar | InsuCalc/script.js:86 | reading past one escaped character yields that character |
| SettingsJson.ReadEscapedString | InsuCalc/script.js:86 | reading an escaped string and its closing quote yields the string and the rest of the text |
| SettingsJson.ReadQuotedField | InsuCalc/script.js:101 | a property name and a quoted value read back as that value |
| SettingsJson.Stringify | InsuCalc/script.js:86 | `JSON.stringify` of the record: its three properties in creation order, each value quoted and escaped |
| SettingsJson.EscapeChar | InsuCalc/script.js:86 | definition: QuoteJSONString's escaping of one character; never empty; `ReadEscapedChar` reads it back |
| SettingsJson.Parse | InsuCalc/script.js:102 | reading a record back from a text of `Stringify`'s shape, with the values' escapes spelled in any way JSON allows (`\/`, `\u` with either case of hex digit) except a `\u` escape of a surrogate, which gives no record; `ParseStringify` states the round trip |
| SettingsJson.ReadEscape | InsuCalc/script.js:102 | the character a JSON escape stands for, and its length, which is at least one and within the text |
| SettingsJson.SurrogateEscapeRejected | InsuCalc/script.js:102 | a `\u` escape of a surrogate code (D800 to DFFF) is not read, so a text holding one gives no record |
| SettingsJson.ReadString | InsuCalc/script.js:102 | a JSON string's content and the text after its closing quote, which is shorter than the text read |
| SettingsJson.ParseStringify | InsuCalc/script.js:80-101 | parsing the stringified settings record gives the same record |
| InsuCalcSettings.LocalStorage.GetItem | InsuCalc/script.js:100 | gives the stored text exactly when the key is present |
| InsuCalcSettings.LocalStorage.SetItem | InsuCalc/script.js:86 | replaces one item and leaves the others |
| InsuCalcSettings.Loaded | InsuCalc/script.js:99-106 | an absent or empty settings item leaves the fields as they are |
| InsuCalcSettings.Saved | InsuCalc/script.js:86 | the items after saving: the settings item holds the stringified record, every other item unchanged |
| InsuCalcSettings.LanguageStored | InsuCalc/script.js:55 | the items after `setLanguage`: the language item holds the language, every other item unchanged |
| InsuCalcSettings.StartupLanguage | InsuCalc/script.js:48 | the start-up language is never empty: the stored preference or 'pt' |
| InsuCalcSettings.Page.SaveSettings | InsuCalc/script.js:80-86 | storage becomes the old storage with the stringified fields under `insulinCalcSettings` |
| InsuCalcSettings.Page.LoadSettings | InsuCalc/script.js:99-106 | the fields become what loading the settings item gives; the language is untouched |
| InsuCalcSettings.Page.SetLanguage | InsuCalc/script.js:53-63 | definition: the current language and the stored preference become the given one; reading the texts throws exactly for a name that is neither 'pt', 'en' nor a property name of `Object.prototype` |
| InsuCalcSettings.SaveThenLoad | InsuCalc/script.js:80-106 | loading after saving restores exactly the saved fields |
| InsuCalcSettings.LanguageKeepsSettings | InsuCalc/script.js:55 | storing the language does not change what loading the settings gives |
| InsuCalcSettings.SettingsKeepLanguage | InsuCalc/script.js:86 | saving the settings does not change the start-up language |
| InsuCalcSettings.LanguageRoundTrip | InsuCalc/script.js:48-55 | the page starts in the language last set, or in 'pt' when that was empty |
| Variants.SameTotalAtOrAboveTarget | script.js:204-221 | at or above the target, with carbohydrates, both calculators give the same total |
| Variants.SmallerTotalBelowTarget | InsuCalc/script.js:124-131 | below the target, with carbohydrates, the single-factor total is strictly smaller than the four-period one |
| Variants.OnlyFourPeriodAcceptsNoCarbs | InsuCalc/script.js:118-121 | without carbohydrates only the four-period calculator gives a dose |

## Left out

- The DOM: reading and writing `.value`, `.textContent` and `innerHTML`. The fields are a map from element id to text.
- Display: the period label table, the `toFixed` rounding of the displayed doses, and the result area with its scrolling (script.js:223-244, InsuCalc/script.js:133-148).
- The highlighting of `atualizarPeriodo`. Its field-id derivation (script.js:42) is the same as `FsiFieldId`.
- `confirm` and `alert`. The confirmation is a parameter of `LimparConfiguracoes`. The alerts are the error values of the calculations.
- `setTimeout` hiding of the saved messages.
- Event listeners and page start-up (script.js:249-271, InsuCalc/script.js:46-50). The start-up language expression (InsuCalc/script.js:48) is `StartupLanguage`.
- The translations table and the text updates of `setLanguage`. Only whether reading the texts throws is kept. For a property name of `Object.prototype` such as `toString`, every text read is `undefined`: the elements set through `textContent` are emptied and the info title, set through `innerHTML`, shows "undefined" (InsuCalc/script.js:60-75); the model records only that nothing throws.
- `parseFloat` text parsing. It is a parameter of `CalcularInsulina`; `CalculateInsulin` takes the parsed values. A field that parses to Infinity (`"Infinity"`, `"1e400"`) is not modelled.
- Floating point: doses are exact reals with no rounding. The sign of zero is not modelled; for example, a ratio of `-0` gives −Infinity in JavaScript and +Infinity here.
- Cookie attributes: `max-age` only decides between storing and deleting. `Configuracoes.AttributesMaxAge` states that the attribute texts written for saving and deleting carry the max-ages 31536000 and 0 the jar is given with them. Expiry over time, `path`, domain and the browser's size and count limits are not modelled.
- Cookies.ParseCookie: trims with JavaScript's white-space set rather than the space and tab of section 5.2 of RFC 6265, and does not check names against the token grammar.
- Strings.Trim: its own contract states only that the result has no white space at either end, is no longer than the text, and leaves a trimmed text alone. That nothing but end white space is removed is stated by Strings.TrimStrips and Strings.TrimUnique, which together pin the result down exactly. It is kept out of Trim's contract so that proofs using Trim do not carry it.
- InsuCalcSettings.Page.LoadSettings: reads only texts of the shape `saveSettings` writes (the three properties in that order, no white space between tokens), in which the values may use any JSON escape except a `\u` escape of a surrogate (such a text, for example a value holding `\ud83d\ude00`, which `JSON.parse` reads as one astral character, is not modelled: `modelled` is false). For any other non-empty item, `JSON.parse` (its SyntaxError or a record of another shape) is not modelled; the fields are left unchanged and `modelled` is false.
- `JSON.stringify` of lone surrogates: not modelled, because Dafny characters are Unicode scalar values.
- Calculadora.ToUpper: upper-cases ASCII letters only. Other mappings of `toUpperCase` (such as 'ß' to "SS") are not modelled; the four periods are ASCII.
- Configuracoes.Page.SalvarConfiguracoes and Configuracoes.Page.LimparConfiguracoes: assume that every settings element exists. In the code a missing one makes `getElementById(...).value` throw a TypeError (script.js:58-64; for clearing, script.js:142-148, after the cookies are already deleted), which the model does not follow.
- Values assigned to the period select: a select given a value that is not one of its options shows an empty value. The model keeps the text as assigned.
- Elements other than value-holding fields that `carregarConfiguracoes` might address by id: only ids in the field map count as elements.
- A cookie named with the prefix followed by `__proto__`: the prototype effect of assigning that key to a plain object is not modelled.
