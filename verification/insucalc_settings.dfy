/**
 * The settings persistence of the single-factor calculator: the three settings
 * fields saved as one JSON item of localStorage and read back, and the language
 * preference kept in an item of its own.
 */
module InsuCalcSettings {
  import opened Wrappers
  import opened SettingsJson

  const SettingsKey := "insulinCalcSettings"
  const LangKey := "insulinCalcLang"
  const DefaultLang := "pt"

  /** The languages the translations table has. */
  const Languages: set<string> := {"pt", "en"}

  /**
   * The names a plain object inherits from `Object.prototype`. Looking one of them up
   * in the translations table gives a function or the prototype itself, whose text
   * properties are all undefined, so the lookup does not throw.
   */
  const PrototypeNames: set<string> :=
    {"constructor", "hasOwnProperty", "isPrototypeOf", "propertyIsEnumerable", "toLocaleString",
     "toString", "valueOf", "__proto__", "__defineGetter__", "__defineSetter__",
     "__lookupGetter__", "__lookupSetter__"}

  /** The page's localStorage: string items by key. */
  class LocalStorage {
    var items: map<string, string>

    constructor (items: map<string, string>)
      ensures this.items == items
    {
      this.items := items;
    }

    /** `getItem`: the stored text, or `None` for `null`. */
    method GetItem(key: string) returns (r: Option<string>)
      ensures r.Some? <==> key in items
      ensures r.Some? ==> r.value == items[key]
    {
      r := if key in items then Some(items[key]) else None;
    }

    /** `setItem`: the item is replaced and no other item changes. */
    method SetItem(key: string, value: string)
      modifies this
      ensures items == old(items)[key := value]
    {
      items := items[key := value];
    }
  }

  /** The items after saveSettings: the settings item holds the stringified record. */
  function Saved(items: map<string, string>, settings: Settings): map<string, string>
  {
    items[SettingsKey := Stringify(settings)]
  }

  /**
   * The fields after loadSettings: a present, non-empty settings item that reads as a
   * settings record replaces all three; otherwise the fields stay as they were.
   */
  function Loaded(fields: Settings, items: map<string, string>): (r: Settings)
    ensures SettingsKey !in items || items[SettingsKey] == "" ==> r == fields
  {
    if SettingsKey in items && items[SettingsKey] != "" then
      match Parse(items[SettingsKey])
      case Some(settings) => settings
      case None => fields
    else fields
  }

  /** The items after setLanguage stores the preference. */
  function LanguageStored(items: map<string, string>, lang: string): map<string, string>
  {
    items[LangKey := lang]
  }

  /** The language the page starts with: the stored preference, or "pt" when it is missing or empty. */
  function StartupLanguage(items: map<string, string>): (lang: string)
    ensures lang != ""
    ensures lang == DefaultLang || (LangKey in items && lang == items[LangKey])
  {
    if LangKey in items && items[LangKey] != "" then items[LangKey] else DefaultLang
  }

  /** The three settings fields and the current language of the page. */
  class Page {
    var carbRatio: string
    var correctionFactor: string
    var targetGlucose: string
    var currentLang: string

    constructor ()
      ensures currentLang == DefaultLang
    {
      carbRatio, correctionFactor, targetGlucose := "", "", "";
      currentLang := DefaultLang;
    }

    /** The settings record built from the fields. */
    function Fields(): Settings
      reads this
    {
      Settings(carbRatio, correctionFactor, targetGlucose)
    }

    /** saveSettings: stores the three fields as one JSON item; nothing else changes. */
    method SaveSettings(storage: LocalStorage)
      modifies storage
      ensures storage.items == Saved(old(storage.items), Fields())
    {
      var settings := Settings(carbRatio, correctionFactor, targetGlucose);
      storage.SetItem(SettingsKey, Stringify(settings));
    }

    /**
     * loadSettings: fills the three fields from the settings item, when there is one.
     * `modelled` is false only for a non-empty item that is not a saved settings
     * record, where JSON.parse is not modelled and the fields are left as they are.
     */
    method LoadSettings(storage: LocalStorage) returns (modelled: bool)
      modifies this
      ensures Fields() == Loaded(old(Fields()), storage.items)
      ensures currentLang == old(currentLang)
      ensures !modelled <==>
        SettingsKey in storage.items && storage.items[SettingsKey] != "" && Parse(storage.items[SettingsKey]).None?
    {
      modelled := true;
      var saved := storage.GetItem(SettingsKey);
      if saved.Some? && saved.value != "" {
        var settings := Parse(saved.value);
        if settings.Some? {
          carbRatio := settings.value.carbRatio;
          correctionFactor := settings.value.correctionFactor;
          targetGlucose := settings.value.targetGlucose;
        } else {
          modelled := false;
        }
      }
    }

    /**
     * setLanguage: the current language and the stored preference become `lang`
     * before the texts are looked up; `thrown` tells that reading the first text
     * throws because neither the translations table nor `Object.prototype` has a
     * property of that name.
     */
    method SetLanguage(storage: LocalStorage, lang: string) returns (thrown: bool)
      modifies this, storage
      ensures currentLang == lang
      ensures storage.items == LanguageStored(old(storage.items), lang)
      ensures Fields() == old(Fields())
      ensures thrown <==> lang !in Languages && lang !in PrototypeNames
    {
      currentLang := lang;
      storage.SetItem(LangKey, lang);
      thrown := lang !in Languages && lang !in PrototypeNames;
    }
  }

  /** Loading after saving restores exactly the saved fields, whatever the fields were before. */
  lemma SaveThenLoad(items: map<string, string>, saved: Settings, before: Settings)
    ensures Loaded(before, Saved(items, saved)) == saved
  {
    ParseStringify(saved);
    assert Stringify(saved)[0] == '{';
  }

  /** Storing the language does not change what loading the settings gives. */
  lemma LanguageKeepsSettings(items: map<string, string>, lang: string, fields: Settings)
    ensures Loaded(fields, LanguageStored(items, lang)) == Loaded(fields, items)
  {
    assert SettingsKey != LangKey;
    assert SettingsKey in LanguageStored(items, lang) <==> SettingsKey in items;
  }

  /** Saving the settings does not change the language the page starts with. */
  lemma SettingsKeepLanguage(items: map<string, string>, settings: Settings)
    ensures StartupLanguage(Saved(items, settings)) == StartupLanguage(items)
  {
    assert SettingsKey != LangKey;
  }

  /** The page starts in the language last set, or in Portuguese when that was the empty string. */
  lemma LanguageRoundTrip(items: map<string, string>, lang: string)
    ensures StartupLanguage(LanguageStored(items, lang)) == if lang == "" then DefaultLang else lang
  {
  }
}
