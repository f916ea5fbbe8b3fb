/**
 * Language-pack lookup of server/src/language.py. The packs themselves are
 * interface text, so their type is a parameter `P`; only which language
 * maps to which pack matters here.
 */
module Language {
  import opened Wrappers
  import opened Exceptions
  import opened Types
  import opened Config

  /** `LanguageManager`: the packs by language, and the language used when none is asked for. */
  datatype LanguageManager<P> = LanguageManager(languagePacks: map<Language, P>, defaultLanguage: Language)

  /** Every declared language has a pack. */
  predicate HasAllPacks<P>(m: LanguageManager<P>) {
    forall i :: 0 <= i < |DeclaredLanguages| ==> DeclaredLanguages[i] in m.languagePacks
  }

  /**
   * `get_language_pack`: `None` stands for the default language; a language
   * without a pack raises `ValueError`, any other gets exactly its own pack.
   */
  function GetLanguagePack<P>(m: LanguageManager<P>, language: Option<Language>): (r: Result<P>)
    ensures var l := language.GetOr(m.defaultLanguage);
      && (r.Ok? <==> l in m.languagePacks)
      && (r.Ok? ==> r.value == m.languagePacks[l])
    ensures r.Err? ==> r.error == ValueError
  {
    var l := language.GetOr(m.defaultLanguage);
    if l !in m.languagePacks then Err(ValueError) else Ok(m.languagePacks[l])
  }

  /**
   * The loop of `validate_languages`: the declared languages in order, up to
   * the first one without a pack.
   */
  method FirstMissing<P>(m: LanguageManager<P>) returns (r: Option<Language>)
    ensures r.None? <==> HasAllPacks(m)
    ensures r.Some? ==> r.value in DeclaredLanguages && r.value !in m.languagePacks
  {
    for i := 0 to |DeclaredLanguages|
      invariant forall j :: 0 <= j < i ==> DeclaredLanguages[j] in m.languagePacks
    {
      if DeclaredLanguages[i] !in m.languagePacks {
        return Some(DeclaredLanguages[i]);
      }
    }
    return None;
  }

  /**
   * `validate_languages`, raising a `ValueError` for a missing pack, which
   * pydantic reports as a validation error; otherwise the manager passes
   * unchanged.
   */
  method ValidateLanguages<P>(m: LanguageManager<P>) returns (r: Result<LanguageManager<P>>)
    ensures r.Ok? <==> HasAllPacks(m)
    ensures r.Ok? ==> r.value == m
    ensures r.Err? ==> r.error == ValidationError
  {
    var missing := FirstMissing(m);
    if missing.Some? {
      return Err(ValidatorRaised(ValueError));
    }
    return Ok(m);
  }

  /**
   * `validate_languages` as written: `raise ValidationError("...")` cannot
   * build its exception, so a missing pack surfaces as a `TypeError`, which
   * pydantic does not wrap.
   */
  method ValidateLanguagesAsWritten<P>(m: LanguageManager<P>) returns (r: Result<LanguageManager<P>>)
    ensures r.Ok? <==> HasAllPacks(m)
    ensures r.Ok? ==> r.value == m
    ensures r.Err? ==> r.error == TypeError
  {
    var missing := FirstMissing(m);
    if missing.Some? {
      return Err(ValidatorRaised(ValidationErrorFromMessage));
    }
    return Ok(m);
  }

  /** A manager that passed validation serves every language, and the default for `None`. */
  lemma ValidManagerServesAll<P>(m: LanguageManager<P>, language: Option<Language>)
    requires HasAllPacks(m)
    ensures GetLanguagePack(m, language).Ok?
    ensures GetLanguagePack(m, language).value ==
      m.languagePacks[if language.None? then m.defaultLanguage else language.value]
  {
    var l := if language.None? then m.defaultLanguage else language.value;
    assert l == DeclaredLanguages[0] || l == DeclaredLanguages[1];
  }

  /** The module-level `language_manager`: Russian and English packs. */
  function ModuleManager<P>(ru: P, en: P, defaultLanguage: Language): (m: LanguageManager<P>)
    ensures HasAllPacks(m)
  {
    LanguageManager(map["ru" := ru, "en" := en], defaultLanguage)
  }

  /** The module-level manager hands out the pack registered for each language, and the default's for `None`. */
  lemma ModuleManagerPacks<P>(ru: P, en: P, defaultLanguage: Language, language: Option<Language>)
    ensures var l := if language.None? then defaultLanguage else language.value;
      GetLanguagePack(ModuleManager(ru, en, defaultLanguage), language) == Ok(if l == "ru" then ru else en)
  {
    var m := ModuleManager(ru, en, defaultLanguage);
    ValidManagerServesAll(m, language);
  }

  /**
   * The module-level `language_manager` as written: it reads
   * `settings.frontend`, a section `Settings` does not declare, so importing
   * the module raises `AttributeError` whatever the packs.
   */
  function ModuleManagerAsWritten<P>(ru: P, en: P, frontendDefault: Language): Result<LanguageManager<P>> {
    var _ :- SettingsSection("frontend");
    Ok(ModuleManager(ru, en, frontendDefault))
  }

  /** As written, building the module-level manager always fails. */
  lemma ModuleManagerFailsAsWritten<P>(ru: P, en: P, frontendDefault: Language)
    ensures ModuleManagerAsWritten(ru, en, frontendDefault) == Err(AttributeError)
  {
    assert "frontend" !in SettingsSections;
  }
}
