/** The translation catalog, the supported languages and the lookup `t`. */
module Translations {

  /** DEFAULT_LANGUAGE */
  const DefaultLanguage: string := "en"

  /** LANGUAGES: the selectable language codes and their display names. */
  const Languages: map<string, string> := map[
    "en" := "English",
    "pl" := "Polish",
    "sr" := "Serbian",
    "fr" := "French",
    "es" := "Spanish",
    "de" := "German",
    "it" := "Italian"
  ]

  /** language code -> message key -> template */
  type Catalog = map<string, map<string, string>>

  /** translations.get(DEFAULT_LANGUAGE, {}) */
  function DefaultBucket(catalog: Catalog): map<string, string>
  {
    if DefaultLanguage in catalog then catalog[DefaultLanguage] else map[]
  }

  /** The requested bucket is usable: present and not an empty dict. */
  predicate HasBucket(catalog: Catalog, language: string)
  {
    language in catalog && catalog[language] != map[]
  }

  /**
   * t(translations, language, key). Python's `or` treats a missing bucket and
   * an empty one alike, and a missing value and an empty string alike: the
   * requested language answers only with a non-empty value, otherwise the
   * default language answers, and a key it lacks comes back verbatim.
   */
  function T(catalog: Catalog, language: string, key: string): (r: string)
    ensures HasBucket(catalog, language) && key in catalog[language] && catalog[language][key] != ""
            ==> r == catalog[language][key]
    ensures !(HasBucket(catalog, language) && key in catalog[language] && catalog[language][key] != "")
            ==> r == if key in DefaultBucket(catalog) then DefaultBucket(catalog)[key] else key
  {
    var bucket := if HasBucket(catalog, language) then catalog[language] else DefaultBucket(catalog);
    var fallback := DefaultBucket(catalog);
    if key in bucket && bucket[key] != "" then bucket[key]
    else if key in fallback then fallback[key]
    else key
  }

  /** Whatever language is asked for, the answer comes from some bucket or is the key itself. */
  lemma LookupOrigin(catalog: Catalog, language: string, key: string)
    ensures var r := T(catalog, language, key);
            r == key || exists l :: l in catalog && key in catalog[l] && catalog[l][key] == r
  {
    var r := T(catalog, language, key);
    if HasBucket(catalog, language) && key in catalog[language] && catalog[language][key] != "" {
      assert catalog[language][key] == r;
    } else if key in DefaultBucket(catalog) {
      assert catalog[DefaultLanguage][key] == r;
    }
  }

  /** An unknown language reads the default bucket; a key missing everywhere comes back as is. */
  lemma LookupExamples()
    ensures T(map["en" := map["k" := "hello"]], "xx", "k") == "hello"
    ensures T(map["en" := map["k" := "hello"]], "en", "missing") == "missing"
  {
  }

  /** An empty translation in another language counts as missing and falls back to the default language. */
  lemma EmptyTranslationFallsBack()
    ensures T(map["en" := map["k" := "hello"], "pl" := map["k" := ""]], "pl", "k") == "hello"
  {
    var c := map["en" := map["k" := "hello"], "pl" := map["k" := ""]];
    assert c["pl"]["k"] == "";
  }

  /**
   * The fallback step is not checked for emptiness: an empty default-language
   * text is returned as it is, whether it is asked for directly or reached
   * from an empty text in another language; the key is not substituted.
   */
  lemma EmptyDefaultIsReturned()
    ensures T(map["en" := map["k" := ""]], "en", "k") == ""
    ensures T(map["en" := map["k" := ""], "pl" := map["k" := ""]], "pl", "k") == ""
  {
    var c := map["en" := map["k" := ""], "pl" := map["k" := ""]];
    assert c["pl"]["k"] == "" && DefaultBucket(c)["k"] == "";
  }
}
