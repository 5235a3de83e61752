/**
  Content resolution of the portfolio site: the page table, the supported
  languages, and `translate_content`, which looks a page up and translates each
  of its fields through an unreliable translator, keeping the original text of
  any field whose translation fails or comes back empty.

  The translator (the googletrans client of run.py) is injected: a function
  from (text, source language, destination language) to an outcome.
 */
module Resolver {
  import opened Dict

  /** Language codes a request may ask for, in the order the site lists them. */
  const SupportedLanguages: seq<string> := ["en", "fr", "de", "es", "ja"]

  /** The language the stored texts are written in, and the fallback language. */
  const DefaultLanguage: string := "fr"

  /** A two-field content record: `{"title": title, "content": content}`. */
  function Page(title: string, content: string): (r: StrDict)
    ensures Keys(r) == ["title", "content"]
    ensures DistinctKeys(r)
  {
    [Entry("title", title), Entry("content", content)]
  }

  /** The stored pages, in French. */
  const ContentDict: map<string, StrDict> := map[
    "home" := Page("Bienvenue dans le Portfolio", "Ceci est la page d'accueil."),
    "about" := Page("À propos de moi", "Ceci est la page à propos."),
    "diplomas" := Page("Diplômes", "Détails sur les diplômes."),
    "experience" := Page("Expériences", "Détails sur les expériences."),
    "project" := Page("Projets", "Détails sur les projets."),
    "skills" := Page("Compétences", "Détails sur les compétences."),
    "awards" := Page("Récompenses", "Détails sur les récompenses."),
    "contact" := Page("Contact", "Coordonnées de contact.")
  ]

  /** What `translate_content` returns for a page it does not know. */
  const MissingContent: StrDict := Page("Page non trouvée", "Le contenu pour cette page est manquant.")

  /**
    What one translator call does: it yields a text (possibly empty) or raises.
    A result whose text is None is falsy exactly like the empty text, so it is
    represented as `Translated("")`.
   */
  datatype Outcome = Translated(text: string) | Raised

  type Translator = (string, string, string) -> Outcome

  /** One call `translator.translate(text, src=src, dest=dest)`. */
  datatype Call = Call(text: string, src: string, dest: string)

  /** True when a call's outcome is used instead of the original text. */
  predicate Usable(o: Outcome)
  {
    o.Translated? && o.text != ""
  }

  /** The text kept for a field whose translation had outcome `o`. */
  function Fallback(o: Outcome, original: string): (s: string)
    ensures Usable(o) ==> s == o.text
    ensures !Usable(o) ==> s == original
  {
    match o
    case Translated(text) => if text != "" then text else original
    case Raised => original
  }

  /** The language actually used: a supported code, else the default. */
  function NormalizeLanguage(lang: string): (l: string)
    ensures l in SupportedLanguages
    ensures lang in SupportedLanguages <==> l == lang
    ensures lang !in SupportedLanguages ==> l == DefaultLanguage
  {
    if lang in SupportedLanguages then lang else DefaultLanguage
  }

  /** Each field of `fields` translated into `dest` on its own, with fallback. */
  function TranslateFields(fields: StrDict, dest: string, translate: Translator): (r: StrDict)
    ensures |r| == |fields|
    ensures forall i :: 0 <= i < |fields| ==> r[i].key == fields[i].key
    ensures forall i :: 0 <= i < |fields| ==>
      r[i].value == Fallback(translate(fields[i].value, DefaultLanguage, dest), fields[i].value)
  {
    if fields == [] then []
    else
      var last := fields[|fields| - 1];
      TranslateFields(fields[..|fields| - 1], dest, translate)
        + [Entry(last.key, Fallback(translate(last.value, DefaultLanguage, dest), last.value))]
  }

  /** The translator calls made for `fields`: one per field, in order. */
  function FieldCalls(fields: StrDict, dest: string): (calls: seq<Call>)
    ensures |calls| == |fields|
    ensures forall i :: 0 <= i < |fields| ==> calls[i] == Call(fields[i].value, DefaultLanguage, dest)
  {
    if fields == [] then []
    else FieldCalls(fields[..|fields| - 1], dest) + [Call(fields[|fields| - 1].value, DefaultLanguage, dest)]
  }

  /** The record `translate_content(page, lang)` returns. */
  function Resolve(page: string, lang: string, translate: Translator): (r: StrDict)
    ensures page !in ContentDict ==> r == MissingContent
    ensures page in ContentDict ==> Keys(r) == Keys(ContentDict[page])
  {
    if page !in ContentDict then MissingContent
    else
      var r := TranslateFields(ContentDict[page], NormalizeLanguage(lang), translate);
      SameKeys(r, ContentDict[page]);
      r
  }

  /** The translator calls `translate_content(page, lang)` makes, in order. */
  function ResolveCalls(page: string, lang: string): (calls: seq<Call>)
    ensures page !in ContentDict ==> calls == []
    ensures forall c :: c in calls ==> c.src == DefaultLanguage && c.dest in SupportedLanguages
  {
    if page !in ContentDict then []
    else FieldCalls(ContentDict[page], NormalizeLanguage(lang))
  }

  /** Every stored page is a record with exactly the keys title and content, in that order. */
  lemma ContentDictShape(page: string)
    requires page in ContentDict
    ensures Keys(ContentDict[page]) == ["title", "content"]
    ensures DistinctKeys(ContentDict[page])
  {
  }

  /**
    The value a translated dict holds under a key is decided by the translator's
    outcome for that key's original text alone.
   */
  lemma TranslatedField(fields: StrDict, dest: string, translate: Translator, key: string, original: string)
    requires DistinctKeys(fields)
    requires Get(fields, key) == Some(original)
    ensures Get(TranslateFields(fields, dest, translate), key)
         == Some(Fallback(translate(original, DefaultLanguage, dest), original))
  {
    var r := TranslateFields(fields, dest, translate);
    var j :| 0 <= j < |fields| && Keys(fields)[j] == key;
    GetAt(fields, j);
    assert DistinctKeys(r);
    GetAt(r, j);
  }

  /** Per-field fallback, at the level of a page: the translated text if it is usable, else the stored text. */
  lemma ResolvedField(page: string, lang: string, translate: Translator, key: string, original: string)
    requires page in ContentDict
    requires Get(ContentDict[page], key) == Some(original)
    ensures Get(Resolve(page, lang, translate), key)
         == Some(Fallback(translate(original, DefaultLanguage, NormalizeLanguage(lang)), original))
  {
    ContentDictShape(page);
    TranslatedField(ContentDict[page], NormalizeLanguage(lang), translate, key, original);
  }

  /**
    Fault isolation: two translators that behave alike on one field's text give
    that field the same value, whatever they do on the other fields.
   */
  lemma FaultIsolation(page: string, lang: string, t1: Translator, t2: Translator, key: string, original: string)
    requires page in ContentDict
    requires Get(ContentDict[page], key) == Some(original)
    requires t1(original, DefaultLanguage, NormalizeLanguage(lang)) == t2(original, DefaultLanguage, NormalizeLanguage(lang))
    ensures Get(Resolve(page, lang, t1), key) == Get(Resolve(page, lang, t2), key)
  {
    ResolvedField(page, lang, t1, key, original);
    ResolvedField(page, lang, t2, key, original);
  }

  /** A translator that never yields usable text for a page's fields leaves the page as stored. */
  lemma FailingTranslatorKeepsPage(page: string, lang: string, translate: Translator)
    requires page in ContentDict
    requires forall i :: 0 <= i < |ContentDict[page]| ==>
      !Usable(translate(ContentDict[page][i].value, DefaultLanguage, NormalizeLanguage(lang)))
    ensures Resolve(page, lang, translate) == ContentDict[page]
  {
    var stored := ContentDict[page];
    var r := Resolve(page, lang, translate);
    assert forall i :: 0 <= i < |stored| ==> r[i] == stored[i];
  }

  /** An unsupported language resolves, and calls the translator, exactly as the default one does. */
  lemma UnsupportedLanguageIsDefault(page: string, lang: string, translate: Translator)
    requires lang !in SupportedLanguages
    ensures Resolve(page, lang, translate) == Resolve(page, DefaultLanguage, translate)
    ensures ResolveCalls(page, lang) == ResolveCalls(page, DefaultLanguage)
  {
  }

  /** An unknown page gives the missing-content record whatever the language and translator, and no call is made. */
  lemma UnknownPageIgnoresTranslator(page: string, lang: string, translate: Translator)
    requires page !in ContentDict
    ensures Resolve(page, lang, translate) == MissingContent
    ensures Keys(Resolve(page, lang, translate)) == ["title", "content"]
    ensures ResolveCalls(page, lang) == []
  {
  }

  /**
    Asking for the source language does not skip the translator: a known page
    still costs one call per field, each from French to French.
   */
  lemma SourceLanguageStillCallsTranslator(page: string)
    requires page in ContentDict
    ensures |ResolveCalls(page, DefaultLanguage)| == 2
    ensures forall c :: c in ResolveCalls(page, DefaultLanguage) ==> c.dest == DefaultLanguage
  {
    ContentDictShape(page);
  }

  /** So the stored text of a page can change even when French is asked for. */
  lemma SourceLanguageCanChangeText()
    ensures Resolve("home", DefaultLanguage, (text, src, dest) => Translated("Welcome"))
         != ContentDict["home"]
  {
    var r := Resolve("home", DefaultLanguage, (text, src, dest) => Translated("Welcome"));
    assert r[0].value == "Welcome";
  }

  /**
    The loop of `translate_content`: `for key, value in fields.items()`, one
    guarded translator call per field, each result stored with `translated[key] = …`.
    Returns the filled dict and the log of the calls made.
   */
  method TranslateEach(fields: StrDict, dest: string, translate: Translator)
    returns (translated: StrDict, log: seq<Call>)
    requires DistinctKeys(fields)
    ensures translated == TranslateFields(fields, dest, translate)
    ensures log == FieldCalls(fields, dest)
  {
    translated, log := [], [];
    var i := 0;
    while i < |fields|
      invariant 0 <= i <= |fields|
      invariant translated == TranslateFields(fields[..i], dest, translate)
      invariant log == FieldCalls(fields[..i], dest)
    {
      var key, value := fields[i].key, fields[i].value;
      assert fields[..i + 1][..i] == fields[..i];
      SameKeys(translated, fields[..i]);
      FreshKey(fields, i);
      var call := Call(value, DefaultLanguage, dest);
      assert FieldCalls(fields[..i + 1], dest) == log + [call];
      log := log + [call];
      var result := translate(call.text, call.src, call.dest);
      var kept: string;
      match result {
        case Translated(text) =>
          kept := if text != "" then text else value;
        case Raised =>
          kept := value;
      }
      assert TranslateFields(fields[..i + 1], dest, translate) == translated + [Entry(key, kept)];
      translated := Put(translated, key, kept);
      i := i + 1;
    }
    assert fields[..i] == fields;
  }

  /**
    `translate_content`: returns the resolved record and, beside it, the log of
    the translator calls it made. It has no precondition and never fails: an
    unknown page short-cuts to the missing-content record, an unsupported
    language becomes the default, and every raise of the translator is absorbed
    field by field.
   */
  method TranslateContent(page: string, lang: string, translate: Translator)
    returns (translated: StrDict, log: seq<Call>)
    ensures translated == Resolve(page, lang, translate)
    ensures log == ResolveCalls(page, lang)
  {
    if page !in ContentDict {
      return MissingContent, [];
    }

    var dest := lang;
    if dest !in SupportedLanguages {
      dest := DefaultLanguage;
    }

    ContentDictShape(page);
    translated, log := TranslateEach(ContentDict[page], dest, translate);
  }
}
