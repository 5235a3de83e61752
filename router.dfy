/**
  The request-side decision of the portfolio site: which status, page name,
  language and content record `render_page` hands to the template, and the
  alias of `/` to `/home`. The query string is given as the optional value of
  its `lang` parameter; the translator is the one `translate_content` uses.
 */
module Router {
  import opened Dict
  import opened Resolver

  /** Flask's status when a view returns only a body. */
  const StatusOk: nat := 200

  const StatusNotFound: nat := 404

  /** The record `render_page` shows for a page it does not know. */
  const NotFoundContent: StrDict := Page("404 Non Trouvée", "Désolé, la page n'existe pas.")

  /** What a view passes to the template (`page`, `lang`, `translated_content`) and its status. */
  datatype Response = Response(status: nat, page: string, lang: string, content: StrDict)

  /** `request.args.get('lang', DEFAULT_LANGUAGE)`: the raw query value, or French when absent. */
  function RequestedLanguage(query: Option<string>): (lang: string)
    ensures query.None? ==> lang == DefaultLanguage
    ensures query.Some? ==> lang == query.value
  {
    match query
    case Some(l) => l
    case None => DefaultLanguage
  }

  /** `render_page(page)` for the route `/<page>`. */
  function RenderPage(page: string, query: Option<string>, translate: Translator): (r: Response)
    ensures r.status == StatusNotFound <==> page !in ContentDict
    ensures r.status == StatusOk <==> page in ContentDict
    ensures Keys(r.content) == ["title", "content"]
    ensures page !in ContentDict ==>
      r.page == "404" && r.content == NotFoundContent && r.lang == DefaultLanguage
    ensures page in ContentDict ==>
      r.page == page && r.lang == RequestedLanguage(query) && r.content == Resolve(page, r.lang, translate)
  {
    if page !in ContentDict then
      Response(StatusNotFound, "404", DefaultLanguage, NotFoundContent)
    else
      ContentDictShape(page);
      var lang := RequestedLanguage(query);
      Response(StatusOk, page, lang, Resolve(page, lang, translate))
  }

  /** `index()` for the route `/`: the home page. */
  function Index(query: Option<string>, translate: Translator): (r: Response)
    ensures r.status == StatusOk && r.page == "home"
    ensures r.lang == RequestedLanguage(query)
    ensures r.content == Resolve("home", r.lang, translate)
  {
    RenderPage("home", query, translate)
  }

  /**
    An unknown page gets the same response whatever the query and the
    translator: the translator is never consulted on this path.
   */
  lemma UnknownPageResponse(page: string, q1: Option<string>, q2: Option<string>, t1: Translator, t2: Translator)
    requires page !in ContentDict
    ensures RenderPage(page, q1, t1) == RenderPage(page, q2, t2)
    ensures RenderPage(page, q1, t1) == Response(StatusNotFound, "404", DefaultLanguage, NotFoundContent)
  {
  }

  /**
    For a known page and an unsupported language, the template receives the raw
    language code while the content is the one resolved for French.
   */
  lemma RawLanguageReachesTemplate(page: string, lang: string, translate: Translator)
    requires page in ContentDict
    requires lang !in SupportedLanguages
    ensures RenderPage(page, Some(lang), translate).lang == lang
    ensures RenderPage(page, Some(lang), translate).content == Resolve(page, DefaultLanguage, translate)
  {
    UnsupportedLanguageIsDefault(page, lang, translate);
  }

  /** Leaving out `lang` is the same as asking for French. */
  lemma AbsentLanguageIsFrench(page: string, translate: Translator)
    ensures RenderPage(page, None, translate) == RenderPage(page, Some(DefaultLanguage), translate)
  {
  }
}
