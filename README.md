# Portfolio content resolution, modelled in Dafny

The portfolio site (`run.py`, a Flask application) serves eight fixed pages
whose title and body are stored in French in `content_dict`. A request for
`/<page>?lang=xx` goes through `render_page`, which answers 404 with a fixed
record for an unknown page and otherwise asks `translate_content` for the
page in the requested language. `translate_content` replaces an unsupported
language with French, then translates each field (`title`, then `content`)
through a googletrans client, keeping the original text of any field whose
translation raises or comes back empty. `/` is the home page.

This project models that core:

- `dict.dfy` (module `Dict`): Python's insertion-ordered `dict` of strings,
  as the content records use it. `Put` is `d[key] = value`: an existing key is
  overwritten in place and a new key goes last.
- `resolver.dfy` (module `Resolver`): the constants `SUPPORTED_LANGUAGES`,
  `DEFAULT_LANGUAGE` and `content_dict`, and `translate_content`.
  `TranslateContent` is a method. It checks the page, reassigns the language,
  and runs the per-field loop (`TranslateEach`), which fills the result dict
  with `Put`. Both methods are proved equal to the specification functions
  `Resolve` (the record returned) and `ResolveCalls` (the translator calls
  made, in order). The lemmas state the properties of those functions.
- `router.dfy` (module `Router`): the branching of `render_page` and
  `index`, as functions on the page name, the optional `lang` query value
  and the translator.

The translator is injected. A `Translator` is a function from (text, source
language, destination language) to an `Outcome`: `Translated(text)` or
`Raised`. Any exception the call may raise, including one from reading the
result's `text`, is `Raised`. A result whose `text` is `None` is falsy just
like `""`, so it is represented as `Translated("")`.

Points of run.py's behaviour worth noting:

- The code checks the page before it normalises the language
  (run.py:25 and run.py:28). The outcome is the same either way.
- The code has no short-cut for French. Asking for `fr` still makes one
  translator call per field, from `fr` to `fr`, and the stored text is
  replaced by whatever usable text comes back
  (`SourceLanguageStillCallsTranslator`, `SourceLanguageCanChangeText`).
- The not-found record of `translate_content` is French ("Page non trouvée").
  `render_page` never reaches it, because it checks the page itself and
  answers 404 with a record of its own ("404 Non Trouvée").
- `render_page` hands the template the raw `lang` query value, not the
  normalised one (`RawLanguageReachesTemplate`).

## Model

| member | source | states |
|---|---|---|
| `Dict.Put` | run.py:35-37 | `translated[key] = v` keeps the key order, appends a new key at the end, and overwrites an existing one in place |
| `Dict.PutGet` | run.py:35-37 | after `d[key] = v`, `key` maps to `v` and every other key maps to what it did before |
| `Resolver.ContentDictShape` | run.py:12-21 | every stored page has exactly the keys `title` and `content`, in that order, with no key repeated |
| `Resolver.NormalizeLanguage` | run.py:28-29 | the language used is always a supported code; it equals the requested code exactly when that code is supported, and is `fr` otherwise |
| `Resolver.Fallback` | run.py:33-37 | a field keeps the translator's text when the call yields non-empty text, and its original text when the call raises or yields empty text |
| `Resolver.TranslateFields` | run.py:31-38 | the result has the same keys as the stored record, position by position; each value is the fallback of that field's own translator outcome |
| `Resolver.FieldCalls` | run.py:32-34 | one translator call per field, in field order, each on the field's stored text, from `fr` to the destination |
| `Resolver.Resolve` | run.py:24-38 | an unknown page gives the fixed missing-content record; a known page keeps exactly the stored key sequence |
| `Resolver.ResolveCalls` | run.py:24-34 | no call for an unknown page; every call has source `fr` and a supported destination |
| `Resolver.TranslatedField` | run.py:32-37 | for a record without repeated keys, the value under a key is the fallback of the translator's outcome on that key's original text |
| `Resolver.ResolvedField` | run.py:28-37 | the same per-field fallback for a stored page, with the normalised destination language |
| `Resolver.FaultIsolation` | run.py:32-37 | two translators that agree on one field's text give that field the same value, whatever they do on the other field |
| `Resolver.FailingTranslatorKeepsPage` | run.py:33-37 | a translator that never yields usable text for a page's fields leaves the page exactly as stored |
| `Resolver.UnsupportedLanguageIsDefault` | run.py:28-29 | an unsupported language gives the same record and the same calls as `fr` |
| `Resolver.UnknownPageIgnoresTranslator` | run.py:25-26 | an unknown page gives the missing-content record, with keys `title` and `content`, and makes no translator call |
| `Resolver.SourceLanguageStillCallsTranslator` | run.py:31-34 | asking for `fr` still makes two calls for a known page, each with destination `fr` |
| `Resolver.SourceLanguageCanChangeText` | run.py:32-35 | a translator answering "Welcome" changes the home page even when `fr` is asked for |
| `Resolver.TranslateEach` | run.py:31-38 | the loop over the fields, filling the dict with `Put`, returns the `TranslateFields` record and the `FieldCalls` log |
| `Resolver.TranslateContent` | run.py:24-38 | with no precondition, returns the `Resolve` record and makes the `ResolveCalls` calls; no translator fault escapes |
| `Router.RequestedLanguage` | run.py:365 | the `lang` query value as given, or `fr` when it is absent |
| `Router.RenderPage` | run.py:355-372 | status 404 exactly for an unknown page, with page name `404`, the fixed 404 record and `fr`; otherwise status 200, the page name, the raw requested language, and the content resolved for it; the content always has keys `title` and `content` |
| `Router.Index` | run.py:374-376 | `/` answers 200 for the home page with the content resolved for the requested language |
| `Router.UnknownPageResponse` | run.py:357-363 | the response for an unknown page does not depend on the query or on the translator |
| `Router.RawLanguageReachesTemplate` | run.py:365-371 | with an unsupported `lang`, the template gets the raw code while the content is the French resolution |
| `Router.AbsentLanguageIsFrench` | run.py:365 | leaving out `lang` is the same as asking for `fr` |

## Left out

- The HTML, CSS and JavaScript template (run.py:41-353), `render_template_string`, and the Flask request and routing objects. Only the values a view passes to the template, and its status, are modelled.
- The googletrans client (run.py:2, 9, 34) is a network call into a library that is not part of this model. It is an injected function, so the model assumes one answer per (text, source, destination). A real client may answer two identical calls differently, and its global instance state is not modelled.
- `except Exception` does not catch `BaseException` subclasses such as `KeyboardInterrupt` or `SystemExit`. The model treats every fault of the call as caught.
- `send_message` (run.py:386-401) only reads form fields, prints them and returns a constant record. It is pure I/O.
- The `page_not_found` handler (run.py:378-384) and `app.run` (run.py:403-404) are framework plumbing that returns constants.
- Idempotence of `translate_content` is not stated as a lemma. The translator is a function here, so two calls with the same arguments are equal by `TranslateContent`'s postcondition.
