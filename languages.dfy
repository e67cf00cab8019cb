/**
 * Language handling of src/lib/meshLanguages.ts: the active language of a request, its guarded
 * setter, the language array ordered for fallback, the translation filter and the language file
 * cache.
 */
module Languages {
  import opened Common
  import opened MeshUtil
  import opened Json
  import opened MeshTypes

  /** The session key that holds the chosen language. */
  const LANGUAGE_KEY: string := "language"

  /** `languages[0]`: undefined for an empty list. */
  function FirstLanguage(languages: seq<string>): (r: Js<string>)
    ensures r.Defined? <==> languages != []
    ensures r.Defined? ==> r.value == languages[0]
  {
    if languages == [] then Undefined else Defined(languages[0])
  }

  /**
   * getActiveLanguage: the session's language when the session and that entry exist, otherwise
   * the first configured language.
   */
  function ActiveLanguage(session: Option<map<string, string>>, languages: seq<string>): (r: Js<string>)
    ensures session.Some? && LANGUAGE_KEY in session.value ==> r == Defined(session.value[LANGUAGE_KEY])
    ensures !(session.Some? && LANGUAGE_KEY in session.value) ==> r == FirstLanguage(languages)
  {
    if session.Some? && LANGUAGE_KEY in session.value then Defined(session.value[LANGUAGE_KEY])
    else FirstLanguage(languages)
  }

  /** The session after setActiveLanguage: changed only when it exists and the code is configured. */
  function WithLanguage(session: Option<map<string, string>>, languages: seq<string>, lang: string): (r: Option<map<string, string>>)
    ensures session.None? || lang !in languages ==> r == session
    ensures session.Some? && lang in languages ==> r == Some(session.value[LANGUAGE_KEY := lang])
  {
    if session.Some? && lang in languages then Some(session.value[LANGUAGE_KEY := lang]) else session
  }

  /** The session holds no language, or one of the configured ones. */
  predicate LanguageConfigured(session: Option<map<string, string>>, languages: seq<string>)
  {
    session.Some? && LANGUAGE_KEY in session.value ==> session.value[LANGUAGE_KEY] in languages
  }

  /** After a successful set, the active language is the one set; a refused set changes nothing. */
  lemma SetThenGet(session: Option<map<string, string>>, languages: seq<string>, lang: string)
    ensures session.Some? && lang in languages ==> ActiveLanguage(WithLanguage(session, languages, lang), languages) == Defined(lang)
    ensures !(session.Some? && lang in languages) ==> ActiveLanguage(WithLanguage(session, languages, lang), languages) == ActiveLanguage(session, languages)
  {
  }

  /**
   * The setter keeps the session language among the configured ones, and then the active
   * language is always a configured language (when any is configured).
   */
  lemma ActiveLanguageConfigured(session: Option<map<string, string>>, languages: seq<string>, lang: string)
    requires LanguageConfigured(session, languages)
    ensures LanguageConfigured(WithLanguage(session, languages, lang), languages)
    ensures languages != [] ==> ActiveLanguage(session, languages).Defined? && ActiveLanguage(session, languages).value in languages
  {
  }

  /** setActiveLanguage on a request. */
  method SetActiveLanguage(req: MeshRequest, lang: string)
    requires req.meshConfig != null
    modifies req
    ensures req.meshConfig == old(req.meshConfig)
    ensures req.session == WithLanguage(old(req.session), old(req.meshConfig).languages, lang)
  {
    var configured := req.meshConfig.languages;
    if req.session.Some? && lang in configured {
      req.session := Some(req.session.value[LANGUAGE_KEY := lang]);
    }
  }

  /** The entries equal to the active language, in order. */
  function Matching(s: seq<string>, a: string): (r: seq<string>)
    ensures |r| <= |s|
    ensures forall i :: 0 <= i < |r| ==> r[i] == a
    ensures a in s <==> r != []
  {
    if s == [] then [] else
      var init := Matching(s[..|s| - 1], a);
      assert s == s[..|s| - 1] + [s[|s| - 1]];
      if s[|s| - 1] == a then init + [a] else init
  }

  /** The entries different from the active language, in order. */
  function Others(s: seq<string>, a: string): (r: seq<string>)
    ensures |r| <= |s|
    ensures a !in r
    ensures forall x :: x in r <==> x in s && x != a
  {
    if s == [] then [] else
      var init := Others(s[..|s| - 1], a);
      assert s == s[..|s| - 1] + [s[|s| - 1]];
      if s[|s| - 1] != a then init + [s[|s| - 1]] else init
  }

  /**
   * The order getLanguageArray's comparator gives under a stable sort: the active language first,
   * the others in their configured order.
   */
  function ActiveFirst(s: seq<string>, a: string): seq<string>
  {
    Matching(s, a) + Others(s, a)
  }

  /** The language array after sorting for an active language that may be undefined. */
  function SortedFor(s: seq<string>, active: Js<string>): seq<string>
  {
    if active.Defined? then ActiveFirst(s, active.value) else s
  }

  lemma {:induction false} PartitionPermutation(s: seq<string>, a: string)
    ensures multiset(Matching(s, a)) + multiset(Others(s, a)) == multiset(s)
  {
    if s != [] {
      var t := s[..|s| - 1];
      assert s == t + [s[|s| - 1]];
      PartitionPermutation(t, a);
    }
  }

  /** getLanguageArray returns a permutation of the configured languages. */
  lemma ActiveFirstPermutation(s: seq<string>, a: string)
    ensures multiset(ActiveFirst(s, a)) == multiset(s)
    ensures |ActiveFirst(s, a)| == |s|
  {
    PartitionPermutation(s, a);
    assert |ActiveFirst(s, a)| == |multiset(ActiveFirst(s, a))|;
  }

  /** When the active language is configured it comes first. */
  lemma ActiveFirstHead(s: seq<string>, a: string)
    requires a in s
    ensures ActiveFirst(s, a)[0] == a
  {
  }

  lemma {:induction false} OthersAppend(s: seq<string>, t: seq<string>, a: string)
    ensures Others(s + t, a) == Others(s, a) + Others(t, a)
    decreases |t|
  {
    if t == [] {
      assert s + t == s;
    } else {
      var u := t[..|t| - 1];
      assert (s + t)[..|s + t| - 1] == s + u;
      OthersAppend(s, u, a);
    }
  }

  lemma {:induction false} OthersOfMatching(s: seq<string>, a: string)
    ensures Others(Matching(s, a), a) == []
  {
    if s != [] {
      OthersOfMatching(s[..|s| - 1], a);
      if s[|s| - 1] == a {
        OthersAppend(Matching(s[..|s| - 1], a), [a], a);
        assert Others([a], a) == [] by { assert [a][..0] == []; }
      }
    }
  }

  lemma {:induction false} OthersOfOthers(s: seq<string>, a: string)
    ensures Others(Others(s, a), a) == Others(s, a)
  {
    if s != [] {
      var t := s[..|s| - 1];
      OthersOfOthers(t, a);
      if s[|s| - 1] != a {
        OthersAppend(Others(t, a), [s[|s| - 1]], a);
        assert Others([s[|s| - 1]], a) == [s[|s| - 1]] by { assert [s[|s| - 1]][..0] == []; }
      }
    }
  }

  /** The languages other than the active one keep their relative order. */
  lemma ActiveFirstKeepsOthers(s: seq<string>, a: string)
    ensures Others(ActiveFirst(s, a), a) == Others(s, a)
  {
    OthersAppend(Matching(s, a), Others(s, a), a);
    OthersOfMatching(s, a);
    OthersOfOthers(s, a);
  }

  /**
   * The module-level state of src/lib/meshLanguages.ts: the translation cache, the language last
   * recorded by getLanguageArray (`actLang`) and whether the cache was filled once.
   */
  class LanguageState {
    var langCache: map<string, Json>
    var actLang: Js<string>
    var initialized: bool

    constructor ()
      ensures langCache == map[] && actLang == Undefined && !initialized
    {
      langCache := map[];
      actLang := Undefined;
      initialized := false;
    }
  }

  /**
   * getLanguageArray: records the active language in `actLang`, sorts the configured languages in
   * place so that it comes first, and returns that same array.
   */
  method GetLanguageArray(req: MeshRequest, state: LanguageState) returns (r: seq<string>)
    requires req.meshConfig != null
    modifies req.meshConfig, state
    ensures state.actLang == ActiveLanguage(req.session, old(req.meshConfig.languages))
    ensures req.meshConfig.languages == SortedFor(old(req.meshConfig.languages), state.actLang)
    ensures r == req.meshConfig.languages
    ensures state.langCache == old(state.langCache) && state.initialized == old(state.initialized)
  {
    var langs := req.meshConfig.languages;
    var active := ActiveLanguage(req.session, langs);
    state.actLang := active;
    if active.Defined? {
      var a := active.value;
      var front, back := [], [];
      var i := 0;
      while i < |langs|
        invariant 0 <= i <= |langs|
        invariant front == Matching(langs[..i], a)
        invariant back == Others(langs[..i], a)
      {
        assert langs[..i + 1][..i] == langs[..i];
        if langs[i] == a {
          front := front + [langs[i]];
        } else {
          back := back + [langs[i]];
        }
        i := i + 1;
      }
      assert langs[..i] == langs;
      req.meshConfig.languages := front + back;
    }
    r := req.meshConfig.languages;
  }

  /** The property key a possibly undefined language becomes when it indexes the cache. */
  function KeyOf(language: Js<string>): string
  {
    match language
    case Undefined => "undefined"
    case Null => "null"
    case Defined(s) => s
  }

  /** The input itself, as the filter returns it. */
  function Lift(input: Js<string>): (r: Js<Json>)
    ensures IsDefined(r) <==> IsDefined(input)
  {
    match input
    case Undefined => Undefined
    case Null => Null
    case Defined(s) => Defined(JStr(s))
  }

  /** Whether a language argument is falsy (undefined, null or the empty string). */
  predicate Falsy(language: Js<string>)
  {
    !IsDefined(language) || language.value == ""
  }

  /**
   * translateFilter: the cached entry when the input, the language's table and the entry are all
   * defined, the input unchanged otherwise; a falsy language means `actLang`.
   */
  function Translate(cache: map<string, Json>, actLang: Js<string>, input: Js<string>, language: Js<string>): (r: Js<Json>)
    ensures var key := KeyOf(if Falsy(language) then actLang else language);
      var found := IsDefined(input) && key in cache && cache[key] != JNull && Lookup(cache[key], input.value).Defined?;
      (found ==> r == Lookup(cache[key], input.value)) && (!found ==> r == Lift(input))
  {
    var key := KeyOf(if Falsy(language) then actLang else language);
    if IsDefined(input) && key in cache && cache[key] != JNull && Lookup(cache[key], input.value).Defined? then
      Lookup(cache[key], input.value)
    else Lift(input)
  }

  /** Without a language argument the filter translates into the last recorded language. */
  lemma TranslateDefaultsToActive(cache: map<string, Json>, actLang: Js<string>, input: Js<string>, language: Js<string>)
    requires Falsy(language)
    ensures Translate(cache, actLang, input, language) == Translate(cache, actLang, input, actLang)
  {
  }

  /** A translation is either the input or a value found in a cached table. */
  lemma TranslateSource(cache: map<string, Json>, actLang: Js<string>, input: Js<string>, language: Js<string>)
    ensures var r := Translate(cache, actLang, input, language);
      r == Lift(input) || exists k :: k in cache && IsDefined(input) && r == Lookup(cache[k], input.value)
  {
  }

  /** The file name a language is read from. */
  function LanguageFile(lang: string): string
  {
    "lang-" + lang + ".json"
  }

  /**
   * The cache a reload builds: a language is kept when its file was read and parsed to a value
   * other than null. `readFile(dir, name)` is JSON.parse of the file, None when reading or parsing
   * throws.
   */
  function Loaded(dir: string, langs: seq<string>, readFile: (string, string) -> Option<Json>): (m: map<string, Json>)
    ensures forall l :: l in m <==> l in langs && readFile(dir, LanguageFile(l)).Some? && readFile(dir, LanguageFile(l)).value != JNull
    ensures forall l :: l in m ==> m[l] == readFile(dir, LanguageFile(l)).value
  {
    if langs == [] then map[] else
      var init := Loaded(dir, langs[..|langs| - 1], readFile);
      var lang := langs[|langs| - 1];
      var parsed := readFile(dir, LanguageFile(lang));
      assert langs == langs[..|langs| - 1] + [lang];
      if parsed.Some? && parsed.value != JNull then init[lang := parsed.value] else init
  }

  /** Whether readLanguageFiles rebuilds the cache. */
  predicate Reloads(dir: Js<string>, initialized: bool, development: bool)
  {
    IsDefined(dir) && dir.value != "" && (!initialized || development)
  }

  /**
   * readLanguageFiles: reloads only when a non-empty language directory is configured and the
   * cache is uninitialised or development mode is on; a reload replaces the cache and marks it
   * initialised. `actLang` defaults to the first configured language when unset.
   */
  method ReadLanguageFiles(config: Config, state: LanguageState, readFile: (string, string) -> Option<Json>)
    modifies state
    ensures Reloads(config.languageDirectory, old(state.initialized), config.development) ==>
      state.langCache == Loaded(config.languageDirectory.value, config.languages, readFile) && state.initialized
    ensures !Reloads(config.languageDirectory, old(state.initialized), config.development) ==>
      state.langCache == old(state.langCache) && state.initialized == old(state.initialized)
    ensures state.actLang == if IsDefined(old(state.actLang)) then old(state.actLang) else FirstLanguage(config.languages)
  {
    var dir := config.languageDirectory;
    if IsDefined(dir) && dir.value != "" && (!state.initialized || config.development) {
      var langs := config.languages;
      state.langCache := map[];
      var i := 0;
      while i < |langs|
        invariant 0 <= i <= |langs|
        invariant state.langCache == Loaded(dir.value, langs[..i], readFile)
        invariant state.actLang == old(state.actLang)
      {
        assert langs[..i + 1][..i] == langs[..i];
        var parsed := readFile(dir.value, LanguageFile(langs[i]));
        if parsed.Some? && parsed.value != JNull {
          state.langCache := state.langCache[langs[i] := parsed.value];
        }
        i := i + 1;
      }
      assert langs[..i] == langs;
      state.initialized := true;
    }
    if !IsDefined(state.actLang) {
      state.actLang := FirstLanguage(config.languages);
    }
  }
}
