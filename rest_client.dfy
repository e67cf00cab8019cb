/**
 * MeshRestClient of src/lib/meshRestClient.ts: the session-cookie store it keeps across requests
 * and the request methods built on makeMeshRequest. The network exchange of a request is a
 * parameter: what came back for it.
 */
module RestClient {
  import opened Common
  import opened MeshUtil
  import opened Json
  import opened MeshTypes
  import opened RestRules
  import Languages

  /** MeshRequestOptions: where, how and as whom a request is sent. */
  datatype RequestOptions = RequestOptions(url: string, verb: Option<string>, data: Js<Json>, params: Option<Params>, authHeader: string)

  /** The request as it leaves: method, path with query string, headers and JSON body. */
  datatype Outgoing = Outgoing(verb: string, target: string, headers: map<string, string>, body: Js<Json>)

  /**
   * The headers of a request: the stored session cookie for its auth header (if any) as Cookie,
   * Accept, a JSON Content-Type when there is a body, and the Basic Authorization header.
   */
  function Headers(cookies: map<string, string>, opts: RequestOptions): (h: map<string, string>)
    ensures "Cookie" in h <==> opts.authHeader in cookies
    ensures "Cookie" in h ==> h["Cookie"] == cookies[opts.authHeader]
    ensures "Accept" in h && h["Accept"] == "*/*"
    ensures "Authorization" in h && h["Authorization"] == opts.authHeader
    ensures "Content-Type" in h <==> IsDefined(opts.data)
    ensures h.Keys <= {"Cookie", "Accept", "Content-Type", "Authorization"}
  {
    var withCookie: map<string, string> := if opts.authHeader in cookies then map["Cookie" := cookies[opts.authHeader]] else map[];
    var withType := if IsDefined(opts.data) then withCookie["Accept" := "*/*"]["Content-Type" := "application/json"] else withCookie["Accept" := "*/*"];
    withType["Authorization" := opts.authHeader]
  }

  /** The request makeMeshRequest sends for some options and cookie store; GET when no method is set. */
  function OutgoingFor(cookies: map<string, string>, opts: RequestOptions): Outgoing
  {
    Outgoing(if opts.verb.Some? then opts.verb.value else "GET",
             opts.url + (if opts.params.Some? then QueryString(opts.params.value) else ""),
             Headers(cookies, opts), opts.data)
  }

  /** The cookie store after an exchange: only a response with a Set-Cookie list can change it. */
  function AfterExchange(cookies: map<string, string>, authHeader: string, x: Exchange): map<string, string>
  {
    if x.Received? && x.setCookie.Defined? then Stored(cookies, authHeader, LastSessionCookie(x.setCookie.value)) else cookies
  }

  /** queryStringFromParams: appends `key=value&` per parameter, then drops the last character. */
  method QueryStringFromParams(params: Params) returns (qs: string)
    ensures qs == QueryString(params)
  {
    qs := "?";
    var i := 0;
    while i < |params|
      invariant 0 <= i <= |params|
      invariant i == 0 ==> qs == "?"
      invariant i > 0 ==> qs == "?" + JoinPairs(params[..i]) + "&"
    {
      QueryStep(params, i);
      qs := qs + Pair(params[i]) + "&";
      i := i + 1;
    }
    if i > 0 {
      assert params[..i] == params;
      var joined := "?" + JoinPairs(params);
      assert qs == joined + "&";
      assert qs[..|qs| - 1] == joined;
    }
    qs := qs[..|qs| - 1];
  }

  /** The public request methods that go through meshSimpleRequest. */
  function SimpleUrl(config: Config, url: string): string
    reads config
  {
    PrefixUrl(url, config.base, config.backendUrl)
  }

  class MeshRestClient {
    /** publicMeshCookieUserStore: the session cookie-pair captured per Authorization header. */
    var cookies: map<string, string>

    constructor ()
      ensures cookies == map[]
    {
      cookies := map[];
    }

    /**
     * The Set-Cookie handling of makeMeshRequest: every entry mentioning the session cookie
     * stores its cookie-pair under the auth header, so the last such entry wins.
     */
    method CaptureCookies(authHeader: string, setCookie: seq<string>)
      modifies this
      ensures cookies == Stored(old(cookies), authHeader, LastSessionCookie(setCookie))
    {
      var i := 0;
      while i < |setCookie|
        invariant 0 <= i <= |setCookie|
        invariant cookies == Stored(old(cookies), authHeader, LastSessionCookie(setCookie[..i]))
      {
        var cookie := setCookie[i];
        assert setCookie[..i + 1] == setCookie[..i] + [cookie];
        LastSessionCookieAppend(setCookie[..i], cookie);
        if Contains(cookie, SESSION_COOKIE) {
          cookies := cookies[authHeader := CookiePair(cookie)];
          assert cookies == Stored(old(cookies), authHeader, Some(CookiePair(cookie)));
        }
        i := i + 1;
      }
      assert setCookie[..i] == setCookie;
    }

    /**
     * makeMeshRequest: sends the request (the stored cookie of its auth header as Cookie),
     * captures a session cookie from the response and settles as Classify says.
     */
    method MakeMeshRequest(opts: RequestOptions, x: Exchange) returns (r: Settled<RestResponse, RestResponse>, sent: Outgoing)
      modifies this
      ensures sent == OutgoingFor(old(cookies), opts)
      ensures cookies == AfterExchange(old(cookies), opts.authHeader, x)
      ensures r == Classify(x)
    {
      var target := opts.url;
      if opts.params.Some? {
        var qs := QueryStringFromParams(opts.params.value);
        target := target + qs;
      }
      var headers: map<string, string> := map[];
      if opts.authHeader in cookies {
        headers := headers["Cookie" := cookies[opts.authHeader]];
      }
      headers := headers["Accept" := "*/*"];
      if IsDefined(opts.data) {
        headers := headers["Content-Type" := "application/json"];
      }
      headers := headers["Authorization" := opts.authHeader];
      sent := Outgoing(if opts.verb.Some? then opts.verb.value else "GET", target, headers, opts.data);
      if x.Received? && x.setCookie.Defined? {
        CaptureCookies(opts.authHeader, x.setCookie.value);
      }
      r := Classify(x);
    }

    /**
     * meshSimpleRequest: sorts the language array (getLanguageArray), prefixes the URL, applies the
     * parameter rules and sends the request as the session's user.
     */
    method MeshSimpleRequest(req: MeshRequest, langs: Languages.LanguageState, verb: string, url: string,
                             params: Option<Params>, data: Js<Json>, x: Exchange)
      returns (r: Settled<RestResponse, RestResponse>, sent: Outgoing)
      requires req.meshConfig != null && req.session.Some?
      modifies this, req.meshConfig, langs
      ensures langs.actLang == Languages.ActiveLanguage(req.session, old(req.meshConfig.languages))
      ensures req.meshConfig.languages == Languages.SortedFor(old(req.meshConfig.languages), langs.actLang)
      ensures langs.langCache == old(langs.langCache) && langs.initialized == old(langs.initialized)
      ensures sent == OutgoingFor(old(cookies), RequestOptions(SimpleUrl(req.meshConfig, url), Some(verb), data,
        Some(SimpleRequestParams(params, req.meshConfig.languages)), AuthHeader(req.session.value, req.meshConfig.publicUser)))
      ensures cookies == AfterExchange(old(cookies), AuthHeader(req.session.value, req.meshConfig.publicUser), x)
      ensures r == Classify(x)
    {
      var config := req.meshConfig;
      var auth := AuthHeader(req.session.value, config.publicUser);
      var languages := Languages.GetLanguageArray(req, langs);
      var opts := RequestOptions(PrefixUrl(url, config.base, config.backendUrl), Some(verb), data,
        Some(SimpleRequestParams(params, languages)), auth);
      r, sent := MakeMeshRequest(opts, x);
    }

    /**
     * getWebrootNode: the request path (the index for none or "/") under the project's webroot,
     * the request's query as parameters when none are given, then the publish check.
     */
    method GetWebrootNode(req: MeshRequest, langs: Languages.LanguageState, params: Option<Params>,
                          pathname: string -> Js<string>, x: Exchange)
      returns (r: Settled<RestResponse, RestResponse>, sent: Outgoing)
      requires req.meshConfig != null && req.session.Some?
      modifies this, req.meshConfig, langs
      ensures langs.actLang == Languages.ActiveLanguage(req.session, old(req.meshConfig.languages))
      ensures req.meshConfig.languages == Languages.SortedFor(old(req.meshConfig.languages), langs.actLang)
      ensures langs.langCache == old(langs.langCache) && langs.initialized == old(langs.initialized)
      ensures var c := req.meshConfig;
        sent == OutgoingFor(old(cookies), RequestOptions(
          SimpleUrl(c, c.backendUrl + c.base + c.project + c.webroot + WebrootPath(req.path, c.index, pathname)),
          Some("GET"), Undefined,
          Some(SimpleRequestParams(if params.Some? then params else Some(req.query), c.languages)),
          AuthHeader(req.session.value, c.publicUser)))
      ensures r == Published(req.meshConfig.checkPublished, Classify(x))
      ensures cookies == AfterExchange(old(cookies), AuthHeader(req.session.value, req.meshConfig.publicUser), x)
    {
      var c := req.meshConfig;
      var path := WebrootPath(req.path, c.index, pathname);
      var given := if params.Some? then params else Some(req.query);
      var url := c.backendUrl + c.base + c.project + c.webroot + path;
      var fetched;
      fetched, sent := MeshSimpleRequest(req, langs, "GET", url, given, Undefined, x);
      ClassifiedCheckable(x);
      r := Published(c.checkPublished, fetched);
    }

    /** getMeshNode: the node by uuid, then the publish check. */
    method GetMeshNode(req: MeshRequest, langs: Languages.LanguageState, uuid: string, params: Option<Params>, x: Exchange)
      returns (r: Settled<RestResponse, RestResponse>, sent: Outgoing)
      requires req.meshConfig != null && req.session.Some?
      modifies this, req.meshConfig, langs
      ensures langs.actLang == Languages.ActiveLanguage(req.session, old(req.meshConfig.languages))
      ensures req.meshConfig.languages == Languages.SortedFor(old(req.meshConfig.languages), langs.actLang)
      ensures langs.langCache == old(langs.langCache) && langs.initialized == old(langs.initialized)
      ensures var c := req.meshConfig;
        sent == OutgoingFor(old(cookies), RequestOptions(
          SimpleUrl(c, c.backendUrl + c.base + c.project + NODES_ENDPOINT + uuid), Some("GET"), Undefined,
          Some(SimpleRequestParams(params, c.languages)), AuthHeader(req.session.value, c.publicUser)))
      ensures r == Published(req.meshConfig.checkPublished, Classify(x))
      ensures cookies == AfterExchange(old(cookies), AuthHeader(req.session.value, req.meshConfig.publicUser), x)
    {
      var c := req.meshConfig;
      var fetched;
      fetched, sent := MeshSimpleRequest(req, langs, "GET", c.backendUrl + c.base + c.project + NODES_ENDPOINT + uuid, params, Undefined, x);
      ClassifiedCheckable(x);
      r := Published(c.checkPublished, fetched);
    }

    /** getChildren: the children of a node by uuid, without the publish check. */
    method GetChildren(req: MeshRequest, langs: Languages.LanguageState, uuid: string, params: Option<Params>, x: Exchange)
      returns (r: Settled<RestResponse, RestResponse>, sent: Outgoing)
      requires req.meshConfig != null && req.session.Some?
      modifies this, req.meshConfig, langs
      ensures langs.actLang == Languages.ActiveLanguage(req.session, old(req.meshConfig.languages))
      ensures req.meshConfig.languages == Languages.SortedFor(old(req.meshConfig.languages), langs.actLang)
      ensures langs.langCache == old(langs.langCache) && langs.initialized == old(langs.initialized)
      ensures var c := req.meshConfig;
        sent == OutgoingFor(old(cookies), RequestOptions(
          SimpleUrl(c, c.backendUrl + c.base + c.project + NODES_ENDPOINT + uuid + "/children"), Some("GET"), Undefined,
          Some(SimpleRequestParams(params, c.languages)), AuthHeader(req.session.value, c.publicUser)))
      ensures r == Classify(x)
      ensures cookies == AfterExchange(old(cookies), AuthHeader(req.session.value, req.meshConfig.publicUser), x)
    {
      var c := req.meshConfig;
      r, sent := MeshSimpleRequest(req, langs, "GET", c.backendUrl + c.base + c.project + NODES_ENDPOINT + uuid + "/children", params, Undefined, x);
    }

    /** getTagFamilies: the project's tag families. */
    method GetTagFamilies(req: MeshRequest, langs: Languages.LanguageState, params: Option<Params>, x: Exchange)
      returns (r: Settled<RestResponse, RestResponse>, sent: Outgoing)
      requires req.meshConfig != null && req.session.Some?
      modifies this, req.meshConfig, langs
      ensures langs.actLang == Languages.ActiveLanguage(req.session, old(req.meshConfig.languages))
      ensures req.meshConfig.languages == Languages.SortedFor(old(req.meshConfig.languages), langs.actLang)
      ensures langs.langCache == old(langs.langCache) && langs.initialized == old(langs.initialized)
      ensures var c := req.meshConfig;
        sent == OutgoingFor(old(cookies), RequestOptions(
          SimpleUrl(c, c.backendUrl + c.base + c.project + TAG_FAMILIES_ENDPOINT), Some("GET"), Undefined,
          Some(SimpleRequestParams(params, c.languages)), AuthHeader(req.session.value, c.publicUser)))
      ensures r == Classify(x)
      ensures cookies == AfterExchange(old(cookies), AuthHeader(req.session.value, req.meshConfig.publicUser), x)
    {
      var c := req.meshConfig;
      r, sent := MeshSimpleRequest(req, langs, "GET", c.backendUrl + c.base + c.project + TAG_FAMILIES_ENDPOINT, params, Undefined, x);
    }

    /** getTagsOfTagFamily: the tags of one tag family by uuid. */
    method GetTagsOfTagFamily(req: MeshRequest, langs: Languages.LanguageState, uuid: string, params: Option<Params>, x: Exchange)
      returns (r: Settled<RestResponse, RestResponse>, sent: Outgoing)
      requires req.meshConfig != null && req.session.Some?
      modifies this, req.meshConfig, langs
      ensures langs.actLang == Languages.ActiveLanguage(req.session, old(req.meshConfig.languages))
      ensures req.meshConfig.languages == Languages.SortedFor(old(req.meshConfig.languages), langs.actLang)
      ensures langs.langCache == old(langs.langCache) && langs.initialized == old(langs.initialized)
      ensures var c := req.meshConfig;
        sent == OutgoingFor(old(cookies), RequestOptions(
          SimpleUrl(c, c.backendUrl + c.base + c.project + TAG_FAMILIES_ENDPOINT + "/" + uuid + "/tags"), Some("GET"), Undefined,
          Some(SimpleRequestParams(params, c.languages)), AuthHeader(req.session.value, c.publicUser)))
      ensures r == Classify(x)
      ensures cookies == AfterExchange(old(cookies), AuthHeader(req.session.value, req.meshConfig.publicUser), x)
    {
      var c := req.meshConfig;
      r, sent := MeshSimpleRequest(req, langs, "GET", c.backendUrl + c.base + c.project + TAG_FAMILIES_ENDPOINT + "/" + uuid + "/tags", params, Undefined, x);
    }

    /** getNavigationByPath: the navigation under the project's navroot; maxDepth defaults to 10. */
    method GetNavigationByPath(req: MeshRequest, langs: Languages.LanguageState, path: string, params: Option<Params>, x: Exchange)
      returns (r: Settled<RestResponse, RestResponse>, sent: Outgoing)
      requires req.meshConfig != null && req.session.Some?
      modifies this, req.meshConfig, langs
      ensures langs.actLang == Languages.ActiveLanguage(req.session, old(req.meshConfig.languages))
      ensures req.meshConfig.languages == Languages.SortedFor(old(req.meshConfig.languages), langs.actLang)
      ensures langs.langCache == old(langs.langCache) && langs.initialized == old(langs.initialized)
      ensures var c := req.meshConfig;
        sent == OutgoingFor(old(cookies), RequestOptions(
          SimpleUrl(c, c.backendUrl + c.base + c.project + c.navroot + path), Some("GET"), Undefined,
          Some(SimpleRequestParams(Some(NavigationParams(params)), c.languages)), AuthHeader(req.session.value, c.publicUser)))
      ensures r == Classify(x)
      ensures cookies == AfterExchange(old(cookies), AuthHeader(req.session.value, req.meshConfig.publicUser), x)
    {
      var c := req.meshConfig;
      r, sent := MeshSimpleRequest(req, langs, "GET", c.backendUrl + c.base + c.project + c.navroot + path, Some(NavigationParams(params)), Undefined, x);
    }

    /** getNavigationByUUID: the navigation of a node by uuid; maxDepth defaults to 10. */
    method GetNavigationByUUID(req: MeshRequest, langs: Languages.LanguageState, uuid: string, params: Option<Params>, x: Exchange)
      returns (r: Settled<RestResponse, RestResponse>, sent: Outgoing)
      requires req.meshConfig != null && req.session.Some?
      modifies this, req.meshConfig, langs
      ensures langs.actLang == Languages.ActiveLanguage(req.session, old(req.meshConfig.languages))
      ensures req.meshConfig.languages == Languages.SortedFor(old(req.meshConfig.languages), langs.actLang)
      ensures langs.langCache == old(langs.langCache) && langs.initialized == old(langs.initialized)
      ensures var c := req.meshConfig;
        sent == OutgoingFor(old(cookies), RequestOptions(
          SimpleUrl(c, c.backendUrl + c.base + c.project + NODES_ENDPOINT + uuid + NAVIGATION_ENDPOINT), Some("GET"), Undefined,
          Some(SimpleRequestParams(Some(NavigationParams(params)), c.languages)), AuthHeader(req.session.value, c.publicUser)))
      ensures r == Classify(x)
      ensures cookies == AfterExchange(old(cookies), AuthHeader(req.session.value, req.meshConfig.publicUser), x)
    {
      var c := req.meshConfig;
      r, sent := MeshSimpleRequest(req, langs, "GET", c.backendUrl + c.base + c.project + NODES_ENDPOINT + uuid + NAVIGATION_ENDPOINT,
        Some(NavigationParams(params)), Undefined, x);
    }

    /**
     * meshSearch: POSTs the query to the search endpoint with resolveLinks "short" and lang always
     * set to the sorted language array (a missing parameter object defaulted; see SearchParams).
     */
    method MeshSearch(req: MeshRequest, langs: Languages.LanguageState, query: Json, params: Option<Params>, x: Exchange)
      returns (r: Settled<RestResponse, RestResponse>, sent: Outgoing)
      requires req.meshConfig != null && req.session.Some?
      modifies this, req.meshConfig, langs
      ensures langs.actLang == Languages.ActiveLanguage(req.session, old(req.meshConfig.languages))
      ensures req.meshConfig.languages == Languages.SortedFor(old(req.meshConfig.languages), langs.actLang)
      ensures langs.langCache == old(langs.langCache) && langs.initialized == old(langs.initialized)
      ensures var c := req.meshConfig;
        sent == OutgoingFor(old(cookies), RequestOptions(c.backendUrl + c.base + "search/nodes", Some("POST"), Defined(query),
          Some(SearchParams(params, c.languages)), AuthHeader(req.session.value, c.publicUser)))
      ensures r == Classify(x)
      ensures cookies == AfterExchange(old(cookies), AuthHeader(req.session.value, req.meshConfig.publicUser), x)
    {
      var c := req.meshConfig;
      var languages := Languages.GetLanguageArray(req, langs);
      r, sent := PostSearch(c, AuthHeader(req.session.value, c.publicUser), query, params, languages, x);
    }

    /** The search request itself, once the languages are sorted. */
    method PostSearch(c: Config, auth: string, query: Json, params: Option<Params>, languages: seq<string>, x: Exchange)
      returns (r: Settled<RestResponse, RestResponse>, sent: Outgoing)
      modifies this
      ensures sent == OutgoingFor(old(cookies), RequestOptions(c.backendUrl + c.base + "search/nodes", Some("POST"), Defined(query),
        Some(SearchParams(params, languages)), auth))
      ensures cookies == AfterExchange(old(cookies), auth, x)
      ensures r == Classify(x)
    {
      var searchParams := SearchParams(params, languages);
      r, sent := MakeMeshRequest(RequestOptions(c.backendUrl + c.base + "search/nodes", Some("POST"), Defined(query), Some(searchParams), auth), x);
    }

    /** login: POSTs the credentials; true iff the request fulfils with status 200, false otherwise. */
    method Login(req: MeshRequest, username: string, password: string, x: Exchange) returns (loggedin: bool, sent: Outgoing)
      requires req.meshConfig != null && req.session.Some?
      modifies this
      ensures loggedin <==> Classify(x).Fulfilled? && Classify(x).value.status == 200
      ensures sent.verb == "POST" && sent.target == req.meshConfig.backendUrl + req.meshConfig.base + "auth/login"
      ensures sent.body == Defined(JObj(map["username" := JStr(username), "password" := JStr(password)]))
      ensures sent.headers == Headers(old(cookies), RequestOptions(sent.target, Some("POST"), sent.body, None, AuthHeader(req.session.value, req.meshConfig.publicUser)))
      ensures cookies == AfterExchange(old(cookies), AuthHeader(req.session.value, req.meshConfig.publicUser), x)
    {
      var c := req.meshConfig;
      var body := JObj(map["username" := JStr(username), "password" := JStr(password)]);
      var opts := RequestOptions(c.backendUrl + c.base + "auth/login", Some("POST"), Defined(body), None, AuthHeader(req.session.value, c.publicUser));
      var r;
      r, sent := MakeMeshRequest(opts, x);
      loggedin := r.Fulfilled? && r.value.status == 200;
    }

    /** logout: sends a GET (no method is set) to the logout endpoint; true iff it fulfils. */
    method Logout(req: MeshRequest, x: Exchange) returns (loggedout: bool, sent: Outgoing)
      requires req.meshConfig != null && req.session.Some?
      modifies this
      ensures loggedout <==> Classify(x).Fulfilled?
      ensures sent.verb == "GET" && sent.target == req.meshConfig.backendUrl + req.meshConfig.base + "auth/logout"
      ensures sent.body == Undefined
      ensures sent.headers == Headers(old(cookies), RequestOptions(sent.target, None, Undefined, None, AuthHeader(req.session.value, req.meshConfig.publicUser)))
      ensures cookies == AfterExchange(old(cookies), AuthHeader(req.session.value, req.meshConfig.publicUser), x)
    {
      var c := req.meshConfig;
      var opts := RequestOptions(c.backendUrl + c.base + "auth/logout", None, Undefined, None, AuthHeader(req.session.value, c.publicUser));
      var r;
      r, sent := MakeMeshRequest(opts, x);
      loggedout := r.Fulfilled?;
    }
  }

  /** A session cookie captured for one user is replayed on that user's next request only. */
  lemma CookieReplay(cookies: map<string, string>, opts: RequestOptions, x: Exchange, next: RequestOptions)
    requires x.Received? && x.setCookie.Defined? && LastSessionCookie(x.setCookie.value).Some?
    ensures next.authHeader == opts.authHeader ==>
      Headers(AfterExchange(cookies, opts.authHeader, x), next)["Cookie"] == LastSessionCookie(x.setCookie.value).value
    ensures next.authHeader != opts.authHeader ==>
      ("Cookie" in Headers(AfterExchange(cookies, opts.authHeader, x), next) <==> "Cookie" in Headers(cookies, next))
  {
  }
}
