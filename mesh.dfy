/**
 * The Mesh entry point of src/lib/mesh.ts: handler registration delegated to the renderer's
 * stores, login and logout on the session, the helpers returning a response's data, the
 * webroot request handler and the request-enriching middleware.
 */
module Mesh {
  import opened Common
  import opened MeshUtil
  import opened Json
  import opened MeshTypes
  import opened HandlerStore
  import opened Languages
  import opened RestRules
  import opened RestClient
  import opened Renderer

  /** What the application supplies besides the handler registrations: what handlers do, the views and the template engine. */
  datatype App = App(
    handleSchema: (Handler, Json) -> Outcome<Js<Json>>,
    handleView: (Handler, RenderData) -> Outcome<Js<Json>>,
    errorThrows: (Handler, Js<Json>, int) -> bool,
    views: set<string>,
    template: (string, Json) -> Option<string>)

  /** The session after login's callback: the credentials are stored exactly when the client said true. */
  function AfterLogin(session: map<string, string>, loggedin: bool, username: string, password: string): (s: map<string, string>)
    ensures loggedin ==> AuthCredentials(s, Credentials("", "")) == Credentials(username, password)
    ensures !loggedin ==> s == session
    ensures forall k :: k in session && k != MESH_USER_SESSION_KEY && k != MESH_PASSWORD_SESSION_KEY ==> k in s && s[k] == session[k]
  {
    if loggedin then session[MESH_USER_SESSION_KEY := username][MESH_PASSWORD_SESSION_KEY := password] else session
  }

  /** The session after logout's callback: both credential keys set to undefined, i.e. absent. */
  function AfterLogout(session: map<string, string>): (s: map<string, string>)
    ensures MESH_USER_SESSION_KEY !in s && MESH_PASSWORD_SESSION_KEY !in s
    ensures forall k :: k in session && k != MESH_USER_SESSION_KEY && k != MESH_PASSWORD_SESSION_KEY ==> k in s && s[k] == session[k]
    ensures s.Keys <= session.Keys
  {
    session - {MESH_USER_SESSION_KEY, MESH_PASSWORD_SESSION_KEY}
  }

  /**
   * After a successful login the session's requests authenticate as that user; after a logout
   * they fall back to the public user and the page shows the public user as not logged in.
   * Neither changes the active language.
   */
  lemma LoginLogoutAuth(session: map<string, string>, languages: seq<string>, publicUser: Credentials, username: string, password: string)
    ensures AuthCredentials(AfterLogin(session, true, username, password), publicUser) == Credentials(username, password)
    ensures AuthHeader(AfterLogin(session, true, username, password), publicUser) == BasicAuthHeader(username, password)
    ensures AuthCredentials(AfterLogout(session), publicUser) == publicUser
    ensures DisplayedUser(AfterLogout(session), publicUser) == publicUser.username
    ensures ActiveLanguage(Some(AfterLogin(session, true, username, password)), languages) == ActiveLanguage(Some(session), languages)
    ensures ActiveLanguage(Some(AfterLogout(session)), languages) == ActiveLanguage(Some(session), languages)
  {
    assert LANGUAGE_KEY != MESH_USER_SESSION_KEY && LANGUAGE_KEY != MESH_PASSWORD_SESSION_KEY;
  }

  /** A logout after a login restores the credentials the session had before the login, when it had none. */
  lemma LogoutUndoesLogin(session: map<string, string>, publicUser: Credentials, username: string, password: string)
    requires MESH_USER_SESSION_KEY !in session && MESH_PASSWORD_SESSION_KEY !in session
    ensures AfterLogout(AfterLogin(session, true, username, password)) == session
  {
  }

  /** What the request handler does with the settled webroot fetch. */
  datatype Dispatch =
    | PipeBody(status: int)
    | RenderNode(status: int, node: Js<Json>)
    | RenderErrorPage(status: int, err: Js<Json>)

  /** A MeshRestResponse as the object renderError receives. */
  function ResponseJson(r: RestResponse): Json
  {
    var data := if r.data.Defined? then map["data" := r.data.value] else map[];
    JObj(data + map["status" := JNum(r.status), "isBinary" := JBool(r.isBinary)])
  }

  /**
   * The request handler's dispatch: a fulfilled fetch below 400 sets that status and pipes a
   * binary body or renders the node; from 400 on it renders the error page for that status
   * with the data; a rejected fetch renders the error page for 500 with the rejection.
   */
  function DispatchOf(fetched: Settled<RestResponse, RestResponse>): (d: Dispatch)
    ensures d.PipeBody? ==> fetched.Fulfilled? && fetched.value.isBinary && d.status < 400
    ensures d.RenderNode? ==> fetched.Fulfilled? && !fetched.value.isBinary && d.status < 400 && d.node == fetched.value.data
    ensures fetched.Fulfilled? ==> d.status == fetched.value.status
    ensures fetched.Fulfilled? && fetched.value.status >= 400 ==> d == RenderErrorPage(fetched.value.status, fetched.value.data)
    ensures fetched.Rejected? ==> d == RenderErrorPage(STATUS_ERROR, Defined(ResponseJson(fetched.reason)))
  {
    match fetched
    case Rejected(reason) => RenderErrorPage(STATUS_ERROR, Defined(ResponseJson(reason)))
    case Fulfilled(response) =>
      if response.status < 400 then
        if response.isBinary then PipeBody(response.status) else RenderNode(response.status, response.data)
      else RenderErrorPage(response.status, response.data)
  }

  /** A rejection's own status never reaches the page: every rejected fetch is a 500 error page. */
  lemma RejectionStatusIgnored(a: RestResponse, b: RestResponse)
    ensures DispatchOf(Rejected(a)).status == DispatchOf(Rejected(b)).status == STATUS_ERROR
    ensures DispatchOf(Rejected(a)).RenderErrorPage?
  {
  }

  /**
   * The whole answer to a webroot request, with the session it leaves: pipe, render the node
   * (a TypeError thrown while rendering goes to renderError with 500), or render the error page.
   */
  function Answer(env: Env, config: Config, session: Option<map<string, string>>, fetched: Settled<RestResponse, RestResponse>): (r: (Reply, Option<map<string, string>>))
    reads config
    requires session.Some?
    ensures DispatchOf(fetched).PipeBody? ==> r == (Reply(Some(DispatchOf(fetched).status), Piped), session)
    ensures DispatchOf(fetched).RenderErrorPage? ==>
      r == (RenderError(env, config.defaultErrorView, DispatchOf(fetched).status, DispatchOf(fetched).err, None), session)
    ensures r.0.emission.Piped? ==> fetched.Fulfilled? && fetched.value.isBinary && fetched.value.status < 400
  {
    match DispatchOf(fetched)
    case PipeBody(status) => (Reply(Some(status), Piped), session)
    case RenderErrorPage(status, err) => (RenderError(env, config.defaultErrorView, status, err, None), session)
    case RenderNode(status, node) =>
      var outcome := RenderOutcome(env, config, session, node, Some(status));
      if outcome.0.Threw? then (RenderError(env, config.defaultErrorView, STATUS_ERROR, Defined(outcome.0.error), Some(status)), outcome.1)
      else (outcome.0.value, outcome.1)
  }

  /** A response at or above 400, or any rejection, never renders a node's view: it goes to the error handler or the error view. */
  lemma ErrorStatusesRenderErrors(env: Env, config: Config, session: Option<map<string, string>>, fetched: Settled<RestResponse, RestResponse>)
    requires session.Some?
    requires fetched.Rejected? || fetched.value.status >= 400
    ensures var reply := Answer(env, config, session, fetched).0;
      var status := if fetched.Rejected? then STATUS_ERROR else fetched.value.status;
      var err := if fetched.Rejected? then Defined(ResponseJson(fetched.reason)) else fetched.value.data;
      && (ErrorHandled(env.errorSlots, status, err, env.errorThrows) ==> reply.emission == HandledByErrorHandler(status))
      && (!ErrorHandled(env.errorSlots, status, err, env.errorThrows) ==> reply.status == Some(status))
      && (!ErrorHandled(env.errorSlots, status, err, env.errorThrows) && Nullish(err) ==> reply.emission == NoResponse)
      && (!ErrorHandled(env.errorSlots, status, err, env.errorThrows) && !Nullish(err) ==>
            var data := RenderData(Undefined, None, map["error" := err.value]);
            && (ViewHandlersAbort(env, data) ==> reply.emission == NoResponse)
            && (!ViewHandlersAbort(env, data) ==>
                  reply.emission.Rendered? && reply.emission.view == ErrorView(env, status, config.defaultErrorView)))
  {
  }

  /** The session after the middleware's `setActiveLanguage(req, req.query.lang)`, which only a string can pass. */
  function QueryLanguageSet(session: Option<map<string, string>>, languages: seq<string>, query: Params): (r: Option<map<string, string>>)
    ensures LanguageConfigured(session, languages) ==> LanguageConfigured(r, languages)
    ensures session.Some? <==> r.Some?
    ensures r.Some? ==> forall k :: k in session.value && k != LANGUAGE_KEY ==> k in r.value && r.value[k] == session.value[k]
    ensures (session.Some? && ParamValue(query, "lang").Defined? && ParamValue(query, "lang").value.JStr?
             && ParamValue(query, "lang").value.s in languages) ==> ActiveLanguage(r, languages) == Defined(ParamValue(query, "lang").value.s)
    ensures !(ParamValue(query, "lang").Defined? && ParamValue(query, "lang").value.JStr? && ParamValue(query, "lang").value.s in languages) ==> r == session
  {
    var lang := ParamValue(query, "lang");
    if IsDefined(lang) && lang.value.JStr? then WithLanguage(session, languages, lang.value.s) else session
  }

  /** The Mesh entry point. */
  class Mesh {
    const config: Config
    const client: MeshRestClient
    const langs: LanguageState
    const schemas: SchemaHandlerStore
    const viewHandlers: ViewHandlerStore
    const errorHandlers: ErrorHandlerStore

    /**
     * new Mesh(app, config): a fresh client and empty handler stores. The language state is the
     * language module's, shared by every Mesh of the process, and is taken as it is.
     */
    constructor (config: Config, langs: LanguageState)
      ensures this.config == config
      ensures fresh(client) && client.cookies == map[]
      ensures this.langs == langs
      ensures fresh(schemas) && schemas.lists == map[]
      ensures fresh(viewHandlers) && viewHandlers.handlers == []
      ensures fresh(errorHandlers) && errorHandlers.slots == map[]
    {
      this.config := config;
      client := new MeshRestClient();
      this.langs := langs;
      schemas := new SchemaHandlerStore();
      viewHandlers := new ViewHandlerStore();
      errorHandlers := new ErrorHandlerStore();
    }

    /** registerSchemaHandler, delegated to the schema handler store. */
    method RegisterSchemaHandler(schema: string, handler: Handler)
      modifies schemas
      ensures schemas.lists == WithHandler(old(schemas.lists), schema, handler)
    {
      schemas.RegisterSchemaHandler(schema, handler);
    }

    /** registerViewHandler, delegated to the view handler store. */
    method RegisterViewHandler(handler: Handler)
      modifies viewHandlers
      ensures viewHandlers.handlers == old(viewHandlers.handlers) + [handler]
    {
      viewHandlers.RegisterViewHandler(handler);
    }

    /** registerErrorHandler, delegated to the error handler store. */
    method RegisterErrorHandler(status: int, handler: Handler)
      modifies errorHandlers
      ensures errorHandlers.slots == old(errorHandlers.slots)[status := handler]
    {
      errorHandlers.RegisterErrorHandler(status, handler);
    }

    /** The renderer's view of the registered handlers, with what the application's handlers do. */
    function EnvOf(app: App): Env
      reads schemas, viewHandlers, errorHandlers
    {
      Env(schemas.lists, app.handleSchema, viewHandlers.handlers, app.handleView,
          errorHandlers.slots, app.errorThrows, app.views, app.template)
    }

    /** login: the client's answer is returned unchanged, and the credentials stored iff it is true. */
    method Login(req: MeshRequest, username: string, password: string, x: Exchange) returns (loggedin: bool)
      requires req.meshConfig != null && req.session.Some?
      modifies client, req
      ensures req.meshConfig == old(req.meshConfig)
      ensures loggedin <==> Classify(x).Fulfilled? && Classify(x).value.status == 200
      ensures req.session == Some(AfterLogin(old(req.session.value), loggedin, username, password))
      ensures client.cookies == AfterExchange(old(client.cookies), AuthHeader(old(req.session.value), req.meshConfig.publicUser), x)
    {
      var sent;
      loggedin, sent := client.Login(req, username, password, x);
      if loggedin {
        req.session := Some(req.session.value[MESH_USER_SESSION_KEY := username][MESH_PASSWORD_SESSION_KEY := password]);
      }
    }

    /** logout: both credential keys are cleared whatever the client answered. */
    method Logout(req: MeshRequest, x: Exchange) returns (loggedout: bool)
      requires req.meshConfig != null && req.session.Some?
      modifies client, req
      ensures req.meshConfig == old(req.meshConfig)
      ensures loggedout <==> Classify(x).Fulfilled?
      ensures req.session == Some(AfterLogout(old(req.session.value)))
      ensures client.cookies == AfterExchange(old(client.cookies), AuthHeader(old(req.session.value), req.meshConfig.publicUser), x)
    {
      var sent;
      loggedout, sent := client.Logout(req, x);
      req.session := Some(req.session.value - {MESH_USER_SESSION_KEY, MESH_PASSWORD_SESSION_KEY});
    }

    /** searchNodes: the search response's data. */
    method SearchNodes(req: MeshRequest, query: Json, params: Option<Params>, x: Exchange) returns (r: Settled<Js<Json>, RestResponse>)
      requires req.meshConfig != null && req.session.Some?
      modifies client, req.meshConfig, langs
      ensures Classify(x).Fulfilled? ==> r == Fulfilled(Classify(x).value.data)
      ensures Classify(x).Rejected? ==> r == Rejected(Classify(x).reason)
      ensures langs.actLang == ActiveLanguage(req.session, old(req.meshConfig.languages))
      ensures req.meshConfig.languages == SortedFor(old(req.meshConfig.languages), langs.actLang)
      ensures langs.langCache == old(langs.langCache) && langs.initialized == old(langs.initialized)
      ensures client.cookies == AfterExchange(old(client.cookies), AuthHeader(req.session.value, req.meshConfig.publicUser), x)
    {
      var fetched, sent := client.MeshSearch(req, langs, query, params, x);
      r := if fetched.Fulfilled? then Fulfilled(fetched.value.data) else Rejected(fetched.reason);
    }

    /** getNode: the node response's data, after the publish check. */
    method GetNode(req: MeshRequest, uuid: string, params: Option<Params>, x: Exchange) returns (r: Settled<Js<Json>, RestResponse>)
      requires req.meshConfig != null && req.session.Some?
      modifies client, req.meshConfig, langs
      ensures Classify(x).Fulfilled? ==> r == Fulfilled(Classify(x).value.data)
      ensures Classify(x).Rejected? ==> r == Rejected(Classify(x).reason)
      ensures langs.actLang == ActiveLanguage(req.session, old(req.meshConfig.languages))
      ensures req.meshConfig.languages == SortedFor(old(req.meshConfig.languages), langs.actLang)
      ensures langs.langCache == old(langs.langCache) && langs.initialized == old(langs.initialized)
      ensures client.cookies == AfterExchange(old(client.cookies), AuthHeader(req.session.value, req.meshConfig.publicUser), x)
    {
      var fetched, sent := client.GetMeshNode(req, langs, uuid, params, x);
      ClassifiedCheckable(x);
      r := if fetched.Fulfilled? then Fulfilled(fetched.value.data) else Rejected(fetched.reason);
    }

    /** getChildren: the children response's data. */
    method GetChildren(req: MeshRequest, uuid: string, params: Option<Params>, x: Exchange) returns (r: Settled<Js<Json>, RestResponse>)
      requires req.meshConfig != null && req.session.Some?
      modifies client, req.meshConfig, langs
      ensures Classify(x).Fulfilled? ==> r == Fulfilled(Classify(x).value.data)
      ensures Classify(x).Rejected? ==> r == Rejected(Classify(x).reason)
      ensures langs.actLang == ActiveLanguage(req.session, old(req.meshConfig.languages))
      ensures req.meshConfig.languages == SortedFor(old(req.meshConfig.languages), langs.actLang)
      ensures langs.langCache == old(langs.langCache) && langs.initialized == old(langs.initialized)
      ensures client.cookies == AfterExchange(old(client.cookies), AuthHeader(req.session.value, req.meshConfig.publicUser), x)
    {
      var fetched, sent := client.GetChildren(req, langs, uuid, params, x);
      r := if fetched.Fulfilled? then Fulfilled(fetched.value.data) else Rejected(fetched.reason);
    }

    /** getWebrootNode for a request, as the request handler uses it: only the classified response matters. */
    method FetchWebrootNode(req: MeshRequest, pathname: string -> Js<string>, x: Exchange) returns (fetched: Settled<RestResponse, RestResponse>)
      requires req.meshConfig != null && req.session.Some?
      modifies client, req.meshConfig, langs
      ensures fetched == Published(req.meshConfig.checkPublished, Classify(x))
      ensures langs.actLang == ActiveLanguage(req.session, old(req.meshConfig.languages))
      ensures req.meshConfig.languages == SortedFor(old(req.meshConfig.languages), langs.actLang)
      ensures langs.langCache == old(langs.langCache) && langs.initialized == old(langs.initialized)
      ensures client.cookies == AfterExchange(old(client.cookies), AuthHeader(req.session.value, req.meshConfig.publicUser), x)
    {
      var sent;
      fetched, sent := client.GetWebrootNode(req, langs, None, pathname, x);
    }

    /** The request handler: fetch the webroot node for the request path, then answer. */
    method HandleRequest(req: MeshRequest, app: App, pathname: string -> Js<string>, x: Exchange) returns (reply: Reply)
      requires req.meshConfig != null && req.session.Some?
      modifies client, req.meshConfig, langs, req
      ensures req.meshConfig == old(req.meshConfig)
      ensures (reply, req.session) == Answer(EnvOf(app), req.meshConfig, old(req.session), Published(req.meshConfig.checkPublished, Classify(x)))
      ensures langs.actLang == ActiveLanguage(old(req.session), old(req.meshConfig.languages))
      ensures req.meshConfig.languages == SortedFor(old(req.meshConfig.languages), langs.actLang)
      ensures langs.langCache == old(langs.langCache) && langs.initialized == old(langs.initialized)
      ensures client.cookies == AfterExchange(old(client.cookies), AuthHeader(old(req.session).value, req.meshConfig.publicUser), x)
    {
      var env := EnvOf(app);
      var fetched := FetchWebrootNode(req, pathname, x);
      var config := req.meshConfig;
      var d := DispatchOf(fetched);
      if d.PipeBody? {
        reply := Reply(Some(d.status), Piped);
      } else if d.RenderErrorPage? {
        reply := RenderError(env, config.defaultErrorView, d.status, d.err, None);
      } else {
        var rendered := RenderMeshNode(env, req, d.node, Some(d.status));
        if rendered.Threw? {
          reply := RenderError(env, config.defaultErrorView, STATUS_ERROR, Defined(rendered.error), Some(d.status));
        } else {
          reply := rendered.value;
        }
      }
    }

    /**
     * The middleware: the request gets this configuration when it has none, a ?lang parameter
     * goes through setActiveLanguage's guard, a missing session becomes an empty one, the
     * language files are read, and the chain always continues.
     */
    method Middleware(req: MeshRequest, readFile: (string, string) -> Option<Json>) returns (next: bool)
      modifies req, langs
      ensures next
      ensures req.meshConfig == if old(req.meshConfig) == null then config else old(req.meshConfig)
      ensures old(req.session).None? ==> req.session == Some(map[])
      ensures old(req.session).Some? ==> req.session == QueryLanguageSet(old(req.session), req.meshConfig.languages, req.query)
      ensures Reloads(config.languageDirectory, old(langs.initialized), config.development) ==>
        langs.langCache == Loaded(config.languageDirectory.value, config.languages, readFile) && langs.initialized
      ensures !Reloads(config.languageDirectory, old(langs.initialized), config.development) ==>
        langs.langCache == old(langs.langCache) && langs.initialized == old(langs.initialized)
      ensures langs.actLang == if IsDefined(old(langs.actLang)) then old(langs.actLang) else FirstLanguage(config.languages)
    {
      if req.meshConfig == null {
        req.meshConfig := config;
      }
      var lang := ParamValue(req.query, "lang");
      if IsDefined(lang) && lang.value.JStr? {
        SetActiveLanguage(req, lang.value.s);
      }
      if req.session.None? {
        req.session := Some(map[]);
      }
      ReadLanguageFiles(config, langs, readFile);
      next := true;
    }
  }
}
