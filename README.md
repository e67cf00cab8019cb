# express-mesh in Dafny

A model of the core of express-mesh: the Express front end for the Gentics Mesh CMS. The model
covers these files under `src/lib`:

- The handler stores (`meshHandlerStore.ts`): schema handlers keyed by schema name, view
  handlers, and one error handler per status. The schema and view chains run through
  `asyncLoop` (`meshUtil.ts`).
- The REST client (`meshRestClient.ts`):
  - the Basic authorization header and the choice between the session user and the public user;
  - URL prefixing and the query string;
  - per-user capture and replay of the `mesh.session` cookie;
  - how a response settles: binary, JSON, application error, parse error or transport error;
  - the publish check that turns unpublished nodes into 404s;
  - the parameter rules of each request method;
  - login and logout.
- Session languages (`meshLanguages.ts`): the active language and its setter, the language
  array with the active language first, the translate filter, and loading the language files.
- The renderer (`meshRenderer.ts`):
  - schema keys;
  - expansion of node-valued fields into rendered strings;
  - the render information: language URLs and the displayed user;
  - renderView, and renderError with its error-handler and error-view fallbacks;
  - renderMeshNode.
- The entry point (`mesh.ts`):
  - login and logout on the session;
  - the data-returning helpers;
  - the webroot request handler's dispatch;
  - the request-enriching middleware.

How the model is built:

- JavaScript values are a `Json` datatype. `undefined` and `null` are `Js.Undefined` and `Js.Null`.
- A promise's outcome is `Settled` (fulfilled or rejected), and a handler's outcome is `Outcome`.
- A synchronous throw is `Attempt.Threw`.
- Objects the library updates in place are classes with `modifies` clauses:
  - the three stores;
  - the cookie store of `MeshRestClient`;
  - the module state of the language code (`LanguageState`), one object shared by every `Mesh`;
  - `Config.languages`, which `getLanguageArray` sorts in place;
  - the request's `session` and `meshConfig`.
- Loops in the source are loops in the model, each proved against a specification function:
  - `asyncLoop`;
  - `queryStringFromParams`;
  - the Set-Cookie loop;
  - the language-file loop;
  - the field expansion;
  - the languageURLs forEach.
- External effects are parameters:
  - what the network returned for a request (`Exchange`);
  - what a handler does (a function from handler and item to an outcome);
  - whether a view exists (a set of names);
  - the template engine;
  - the file reader with JSON.parse;
  - URL.parse's pathname.

Two behaviours of the code a reader might not expect:

- renderError shows its view through renderView, so the view handlers run on the error path too.
  When one of them rejects with a reason, the error view gets `meta.error = true` in place of the
  error (`Renderer.ErrorPathRunsViewHandlers`).
- renderView's rejection callback reads the reason's `stack` before it renders. A view handler
  that rejects with undefined or null makes that read throw, so nothing is rendered, on the
  normal path and on the error path alike (`Renderer.RenderView`, `Renderer.RenderedView`).
  The same holds for an error that is undefined or null in renderError.
- A node that has only a microschema has a key for nested rendering (getSchemaKey). renderMeshNode
  reads only `schema`, so at top level such a node is reported as "No schema found"
  (`Renderer.RenderKeyIgnoresMicroschema`).

## Model

| member | source | states |
|---|---|---|
| MeshUtil.IsDefined | src/lib/meshUtil.ts:29-31 | true exactly when the value is neither undefined nor null |
| MeshUtil.IndexOf | src/lib/meshHandlerStore.ts:64-65 | -1 exactly when the element is absent; otherwise the position of its first occurrence |
| MeshUtil.FirstFailure | src/lib/meshUtil.ts:53-78 | the index of the first item whose body fails, or the length when none fails; every earlier item succeeds |
| MeshUtil.RunChain | src/lib/meshUtil.ts:53-78 | the chain succeeds iff every item succeeds, and otherwise fails with the first failure's reason |
| MeshUtil.RunChainAppend | src/lib/meshUtil.ts:60-73 | running a + b is running a and then, only if a succeeded, running b |
| MeshUtil.AsyncLoop | src/lib/meshUtil.ts:53-78 | the loop calls the items in order, stops at the first rejection and settles as RunChain says |
| HandlerStore.RemoveFirst | src/lib/meshHandlerStore.ts:64-66 | removes exactly one occurrence (the first) when present, as a multiset, and nothing otherwise |
| HandlerStore.RemoveFirstAfterAppend | src/lib/meshHandlerStore.ts:61-68 | splicing out a handler just pushed onto a list that lacked it gives back the list |
| HandlerStore.WithHandler | src/lib/meshHandlerStore.ts:47-54 | registration appends to the schema's list, creating it when missing; other schemas keep their lists |
| HandlerStore.WithoutHandler | src/lib/meshHandlerStore.ts:61-68 | unregistration removes the first occurrence from that schema's list only; a missing list stays missing |
| HandlerStore.UnregisterUndoesRegister | src/lib/meshHandlerStore.ts:47-68 | unregistering a handler just registered restores its schema's list (an empty one when the schema had none) |
| HandlerStore.SchemaChain | src/lib/meshHandlerStore.ts:79-98 | resolves with the item when the schema has no list; rejects iff some handler in the list fails |
| HandlerStore.SchemaChainAfterRegister | src/lib/meshHandlerStore.ts:47-98 | a newly registered handler runs last and only after every earlier handler fulfilled: an earlier rejection is reported unchanged, otherwise the chain settles as the new handler does |
| HandlerStore.RunList | src/lib/meshHandlerStore.ts:87-93 | the handlers run form a prefix of the list; a fulfilled run ran them all; a rejected run stops at the failing handler after every earlier one succeeded |
| HandlerStore.SchemaHandlerStore.constructor | src/lib/meshHandlerStore.ts:40-41 | a new store has no lists |
| HandlerStore.SchemaHandlerStore.RegisterSchemaHandler | src/lib/meshHandlerStore.ts:47-54 | the store becomes WithHandler of the old store |
| HandlerStore.SchemaHandlerStore.UnregisterSchemaHandler | src/lib/meshHandlerStore.ts:61-68 | the store becomes WithoutHandler of the old store |
| HandlerStore.SchemaHandlerStore.WorkSchemaHandlers | src/lib/meshHandlerStore.ts:79-98 | settles as SchemaChain; the handlers run are a prefix of the stored list, all of it when fulfilled, ending at the failing one when rejected |
| HandlerStore.ViewHandlerStore.constructor | src/lib/meshHandlerStore.ts:105-107 | a new store has no handlers |
| HandlerStore.ViewHandlerStore.RegisterViewHandler | src/lib/meshHandlerStore.ts:113-118 | appends the handler |
| HandlerStore.ViewHandlerStore.UnregisterSchemaHandler | src/lib/meshHandlerStore.ts:124-130 | removes the first occurrence of the handler, if any |
| HandlerStore.ViewHandlerStore.WorkViewHandlers | src/lib/meshHandlerStore.ts:140-157 | resolves with the render data iff every view handler succeeds, otherwise rejects with the first failure |
| HandlerStore.ErrorHandledAfterUpdate | src/lib/meshHandlerStore.ts:172-212 | after registering a handler for a status, that status is handled iff the new handler does not throw (the last registration wins); after unregistering it is never handled; other statuses keep their answer |
| HandlerStore.ErrorHandlerStore.constructor | src/lib/meshHandlerStore.ts:164-165 | a new store has no handlers |
| HandlerStore.ErrorHandlerStore.RegisterErrorHandler | src/lib/meshHandlerStore.ts:172-174 | overwrites the status's slot; other statuses are unchanged |
| HandlerStore.ErrorHandlerStore.UnregisterErrorHandler | src/lib/meshHandlerStore.ts:181-183 | clears the status's slot whichever handler is passed |
| HandlerStore.ErrorHandlerStore.WorkErrorHandler | src/lib/meshHandlerStore.ts:194-212 | resolves iff ErrorHandled; the handler called is the status's slot, if any |
| Json.Truthy | src/lib/meshRestClient.ts:322 | JavaScript truthiness: false for undefined, null, false, 0 and "" |
| Json.LooseEqualsZero | src/lib/meshRestClient.ts:322 | `v == 0` under loose equality: true for 0, false and ""; false for undefined, null and true |
| Languages.ActiveLanguage | src/lib/meshLanguages.ts:51-58 | the session's language when it is set, else the first configured language |
| Languages.WithLanguage | src/lib/meshLanguages.ts:65-70 | the session changes only when it exists and the code is configured, and then only its language |
| Languages.SetThenGet | src/lib/meshLanguages.ts:51-70 | after a successful set the active language is the one set; a refused set leaves it unchanged |
| Languages.ActiveLanguageConfigured | src/lib/meshLanguages.ts:51-70 | when the session language is configured, the active language is always a configured one |
| Languages.SetActiveLanguage | src/lib/meshLanguages.ts:65-70 | the request's session becomes WithLanguage of the old session; the configuration is untouched |
| Languages.Matching | src/lib/meshLanguages.ts:81-89 | the entries equal to the active language; non-empty iff it is present |
| Languages.Others | src/lib/meshLanguages.ts:81-89 | exactly the entries other than the active language, no more of them than in the list |
| Languages.PartitionPermutation | src/lib/meshLanguages.ts:81-89 | the matching and the other entries together are a permutation of the list |
| Languages.ActiveFirstPermutation | src/lib/meshLanguages.ts:77-90 | the sorted array is a permutation of the configured languages |
| Languages.ActiveFirstHead | src/lib/meshLanguages.ts:81-89 | when the active language is configured it comes first |
| Languages.ActiveFirstKeepsOthers | src/lib/meshLanguages.ts:81-89 | the other languages keep their relative order |
| Languages.LanguageState.constructor | src/lib/meshLanguages.ts:14-17 | the cache starts empty, with no recorded language and not initialised |
| Languages.GetLanguageArray | src/lib/meshLanguages.ts:77-90 | records the active language, sorts the configured languages in place with the active one first, and returns them |
| Languages.Translate | src/lib/meshLanguages.ts:106-115 | the cached entry when the input, the language's table and the entry are all defined; otherwise the input; a falsy language means the recorded one |
| Languages.TranslateDefaultsToActive | src/lib/meshLanguages.ts:107-109 | translating without a language is translating into the recorded language |
| Languages.TranslateSource | src/lib/meshLanguages.ts:111-113 | a translation is the input or a value from some cached table |
| Languages.Loaded | src/lib/meshLanguages.ts:26-37 | a language is cached iff it is configured and its file parsed to a non-null value, and then it holds that value |
| Languages.ReadLanguageFiles | src/lib/meshLanguages.ts:23-44 | reloads only for a non-empty directory when uninitialised or in development mode, then marks the cache initialised; the recorded language defaults to the first configured one |
| RestRules.BasicAuthHeader | src/lib/meshRestClient.ts:67-69 | "Basic " followed by base 64 text |
| RestRules.BasicAuthRoundTrip | src/lib/meshRestClient.ts:67-69 | decoding the header gives back the user name and password when the name has no colon |
| RestRules.AuthCredentials | src/lib/meshRestClient.ts:51-59 | the session's credentials when both keys are set, else the public user |
| RestRules.AuthHeaderIdentifiesUser | src/lib/meshRestClient.ts:51-69 | the header a session sends decodes to the credentials chosen for it (for user names without a colon) |
| RestRules.QueryString | src/lib/meshRestClient.ts:246-256 | "?" followed by the key=encoded-value pairs joined with "&" |
| RestRules.PairRoundTrip | src/lib/meshRestClient.ts:251 | one key=value pair contains no "&" and parses back to the key and the value's string form |
| RestRules.JoinPairsRoundTrip | src/lib/meshRestClient.ts:246-256 | the joined pairs of a non-empty list parse back to its keys and string values, in order |
| RestRules.QueryStringRoundTrip | src/lib/meshRestClient.ts:246-256 | the query string parses back to the parameters' keys and string values, for keys without "=" and "&" |
| RestRules.CookiePair | src/lib/meshRestClient.ts:296 | the prefix of the cookie before its first ";", and the empty string when it has none (`substring(0, -1)`); never contains ";" |
| RestRules.LastSessionCookie | src/lib/meshRestClient.ts:292-299 | the cookie pair of the last Set-Cookie entry that mentions "mesh.session" |
| RestRules.LastSessionCookieSpec | src/lib/meshRestClient.ts:292-299 | None iff no entry mentions the session cookie; otherwise the pair of an entry that does, with none after it |
| RestRules.Stored | src/lib/meshRestClient.ts:297 | a found cookie is stored under the auth header; other headers' cookies are unchanged |
| RestRules.ErrorOrUnknown | src/lib/meshRestClient.ts:323 | the application error when truthy, else "Unknown error"; the result is always truthy |
| RestRules.Classify | src/lib/meshRestClient.ts:301-349 | Content-Disposition resolves as binary; an application error rejects with the status; other JSON resolves; unparsable bodies and transport errors reject (transport errors with 500) |
| RestRules.ClassifiedResponses | src/lib/meshRestClient.ts:322-326 | a resolved JSON response never carries an application error, and a rejection always has data |
| RestRules.PublishCheck | src/lib/meshRestClient.ts:140-143 | with checkPublished, a non-binary node whose published flag is falsy becomes 404; nothing else changes |
| RestRules.PublishedIdempotent | src/lib/meshRestClient.ts:139-144 | the check never turns a rejection into a fulfilment or changes it; applying it twice is applying it once; without checkPublished the settled request is unchanged |
| RestRules.PublishCheckIdempotent | src/lib/meshRestClient.ts:140-143 | checking twice is checking once, and without checkPublished nothing changes |
| RestRules.PrefixUrl | src/lib/meshRestClient.ts:218-225 | the result contains base and backend URL and ends with the given URL; a URL holding both is unchanged |
| RestRules.PrefixUrlIdempotent | src/lib/meshRestClient.ts:218-225 | prefixing twice is prefixing once |
| RestRules.SimpleRequestParams | src/lib/meshRestClient.ts:227-233 | resolveLinks is "short"; lang becomes the joined languages only when unset; every other parameter is kept |
| RestRules.SearchParamsAsWritten | src/lib/meshRestClient.ts:166-170 | without a parameter object the search throws a TypeError; with one, lang is always overwritten |
| RestRules.SearchWithoutParamsThrows | src/lib/meshRestClient.ts:162-167 | a search without parameters throws |
| RestRules.SearchParams | src/lib/meshRestClient.ts:166-170 | resolveLinks is "short" and lang is the joined languages; other parameters are kept, and a missing object counts as empty |
| RestRules.NavigationParams | src/lib/meshRestClient.ts:114-115 | maxDepth becomes 10 when falsy; everything else is kept |
| RestClient.Headers | src/lib/meshRestClient.ts:273-285 | Cookie iff a cookie is stored for the auth header; Accept */*; Content-Type iff there is a body; Authorization is the auth header; no other header |
| RestClient.QueryStringFromParams | src/lib/meshRestClient.ts:246-256 | the appending loop builds exactly QueryString |
| RestClient.MeshRestClient.constructor | src/lib/meshRestClient.ts:103 | the cookie store starts empty |
| RestClient.MeshRestClient.CaptureCookies | src/lib/meshRestClient.ts:292-300 | after the Set-Cookie loop the store holds the last session cookie under the auth header |
| RestClient.MeshRestClient.MakeMeshRequest | src/lib/meshRestClient.ts:258-357 | sends method (GET by default), URL with query string, headers and body; settles as Classify; updates the cookie store |
| RestClient.MeshRestClient.MeshSimpleRequest | src/lib/meshRestClient.ts:215-235 | sorts the languages, prefixes the URL, applies SimpleRequestParams and sends with the session's auth header |
| RestClient.MeshRestClient.GetWebrootNode | src/lib/meshRestClient.ts:130-145 | GETs the webroot path (the index for "/") with the request's query by default, then applies the publish check; leaves the language array sorted with the active language first, records that language, and stores the response's session cookie for the auth header |
| RestClient.MeshRestClient.GetMeshNode | src/lib/meshRestClient.ts:147-155 | GETs the node by uuid, then applies the publish check; leaves the language array sorted with the active language first, records that language, and stores the response's session cookie for the auth header |
| RestClient.MeshRestClient.GetChildren | src/lib/meshRestClient.ts:157-160 | GETs the node's children with no publish check; leaves the language array sorted with the active language first, records that language, and stores the response's session cookie for the auth header |
| RestClient.MeshRestClient.GetTagFamilies | src/lib/meshRestClient.ts:174-177 | GETs the project's tag families; leaves the language array sorted with the active language first, records that language, and stores the response's session cookie for the auth header |
| RestClient.MeshRestClient.GetTagsOfTagFamily | src/lib/meshRestClient.ts:179-182 | GETs one tag family's tags; leaves the language array sorted with the active language first, records that language, and stores the response's session cookie for the auth header |
| RestClient.MeshRestClient.GetNavigationByPath | src/lib/meshRestClient.ts:112-119 | GETs the navigation under navroot, with maxDepth defaulting to 10; leaves the language array sorted with the active language first, records that language, and stores the response's session cookie for the auth header |
| RestClient.MeshRestClient.GetNavigationByUUID | src/lib/meshRestClient.ts:121-128 | GETs a node's navigation, with maxDepth defaulting to 10; leaves the language array sorted with the active language first, records that language, and stores the response's session cookie for the auth header |
| RestClient.MeshRestClient.MeshSearch | src/lib/meshRestClient.ts:162-172 | (corrected) POSTs the query to search/nodes with SearchParams and settles as Classify; leaves the language array sorted with the active language first, records that language, and stores the response's session cookie for the auth header |
| RestClient.MeshRestClient.Login | src/lib/meshRestClient.ts:184-199 | POSTs the credentials to auth/login; true iff the request fulfils with status 200 |
| RestClient.MeshRestClient.Logout | src/lib/meshRestClient.ts:201-209 | GETs auth/logout with the session's stored cookie and Authorization header; true iff the request fulfils; the cookie store is updated for that header |
| RestClient.CookieReplay | src/lib/meshRestClient.ts:274-299 | a captured session cookie goes back on that user's next request and leaves other users' requests unchanged |
| Utf8.Encode | src/lib/meshRestClient.ts:68 | at least one octet per character |
| Utf8.DecodeEncode | src/lib/meshRestClient.ts:68 | decoding the UTF-8 octets gives back the string |
| Base64.Encode | src/lib/meshRestClient.ts:68 | empty exactly for no octets, and never shorter than the octets |
| Base64.EncodeLength | src/lib/meshRestClient.ts:68 | four characters for every started group of three octets |
| Base64.DecodeEncode | src/lib/meshRestClient.ts:68 | decoding the base 64 text gives back the octets |
| UriEncoding.EncodeURIComponent | src/lib/meshRestClient.ts:251 | the result holds only unreserved characters and "%"; a string of unreserved characters is unchanged |
| UriEncoding.EncodeRoundTrip | src/lib/meshRestClient.ts:251 | decoding the encoded text gives back the string |
| Renderer.SchemaKey | src/lib/meshRenderer.ts:231-235 | schema over microschema, name over uuid; undefined when neither reference exists |
| Renderer.RenderKey | src/lib/meshRenderer.ts:104-105 | a defined key implies a defined node |
| Renderer.RenderKeyIgnoresMicroschema | src/lib/meshRenderer.ts:103-106 | it agrees with SchemaKey when there is a schema, and is undefined for microschema-only nodes |
| Renderer.NodeToString | src/lib/meshRenderer.ts:204-229 | rejects with "" without a key or when the handlers fail; with a key, an existing view and fulfilled handlers, resolves with the template's output for the node, or "" when the template fails; "" without a view |
| Renderer.ResolveList | src/lib/meshRenderer.ts:183-194 | throws a TypeError iff an element is null; a resolved list has the list's length |
| Renderer.ResolveListElements | src/lib/meshRenderer.ts:183-194 | without nulls it rejects iff some element's rendering rejects; otherwise each element is resolved in place |
| Renderer.ResolveField | src/lib/meshRenderer.ts:181-202 | lists resolve element-wise; node-like values render to strings; everything else is returned unchanged |
| Renderer.ExpandFields | src/lib/meshRenderer.ts:162-179 | throws iff some field throws; rejects iff none throws and some rejects; otherwise every field is replaced by its resolution, with the same keys |
| Renderer.ExpandFieldsAsWritten | src/lib/meshRenderer.ts:172-174 | never settles exactly when a field's resolution rejects; otherwise agrees with ExpandFields |
| Renderer.HandleMicroNodeFields | src/lib/meshRenderer.ts:162-179 | overwriting the fields one by one yields ExpandFields |
| Renderer.LanguageUrls | src/lib/meshRenderer.ts:39-49 | one entry per available language (the node's languagePaths entry, or "?lang=" + code) and no others |
| Renderer.LanguageUrlsCover | src/lib/meshRenderer.ts:39-49 | there are no more entries than languages, and every language has one |
| Renderer.RenderInfoFor | src/lib/meshRenderer.ts:37-53 | the active language; a URL for every available language; the session user if non-empty, else the public user; loggedin iff it differs from the public user; a TypeError only for a node without its language lists; the language URLs are those built from the node's languagePaths for the available languages |
| Renderer.FillLanguageUrls | src/lib/meshRenderer.ts:41-48 | the forEach builds exactly LanguageUrls |
| Renderer.BuildRenderInformation | src/lib/meshRenderer.ts:37-53 | the constructor yields RenderInfoFor of the request |
| Renderer.RenderView | src/lib/meshRenderer.ts:146-160 | renders the requested view or nothing; with the data when the view handlers succeed, with meta.error = true when one rejects with a reason; nothing exactly when one rejects with undefined or null |
| Renderer.RenderError | src/lib/meshRenderer.ts:127-139 | a handled error emits nothing more; otherwise the status is set and the view named after the status (or the default error view) is rendered with meta.error = err; an undefined or null err renders nothing |
| Renderer.ErrorPathRunsViewHandlers | src/lib/meshRenderer.ts:127-139 | on the error path with no error handler: a null error, or a view handler rejecting with undefined or null, renders nothing; a view handler rejecting with a reason leaves meta.error = true |
| Renderer.RenderOutcome | src/lib/meshRenderer.ts:103-125 | (corrected) without a key the 500 "No schema found" error; a TypeError from expansion is thrown; a rejected expansion gives the 500 error view; a schema handler rejection goes to renderError with its reason and the session unchanged; a TypeError from the render information goes to renderError after the node's language is stored; the session always exists afterwards |
| Renderer.SchemaRejectionReason | src/lib/meshRenderer.ts:107-139 | a schema handler rejection no error handler takes sets status 500; an undefined or null reason then renders nothing, a defined one renders the error view with the reason as meta.error |
| Renderer.RenderedView | src/lib/meshRenderer.ts:110-117 | a successful render shows the view named after the key, or the default view, with the handled node and its render information, and the status is unchanged; a view handler rejecting with undefined or null renders nothing |
| Renderer.NestedRejectionStalls | src/lib/meshRenderer.ts:162-179 | a rejecting field stalls the expansion as written, while the corrected one renders the 500 error view |
| Renderer.RefusedTeaserStalls | src/lib/meshRenderer.ts:172-174 | a concrete page whose nested teaser's schema handler refuses never settles as written |
| Renderer.RenderMeshNode | src/lib/meshRenderer.ts:103-125 | (corrected) the method's reply and session equal RenderOutcome, with getRenderData's language update |
| Mesh.AfterLogin | src/lib/mesh.ts:316-322 | on true both credentials are stored; on false the session is unchanged; other keys are kept |
| Mesh.AfterLogout | src/lib/mesh.ts:333-337 | both credential keys are gone; other keys are kept; nothing is added |
| Mesh.LoginLogoutAuth | src/lib/mesh.ts:315-338 | after login, requests authenticate as the user; after logout, as the public user, shown as not logged in; the language is untouched |
| Mesh.LogoutUndoesLogin | src/lib/mesh.ts:315-338 | logging out after logging in restores a session that had no credentials |
| Mesh.DispatchOf | src/lib/mesh.ts:463-477 | below 400: pipe a binary body or render the node, with that status; from 400 on: the error page with the status and data; rejected: the 500 error page |
| Mesh.RejectionStatusIgnored | src/lib/mesh.ts:475-477 | every rejected fetch goes to the 500 error page, whatever status it carries |
| Mesh.Answer | src/lib/mesh.ts:462-478 | (corrected) piping keeps the status; error pages come from renderError; only binary bodies below 400 are piped |
| Mesh.ErrorStatusesRenderErrors | src/lib/mesh.ts:472-477 | a status of 400 or more, or a rejection, ends at the error handler or, with the status set, the error view, never at a node view; nothing is rendered when the error, or a view handler's rejection reason, is undefined or null |
| Mesh.QueryLanguageSet | src/lib/mesh.ts:492-494 | a configured ?lang string becomes the active language; anything else leaves the session unchanged |
| Mesh.Mesh.constructor | src/lib/mesh.ts:239-243 | a fresh client and empty handler stores; the process-wide language state is shared as it is, not reset |
| Mesh.Mesh.RegisterSchemaHandler | src/lib/mesh.ts:253-255 | delegates to the schema store |
| Mesh.Mesh.RegisterViewHandler | src/lib/mesh.ts:264-266 | delegates to the view store |
| Mesh.Mesh.RegisterErrorHandler | src/lib/mesh.ts:275-277 | delegates to the error store |
| Mesh.Mesh.Login | src/lib/mesh.ts:315-323 | returns the client's answer unchanged and stores the credentials iff it is true; the client's cookie store is updated for the auth header the request went out with |
| Mesh.Mesh.Logout | src/lib/mesh.ts:332-338 | returns the client's answer and clears both credentials whatever it was; the client's cookie store is updated for the auth header the request went out with |
| Mesh.Mesh.SearchNodes | src/lib/mesh.ts:348-352 | (corrected) the search response's data, or the rejection; the languages, recorded language and cookie store change as in the client's request |
| Mesh.Mesh.GetChildren | src/lib/mesh.ts:362-366 | the children response's data, or the rejection; the languages, recorded language and cookie store change as in the client's request |
| Mesh.Mesh.GetNode | src/lib/mesh.ts:376-380 | the node response's data, or the rejection; the languages, recorded language and cookie store change as in the client's request |
| Mesh.Mesh.HandleRequest | src/lib/mesh.ts:461-479 | (corrected) the reply and the session equal Answer for the published webroot fetch; the language array is sorted with the active language first, that language recorded, and the response's session cookie stored for the request's auth header |
| Mesh.Mesh.Middleware | src/lib/mesh.ts:487-502 | sets meshConfig only when absent; applies ?lang through the setter's guard; adds an empty session only when absent; reloads language files as ReadLanguageFiles; a recorded language is kept, else the first configured one is recorded; always continues |

## Left out

- Network and socket I/O are parameters: `http.request`, the 30-second timeout, writing the
  body, and piping binary streams. An `Exchange` value says what came back, and piping is the
  emission `Piped`.
- Content-Length is not modelled: it is `Buffer.byteLength` of `JSON.stringify(data)`, and
  JSON.stringify is not modelled.
- The host and port split of URL.parse is not modelled; only the pathname is, as a parameter.
- The fs module, the template engine and logging are not modelled: `fs.access`,
  `fs.readFileSync`, `app.render`/`res.render`, console output, timing and `logging.renderdata`.
  They are a set of view names, a template function and a file-reading function.
- Promise scheduling is sequential. Field resolution runs over the keys one at a time. The outcome
  does not depend on the order, because every throw is the same TypeError and every rejection
  is "".
- HandlerStore: handlers do not change the item they are given. In the source, a schema or view
  handler may mutate the node or render data in place. The model passes the item on unchanged.
- The object-as-map collision of the stores (`this[schema]` hitting a method name) is not
  reproduced: the stores are clean maps.
- RestRules.SimpleRequestParams: the parameter object is not aliased. In the source,
  meshSimpleRequest writes resolveLinks and lang into the caller's object, which may be
  `req.query`. The model returns new parameters.
- RestRules.QueryString: the parameters keep their insertion order. JavaScript lists
  integer-like keys first, and the model does not.
- Renderer.ExpandFields: a `fields` value that is not a JSON object counts as no fields. Strings and
  arrays under `fields` are not modelled.
- Languages.GetLanguageArray assumes a stable sort, and puts every copy of the active language
  first.
- src/lib/meshTemplateFilters.ts is not part of this model, and neither is Mesh's
  registerTemplateFilters.
- src/lib/config.ts is not part of this model: `Config` is built from its fields, without the
  defaults.
- Mesh's one-line delegations are covered by the client or renderer member each one calls:
  - renderNode, renderView;
  - getNavigationByPath, getNavigationByUUID;
  - getTagFamilies, getTagsOfTagFamily;
  - get, request;
  - server.
- The client's meshSimpleGET and meshPOST are inlined into the request methods that use them.
- Json.JNum: numbers are integers. JavaScript numbers are doubles, so fractions, exponent forms
  such as "1e+21" and NaN, and what `String(n)` makes of them in query strings, are not modelled.
- MeshUtil.AsyncLoop: the items are a snapshot. asyncLoop re-reads the live `items.length`
  (src/lib/meshUtil.ts:60), so registering or unregistering a handler during a run changes that
  run. A handler that throws, or returns something that is not a promise, throws out of the first
  iteration or leaves a later one pending (src/lib/meshUtil.ts:61-67). `Outcome` expresses neither.
- UriEncoding.EncodeURIComponent and Utf8.Encode: Dafny strings hold Unicode scalar values, so a
  lone UTF-16 surrogate cannot occur. In the source, encodeURIComponent throws a URIError for one
  (src/lib/meshRestClient.ts:251), and Buffer turns it into U+FFFD (src/lib/meshRestClient.ts:68).
- RestRules.NavigationParams: the parameter object is not aliased. getNavigationByPath and
  getNavigationByUUID write maxDepth into the caller's object (src/lib/meshRestClient.ts:115 and
  124). The model returns new parameters.
- Renderer.RenderOutcome states the key, expansion, schema-rejection and render-information error
  branches in its own contract. The successful branch is stated by Renderer.RenderedView.
- Languages.Translate: only a table's own keys are found. translateFilter reads
  `langCache[language][input]` (src/lib/meshLanguages.ts:111-113), so inherited members such as
  "constructor", "toString" or "hasOwnProperty", and an array's or string's "length" and indices,
  are found there too. `Json.Lookup` reads own properties of objects only.
- Json.Lookup: property reads find own properties of objects only, not inherited or built-in ones.

## Findings

| source | as written | input that shows it | evidently intended | confidence | as-written member | corrected member |
|---|---|---|---|---|---|---|
| src/lib/meshRenderer.ts:172-174 | `Q.all(promises).then(...)` has no rejection handler, so when a field's rendering rejects the deferred is never settled and the request never gets a response | a page whose field "teaser" holds a node of schema "teaser" with one schema handler that rejects | the rejection reaches renderMeshNode's catch, which renders the 500 error view | high, not executed | Renderer.ExpandFieldsAsWritten, Renderer.RefusedTeaserStalls | Renderer.ExpandFields, Renderer.NestedRejectionStalls, Renderer.RenderOutcome, Renderer.RenderMeshNode, Mesh.Answer, Mesh.Mesh.HandleRequest |
| src/lib/meshRestClient.ts:162-167 | meshSearch assigns `opts.params.resolveLinks` to the optional params argument without defaulting it, so a search without params throws a TypeError | `meshSearch(req, query)` with no third argument (also `Mesh.searchNodes(req, query)`) | default the parameter object as meshSimpleRequest does | high, not executed | RestRules.SearchParamsAsWritten, RestRules.SearchWithoutParamsThrows | RestRules.SearchParams, RestClient.MeshRestClient.MeshSearch, Mesh.Mesh.SearchNodes |
