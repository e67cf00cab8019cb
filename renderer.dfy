/**
 * MeshRenderer of src/lib/meshRenderer.ts: schema keys, expansion of node-like fields into rendered
 * strings, the render information, and the choice of view on the normal and on the error path.
 * The template engine is a function from a view name and data to the rendered text (None when
 * rendering fails), and "the template exists" is membership in a set of view names.
 */
module Renderer {
  import opened Common
  import opened MeshUtil
  import opened Json
  import opened MeshTypes
  import opened HandlerStore
  import opened Languages
  import RestRules

  /** RenderInformation. */
  datatype RenderInfo = RenderInfo(activeLanguage: Js<string>, availableLanguages: seq<Json>,
                                   languageURLs: map<string, Js<Json>>, username: string, loggedin: bool)

  /** RenderData: the node, the render information and the `meta` object. */
  datatype RenderData = RenderData(node: Js<Json>, info: Option<RenderInfo>, meta: map<string, Json>)

  /**
   * What the renderer works with: the three stores' contents with what each handler does, the
   * views that exist and the template engine.
   */
  datatype Env = Env(
    schemaLists: map<string, seq<Handler>>,
    handleSchema: (Handler, Json) -> Outcome<Js<Json>>,
    viewHandlers: seq<Handler>,
    handleView: (Handler, RenderData) -> Outcome<Js<Json>>,
    errorSlots: map<int, Handler>,
    errorThrows: (Handler, Js<Json>, int) -> bool,
    views: set<string>,
    template: (string, Json) -> Option<string>)

  /** What ends up on the response. */
  datatype Emission =
    | Rendered(view: string, data: RenderData)
    | HandledByErrorHandler(status: int)
    | NoResponse
    | Piped

  /** The status the library last set on the response (None if it set none), and what it emitted. */
  datatype Reply = Reply(status: Option<int>, emission: Emission)

  /** The message object renderMeshNode reports when a node has no schema. */
  const NO_SCHEMA: Json := Object1("message", JStr("No schema found"))

  // ---------------------------------------------------------------------------------------------
  // Schema keys

  /** A reference's key: its name when defined, else its uuid (possibly undefined). */
  function RefKey(ref: Json): (k: Js<Json>)
    ensures IsDefined(Lookup(ref, "name")) ==> k == Lookup(ref, "name")
    ensures !IsDefined(Lookup(ref, "name")) ==> k == Lookup(ref, "uuid")
  {
    if IsDefined(Lookup(ref, "name")) then Lookup(ref, "name") else Lookup(ref, "uuid")
  }

  /**
   * getSchemaKey: the schema reference is preferred over the microschema reference and, within
   * it, the name over the uuid; undefined when neither reference exists.
   */
  function SchemaKey(node: Json): (k: Js<Json>)
    ensures IsDefined(Lookup(node, "schema")) ==> k == RefKey(Lookup(node, "schema").value)
    ensures !IsDefined(Lookup(node, "schema")) && IsDefined(Lookup(node, "microschema")) ==> k == RefKey(Lookup(node, "microschema").value)
    ensures !IsDefined(Lookup(node, "schema")) && !IsDefined(Lookup(node, "microschema")) ==> !IsDefined(k)
  {
    var ref := if IsDefined(Lookup(node, "schema")) then Lookup(node, "schema") else Lookup(node, "microschema");
    if IsDefined(ref) then RefKey(ref.value) else Undefined
  }

  /** renderMeshNode's key: looks only at the schema reference (an absent one reads as `{}`). */
  function RenderKey(node: Js<Json>): (k: Js<Json>)
    ensures IsDefined(k) ==> IsDefined(node)
  {
    var ref := if IsDefined(node) && IsDefined(Lookup(node.value, "schema")) then Lookup(node.value, "schema").value else JObj(map[]);
    RefKey(ref)
  }

  /**
   * The two keys agree on nodes with a schema reference; a node with only a microschema has a
   * schema key but no render key, so renderMeshNode reports it as having no schema.
   */
  lemma RenderKeyIgnoresMicroschema(node: Json)
    ensures IsDefined(Lookup(node, "schema")) ==> RenderKey(Defined(node)) == SchemaKey(node)
    ensures !IsDefined(Lookup(node, "schema")) ==> !IsDefined(RenderKey(Defined(node)))
  {
  }

  /** The string a key becomes as a view name or a store key. */
  function KeyName(k: Json): string
  {
    JsString(k)
  }

  // ---------------------------------------------------------------------------------------------
  // Field expansion

  /** A value renders as a nested node when it has a schema or a microschema reference. */
  predicate NodeLike(j: Json)
  {
    IsDefined(Lookup(j, "schema")) || IsDefined(Lookup(j, "microschema"))
  }

  /**
   * meshNodeToString: rejects with '' when the node has no key or its schema handlers fail;
   * otherwise resolves with the template's output, or '' when the template is missing or fails.
   * The node goes to the template as the handlers left it: its own fields are not expanded.
   */
  function NodeToString(env: Env, node: Json): (r: Settled<Json, Json>)
    ensures r.Rejected? ==> r.reason == JStr("")
    ensures r.Fulfilled? ==> r.value.JStr?
    ensures !IsDefined(SchemaKey(node)) ==> r.Rejected?
    ensures IsDefined(SchemaKey(node)) ==>
      (r.Rejected? <==> SchemaChain(env.schemaLists, KeyName(SchemaKey(node).value), node, env.handleSchema).Rejected?)
    ensures IsDefined(SchemaKey(node)) && r.Fulfilled? && KeyName(SchemaKey(node).value) !in env.views ==> r.value == JStr("")
    ensures r.Fulfilled? && r.value != JStr("") ==> env.template(KeyName(SchemaKey(node).value), node) == Some(r.value.s)
    ensures IsDefined(SchemaKey(node)) && KeyName(SchemaKey(node).value) in env.views
            && SchemaChain(env.schemaLists, KeyName(SchemaKey(node).value), node, env.handleSchema).Fulfilled? ==>
      var html := env.template(KeyName(SchemaKey(node).value), node);
      r == Fulfilled(JStr(if html.Some? then html.value else ""))
  {
    var key := SchemaKey(node);
    if !IsDefined(key) then Rejected(JStr(""))
    else
      var name := KeyName(key.value);
      var chain := SchemaChain(env.schemaLists, name, node, env.handleSchema);
      if chain.Rejected? then Rejected(JStr(""))
      else if name !in env.views then Fulfilled(JStr(""))
      else
        var html := env.template(name, chain.value);
        if html.Some? then Fulfilled(JStr(html.value)) else Fulfilled(JStr(""))
  }

  /** How resolving one field turns out. */
  datatype Resolution = Resolved(value: Json) | Failed(reason: Json) | Thrown(error: Json)

  /** A list element: node-like elements become their rendered string, others stay as they are. */
  function ResolveItem(env: Env, item: Json): Settled<Json, Json>
  {
    if NodeLike(item) then NodeToString(env, item) else Fulfilled(item)
  }

  /**
   * Q.all over the list elements (a null element throws a TypeError when its `.schema` is read).
   * Resolves with the elements resolved one by one, in order.
   */
  function ResolveList(env: Env, items: seq<Json>): (r: Resolution)
    ensures r.Thrown? <==> JNull in items
    ensures r.Thrown? ==> r.error == TYPE_ERROR
    ensures r.Failed? ==> r.reason == JStr("")
    ensures r.Resolved? ==> r.value.JArr? && |r.value.items| == |items|
  {
    if items == [] then Resolved(JArr([]))
    else
      var init := ResolveList(env, items[..|items| - 1]);
      var last := items[|items| - 1];
      assert items == items[..|items| - 1] + [last];
      if last == JNull || init.Thrown? then Thrown(TYPE_ERROR)
      else
        var item := ResolveItem(env, last);
        if init.Failed? || item.Rejected? then Failed(JStr(""))
        else Resolved(JArr(init.value.items + [item.value]))
  }

  /**
   * Without null elements the list rejects exactly when some element's rendering rejects, and
   * otherwise resolves with every element resolved in place.
   */
  lemma {:induction false} ResolveListElements(env: Env, items: seq<Json>)
    ensures ResolveList(env, items).Failed? <==> JNull !in items && exists i :: 0 <= i < |items| && ResolveItem(env, items[i]).Rejected?
    ensures ResolveList(env, items).Resolved? ==>
      forall i :: 0 <= i < |items| ==> ResolveItem(env, items[i]) == Fulfilled(ResolveList(env, items).value.items[i])
  {
    if items != [] {
      var init := items[..|items| - 1];
      ResolveListElements(env, init);
      assert items == init + [items[|items| - 1]];
      assert forall i :: 0 <= i < |init| ==> init[i] == items[i];
    }
  }

  /**
   * resolveField: a list is resolved element by element; a non-list node-like value becomes its
   * rendered string; anything else (including undefined and null) is returned unchanged.
   */
  function ResolveField(env: Env, field: Json): (r: Resolution)
    ensures field.JArr? ==> r == ResolveList(env, field.items)
    ensures !field.JArr? && field != JNull && NodeLike(field) ==>
      r == (var s := NodeToString(env, field); if s.Fulfilled? then Resolved(s.value) else Failed(s.reason))
    ensures !field.JArr? && !(field != JNull && NodeLike(field)) ==> r == Resolved(field)
    ensures r.Thrown? ==> r.error == TYPE_ERROR
    ensures r.Failed? ==> r.reason == JStr("")
  {
    if field.JArr? then ResolveList(env, field.items)
    else if field != JNull && NodeLike(field) then
      var s := NodeToString(env, field);
      if s.Fulfilled? then Resolved(s.value) else Failed(s.reason)
    else Resolved(field)
  }

  /** How expanding a node's fields turns out. */
  datatype Expansion = Expanded(node: Js<Json>) | ExpansionFailed(reason: Json) | ExpansionThrew(error: Json)

  /** The fields object of a node, when the node and its fields are defined objects. */
  function FieldsOf(node: Js<Json>): Option<map<string, Json>>
  {
    if IsDefined(node) && node.value.JObj? && IsDefined(Lookup(node.value, "fields")) && Lookup(node.value, "fields").value.JObj? then
      Some(Lookup(node.value, "fields").value.props)
    else None
  }

  /** The node with its fields object replaced. */
  function WithFields(node: Js<Json>, fields: map<string, Json>): Js<Json>
  {
    if node.Defined? && node.value.JObj? then Defined(JObj(node.value.props["fields" := JObj(fields)])) else node
  }

  /**
   * handleMicroNodeFields with rejections propagated: a node without fields comes back as it is;
   * a TypeError while resolving any field is thrown; a field whose resolution rejects rejects the
   * expansion; otherwise every field is replaced by its resolved value and the key set is kept.
   */
  function ExpandFields(env: Env, node: Js<Json>): (e: Expansion)
    ensures FieldsOf(node).None? ==> e == Expanded(node)
    ensures FieldsOf(node).Some? ==> var fs := FieldsOf(node).value;
      && (e.ExpansionThrew? <==> exists k :: k in fs && ResolveField(env, fs[k]).Thrown?)
      && (e.ExpansionFailed? <==> (forall k :: k in fs ==> !ResolveField(env, fs[k]).Thrown?) && exists k :: k in fs && ResolveField(env, fs[k]).Failed?)
      && (e.Expanded? ==> e.node == WithFields(node, map k | k in fs :: ResolveField(env, fs[k]).value))
    ensures e.ExpansionThrew? ==> e.error == TYPE_ERROR
    ensures e.ExpansionFailed? ==> e.reason == JStr("")
    ensures e.Expanded? ==> (IsDefined(e.node) <==> IsDefined(node))
  {
    if FieldsOf(node).None? then Expanded(node)
    else
      var fs := FieldsOf(node).value;
      if exists k :: k in fs && ResolveField(env, fs[k]).Thrown? then ExpansionThrew(TYPE_ERROR)
      else if exists k :: k in fs && ResolveField(env, fs[k]).Failed? then ExpansionFailed(JStr(""))
      else Expanded(WithFields(node, map k | k in fs :: ResolveField(env, fs[k]).value))
  }

  /**
   * handleMicroNodeFields as written: `Q.all(promises).then(...)` has no rejection handler, so
   * when a field's resolution rejects the returned promise never settles (None).
   */
  function ExpandFieldsAsWritten(env: Env, node: Js<Json>): (e: Option<Expansion>)
    ensures e.None? <==> ExpandFields(env, node).ExpansionFailed?
    ensures e.Some? ==> e.value == ExpandFields(env, node)
  {
    var x := ExpandFields(env, node);
    if x.ExpansionFailed? then None else Some(x)
  }

  /**
   * handleMicroNodeFields: resolves the fields one at a time in some key order, overwriting each
   * field with its resolved value; a TypeError aborts at once.
   */
  method HandleMicroNodeFields(env: Env, node: Js<Json>) returns (e: Expansion)
    ensures e == ExpandFields(env, node)
  {
    var given := FieldsOf(node);
    if given.None? {
      return Expanded(node);
    }
    var fs := given.value;
    var fields := fs;
    var remaining := fs.Keys;
    var failed := false;
    while remaining != {}
      invariant remaining <= fs.Keys
      invariant fields.Keys == fs.Keys
      invariant forall k :: k in fs && k !in remaining ==> !ResolveField(env, fs[k]).Thrown?
      invariant forall k :: k in fs && k !in remaining && ResolveField(env, fs[k]).Resolved? ==> fields[k] == ResolveField(env, fs[k]).value
      invariant forall k :: k in remaining ==> fields[k] == fs[k]
      invariant failed <==> exists k :: k in fs && k !in remaining && ResolveField(env, fs[k]).Failed?
      decreases |remaining|
    {
      var k :| k in remaining;
      var resolution := ResolveField(env, fields[k]);
      if resolution.Thrown? {
        ExpandThrewAt(env, node, k);
        return ExpansionThrew(resolution.error);
      } else if resolution.Failed? {
        failed := true;
      } else {
        fields := fields[k := resolution.value];
      }
      remaining := remaining - {k};
    }
    if failed {
      var k :| k in fs && ResolveField(env, fs[k]).Failed?;
      ExpandFailedAt(env, node, k);
      return ExpansionFailed(JStr(""));
    }
    ExpandResolved(env, node, fields);
    e := Expanded(WithFields(node, fields));
  }

  lemma ExpandResolved(env: Env, node: Js<Json>, fields: map<string, Json>)
    requires FieldsOf(node).Some? && fields.Keys == FieldsOf(node).value.Keys
    requires forall k :: k in FieldsOf(node).value ==> ResolveField(env, FieldsOf(node).value[k]).Resolved?
    requires forall k :: k in FieldsOf(node).value ==> fields[k] == ResolveField(env, FieldsOf(node).value[k]).value
    ensures ExpandFields(env, node) == Expanded(WithFields(node, fields))
  {
    var fs := FieldsOf(node).value;
    assert fields == map k | k in fs :: ResolveField(env, fs[k]).value;
  }

  lemma ExpandThrewAt(env: Env, node: Js<Json>, k: string)
    requires FieldsOf(node).Some? && k in FieldsOf(node).value
    requires ResolveField(env, FieldsOf(node).value[k]).Thrown?
    ensures ExpandFields(env, node) == ExpansionThrew(ResolveField(env, FieldsOf(node).value[k]).error)
  {
  }

  lemma ExpandFailedAt(env: Env, node: Js<Json>, k: string)
    requires FieldsOf(node).Some? && k in FieldsOf(node).value
    requires forall j :: j in FieldsOf(node).value ==> !ResolveField(env, FieldsOf(node).value[j]).Thrown?
    requires ResolveField(env, FieldsOf(node).value[k]).Failed?
    ensures ExpandFields(env, node) == ExpansionFailed(JStr(""))
  {
  }

  // ---------------------------------------------------------------------------------------------
  // Render information

  /** The URL recorded for one language: the node's languagePaths entry, or "?lang=" + code without a node. */
  function LanguageUrl(node: Js<Json>, paths: Js<Json>, lang: string): Js<Json>
  {
    if IsDefined(node) then (if IsDefined(paths) then Lookup(paths.value, lang) else Undefined)
    else Defined(JStr("?lang=" + lang))
  }

  /** The key names of a list: those of all but its last element, and the last one's. */
  lemma KeyNamesSnoc(langs: seq<Json>, init: seq<Json>)
    requires langs != [] && init == langs[..|langs| - 1]
    ensures (set i | 0 <= i < |langs| :: KeyName(langs[i])) ==
      (set i | 0 <= i < |init| :: KeyName(init[i])) + {KeyName(langs[|langs| - 1])}
  {
    assert forall i :: 0 <= i < |init| ==> init[i] == langs[i];
  }

  /** languageURLs after the forEach over the available languages. */
  function LanguageUrls(node: Js<Json>, paths: Js<Json>, langs: seq<Json>): (m: map<string, Js<Json>>)
    ensures m.Keys == set i | 0 <= i < |langs| :: KeyName(langs[i])
    ensures forall l :: l in m ==> m[l] == LanguageUrl(node, paths, l)
  {
    if langs == [] then map[]
    else
      var init := langs[..|langs| - 1];
      var m := LanguageUrls(node, paths, init);
      var key := KeyName(langs[|langs| - 1]);
      KeyNamesSnoc(langs, init);
      m[key := LanguageUrl(node, paths, key)]
  }

  /** Appending a language adds (or overwrites) exactly its own entry. */
  lemma LanguageUrlsSnoc(node: Js<Json>, paths: Js<Json>, langs: seq<Json>, lang: Json)
    ensures LanguageUrls(node, paths, langs + [lang]) ==
      LanguageUrls(node, paths, langs)[KeyName(lang) := LanguageUrl(node, paths, KeyName(lang))]
  {
    assert (langs + [lang])[..|langs|] == langs;
  }

  /** One entry per available language: no more entries than languages, and every language has one. */
  lemma LanguageUrlsCover(node: Js<Json>, paths: Js<Json>, langs: seq<Json>)
    ensures |LanguageUrls(node, paths, langs).Keys| <= |langs|
    ensures forall i :: 0 <= i < |langs| ==> KeyName(langs[i]) in LanguageUrls(node, paths, langs)
  {
    var keys := LanguageUrls(node, paths, langs).Keys;
    CardinalityOfImage(langs);
  }

  lemma {:induction false} CardinalityOfImage(langs: seq<Json>)
    ensures |set i | 0 <= i < |langs| :: KeyName(langs[i])| <= |langs|
  {
    if langs != [] {
      var init := langs[..|langs| - 1];
      CardinalityOfImage(init);
      assert forall i :: 0 <= i < |init| ==> init[i] == langs[i];
      assert (set i | 0 <= i < |langs| :: KeyName(langs[i])) == (set i | 0 <= i < |init| :: KeyName(init[i])) + {KeyName(langs[|langs| - 1])};
    }
  }

  /** The user shown: the session user when truthy, else the public user. */
  function DisplayedUser(session: map<string, string>, publicUser: Credentials): string
  {
    if RestRules.MESH_USER_SESSION_KEY in session && session[RestRules.MESH_USER_SESSION_KEY] != "" then session[RestRules.MESH_USER_SESSION_KEY]
    else publicUser.username
  }

  /** The languages a RenderInformation lists: the node's availableLanguages, or the configured ones. */
  function AvailableLanguages(node: Js<Json>, languages: seq<string>): Option<seq<Json>>
  {
    if IsDefined(node) then
      var avail := Lookup(node.value, "availableLanguages");
      if avail.Defined? && avail.value.JArr? then Some(avail.value.items) else None
    else Some(seq(|languages|, i requires 0 <= i < |languages| => JStr(languages[i])))
  }

  /**
   * The RenderInformation constructor: the active language; one language URL per available
   * language; the displayed user and whether it differs from the public user. Reading the
   * availableLanguages or languagePaths of a node that lacks them throws a TypeError.
   */
  function RenderInfoFor(session: map<string, string>, languages: seq<string>, publicUser: Credentials, node: Js<Json>): (r: Attempt<RenderInfo>)
    ensures r.Threw? ==> r.error == TYPE_ERROR && IsDefined(node)
    ensures r.Returned? ==> r.value.activeLanguage == ActiveLanguage(Some(session), languages)
    ensures r.Returned? ==> Some(r.value.availableLanguages) == AvailableLanguages(node, languages)
    ensures r.Returned? ==> forall i :: 0 <= i < |r.value.availableLanguages| ==> KeyName(r.value.availableLanguages[i]) in r.value.languageURLs
    ensures r.Returned? ==>
      r.value.languageURLs == LanguageUrls(node, if IsDefined(node) then Lookup(node.value, "languagePaths") else Undefined, r.value.availableLanguages)
    ensures r.Returned? ==> r.value.username == DisplayedUser(session, publicUser)
    ensures r.Returned? ==> (r.value.loggedin <==> r.value.username != publicUser.username)
    ensures !IsDefined(node) ==> r.Returned?
  {
    var langs := AvailableLanguages(node, languages);
    var paths := if IsDefined(node) then Lookup(node.value, "languagePaths") else Undefined;
    if langs.None? || (IsDefined(node) && langs.value != [] && !IsDefined(paths)) then Threw(TYPE_ERROR)
    else
      var user := DisplayedUser(session, publicUser);
      LanguageUrlsCover(node, paths, langs.value);
      Returned(RenderInfo(ActiveLanguage(Some(session), languages), langs.value,
        LanguageUrls(node, paths, langs.value), user, user != publicUser.username))
  }

  /** The forEach filling languageURLs, one available language at a time. */
  method FillLanguageUrls(node: Js<Json>, paths: Js<Json>, available: seq<Json>) returns (urls: map<string, Js<Json>>)
    ensures urls == LanguageUrls(node, paths, available)
  {
    urls := map[];
    var i := 0;
    while i < |available|
      invariant 0 <= i <= |available|
      invariant urls == LanguageUrls(node, paths, available[..i])
    {
      TakeNext(available, i);
      LanguageUrlsSnoc(node, paths, available[..i], available[i]);
      var lang := KeyName(available[i]);
      urls := urls[lang := LanguageUrl(node, paths, lang)];
      i := i + 1;
    }
    assert available[..i] == available;
  }

  /** The RenderInformation constructor, filling languageURLs one language at a time. */
  method BuildRenderInformation(req: MeshRequest, node: Js<Json>) returns (r: Attempt<RenderInfo>)
    requires req.meshConfig != null && req.session.Some?
    ensures r == RenderInfoFor(req.session.value, req.meshConfig.languages, req.meshConfig.publicUser, node)
  {
    var config := req.meshConfig;
    var active := ActiveLanguage(req.session, config.languages);
    var langs := AvailableLanguages(node, config.languages);
    if langs.None? {
      return Threw(TYPE_ERROR);
    }
    var available := langs.value;
    var paths := if IsDefined(node) then Lookup(node.value, "languagePaths") else Undefined;
    if IsDefined(node) && available != [] && !IsDefined(paths) {
      return Threw(TYPE_ERROR);
    }
    var urls := FillLanguageUrls(node, paths, available);
    var user := DisplayedUser(req.session.value, config.publicUser);
    r := Returned(RenderInfo(active, available, urls, user, user != config.publicUser.username));
    assert r == RenderInfoFor(req.session.value, config.languages, config.publicUser, node);
  }

  // ---------------------------------------------------------------------------------------------
  // Views

  /**
   * A view handler rejects with undefined or null: renderView's catch reads the reason's stack,
   * throws, and renders nothing.
   */
  predicate ViewHandlersAbort(env: Env, data: RenderData)
  {
    var o := RunHandlers(env.viewHandlers, data, env.handleView);
    o.Fail? && Nullish(o.reason)
  }

  /**
   * renderView: runs the view handlers on the data; the named view is rendered with the original
   * data on success and with meta.error = true when a handler rejects with a reason; a rejection
   * without one renders nothing.
   */
  function RenderView(env: Env, name: string, data: RenderData): (e: Emission)
    ensures e.Rendered? || e == NoResponse
    ensures e.Rendered? ==> e.view == name
    ensures e == NoResponse <==> ViewHandlersAbort(env, data)
    ensures RunHandlers(env.viewHandlers, data, env.handleView).Ok? ==> e == Rendered(name, data)
    ensures RunHandlers(env.viewHandlers, data, env.handleView).Fail? && !ViewHandlersAbort(env, data) ==>
      e == Rendered(name, data.(meta := data.meta["error" := JBool(true)]))
  {
    var o := RunHandlers(env.viewHandlers, data, env.handleView);
    if o.Ok? then Rendered(name, data)
    else if Nullish(o.reason) then NoResponse
    else Rendered(name, data.(meta := data.meta["error" := JBool(true)]))
  }

  /** The error view: the one named by the decimal status if it exists, else the default error view. */
  function ErrorView(env: Env, status: int, defaultErrorView: string): string
  {
    if DecimalString(status) in env.views then DecimalString(status) else defaultErrorView
  }

  /**
   * renderError: nothing further when the status's error handler succeeds; otherwise the status is
   * set and the error view rendered through renderView with meta.error = err. With an undefined
   * or null err, reading `err.stack` throws inside the rejection callback and nothing is rendered.
   * (renderView may still render nothing, when a view handler rejects without a reason.)
   */
  function RenderError(env: Env, defaultErrorView: string, status: int, err: Js<Json>, prior: Option<int>): (r: Reply)
    ensures ErrorHandled(env.errorSlots, status, err, env.errorThrows) ==> r == Reply(prior, HandledByErrorHandler(status))
    ensures !ErrorHandled(env.errorSlots, status, err, env.errorThrows) ==> r.status == Some(status)
    ensures !ErrorHandled(env.errorSlots, status, err, env.errorThrows) && Nullish(err) ==> r.emission == NoResponse
    ensures !ErrorHandled(env.errorSlots, status, err, env.errorThrows) && !Nullish(err) ==>
      r.emission == RenderView(env, ErrorView(env, status, defaultErrorView), RenderData(Undefined, None, map["error" := err.value]))
  {
    if ErrorHandled(env.errorSlots, status, err, env.errorThrows) then Reply(prior, HandledByErrorHandler(status))
    else if Nullish(err) then Reply(Some(status), NoResponse)
    else Reply(Some(status), RenderView(env, ErrorView(env, status, defaultErrorView), RenderData(Undefined, None, map["error" := err.value])))
  }

  /**
   * The error path runs the view handlers too: when one rejects with a reason, the error view
   * shows meta.error = true instead of the error; when one rejects without a reason, or the error
   * is null, nothing is rendered.
   */
  lemma ErrorPathRunsViewHandlers(env: Env, defaultErrorView: string, status: int, err: Json, prior: Option<int>)
    requires !ErrorHandled(env.errorSlots, status, Defined(err), env.errorThrows)
    ensures var data := RenderData(Undefined, None, map["error" := err]);
      var e := RenderError(env, defaultErrorView, status, Defined(err), prior).emission;
      && (err == JNull || ViewHandlersAbort(env, data) ==> e == NoResponse)
      && (err != JNull && RunHandlers(env.viewHandlers, data, env.handleView).Fail? && !ViewHandlersAbort(env, data) ==>
            e.Rendered? && e.data.meta["error"] == JBool(true))
  {
  }

  // ---------------------------------------------------------------------------------------------
  // renderMeshNode

  /** The session after getRenderData's setActiveLanguage(req, node.language). */
  function NodeLanguageSet(session: Option<map<string, string>>, languages: seq<string>, node: Json): Option<map<string, string>>
  {
    var lang := Lookup(node, "language");
    if lang.Defined? && lang.value.JStr? then WithLanguage(session, languages, lang.value.s) else session
  }

  /**
   * What renderMeshNode does for a node, with the session it leaves behind:
   * no render key: renderError(500, {message: 'No schema found'});
   * a TypeError while expanding fields: thrown to the caller;
   * a rejected field or schema handler: renderError(500, reason);
   * otherwise the session language follows the node, and the view named after the key (or the
   * default view) is rendered with the render data; a TypeError building it goes to renderError.
   */
  function RenderOutcome(env: Env, config: Config, session: Option<map<string, string>>, node: Js<Json>, prior: Option<int>): (r: (Attempt<Reply>, Option<map<string, string>>))
    reads config
    requires session.Some?
    ensures r.1.Some?
    ensures !IsDefined(RenderKey(node)) ==> r == (Returned(RenderError(env, config.defaultErrorView, STATUS_ERROR, Defined(NO_SCHEMA), prior)), session)
    ensures r.0.Threw? <==> IsDefined(RenderKey(node)) && ExpandFields(env, node).ExpansionThrew?
    ensures IsDefined(RenderKey(node)) && ExpandFields(env, node).ExpansionFailed? ==>
      r == (Returned(RenderError(env, config.defaultErrorView, STATUS_ERROR, Defined(JStr("")), prior)), session)
    ensures IsDefined(RenderKey(node)) && ExpandFields(env, node).Expanded? ==>
      var n := ExpandFields(env, node).node.value;
      var chain := SchemaChain(env.schemaLists, KeyName(RenderKey(node).value), n, env.handleSchema);
      && (chain.Rejected? ==> r == (Returned(RenderError(env, config.defaultErrorView, STATUS_ERROR, chain.reason, prior)), session))
      && (chain.Fulfilled? && RenderInfoFor(NodeLanguageSet(session, config.languages, n).value, config.languages, config.publicUser, Defined(n)).Threw? ==>
            r == (Returned(RenderError(env, config.defaultErrorView, STATUS_ERROR, Defined(TYPE_ERROR), prior)),
                  NodeLanguageSet(session, config.languages, n)))
  {
    var key := RenderKey(node);
    if !IsDefined(key) then (Returned(RenderError(env, config.defaultErrorView, STATUS_ERROR, Defined(NO_SCHEMA), prior)), session)
    else
      var expansion := ExpandFields(env, node);
      match expansion
      case ExpansionThrew(err) => (Threw(err), session)
      case ExpansionFailed(reason) => (Returned(RenderError(env, config.defaultErrorView, STATUS_ERROR, Defined(reason), prior)), session)
      case Expanded(expanded) =>
        // A render key implies a defined node, and expansion keeps the node defined.
        assert expanded.Defined?;
        var name := KeyName(key.value);
          var chain := SchemaChain(env.schemaLists, name, expanded.value, env.handleSchema);
          if chain.Rejected? then (Returned(RenderError(env, config.defaultErrorView, STATUS_ERROR, chain.reason, prior)), session)
          else
            var after := NodeLanguageSet(session, config.languages, chain.value);
            var info := RenderInfoFor(after.value, config.languages, config.publicUser, Defined(chain.value));
            if info.Threw? then (Returned(RenderError(env, config.defaultErrorView, STATUS_ERROR, Defined(info.error), prior)), after)
            else
              var view := if name in env.views then name else config.defaultView;
              (Returned(Reply(prior, RenderView(env, view, RenderData(Defined(chain.value), Some(info.value), map[])))), after)
  }

  /**
   * A node whose key, fields and schema handlers all succeed, and whose render information can be
   * built, is rendered in the view named after its key (or the default view when that does not
   * exist) with the handled node and its render information, leaving the status as it was;
   * unless a view handler rejects without a reason, and then nothing is rendered.
   */
  lemma RenderedView(env: Env, config: Config, session: Option<map<string, string>>, node: Js<Json>, prior: Option<int>)
    requires session.Some?
    requires IsDefined(RenderKey(node)) && ExpandFields(env, node).Expanded?
    requires var n := ExpandFields(env, node).node.value;
      SchemaChain(env.schemaLists, KeyName(RenderKey(node).value), n, env.handleSchema).Fulfilled?
      && RenderInfoFor(NodeLanguageSet(session, config.languages, n).value, config.languages, config.publicUser, Defined(n)).Returned?
    ensures var n := ExpandFields(env, node).node.value;
      var name := KeyName(RenderKey(node).value);
      var info := RenderInfoFor(NodeLanguageSet(session, config.languages, n).value, config.languages, config.publicUser, Defined(n)).value;
      var r := RenderOutcome(env, config, session, node, prior);
      var data := RenderData(Defined(n), Some(info), map[]);
      && r.0.Returned? && r.0.value.status == prior
      && (ViewHandlersAbort(env, data) ==> r.0.value.emission == NoResponse)
      && (!ViewHandlersAbort(env, data) ==>
            && r.0.value.emission.Rendered?
            && r.0.value.emission.view == (if name in env.views then name else config.defaultView)
            && r.0.value.emission.data.node == Defined(n) && r.0.value.emission.data.info == Some(info))
      && r.1 == NodeLanguageSet(session, config.languages, n)
  {
  }

  /**
   * A schema handler that rejects with undefined or null, when no error handler takes it, leaves
   * the response with status 500 and nothing rendered: renderError cannot read the reason's stack.
   * With a defined reason and no error handler, the error view is rendered with that reason as meta.error.
   */
  lemma SchemaRejectionReason(env: Env, config: Config, session: Option<map<string, string>>, node: Js<Json>, prior: Option<int>)
    requires session.Some? && IsDefined(RenderKey(node))
    requires ExpandFields(env, node).Expanded? && ExpandFields(env, node).node.Defined?
    requires var n := ExpandFields(env, node).node.value;
      SchemaChain(env.schemaLists, KeyName(RenderKey(node).value), n, env.handleSchema).Rejected?
    requires var n := ExpandFields(env, node).node.value;
      var reason := SchemaChain(env.schemaLists, KeyName(RenderKey(node).value), n, env.handleSchema).reason;
      !ErrorHandled(env.errorSlots, STATUS_ERROR, reason, env.errorThrows)
    ensures var n := ExpandFields(env, node).node.value;
      var reason := SchemaChain(env.schemaLists, KeyName(RenderKey(node).value), n, env.handleSchema).reason;
      var r := RenderOutcome(env, config, session, node, prior);
      && r.1 == session
      && (Nullish(reason) ==> r.0 == Returned(Reply(Some(STATUS_ERROR), NoResponse)))
      && (!Nullish(reason) ==>
            (r.0.Returned? && r.0.value.status == Some(STATUS_ERROR)
             && r.0.value.emission == RenderView(env, ErrorView(env, STATUS_ERROR, config.defaultErrorView),
                                                 RenderData(Undefined, None, map["error" := reason.value]))))
  {
  }

  /**
   * As written, a field whose rendering rejects (a nested node's schema handler fails) leaves
   * the expansion pending forever; with rejections propagated the page is the 500 error view.
   */
  lemma NestedRejectionStalls(env: Env, config: Config, session: Option<map<string, string>>, node: Js<Json>, prior: Option<int>, k: string)
    requires session.Some? && IsDefined(RenderKey(node))
    requires FieldsOf(node).Some? && k in FieldsOf(node).value && ResolveField(env, FieldsOf(node).value[k]).Failed?
    requires forall j :: j in FieldsOf(node).value ==> !ResolveField(env, FieldsOf(node).value[j]).Thrown?
    ensures ExpandFieldsAsWritten(env, node).None?
    ensures RenderOutcome(env, config, session, node, prior).0 == Returned(RenderError(env, config.defaultErrorView, STATUS_ERROR, Defined(JStr("")), prior))
  {
  }

  /**
   * A page whose "teaser" field holds a node of schema "teaser" with one refusing schema
   * handler: as written its expansion never settles.
   */
  lemma RefusedTeaserStalls()
    ensures var teaser := Object1("schema", Object1("name", JStr("teaser")));
      var page := Defined(JObj(map["schema" := Object1("name", JStr("page")), "fields" := Object1("teaser", teaser)]));
      var env := Env(map["teaser" := [Handler(0)]], (h: Handler, j: Json) => Fail(Defined(JStr("refused"))), [],
        (h: Handler, d: RenderData) => Ok, map[], (h: Handler, e: Js<Json>, s: int) => false, {}, (v: string, j: Json) => None);
      ExpandFieldsAsWritten(env, page).None? && ExpandFields(env, page) == ExpansionFailed(JStr(""))
  {
    var teaser := Object1("schema", Object1("name", JStr("teaser")));
    var page := Defined(JObj(map["schema" := Object1("name", JStr("page")), "fields" := Object1("teaser", teaser)]));
    var env := Env(map["teaser" := [Handler(0)]], (h: Handler, j: Json) => Fail(Defined(JStr("refused"))), [],
      (h: Handler, d: RenderData) => Ok, map[], (h: Handler, e: Js<Json>, s: int) => false, {}, (v: string, j: Json) => None);
    assert SchemaKey(teaser) == Defined(JStr("teaser"));
    assert SchemaChain(env.schemaLists, "teaser", teaser, env.handleSchema).Rejected?;
    var fs := FieldsOf(page).value;
    assert fs == map["teaser" := teaser];
    assert ResolveField(env, fs["teaser"]) == Failed(JStr(""));
    ExpandFailedAt(env, page, "teaser");
  }

  /** renderMeshNode on a request: the same steps, writing the session language and building the render data. */
  method RenderMeshNode(env: Env, req: MeshRequest, node: Js<Json>, prior: Option<int>) returns (r: Attempt<Reply>)
    requires req.meshConfig != null && req.session.Some?
    modifies req
    ensures req.meshConfig == old(req.meshConfig)
    ensures (r, req.session) == RenderOutcome(env, req.meshConfig, old(req.session), node, prior)
  {
    var config := req.meshConfig;
    var key := RenderKey(node);
    if !IsDefined(key) {
      return Returned(RenderError(env, config.defaultErrorView, STATUS_ERROR, Defined(NO_SCHEMA), prior));
    }
    var expansion := HandleMicroNodeFields(env, node);
    if expansion.ExpansionThrew? {
      return Threw(expansion.error);
    }
    if expansion.ExpansionFailed? {
      return Returned(RenderError(env, config.defaultErrorView, STATUS_ERROR, Defined(expansion.reason), prior));
    }
    var expanded := expansion.node;
    // A render key implies a defined node, and expansion keeps the node defined.
    assert expanded.Defined?;
    var name := KeyName(key.value);
    var chain := SchemaChain(env.schemaLists, name, expanded.value, env.handleSchema);
    if chain.Rejected? {
      return Returned(RenderError(env, config.defaultErrorView, STATUS_ERROR, chain.reason, prior));
    }
    var lang := Lookup(chain.value, "language");
    if lang.Defined? && lang.value.JStr? {
      SetActiveLanguage(req, lang.value.s);
    }
    var info := BuildRenderInformation(req, Defined(chain.value));
    if info.Threw? {
      return Returned(RenderError(env, config.defaultErrorView, STATUS_ERROR, Defined(info.error), prior));
    }
    var view := if name in env.views then name else config.defaultView;
    r := Returned(Reply(prior, RenderView(env, view, RenderData(Defined(chain.value), Some(info.value), map[]))));
  }
}
