/**
 * The records the library passes around: the configuration (src/lib/config.ts), the public
 * user, and the Express request enriched with `meshConfig`.
 */
module MeshTypes {
  import opened Common
  import opened MeshUtil
  import opened Json

  /**
   * A query-parameter object (IMeshNodeListQueryParams, req.query): its own properties in
   * insertion order, each key at most once.
   */
  type Params = seq<(string, Json)>

  predicate HasKey(p: Params, k: string)
  {
    exists i :: 0 <= i < |p| && p[i].0 == k
  }

  /** Property read `p[k]`: None when p has no such own property. */
  function GetParam(p: Params, k: string): (r: Option<Json>)
    ensures r.Some? <==> HasKey(p, k)
  {
    if p == [] then None
    else if p[0].0 == k then Some(p[0].1)
    else
      assert forall i :: 1 <= i < |p| ==> p[1..][i - 1] == p[i];
      GetParam(p[1..], k)
  }

  /** The same read as a JavaScript value: a missing property is undefined. */
  function ParamValue(p: Params, k: string): (r: Js<Json>)
    ensures r.Undefined? <==> !HasKey(p, k)
  {
    match GetParam(p, k)
    case None => Undefined
    case Some(v) => AsJs(v)
  }

  /**
   * Property write `p[k] = v`: an existing property keeps its position, a new one goes last;
   * every other property keeps its value and position.
   */
  function SetParam(p: Params, k: string, v: Json): (r: Params)
    ensures GetParam(r, k) == Some(v)
    ensures forall k2 :: k2 != k ==> GetParam(r, k2) == GetParam(p, k2)
    ensures HasKey(p, k) ==> |r| == |p| && forall i :: 0 <= i < |p| ==> r[i].0 == p[i].0
    ensures !HasKey(p, k) ==> r == p + [(k, v)]
  {
    if p == [] then [(k, v)]
    else if p[0].0 == k then [(k, v)] + p[1..]
    else
      assert forall i :: 1 <= i < |p| ==> p[1..][i - 1] == p[i];
      var rest := SetParam(p[1..], k, v);
      assert HasKey(p[1..], k) <==> HasKey(p, k);
      [p[0]] + rest
  }

  /** MeshAuthUser: the user that requests run as when nobody is logged in. */
  datatype Credentials = Credentials(username: string, password: string)

  /**
   * MeshConfig. Only `languages` is ever changed after construction: getLanguageArray sorts it in
   * place, so it is the one mutable field.
   */
  class Config {
    const languageDirectory: Js<string>
    const backendUrl: string
    const base: string
    const webroot: string
    const navroot: string
    const project: string
    const checkPublished: bool
    const publicUser: Credentials
    const index: string
    const defaultErrorView: string
    const defaultView: string
    const development: bool
    var languages: seq<string>

    constructor (languageDirectory: Js<string>, backendUrl: string, base: string, webroot: string,
                 navroot: string, project: string, checkPublished: bool, publicUser: Credentials,
                 index: string, defaultErrorView: string, defaultView: string, development: bool,
                 languages: seq<string>)
      ensures this.languageDirectory == languageDirectory && this.backendUrl == backendUrl
      ensures this.base == base && this.webroot == webroot && this.navroot == navroot
      ensures this.project == project && this.checkPublished == checkPublished
      ensures this.publicUser == publicUser && this.index == index
      ensures this.defaultErrorView == defaultErrorView && this.defaultView == defaultView
      ensures this.development == development && this.languages == languages
    {
      this.languageDirectory := languageDirectory;
      this.backendUrl := backendUrl;
      this.base := base;
      this.webroot := webroot;
      this.navroot := navroot;
      this.project := project;
      this.checkPublished := checkPublished;
      this.publicUser := publicUser;
      this.index := index;
      this.defaultErrorView := defaultErrorView;
      this.defaultView := defaultView;
      this.development := development;
      this.languages := languages;
    }
  }

  /**
   * IMeshRequest: the parts of an Express request the library reads or writes. The session is
   * absent until a session middleware (or the library's polyfill) provides one; a session key
   * whose value is undefined is an absent key. `query` holds the query-string parameters.
   */
  class MeshRequest {
    var session: Option<map<string, string>>
    var meshConfig: Config?
    const query: Params
    const path: Option<string>

    constructor (session: Option<map<string, string>>, meshConfig: Config?, query: Params, path: Option<string>)
      ensures this.session == session && this.meshConfig == meshConfig
      ensures this.query == query && this.path == path
    {
      this.session := session;
      this.meshConfig := meshConfig;
      this.query := query;
      this.path := path;
    }
  }
}
