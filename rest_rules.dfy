/**
 * The request and response rules of src/lib/meshRestClient.ts that do not depend on the client's
 * state: the Basic authorization header, the query string, the session-cookie capture, the
 * classification of a backend response, the publish check, URL prefixing and parameter defaults.
 */
module RestRules {
  import opened Common
  import opened MeshUtil
  import opened Json
  import opened MeshTypes
  import Utf8
  import Base64
  import UriEncoding

  const MESH_USER_SESSION_KEY: string := "meshusername"
  const MESH_PASSWORD_SESSION_KEY: string := "meshpassword"
  const NODES_ENDPOINT: string := "/nodes/"
  const NAVIGATION_ENDPOINT: string := "/navigation"
  const TAG_FAMILIES_ENDPOINT: string := "/tagFamilies"
  const RESOLVE_LINKS: string := "resolveLinks"
  const LANG_PARAM: string := "lang"
  const MAX_DEPTH: string := "maxDepth"
  const DEFAULT_MAX_DEPTH: int := 10
  const NOT_FOUND: int := 404

  // ---------------------------------------------------------------------------------------------
  // MeshAuth: Basic authorization (section 2 of RFC 7617, Base64 of section 4 of RFC 4648)

  /** getBasicAuthHeader: "Basic " followed by the Base64 of the UTF-8 bytes of "user:password". */
  function BasicAuthHeader(username: string, password: string): (h: string)
    ensures |h| >= 6 && h[..6] == "Basic "
  {
    "Basic " + Base64.Encode(Utf8.Encode(username + ":" + password))
  }

  /** How a server reads a Basic header: the user-id ends at the first colon. */
  function ParseBasicAuth(h: string): Option<Credentials>
  {
    if |h| < 6 || h[..6] != "Basic " then None
    else
      var bytes := Base64.Decode(h[6..]);
      if bytes.None? then None
      else
        var text := Utf8.Decode(bytes.value);
        if text.None? then None
        else
          var i := IndexOf(text.value, ':');
          if i < 0 then None else Some(Credentials(text.value[..i], text.value[i + 1..]))
  }

  /** The header carries exactly the user and password it was made from, for a user-id without ':'. */
  lemma BasicAuthRoundTrip(username: string, password: string)
    requires ':' !in username
    ensures ParseBasicAuth(BasicAuthHeader(username, password)) == Some(Credentials(username, password))
  {
    var t := username + ":" + password;
    var h := BasicAuthHeader(username, password);
    assert h[6..] == Base64.Encode(Utf8.Encode(t));
    Base64.DecodeEncode(Utf8.Encode(t));
    Utf8.DecodeEncode(t);
    assert t[|username|] == ':';
    assert t[..|username|] == username;
    IndexOfAt(t, ':', |username|);
    assert t[|username| + 1..] == password;
  }

  /**
   * MeshAuth's choice of user: the session's credentials when both are defined, the configured
   * public user otherwise.
   */
  function AuthCredentials(session: map<string, string>, publicUser: Credentials): (c: Credentials)
    ensures MESH_USER_SESSION_KEY in session && MESH_PASSWORD_SESSION_KEY in session ==>
      c == Credentials(session[MESH_USER_SESSION_KEY], session[MESH_PASSWORD_SESSION_KEY])
    ensures !(MESH_USER_SESSION_KEY in session && MESH_PASSWORD_SESSION_KEY in session) ==> c == publicUser
  {
    if MESH_USER_SESSION_KEY in session && MESH_PASSWORD_SESSION_KEY in session then
      Credentials(session[MESH_USER_SESSION_KEY], session[MESH_PASSWORD_SESSION_KEY])
    else publicUser
  }

  /** The Authorization header a request of this session sends. */
  function AuthHeader(session: map<string, string>, publicUser: Credentials): string
  {
    var c := AuthCredentials(session, publicUser);
    BasicAuthHeader(c.username, c.password)
  }

  /** The backend sees the session's user when both credentials are set, the public user otherwise. */
  lemma AuthHeaderIdentifiesUser(session: map<string, string>, publicUser: Credentials)
    requires ':' !in AuthCredentials(session, publicUser).username
    ensures ParseBasicAuth(AuthHeader(session, publicUser)) == Some(AuthCredentials(session, publicUser))
  {
    var c := AuthCredentials(session, publicUser);
    BasicAuthRoundTrip(c.username, c.password);
  }

  // ---------------------------------------------------------------------------------------------
  // queryStringFromParams (percent-encoding of encodeURIComponent)

  /** One `key=value` pair: the key as is, the value converted to a string and percent-encoded. */
  function Pair(kv: (string, Json)): string
  {
    kv.0 + "=" + UriEncoding.EncodeURIComponent(JsString(kv.1))
  }

  /** The pairs joined by "&", with no trailing separator. */
  function JoinPairs(p: Params): string
    requires p != []
  {
    if |p| == 1 then Pair(p[0]) else JoinPairs(p[..|p| - 1]) + "&" + Pair(p[|p| - 1])
  }

  /** The query string of a parameter object: "" for none, else "?" and the joined pairs. */
  function QueryString(p: Params): (r: string)
    ensures r == "" <==> p == []
    ensures r != "" ==> r[0] == '?'
  {
    if p == [] then "" else "?" + JoinPairs(p)
  }

  /** The parameters as a server decodes them: each key with its value's string form. */
  function AsStrings(p: Params): (r: seq<(string, string)>)
    ensures |r| == |p|
    ensures forall i :: 0 <= i < |p| ==> r[i] == (p[i].0, JsString(p[i].1))
  {
    seq(|p|, i requires 0 <= i < |p| => (p[i].0, JsString(p[i].1)))
  }

  /** Splits one pair at its first '=' and percent-decodes the value. */
  function ParsePair(s: string): Option<(string, string)>
  {
    var i := IndexOf(s, '=');
    if i < 0 then None
    else
      var v := UriEncoding.DecodeURIComponent(s[i + 1..]);
      if v.None? then None else Some((s[..i], v.value))
  }

  /** Splits at every '&' and parses each pair. */
  function ParsePairs(s: string): Option<seq<(string, string)>>
    decreases |s|
  {
    var j := LastIndexOf(s, '&');
    if j < 0 then
      var kv := ParsePair(s);
      if kv.None? then None else Some([kv.value])
    else
      var init := ParsePairs(s[..j]);
      var kv := ParsePair(s[j + 1..]);
      if init.None? || kv.None? then None else Some(init.value + [kv.value])
  }

  /** How a server reads a query string. */
  function ParseQuery(qs: string): Option<seq<(string, string)>>
  {
    if qs == "" then Some([])
    else if qs[0] == '?' then ParsePairs(qs[1..])
    else None
  }

  /** Keys are written unencoded, so they must not contain the separators for a round trip. */
  predicate PlainKeys(p: Params)
  {
    forall i :: 0 <= i < |p| ==> '&' !in p[i].0 && '=' !in p[i].0
  }

  /** Parsing one pair splits at the '=' after the key and decodes the rest. */
  lemma ParsePairAt(k: string, v: string)
    requires '=' !in k
    ensures ParsePair(k + "=" + v) ==
      var d := UriEncoding.DecodeURIComponent(v); if d.None? then None else Some((k, d.value))
  {
    var s := k + "=" + v;
    assert s[|k|] == '=';
    assert s[..|k|] == k;
    IndexOfAt(s, '=', |k|);
    assert s[|k| + 1..] == v;
  }

  /** An encoded value holds no separator. */
  lemma EncodedHasNoSeparator(t: string)
    ensures '&' !in UriEncoding.EncodeURIComponent(t) && '=' !in UriEncoding.EncodeURIComponent(t)
  {
    var e := UriEncoding.EncodeURIComponent(t);
    assert forall i :: 0 <= i < |e| ==> UriEncoding.IsUnescaped(e[i]) || e[i] == '%';
  }

  lemma PairRoundTrip(kv: (string, Json))
    requires '&' !in kv.0 && '=' !in kv.0
    ensures '&' !in Pair(kv)
    ensures ParsePair(Pair(kv)) == Some((kv.0, JsString(kv.1)))
  {
    var e := UriEncoding.EncodeURIComponent(JsString(kv.1));
    EncodedHasNoSeparator(JsString(kv.1));
    ParsePairAt(kv.0, e);
    UriEncoding.EncodeRoundTrip(JsString(kv.1));
  }

  /** Parsing splits at the last '&' when the last pair has none. */
  lemma ParsePairsSplit(a: string, b: string)
    requires '&' !in b
    ensures var init, kv := ParsePairs(a), ParsePair(b);
      ParsePairs(a + "&" + b) == if init.None? || kv.None? then None else Some(init.value + [kv.value])
  {
    var s := a + "&" + b;
    assert s[|a|] == '&';
    assert s[|a| + 1..] == b;
    LastIndexOfAt(s, '&', |a|);
    assert s[..|a|] == a;
  }

  lemma AsStringsSnoc(p: Params)
    requires p != []
    ensures AsStrings(p) == AsStrings(p[..|p| - 1]) + [(p[|p| - 1].0, JsString(p[|p| - 1].1))]
  {
  }

  /** One step of the serialisation loop: appending a pair and its separator. */
  lemma QueryStep(params: Params, i: nat)
    requires i < |params|
    ensures i == 0 ==> "?" + Pair(params[0]) + "&" == "?" + JoinPairs(params[..1]) + "&"
    ensures i > 0 ==> "?" + JoinPairs(params[..i]) + "&" + Pair(params[i]) + "&" == "?" + JoinPairs(params[..i + 1]) + "&"
  {
    if i > 0 {
      JoinPairsPrefix(params, i);
      AppendPairAssoc("?", JoinPairs(params[..i]), Pair(params[i]));
    } else {
      assert params[..1] == [params[0]];
    }
  }

  /** The pairs of a longer prefix are those of the shorter one, a separator and the next pair. */
  lemma JoinPairsPrefix(params: Params, i: nat)
    requires 0 < i < |params|
    ensures JoinPairs(params[..i + 1]) == JoinPairs(params[..i]) + "&" + Pair(params[i])
  {
    var next := params[..i + 1];
    assert next[..i] == params[..i];
    assert next[i] == params[i];
  }

  lemma AppendPairAssoc(x: string, a: string, b: string)
    ensures x + a + "&" + b + "&" == x + (a + "&" + b) + "&"
  {
  }

  lemma JoinPairsSnoc(p: Params)
    requires |p| > 1
    ensures JoinPairs(p) == JoinPairs(p[..|p| - 1]) + "&" + Pair(p[|p| - 1])
  {
  }

  /** Parsing the joined pairs parses the ones before the last, then the last pair on its own. */
  lemma JoinPairsStep(p: Params)
    requires |p| > 1 && '&' !in p[|p| - 1].0 && '=' !in p[|p| - 1].0
    ensures var init := ParsePairs(JoinPairs(p[..|p| - 1]));
      ParsePairs(JoinPairs(p)) == if init.None? then None else Some(init.value + [(p[|p| - 1].0, JsString(p[|p| - 1].1))])
  {
    var last := p[|p| - 1];
    PairRoundTrip(last);
    JoinPairsSnoc(p);
    ParsePairsSplit(JoinPairs(p[..|p| - 1]), Pair(last));
  }

  lemma {:induction false} JoinPairsRoundTrip(p: Params)
    requires p != [] && PlainKeys(p)
    ensures ParsePairs(JoinPairs(p)) == Some(AsStrings(p))
    decreases |p|
  {
    if |p| == 1 {
      PairRoundTrip(p[0]);
      assert AsStrings(p) == [(p[0].0, JsString(p[0].1))];
    } else {
      var init := p[..|p| - 1];
      assert PlainKeys(init) by {
        assert forall i :: 0 <= i < |init| ==> init[i] == p[i];
      }
      JoinPairsRoundTrip(init);
      JoinPairsStep(p);
      AsStringsSnoc(p);
    }
  }

  /** A server parsing the query string recovers every parameter in order. */
  lemma QueryStringRoundTrip(p: Params)
    requires PlainKeys(p)
    ensures ParseQuery(QueryString(p)) == Some(AsStrings(p))
  {
    if p != [] {
      JoinPairsRoundTrip(p);
      assert QueryString(p)[1..] == JoinPairs(p);
    }
  }

  // ---------------------------------------------------------------------------------------------
  // Session cookie capture (the cookie-pair of section 4.1.1 of RFC 6265) and replay (section 5.4)

  const SESSION_COOKIE: string := "mesh.session"

  /**
   * `cookie.substring(0, cookie.indexOf(';'))`: the text before the first ';', or the empty string
   * when there is no ';' (a negative end clamps to 0).
   */
  function CookiePair(entry: string): (r: string)
    ensures r <= entry && ';' !in r
    ensures ';' in entry ==> entry[|r|] == ';'
    ensures ';' !in entry ==> r == ""
  {
    var i := IndexOf(entry, ';');
    if i < 0 then "" else entry[..i]
  }

  /** The pair stored for a Set-Cookie list: that of the last entry mentioning the session cookie. */
  function LastSessionCookie(entries: seq<string>): (r: Option<string>)
    ensures r.Some? ==> ';' !in r.value
  {
    if entries == [] then None
    else
      var last := entries[|entries| - 1];
      if Contains(last, SESSION_COOKIE) then Some(CookiePair(last))
      else LastSessionCookie(entries[..|entries| - 1])
  }

  /** Nothing is captured iff no entry mentions the session cookie. */
  lemma {:induction false} LastSessionCookieNone(entries: seq<string>)
    ensures LastSessionCookie(entries).None? <==> forall i :: 0 <= i < |entries| ==> !Contains(entries[i], SESSION_COOKIE)
  {
    if entries != [] {
      var init := entries[..|entries| - 1];
      LastSessionCookieNone(init);
      assert forall i :: 0 <= i < |init| ==> init[i] == entries[i];
    }
  }

  /** Entry i mentions the session cookie and no later entry does. */
  predicate LastMentionAt(entries: seq<string>, i: int)
  {
    0 <= i < |entries| && Contains(entries[i], SESSION_COOKIE)
    && forall k :: i < k < |entries| ==> !Contains(entries[k], SESSION_COOKIE)
  }

  lemma LastMentionExtend(init: seq<string>, entry: string, i: int)
    requires LastMentionAt(init, i) && !Contains(entry, SESSION_COOKIE)
    ensures LastMentionAt(init + [entry], i)
  {
    var entries := init + [entry];
    forall k | i < k < |entries|
      ensures !Contains(entries[k], SESSION_COOKIE)
    {
      if k < |init| {
        assert entries[k] == init[k];
      }
    }
  }

  /**
   * Nothing is captured iff no entry mentions the session cookie; otherwise the pair of the
   * last mentioning entry is captured.
   */
  lemma {:induction false} LastSessionCookieSpec(entries: seq<string>)
    ensures LastSessionCookie(entries).None? <==> forall i :: 0 <= i < |entries| ==> !Contains(entries[i], SESSION_COOKIE)
    ensures LastSessionCookie(entries).Some? ==>
      exists i :: LastMentionAt(entries, i) && LastSessionCookie(entries).value == CookiePair(entries[i])
  {
    LastSessionCookieNone(entries);
    LastSessionCookieWitness(entries);
  }

  lemma {:induction false} LastSessionCookieWitness(entries: seq<string>)
    ensures LastSessionCookie(entries).Some? ==>
      exists i :: LastMentionAt(entries, i) && LastSessionCookie(entries).value == CookiePair(entries[i])
  {
    if entries != [] {
      var n := |entries| - 1;
      if Contains(entries[n], SESSION_COOKIE) {
        assert LastMentionAt(entries, n);
      } else {
        LastSessionCookieWitness(entries[..n]);
        if LastSessionCookie(entries[..n]).Some? {
          LastSessionCookieSkip(entries);
        }
      }
    }
  }

  lemma LastSessionCookieSkip(entries: seq<string>)
    requires entries != [] && !Contains(entries[|entries| - 1], SESSION_COOKIE)
    requires var init := entries[..|entries| - 1];
      LastSessionCookie(init).Some? &&
      exists i :: LastMentionAt(init, i) && LastSessionCookie(init).value == CookiePair(init[i])
    ensures LastSessionCookie(entries).Some? &&
      exists i :: LastMentionAt(entries, i) && LastSessionCookie(entries).value == CookiePair(entries[i])
  {
    var n := |entries| - 1;
    var init := entries[..n];
    assert LastSessionCookie(entries) == LastSessionCookie(init);
    var i :| LastMentionAt(init, i) && LastSessionCookie(init).value == CookiePair(init[i]);
    assert entries == init + [entries[n]];
    LastMentionExtend(init, entries[n], i);
  }

  /** Only the last matching entry counts: a later match replaces whatever was captured before. */
  lemma LastSessionCookieAppend(entries: seq<string>, entry: string)
    ensures LastSessionCookie(entries + [entry]) ==
      if Contains(entry, SESSION_COOKIE) then Some(CookiePair(entry)) else LastSessionCookie(entries)
  {
    assert (entries + [entry])[..|entries|] == entries;
  }

  /** The cookie store after a response: the captured pair, if any, stored under the auth header. */
  function Stored(store: map<string, string>, authHeader: string, captured: Option<string>): (r: map<string, string>)
    ensures captured.Some? ==> authHeader in r && r[authHeader] == captured.value
    ensures forall h :: h != authHeader ==> (h in r <==> h in store) && (h in store ==> r[h] == store[h])
    ensures captured.None? ==> r == store
  {
    if captured.Some? then store[authHeader := captured.value] else store
  }

  // ---------------------------------------------------------------------------------------------
  // Responses

  /** MeshRestResponse. `data` is undefined for binary responses. */
  datatype RestResponse = RestResponse(status: int, data: Js<Json>, isBinary: bool)

  /**
   * What came back for one request: a response (status, the Set-Cookie list if any, whether a
   * Content-Disposition header is present, and JSON.parse of the body, None when it throws), or
   * a transport error raised by the request itself.
   */
  datatype Exchange =
    | Received(status: int, setCookie: Js<seq<string>>, contentDisposition: bool, body: Option<Json>)
    | TransportFailed(error: Json)

  /** The exception caught around parsing, with the `parseError` note the library adds. */
  function ParseFailure(name: string): Json
  {
    JObj(map["name" := JStr(name), "parseError" := JStr("Error while parsing json")])
  }

  /** An application error: `result.error` is truthy or `result.success == 0`. */
  predicate AppError(j: Json)
  {
    Truthy(Lookup(j, "error")) || LooseEqualsZero(Lookup(j, "success"))
  }

  /** `result.error || 'Unknown error'`. */
  function ErrorOrUnknown(j: Json): (r: Js<Json>)
    ensures Truthy(r)
  {
    if Truthy(Lookup(j, "error")) then Lookup(j, "error") else Defined(JStr("Unknown error"))
  }

  /**
   * How makeMeshRequest settles for an exchange: a response with Content-Disposition resolves as
   * binary without parsing; an application error rejects with the original status and the error
   * (or 'Unknown error'); any other JSON resolves whatever the status; a body that does not parse
   * (or parses to null, whose `.error` throws) rejects with the status; a transport error rejects
   * with status 500.
   */
  function Classify(x: Exchange): (r: Settled<RestResponse, RestResponse>)
    ensures x.TransportFailed? ==> r == Rejected(RestResponse(STATUS_ERROR, Defined(x.error), false))
    ensures x.Received? && x.contentDisposition ==> r == Fulfilled(RestResponse(x.status, Undefined, true))
    ensures (r.Fulfilled? && r.value.isBinary) <==> x.Received? && x.contentDisposition
    ensures x.Received? && !x.contentDisposition ==>
      (r.Fulfilled? <==> x.body.Some? && x.body.value != JNull && !AppError(x.body.value))
    ensures x.Received? && !x.contentDisposition && r.Fulfilled? ==> r.value == RestResponse(x.status, Defined(x.body.value), false)
    ensures x.Received? && !x.contentDisposition && x.body.Some? && x.body.value != JNull && AppError(x.body.value) ==>
      r == Rejected(RestResponse(x.status, ErrorOrUnknown(x.body.value), false))
    ensures x.Received? && !x.contentDisposition && (x.body.None? || x.body == Some(JNull)) ==>
      r.Rejected? && r.reason.status == x.status && r.reason.data.Defined? && Lookup(r.reason.data.value, "parseError").Defined?
    ensures r.Rejected? ==> !r.reason.isBinary
  {
    match x
    case TransportFailed(err) => Rejected(RestResponse(STATUS_ERROR, Defined(err), false))
    case Received(status, _, disposition, body) =>
      if disposition then Fulfilled(RestResponse(status, Undefined, true))
      else if body.None? then Rejected(RestResponse(status, Defined(ParseFailure("SyntaxError")), false))
      else if body.value == JNull then Rejected(RestResponse(status, Defined(ParseFailure("TypeError")), false))
      else if AppError(body.value) then Rejected(RestResponse(status, ErrorOrUnknown(body.value), false))
      else Fulfilled(RestResponse(status, Defined(body.value), false))
  }

  /** A resolved JSON response never carries an application error, and a rejection always has a reason. */
  lemma ClassifiedResponses(x: Exchange)
    ensures Classify(x).Fulfilled? && !Classify(x).value.isBinary ==>
      Classify(x).value.data.Defined? && !AppError(Classify(x).value.data.value)
    ensures Classify(x).Rejected? ==> IsDefined(Classify(x).reason.data)
  {
  }

  // ---------------------------------------------------------------------------------------------
  // Publish check of getWebrootNode and getMeshNode

  /** Whether the publish check demotes a response to 404. */
  predicate Unpublished(checkPublished: bool, r: RestResponse)
  {
    checkPublished && !r.isBinary && !Truthy(if r.data.Defined? then Lookup(r.data.value, "published") else Undefined)
  }

  /**
   * With checkPublished on, a non-binary response whose data.published is falsy gets status 404;
   * otherwise the response is untouched. (A non-binary response always carries data.)
   */
  function PublishCheck(checkPublished: bool, r: RestResponse): (c: RestResponse)
    requires r.isBinary || r.data.Defined?
    ensures c.data == r.data && c.isBinary == r.isBinary
    ensures Unpublished(checkPublished, r) ==> c.status == NOT_FOUND
    ensures !Unpublished(checkPublished, r) ==> c == r
  {
    if Unpublished(checkPublished, r) then r.(status := NOT_FOUND) else r
  }

  /** The publish check applied to a settled request: rejections pass through. */
  function Published(checkPublished: bool, s: Settled<RestResponse, RestResponse>): (r: Settled<RestResponse, RestResponse>)
    requires s.Fulfilled? ==> s.value.isBinary || s.value.data.Defined?
    ensures s.Rejected? ==> r == s
    ensures s.Fulfilled? ==> r == Fulfilled(PublishCheck(checkPublished, s.value))
  {
    if s.Fulfilled? then Fulfilled(PublishCheck(checkPublished, s.value)) else s
  }

  /** Checking twice is checking once, and without checkPublished nothing changes. */
  lemma PublishCheckIdempotent(checkPublished: bool, r: RestResponse)
    requires r.isBinary || r.data.Defined?
    ensures PublishCheck(checkPublished, PublishCheck(checkPublished, r)) == PublishCheck(checkPublished, r)
    ensures !checkPublished ==> PublishCheck(checkPublished, r) == r
  {
  }

  /**
   * On a settled request: a rejection is never turned into a fulfilment or changed, the check
   * applied twice is applied once, and without checkPublished the request passes untouched.
   */
  lemma PublishedIdempotent(checkPublished: bool, s: Settled<RestResponse, RestResponse>)
    requires s.Fulfilled? ==> s.value.isBinary || s.value.data.Defined?
    ensures Published(checkPublished, s).Rejected? <==> s.Rejected?
    ensures s.Rejected? ==> Published(checkPublished, s) == s
    ensures Published(checkPublished, Published(checkPublished, s)) == Published(checkPublished, s)
    ensures !checkPublished ==> Published(checkPublished, s) == s
  {
    if s.Fulfilled? {
      PublishCheckIdempotent(checkPublished, s.value);
    }
  }

  /** Every fulfilled classification can be given to the publish check. */
  lemma ClassifiedCheckable(x: Exchange)
    ensures Classify(x).Fulfilled? ==> Classify(x).value.isBinary || Classify(x).value.data.Defined?
  {
  }

  // ---------------------------------------------------------------------------------------------
  // URLs

  /**
   * meshSimpleRequest's URL: base is prepended unless it already occurs in the URL, then the
   * backend URL likewise.
   */
  function PrefixUrl(url: string, base: string, backendUrl: string): (r: string)
    ensures Contains(r, base) && Contains(r, backendUrl)
    ensures |url| <= |r| && r[|r| - |url|..] == url
    ensures Contains(url, base) && Contains(url, backendUrl) ==> r == url
  {
    var withBase := if Contains(url, base) then url else base + url;
    assert Contains(withBase, base) by {
      if !Contains(url, base) { ContainsPrefix(withBase, base); }
    }
    var r := if Contains(withBase, backendUrl) then withBase else backendUrl + withBase;
    assert Contains(r, base) && Contains(r, backendUrl) by {
      if !Contains(withBase, backendUrl) {
        ContainsPrefix(r, backendUrl);
        ContainsPrepend(backendUrl, withBase, base);
      }
    }
    r
  }

  /** Prefixing is idempotent. */
  lemma PrefixUrlIdempotent(url: string, base: string, backendUrl: string)
    ensures PrefixUrl(PrefixUrl(url, base, backendUrl), base, backendUrl) == PrefixUrl(url, base, backendUrl)
  {
  }

  /** getWebrootNode's path: the configured index for a missing path or one whose pathname is "/". */
  function WebrootPath(path: Option<string>, index: string, pathname: string -> Js<string>): (r: string)
    ensures path.None? ==> r == index
    ensures path.Some? ==> r == (if pathname(path.value) == Defined("/") then index else path.value)
  {
    if path.None? || GetPath(Defined(path.value), pathname) == Defined("/") then index else path.value
  }

  // ---------------------------------------------------------------------------------------------
  // Parameter rules

  /** Array.prototype.join for strings. */
  function JoinWith(items: seq<string>, sep: string): string
  {
    if items == [] then "" else if |items| == 1 then items[0] else items[0] + sep + JoinWith(items[1..], sep)
  }

  /** `params ? params : new MeshQueryParams()`: a missing object is a fresh one with no properties. */
  function GivenParams(params: Option<Params>): Params
  {
    if params.Some? then params.value else []
  }

  /**
   * meshSimpleRequest's parameters: resolveLinks is always "short"; lang is filled with the
   * comma-joined language array only when it is unset (falsy); every other parameter is kept.
   */
  function SimpleRequestParams(params: Option<Params>, languages: seq<string>): (r: Params)
    ensures GetParam(r, RESOLVE_LINKS) == Some(JStr("short"))
    ensures Truthy(ParamValue(GivenParams(params), LANG_PARAM)) ==> GetParam(r, LANG_PARAM) == GetParam(GivenParams(params), LANG_PARAM)
    ensures !Truthy(ParamValue(GivenParams(params), LANG_PARAM)) ==> GetParam(r, LANG_PARAM) == Some(JStr(JoinWith(languages, ",")))
    ensures forall k :: k != RESOLVE_LINKS && k != LANG_PARAM ==> GetParam(r, k) == GetParam(GivenParams(params), k)
  {
    var p := SetParam(GivenParams(params), RESOLVE_LINKS, JStr("short"));
    if Truthy(ParamValue(p, LANG_PARAM)) then p else SetParam(p, LANG_PARAM, JStr(JoinWith(languages, ",")))
  }

  /**
   * meshSearch's parameters as written: the parameter object is used as given, so a search
   * without one fails with a TypeError when resolveLinks is assigned; lang is always overwritten.
   */
  function SearchParamsAsWritten(params: Option<Params>, languages: seq<string>): (r: Attempt<Params>)
    ensures params.None? <==> r == Threw(TYPE_ERROR)
    ensures params.Some? ==> r == Returned(SearchParams(params, languages))
  {
    if params.None? then Threw(TYPE_ERROR)
    else Returned(SetParam(SetParam(params.value, RESOLVE_LINKS, JStr("short")), LANG_PARAM, JStr(JoinWith(languages, ","))))
  }

  /** A search without parameters, which the signature allows, throws instead of sending the request. */
  lemma SearchWithoutParamsThrows(languages: seq<string>)
    ensures SearchParamsAsWritten(None, languages).Threw?
  {
  }

  /**
   * meshSearch's parameters with a missing object defaulted as meshSimpleRequest does:
   * resolveLinks is "short" and lang is the joined language array, whatever was given.
   */
  function SearchParams(params: Option<Params>, languages: seq<string>): (r: Params)
    ensures GetParam(r, RESOLVE_LINKS) == Some(JStr("short"))
    ensures GetParam(r, LANG_PARAM) == Some(JStr(JoinWith(languages, ",")))
    ensures forall k :: k != RESOLVE_LINKS && k != LANG_PARAM ==> GetParam(r, k) == GetParam(GivenParams(params), k)
  {
    SetParam(SetParam(GivenParams(params), RESOLVE_LINKS, JStr("short")), LANG_PARAM, JStr(JoinWith(languages, ",")))
  }

  /** Navigation parameters: maxDepth defaults to 10 when falsy; the rest is kept. */
  function NavigationParams(params: Option<Params>): (r: Params)
    ensures Truthy(ParamValue(GivenParams(params), MAX_DEPTH)) ==> r == GivenParams(params)
    ensures !Truthy(ParamValue(GivenParams(params), MAX_DEPTH)) ==> GetParam(r, MAX_DEPTH) == Some(JNum(DEFAULT_MAX_DEPTH))
    ensures forall k :: k != MAX_DEPTH ==> GetParam(r, k) == GetParam(GivenParams(params), k)
  {
    var p := GivenParams(params);
    if Truthy(ParamValue(p, MAX_DEPTH)) then p else SetParam(p, MAX_DEPTH, JNum(DEFAULT_MAX_DEPTH))
  }
}
