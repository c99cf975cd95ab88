/**
 * ConvertRequestIntoHttpRequest: a HAR request becomes a Go *http.Request.
 * The pure functions below specify each step; the method at the end performs
 * the steps in the source's order on a fresh request object and is proved to
 * produce what `ConvertRequestSpec` describes; the lemmas state what that
 * description promises.
 */
module RequestConverter {
  import opened Wrappers
  import opened Har
  import opened Utf8
  import NetHttp

  // ---------------------------------------------------------------------------
  // The query suffix

  function QueryPair(p: NameValuePair): string {
    p.name + "=" + p.value
  }

  /** The pairs written one after another, with nothing between them. */
  function Concatenated(ps: seq<NameValuePair>): string {
    if ps == [] then "" else Concatenated(ps[..|ps| - 1]) + QueryPair(ps[|ps| - 1])
  }

  /**
   * The text appended to the URL: nothing for no parameters; otherwise "?",
   * the pairs with no separator between them, and one trailing "&" (the
   * source's separator test is inverted). Values are not escaped.
   */
  function QuerySuffix(ps: seq<NameValuePair>): string {
    if ps == [] then "" else "?" + Concatenated(ps) + "&"
  }

  /** The summed lengths of name, "=" and value over the pairs. */
  function PairsLength(ps: seq<NameValuePair>): nat {
    if ps == [] then 0 else PairsLength(ps[..|ps| - 1]) + |ps[|ps| - 1].name| + 1 + |ps[|ps| - 1].value|
  }

  /** The URL handed to http.NewRequest. */
  function TargetUrl(req: Request): string {
    req.url + QuerySuffix(req.queryParams)
  }

  /** Builds the query suffix the way the source does, adding "&" only after the last pair. */
  method BuildQuery(params: seq<NameValuePair>) returns (query: string)
    ensures query == QuerySuffix(params)
  {
    query := "";
    if |params| > 0 {
      query := "?";
      var x := 0;
      while x < |params|
        invariant 0 <= x <= |params|
        invariant query == "?" + Concatenated(params[..x]) + (if x == |params| then "&" else "")
      {
        var amp := "&";
        if x < |params| - 1 {
          amp := "";
        }
        assert params[..x + 1][..x] == params[..x];
        query := query + params[x].name + "=" + params[x].value + amp;
        x := x + 1;
      }
      assert params[..|params|] == params;
    }
  }

  lemma {:induction false} ConcatenatedLength(ps: seq<NameValuePair>)
    ensures |Concatenated(ps)| == PairsLength(ps)
  {
    if ps != [] {
      ConcatenatedLength(ps[..|ps| - 1]);
    }
  }

  /**
   * With no parameters the URL is used verbatim; with N >= 1 it gains "?",
   * the pairs and a single "&", 2 + sum(|name| + 1 + |value|) characters in all.
   */
  lemma QuerySuffixShape(req: Request)
    ensures req.queryParams == [] ==> TargetUrl(req) == req.url
    ensures req.queryParams != [] ==>
              var q := QuerySuffix(req.queryParams);
              && TargetUrl(req) == req.url + q
              && |q| == 2 + PairsLength(req.queryParams)
              && q[0] == '?' && q[|q| - 1] == '&'
              && q[1..|q| - 1] == Concatenated(req.queryParams)
  {
    ConcatenatedLength(req.queryParams);
  }

  /** Because pairs are not separated, different parameter lists can give the same URL. */
  lemma QuerySuffixMergesPairs()
    ensures QuerySuffix([NameValuePair("a", "1"), NameValuePair("b", "2")])
         == QuerySuffix([NameValuePair("a", "1b=2")])
         == "?a=1b=2&"
  {
    var two := [NameValuePair("a", "1"), NameValuePair("b", "2")];
    assert two[..1] == [NameValuePair("a", "1")];
    assert two[..1][..0] == [];
  }

  // ---------------------------------------------------------------------------
  // Form values

  /** The unescaped value of a form parameter; a malformed escape gives "" (the error is dropped). */
  function Unescaped(lib: NetHttp.Stdlib, p: NameValuePair): string {
    match lib.queryUnescape(p.value)
    case Some(s) => s
    case None => ""
  }

  /** The unescaped values of the parameters called `key`, in input order. */
  function FormValuesFor(lib: NetHttp.Stdlib, ps: seq<NameValuePair>, key: string): seq<string> {
    if ps == [] then []
    else
      FormValuesFor(lib, ps[..|ps| - 1], key)
      + (if ps[|ps| - 1].name == key then [Unescaped(lib, ps[|ps| - 1])] else [])
  }

  function FormNames(ps: seq<NameValuePair>): set<string> {
    set p | p in ps :: p.name
  }

  /** The url.Values built from the form parameters: each name maps to its unescaped values in order. */
  function FormValues(lib: NetHttp.Stdlib, ps: seq<NameValuePair>): NetHttp.Values {
    map k | k in FormNames(ps) :: FormValuesFor(lib, ps, k)
  }

  lemma {:induction false} FormValuesForAbsent(lib: NetHttp.Stdlib, ps: seq<NameValuePair>, key: string)
    requires key !in FormNames(ps)
    ensures FormValuesFor(lib, ps, key) == []
  {
    if ps != [] {
      assert FormNames(ps[..|ps| - 1]) <= FormNames(ps) by {
        forall n | n in FormNames(ps[..|ps| - 1]) ensures n in FormNames(ps) {
          var p :| p in ps[..|ps| - 1] && p.name == n;
          assert p in ps;
        }
      }
      FormValuesForAbsent(lib, ps[..|ps| - 1], key);
      assert ps[|ps| - 1] in ps;
    }
  }

  /** The map holds, under each form name of `ps`, exactly the values FormValuesFor gives. */
  predicate FormValuesOf(lib: NetHttp.Stdlib, ps: seq<NameValuePair>, values: NetHttp.Values) {
    && values.Keys == FormNames(ps)
    && forall k :: k in values ==> values[k] == FormValuesFor(lib, ps, k)
  }

  /** One more url.Values.Add keeps the map in step with one more parameter. */
  lemma FormValuesStep(lib: NetHttp.Stdlib, ps: seq<NameValuePair>, values: NetHttp.Values, p: NameValuePair)
    requires FormValuesOf(lib, ps, values)
    ensures FormValuesOf(lib, ps + [p], NetHttp.ValuesAdd(values, p.name, Unescaped(lib, p)))
  {
    var all := ps + [p];
    assert all[..|ps|] == ps;
    assert FormNames(all) == FormNames(ps) + {p.name} by {
      assert forall q :: q in all <==> q in ps || q == p;
    }
    if p.name !in values {
      FormValuesForAbsent(lib, ps, p.name);
    }
  }

  /** A map in step with the parameters is the one FormValues describes. */
  lemma FormValuesOfIsFormValues(lib: NetHttp.Stdlib, ps: seq<NameValuePair>, values: NetHttp.Values)
    requires FormValuesOf(lib, ps, values)
    ensures values == FormValues(lib, ps)
  {
  }

  /** Fills a url.Values map from the form parameters, one Add per parameter. */
  method BuildFormValues(lib: NetHttp.Stdlib, params: seq<NameValuePair>) returns (values: NetHttp.Values)
    ensures FormValuesOf(lib, params, values)
    ensures values == FormValues(lib, params)
  {
    values := map[];
    var i := 0;
    while i < |params|
      invariant 0 <= i <= |params|
      invariant FormValuesOf(lib, params[..i], values)
    {
      FormValuesStep(lib, params[..i], values, params[i]);
      assert params[..i + 1] == params[..i] + [params[i]];
      values := NetHttp.ValuesAdd(values, params[i].name, Unescaped(lib, params[i]));
      i := i + 1;
    }
    assert params[..i] == params;
    FormValuesOfIsFormValues(lib, params, values);
  }

  // ---------------------------------------------------------------------------
  // Headers

  /** The header that names the posted body's MIME type. */
  const ContentTypeHeader := "Content-Type"

  /** strings.HasPrefix(name, ":"): an HTTP/2 pseudo-header (section 8.3 of RFC 9113). */
  predicate IsPseudoHeader(name: string) {
    |name| > 0 && name[0] == ':'
  }

  /** Header.Set for each header in turn, skipping pseudo-headers. */
  function SetHeaders(h: NetHttp.Header, hs: seq<NameValuePair>): NetHttp.Header {
    if hs == [] then h
    else
      var before := SetHeaders(h, hs[..|hs| - 1]);
      var p := hs[|hs| - 1];
      if IsPseudoHeader(p.name) then before else NetHttp.HeaderSet(before, p.name, p.value)
  }

  /** The value of the last header that is not a pseudo-header and whose canonical name is `key`. */
  function LastSet(hs: seq<NameValuePair>, key: string): Option<string> {
    if hs == [] then None
    else
      var p := hs[|hs| - 1];
      if !IsPseudoHeader(p.name) && NetHttp.CanonicalKey(p.name) == key then Some(p.value)
      else LastSet(hs[..|hs| - 1], key)
  }

  /**
   * After copying, a name holds exactly the value of its last non-pseudo
   * occurrence; a name that never occurs keeps what it had.
   */
  lemma {:induction false} SetHeadersLastWins(h: NetHttp.Header, hs: seq<NameValuePair>, key: string)
    ensures LastSet(hs, key).Some? ==>
              key in SetHeaders(h, hs) && SetHeaders(h, hs)[key] == [LastSet(hs, key).value]
    ensures LastSet(hs, key).None? ==>
              (key in SetHeaders(h, hs) <==> key in h) && (key in h ==> SetHeaders(h, hs)[key] == h[key])
  {
    if hs != [] {
      SetHeadersLastWins(h, hs[..|hs| - 1], key);
    }
  }

  /** No name starting with ':' ever becomes a key of the header map. */
  lemma {:induction false} SetHeadersNoPseudo(hs: seq<NameValuePair>)
    ensures forall k | k in SetHeaders(map[], hs) :: !IsPseudoHeader(k)
  {
    if hs != [] {
      SetHeadersNoPseudo(hs[..|hs| - 1]);
      var p := hs[|hs| - 1];
      if !IsPseudoHeader(p.name) && |p.name| > 0 {
        NetHttp.CanonicalKeepsLeadingChar(p.name);
      }
    }
  }

  // ---------------------------------------------------------------------------
  // Cookies

  /** The http.Cookie made for a HAR cookie: the recorded expiry is replaced by now + 24h. */
  function RequestCookie(c: Har.Cookie, now: NetHttp.Instant): NetHttp.Cookie {
    NetHttp.Cookie(c.name, c.value, c.path, c.domain, NetHttp.After(now, NetHttp.Day), c.httpOnly, c.secure)
  }

  /** Request.AddCookie for each cookie in turn. */
  function AddCookies(lib: NetHttp.Stdlib, h: NetHttp.Header, cs: seq<Har.Cookie>, now: NetHttp.Instant): NetHttp.Header {
    if cs == [] then h
    else NetHttp.WithCookie(lib, AddCookies(lib, h, cs[..|cs| - 1], now), RequestCookie(cs[|cs| - 1], now))
  }

  /** The "name=value" texts of the cookies, in order. */
  function CookiePairs(lib: NetHttp.Stdlib, cs: seq<Har.Cookie>, now: NetHttp.Instant): (pairs: seq<string>)
    ensures |pairs| == |cs|
  {
    if cs == [] then []
    else CookiePairs(lib, cs[..|cs| - 1], now) + [NetHttp.CookiePair(lib, RequestCookie(cs[|cs| - 1], now))]
  }

  /** The parts joined with "; ". */
  function JoinCookies(parts: seq<string>): string {
    if |parts| == 0 then ""
    else if |parts| == 1 then parts[0]
    else JoinCookies(parts[..|parts| - 1]) + "; " + parts[|parts| - 1]
  }

  /** The Cookie header value already present, as a list of zero or one part. */
  function PriorCookie(h: NetHttp.Header): seq<string> {
    var prior := NetHttp.HeaderGet(h, NetHttp.CookieHeader);
    if prior == "" then [] else [prior]
  }

  lemma {:induction false} JoinCookiesNonEmpty(parts: seq<string>)
    requires parts != [] && parts[|parts| - 1] != ""
    ensures JoinCookies(parts) != ""
  {
  }

  lemma SnocAssoc<T>(a: seq<T>, b: seq<T>, x: T)
    ensures a + (b + [x]) == (a + b) + [x]
  {
  }

  /**
   * Adding cookies leaves one Cookie header: the earlier value (if not empty)
   * and one pair per cookie, in order, joined with "; ".
   */
  lemma {:induction false} AddCookiesJoins(lib: NetHttp.Stdlib, h: NetHttp.Header, cs: seq<Har.Cookie>, now: NetHttp.Instant)
    requires cs != []
    ensures NetHttp.HeaderValues(AddCookies(lib, h, cs, now), NetHttp.CookieHeader)
            == [JoinCookies(PriorCookie(h) + CookiePairs(lib, cs, now))]
  {
    var init := cs[..|cs| - 1];
    var c := RequestCookie(cs[|cs| - 1], now);
    var pair := NetHttp.CookiePair(lib, c);
    assert pair != "";
    if init == [] {
      assert CookiePairs(lib, cs, now) == [pair];
    } else {
      var parts := PriorCookie(h) + CookiePairs(lib, init, now);
      var before := AddCookies(lib, h, init, now);
      assert NetHttp.HeaderGet(before, NetHttp.CookieHeader) == JoinCookies(parts) != "" by {
        AddCookiesJoins(lib, h, init, now);
        assert parts[|parts| - 1] == CookiePairs(lib, init, now)[|init| - 1] != "";
        JoinCookiesNonEmpty(parts);
      }
      var all := PriorCookie(h) + CookiePairs(lib, cs, now);
      assert all == parts + [pair] by {
        assert CookiePairs(lib, cs, now) == CookiePairs(lib, init, now) + [pair];
        SnocAssoc(PriorCookie(h), CookiePairs(lib, init, now), pair);
      }
      assert JoinCookies(all) == JoinCookies(parts) + "; " + pair by {
        assert all[..|all| - 1] == parts;
      }
      assert AddCookies(lib, h, cs, now) == NetHttp.WithCookie(lib, before, c);
    }
  }

  // ---------------------------------------------------------------------------
  // The whole conversion

  predicate IsFormMethod(m: string) {
    m == "POST" || m == "PUT" || m == "PATCH"
  }

  /** Header.Set("Content-Type", mime) when the posted data names a MIME type. */
  function WithContentType(h: NetHttp.Header, mime: string): NetHttp.Header {
    if mime != "" then NetHttp.HeaderSet(h, ContentTypeHeader, mime) else h
  }

  /** The header map of the converted request. */
  function RequestHeader(lib: NetHttp.Stdlib, req: Request, now: NetHttp.Instant): NetHttp.Header {
    WithContentType(AddCookies(lib, SetHeaders(map[], req.headers), req.cookies, now), req.body.mimeType)
  }

  datatype ConvertError = InvalidRequest

  /**
   * The three ways the conversion ends: a request, the error from
   * http.NewRequest, or a panic from writing the form fields of the nil
   * request that a failed http.NewRequest returns.
   */
  datatype Outcome<R> = Converted(request: R) | Failed(error: ConvertError) | NilDereference

  /** The fields of *http.Request that the conversion sets. */
  datatype NativeRequest = NativeRequest(
    httpMethod: string,
    url: string,
    proto: string,
    header: NetHttp.Header,
    form: Option<NetHttp.Values>,
    postForm: Option<NetHttp.Values>,
    body: Option<seq<uint8>>,
    contentLength: int)

  /** What http.NewRequest(method, url, nil) returns when it succeeds ("" means GET). */
  function NewRequestValue(httpMethod: string, url: string): NativeRequest {
    NativeRequest(if httpMethod == "" then "GET" else httpMethod, url, "HTTP/1.1", map[], None, None, None, 0)
  }

  function ConvertRequestSpec(lib: NetHttp.Stdlib, req: Request, now: NetHttp.Instant): Outcome<NativeRequest> {
    var url := TargetUrl(req);
    if !lib.newRequestAccepts(req.httpMethod, url) then
      if IsFormMethod(req.httpMethod) then NilDereference else Failed(InvalidRequest)
    else
      var form := if IsFormMethod(req.httpMethod) then Some(FormValues(lib, req.body.params)) else None;
      var body := Encode(req.body.content);
      Converted(NewRequestValue(req.httpMethod, url).(
        header := RequestHeader(lib, req, now),
        form := form,
        postForm := form,
        body := Some(body),
        contentLength := |body|))
  }

  /**
   * The outcome depends only on whether http.NewRequest accepts the method and
   * URL: the error is returned only for methods other than POST, PUT and
   * PATCH, which instead dereference the nil request first.
   */
  lemma OutcomeCases(lib: NetHttp.Stdlib, req: Request, now: NetHttp.Instant)
    ensures var accepted := lib.newRequestAccepts(req.httpMethod, TargetUrl(req));
            && (ConvertRequestSpec(lib, req, now).Converted? <==> accepted)
            && (ConvertRequestSpec(lib, req, now).Failed? <==> !accepted && !IsFormMethod(req.httpMethod))
            && (ConvertRequestSpec(lib, req, now).NilDereference? <==> !accepted && IsFormMethod(req.httpMethod))
  {
  }

  /**
   * A converted request has the recorded method and the target URL; its form
   * fields hold the unescaped parameters for POST, PUT and PATCH only; its body
   * is the bytes of the recorded text, which decode back to that text, and its
   * content length is their number.
   */
  lemma ConvertedRequest(lib: NetHttp.Stdlib, req: Request, now: NetHttp.Instant)
    requires ConvertRequestSpec(lib, req, now).Converted?
    ensures var v := ConvertRequestSpec(lib, req, now).request;
            && v.httpMethod == (if req.httpMethod == "" then "GET" else req.httpMethod)
            && v.url == TargetUrl(req)
            && v.form == v.postForm
            && (!IsFormMethod(req.httpMethod) ==> v.form == None)
            && (IsFormMethod(req.httpMethod) ==>
                  && v.form.Some?
                  && v.form.value.Keys == FormNames(req.body.params)
                  && forall k :: k in v.form.value ==> v.form.value[k] == FormValuesFor(lib, req.body.params, k))
            && v.body.Some?
            && Decode(v.body.value) == Some(req.body.content)
            && v.contentLength == |v.body.value|
  {
    DecodeEncode(req.body.content);
  }

  /** The header map after copying the record's headers and adding its cookies, before Content-Type. */
  function CopiedHeader(lib: NetHttp.Stdlib, req: Request, now: NetHttp.Instant): NetHttp.Header {
    AddCookies(lib, SetHeaders(map[], req.headers), req.cookies, now)
  }

  /** Adding cookies changes no header name other than Cookie. */
  lemma {:induction false} AddCookiesKeepsOthers(lib: NetHttp.Stdlib, h: NetHttp.Header, cs: seq<Har.Cookie>, now: NetHttp.Instant, key: string)
    requires key != NetHttp.CanonicalKey(NetHttp.CookieHeader)
    ensures (key in AddCookies(lib, h, cs, now) <==> key in h)
    ensures key in h ==> AddCookies(lib, h, cs, now)[key] == h[key]
  {
    if cs != [] {
      AddCookiesKeepsOthers(lib, h, cs[..|cs| - 1], now, key);
    }
  }

  /**
   * A non-empty MIME type of the posted data is the one Content-Type value,
   * whatever the copied headers said; an empty one leaves the value of the
   * last copied Content-Type header, if any.
   */
  lemma ContentTypeRule(lib: NetHttp.Stdlib, req: Request, now: NetHttp.Instant)
    requires ConvertRequestSpec(lib, req, now).Converted?
    ensures var h := ConvertRequestSpec(lib, req, now).request.header;
            && (req.body.mimeType != "" ==> NetHttp.HeaderValues(h, ContentTypeHeader) == [req.body.mimeType])
            && (req.body.mimeType == "" ==>
                  NetHttp.HeaderValues(h, ContentTypeHeader) ==
                    match LastSet(req.headers, NetHttp.CanonicalKey(ContentTypeHeader))
                    case Some(x) => [x]
                    case None => [])
  {
    var key := NetHttp.CanonicalKey(ContentTypeHeader);
    assert |key| == 12 && |NetHttp.CanonicalKey(NetHttp.CookieHeader)| == 6;
    SetHeadersLastWins(map[], req.headers, key);
    AddCookiesKeepsOthers(lib, SetHeaders(map[], req.headers), req.cookies, now, key);
  }

  /**
   * With recorded cookies, the Cookie header is one value: the copied Cookie
   * header (when not empty) and one pair per cookie in input order, joined
   * with "; ". Without cookies it is what the header copy left.
   */
  lemma CookieHeaderRule(lib: NetHttp.Stdlib, req: Request, now: NetHttp.Instant)
    requires ConvertRequestSpec(lib, req, now).Converted?
    ensures var h := ConvertRequestSpec(lib, req, now).request.header;
            && (req.cookies != [] ==>
                  NetHttp.HeaderValues(h, NetHttp.CookieHeader) ==
                    [JoinCookies(PriorCookie(SetHeaders(map[], req.headers)) + CookiePairs(lib, req.cookies, now))])
            && (req.cookies == [] ==>
                  NetHttp.HeaderValues(h, NetHttp.CookieHeader) ==
                    match LastSet(req.headers, NetHttp.CanonicalKey(NetHttp.CookieHeader))
                    case Some(x) => [x]
                    case None => [])
  {
    assert |NetHttp.CanonicalKey(ContentTypeHeader)| == 12 && |NetHttp.CanonicalKey(NetHttp.CookieHeader)| == 6;
    if req.cookies != [] {
      AddCookiesJoins(lib, SetHeaders(map[], req.headers), req.cookies, now);
    } else {
      SetHeadersLastWins(map[], req.headers, NetHttp.CanonicalKey(NetHttp.CookieHeader));
    }
  }

  /** No key of the converted request's header map starts with ':'. */
  lemma NoPseudoHeaderSent(lib: NetHttp.Stdlib, req: Request, now: NetHttp.Instant)
    requires ConvertRequestSpec(lib, req, now).Converted?
    ensures forall k | k in ConvertRequestSpec(lib, req, now).request.header :: !IsPseudoHeader(k)
  {
    var cookieKey := NetHttp.CanonicalKey(NetHttp.CookieHeader);
    var typeKey := NetHttp.CanonicalKey(ContentTypeHeader);
    NetHttp.CanonicalKeepsLeadingChar(NetHttp.CookieHeader);
    NetHttp.CanonicalKeepsLeadingChar(ContentTypeHeader);
    SetHeadersNoPseudo(req.headers);
    var copied := SetHeaders(map[], req.headers);
    forall k | k in CopiedHeader(lib, req, now) ensures !IsPseudoHeader(k) {
      if k != cookieKey {
        AddCookiesKeepsOthers(lib, copied, req.cookies, now, k);
      }
    }
  }

  /** The two recorded cookies differ at most in their expiry text. */
  predicate SameButExpiry(c: Har.Cookie, d: Har.Cookie) {
    c.(expires := d.expires) == d
  }

  lemma {:induction false} AddCookiesIgnoresExpiry(
    lib: NetHttp.Stdlib, h: NetHttp.Header, cs: seq<Har.Cookie>, ds: seq<Har.Cookie>, now: NetHttp.Instant)
    requires |ds| == |cs|
    requires forall i :: 0 <= i < |cs| ==> SameButExpiry(cs[i], ds[i])
    ensures AddCookies(lib, h, ds, now) == AddCookies(lib, h, cs, now)
  {
    if cs != [] {
      var n := |cs| - 1;
      AddCookiesIgnoresExpiry(lib, h, cs[..n], ds[..n], now);
      assert SameButExpiry(cs[n], ds[n]);
      assert RequestCookie(ds[n], now) == RequestCookie(cs[n], now);
    }
  }

  /** The header built from the cookies does not depend on the clock reading. */
  lemma {:induction false} AddCookiesIgnoresClock(
    lib: NetHttp.Stdlib, h: NetHttp.Header, cs: seq<Har.Cookie>, now: NetHttp.Instant, other: NetHttp.Instant)
    ensures AddCookies(lib, h, cs, other) == AddCookies(lib, h, cs, now)
  {
    if cs != [] {
      var n := |cs| - 1;
      AddCookiesIgnoresClock(lib, h, cs[..n], now, other);
      assert NetHttp.CookiePair(lib, RequestCookie(cs[n], other)) == NetHttp.CookiePair(lib, RequestCookie(cs[n], now));
    }
  }

  /**
   * No cookie expiry reaches the request, since AddCookie writes only the name
   * and value: replacing the recorded expiry texts changes nothing, and
   * neither does converting at another clock reading.
   */
  lemma ExpiresNeverRead(
    lib: NetHttp.Stdlib, req: Request, now: NetHttp.Instant, other: NetHttp.Instant, cookies: seq<Har.Cookie>)
    requires |cookies| == |req.cookies|
    requires forall i :: 0 <= i < |cookies| ==> SameButExpiry(req.cookies[i], cookies[i])
    ensures ConvertRequestSpec(lib, req.(cookies := cookies), now) == ConvertRequestSpec(lib, req, now)
    ensures ConvertRequestSpec(lib, req, other) == ConvertRequestSpec(lib, req, now)
  {
    AddCookiesIgnoresExpiry(lib, SetHeaders(map[], req.headers), req.cookies, cookies, now);
    AddCookiesIgnoresClock(lib, SetHeaders(map[], req.headers), req.cookies, now, other);
  }

  /**
   * The recorded POST of the test fixture: no query parameters, a body of
   * 46549 bytes, converted to a POST to the same URL with that body.
   */
  lemma ReportScenario(lib: NetHttp.Stdlib, req: Request, now: NetHttp.Instant)
    requires req.httpMethod == "POST" && req.url == "https://api.quobix.com/report" && req.queryParams == []
    requires lib.newRequestAccepts("POST", "https://api.quobix.com/report")
    requires |Encode(req.body.content)| == 46549
    ensures ConvertRequestSpec(lib, req, now).Converted?
    ensures var v := ConvertRequestSpec(lib, req, now).request;
            && v.httpMethod == "POST"
            && v.url == "https://api.quobix.com/report"
            && v.body.Some? && |v.body.value| == 46549
            && v.contentLength == 46549
  {
    assert TargetUrl(req) == req.url + "" == req.url;
  }

  /** *http.Request, restricted to the fields the conversion sets. */
  class HttpRequest {
    var httpMethod: string
    var url: string
    var proto: string
    var header: NetHttp.Header
    var form: Option<NetHttp.Values>
    var postForm: Option<NetHttp.Values>
    var body: Option<seq<uint8>>
    var contentLength: int

    function Value(): NativeRequest
      reads this
    {
      NativeRequest(httpMethod, url, proto, header, form, postForm, body, contentLength)
    }

    /** http.NewRequest(httpMethod, url, nil), when it succeeds. */
    constructor (httpMethod: string, url: string)
      ensures Value() == NewRequestValue(httpMethod, url)
    {
      this.httpMethod := if httpMethod == "" then "GET" else httpMethod;
      this.url := url;
      proto := "HTTP/1.1";
      header := map[];
      form := None;
      postForm := None;
      body := None;
      contentLength := 0;
    }

    /** Request.AddCookie: only the Cookie header changes. */
    method AddCookie(lib: NetHttp.Stdlib, c: NetHttp.Cookie)
      modifies this
      ensures Value() == old(Value()).(header := NetHttp.WithCookie(lib, old(header), c))
    {
      var prior := NetHttp.HeaderGet(header, NetHttp.CookieHeader);
      var pair := NetHttp.CookiePair(lib, c);
      if prior != "" {
        header := NetHttp.HeaderSet(header, NetHttp.CookieHeader, prior + "; " + pair);
      } else {
        header := NetHttp.HeaderSet(header, NetHttp.CookieHeader, pair);
      }
    }

    /** Header.Set for every header of the record except pseudo-headers, in order. */
    method CopyHeaders(headers: seq<NameValuePair>)
      modifies this
      ensures Value() == old(Value()).(header := SetHeaders(old(header), headers))
    {
      for i := 0 to |headers|
        invariant Value() == old(Value()).(header := SetHeaders(old(header), headers[..i]))
      {
        assert headers[..i + 1][..i] == headers[..i];
        var h := headers[i];
        if !IsPseudoHeader(h.name) {
          header := NetHttp.HeaderSet(header, h.name, h.value);
        }
      }
      assert headers[..|headers|] == headers;
    }

    /** AddCookie for every recorded cookie, in order, each expiring 24 hours after `now`. */
    method AddRecordedCookies(lib: NetHttp.Stdlib, cookies: seq<Har.Cookie>, now: NetHttp.Instant)
      modifies this
      ensures Value() == old(Value()).(header := AddCookies(lib, old(header), cookies, now))
    {
      for i := 0 to |cookies|
        invariant Value() == old(Value()).(header := AddCookies(lib, old(header), cookies[..i], now))
      {
        assert cookies[..i + 1][..i] == cookies[..i];
        AddCookie(lib, RequestCookie(cookies[i], now));
      }
      assert cookies[..|cookies|] == cookies;
    }
  }

  /**
   * ConvertRequestIntoHttpRequest. `now` is the clock reading time.Now()
   * would give; NilDereference stands for the panic of the source.
   */
  method ConvertRequestIntoHttpRequest(lib: NetHttp.Stdlib, req: Request, now: NetHttp.Instant)
    returns (result: Outcome<HttpRequest>)
    ensures match ConvertRequestSpec(lib, req, now)
      case Converted(v) => result.Converted? && fresh(result.request) && result.request.Value() == v
      case Failed(e) => result == Failed(e)
      case NilDereference => result == NilDereference
  {
    var r := Encode(req.body.content);
    var query := BuildQuery(req.queryParams);
    var accepted := lib.newRequestAccepts(req.httpMethod, req.url + query);
    var httpRequest: HttpRequest? := null;
    if accepted {
      httpRequest := new HttpRequest(req.httpMethod, req.url + query);
    }

    var values := BuildFormValues(lib, req.body.params);
    if IsFormMethod(req.httpMethod) {
      if httpRequest == null {
        return NilDereference;
      }
      httpRequest.postForm := Some(values);
      httpRequest.form := Some(values);
    }

    if httpRequest == null {
      return Failed(InvalidRequest);
    }
    httpRequest.CopyHeaders(req.headers);
    httpRequest.AddRecordedCookies(lib, req.cookies, now);
    if req.body.mimeType != "" {
      httpRequest.header := NetHttp.HeaderSet(httpRequest.header, ContentTypeHeader, req.body.mimeType);
    }
    // Reading an in-memory reader to its end cannot fail.
    var body := r;
    httpRequest.body := Some(body);
    httpRequest.contentLength := |body|;
    return Converted(httpRequest);
  }
}
