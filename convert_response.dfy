/**
 * ConvertResponseIntoHttpResponse: a HAR response becomes a Go
 * *http.Response. The status line is always copied; the header map and the
 * body are built only when the record's cookie list is present (possibly
 * empty), and left unset when it is nil.
 */
module ResponseConverter {
  import opened Wrappers
  import opened Har
  import opened Utf8
  import NetHttp
  import Decimal

  /** The header names the conversion writes. */
  const SetCookieHeader := "Set-Cookie"
  const LocationHeader := "Location"
  const ContentTypeHeader := "Content-Type"
  const ContentEncodingHeader := "Content-Encoding"
  const ContentLengthHeader := "Content-Length"

  // ---------------------------------------------------------------------------
  // Adding header entries

  /** Header.Add for each entry in turn. */
  function AddAll(h: NetHttp.Header, es: seq<NameValuePair>): NetHttp.Header {
    if es == [] then h else NetHttp.HeaderAdd(AddAll(h, es[..|es| - 1]), es[|es| - 1].name, es[|es| - 1].value)
  }

  /** The values of the entries whose canonical name is `key`, in order. */
  function ValuesNamed(es: seq<NameValuePair>, key: string): seq<string> {
    if es == [] then []
    else
      ValuesNamed(es[..|es| - 1], key)
      + (if NetHttp.CanonicalKey(es[|es| - 1].name) == key then [es[|es| - 1].value] else [])
  }

  /** The values a header map holds under a canonical key. */
  function Lookup(h: NetHttp.Header, key: string): seq<string> {
    if key in h then h[key] else []
  }

  /**
   * Adding entries keeps every earlier value and appends, under each
   * canonical name, the values of the entries with that name in order;
   * duplicates are kept.
   */
  lemma {:induction false} AddAllValues(h: NetHttp.Header, es: seq<NameValuePair>, key: string)
    ensures key in AddAll(h, es) <==> key in h || ValuesNamed(es, key) != []
    ensures Lookup(AddAll(h, es), key) == Lookup(h, key) + ValuesNamed(es, key)
  {
    if es != [] {
      AddAllValues(h, es[..|es| - 1], key);
    }
  }

  /** Adding one more entry is one more Header.Add. */
  lemma AddAllSnoc(h: NetHttp.Header, es: seq<NameValuePair>, e: NameValuePair)
    ensures AddAll(h, es + [e]) == NetHttp.HeaderAdd(AddAll(h, es), e.name, e.value)
  {
    assert (es + [e])[..|es|] == es;
  }

  lemma {:induction false} AddAllAppend(h: NetHttp.Header, es: seq<NameValuePair>, more: seq<NameValuePair>)
    ensures AddAll(h, es + more) == AddAll(AddAll(h, es), more)
    decreases |more|
  {
    if more != [] {
      var all := es + more;
      var init := more[..|more| - 1];
      var last := more[|more| - 1];
      assert all[..|all| - 1] == es + init;
      assert all[|all| - 1] == last;
      AddAllAppend(h, es, init);
      calc {
        AddAll(h, all);
        NetHttp.HeaderAdd(AddAll(h, es + init), last.name, last.value);
        NetHttp.HeaderAdd(AddAll(AddAll(h, es), init), last.name, last.value);
        AddAll(AddAll(h, es), more);
      }
    } else {
      assert es + more == es;
    }
  }

  lemma {:induction false} ValuesNamedAppend(es: seq<NameValuePair>, more: seq<NameValuePair>, key: string)
    ensures ValuesNamed(es + more, key) == ValuesNamed(es, key) + ValuesNamed(more, key)
    decreases |more|
  {
    if more != [] {
      var all := es + more;
      var init := more[..|more| - 1];
      var last := more[|more| - 1];
      assert all[..|all| - 1] == es + init;
      assert all[|all| - 1] == last;
      ValuesNamedAppend(es, init, key);
      var v := if NetHttp.CanonicalKey(last.name) == key then [last.value] else [];
      calc {
        ValuesNamed(all, key);
        ValuesNamed(es + init, key) + v;
        ValuesNamed(es, key) + ValuesNamed(init, key) + v;
        ValuesNamed(es, key) + (ValuesNamed(init, key) + v);
        ValuesNamed(es, key) + ValuesNamed(more, key);
      }
    } else {
      assert es + more == es;
    }
  }

  // ---------------------------------------------------------------------------
  // The entries the conversion adds

  /** The http.Cookie made for a HAR cookie; an expiry that does not parse becomes the zero time. */
  function ResponseCookie(lib: NetHttp.Stdlib, c: Har.Cookie): NetHttp.Cookie {
    var expires := match lib.parseRfc3339Nano(c.expires)
      case Some(t) => t
      case None => NetHttp.ZeroTime;
    NetHttp.Cookie(c.name, c.value, c.path, c.domain, expires, c.httpOnly, c.secure)
  }

  /** One serialised Set-Cookie line per cookie, in order. */
  function CookieLines(lib: NetHttp.Stdlib, cs: seq<Har.Cookie>): (lines: seq<string>)
    ensures |lines| == |cs|
  {
    if cs == [] then [] else CookieLines(lib, cs[..|cs| - 1]) + [lib.cookieString(ResponseCookie(lib, cs[|cs| - 1]))]
  }

  /** The Set-Cookie entry of one cookie. */
  function SetCookieEntry(lib: NetHttp.Stdlib, c: Har.Cookie): NameValuePair {
    NameValuePair(SetCookieHeader, lib.cookieString(ResponseCookie(lib, c)))
  }

  /** One Set-Cookie entry per cookie, in order. */
  function SetCookieEntries(lib: NetHttp.Stdlib, cs: seq<Har.Cookie>): seq<NameValuePair> {
    if cs == [] then [] else SetCookieEntries(lib, cs[..|cs| - 1]) + [SetCookieEntry(lib, cs[|cs| - 1])]
  }

  lemma SetCookieEntriesPrefix(lib: NetHttp.Stdlib, cs: seq<Har.Cookie>, i: int)
    requires 0 <= i < |cs|
    ensures SetCookieEntries(lib, cs[..i + 1]) == SetCookieEntries(lib, cs[..i]) + [SetCookieEntry(lib, cs[i])]
  {
    assert cs[..i + 1][..i] == cs[..i];
  }

  /** An entry when the value is not empty, none otherwise. */
  function IfPresent(name: string, value: string): seq<NameValuePair> {
    if value != "" then [NameValuePair(name, value)] else []
  }

  /** A Content-Length entry, written as string(rune(n)), when the count is positive. */
  function IfPositive(n: int): seq<NameValuePair> {
    if n > 0 then [NameValuePair(ContentLengthHeader, NetHttp.RuneString(n))] else []
  }

  /** The entries synthesised after the recorded headers. */
  function Synthesized(r: Response): seq<NameValuePair> {
    IfPresent(LocationHeader, r.redirectUrl)
    + IfPresent(ContentTypeHeader, r.body.mimeType)
    + IfPresent(ContentEncodingHeader, r.body.encoding)
    + IfPositive(r.body.compression)
    + IfPositive(r.body.size)
  }

  /** Every entry added to the header map, in the order the source adds them. */
  function Additions(lib: NetHttp.Stdlib, r: Response, cs: seq<Har.Cookie>): seq<NameValuePair> {
    SetCookieEntries(lib, cs) + r.headers + Synthesized(r)
  }

  // ---------------------------------------------------------------------------
  // The whole conversion

  /** The fields of *http.Response that the conversion sets; None is Go's nil. */
  datatype NativeResponse = NativeResponse(
    statusCode: int,
    status: string,
    proto: string,
    header: Option<NetHttp.Header>,
    body: Option<seq<uint8>>)

  function ConvertResponseSpec(lib: NetHttp.Stdlib, r: Response): NativeResponse {
    match r.cookies
    case None => NativeResponse(r.statusCode, r.statusText, r.httpVersion, None, None)
    case Some(cs) =>
      NativeResponse(
        r.statusCode, r.statusText, r.httpVersion,
        Some(AddAll(map[], Additions(lib, r, cs))),
        if r.body.content != "" then Some(Encode(r.body.content)) else None)
  }

  /**
   * The status line is always copied. A nil cookie list leaves the header map
   * and the body unset whatever else the record holds; a present one (even
   * empty) sets the header map, and the body exactly when the recorded text is
   * not empty, as the bytes of that text.
   */
  lemma CookieListGate(lib: NetHttp.Stdlib, r: Response)
    ensures var v := ConvertResponseSpec(lib, r);
            && v.statusCode == r.statusCode && v.status == r.statusText && v.proto == r.httpVersion
            && (r.cookies.None? ==> v.header == None && v.body == None)
            && (r.cookies.Some? ==> v.header.Some?)
            && (v.body.Some? <==> r.cookies.Some? && r.body.content != "")
            && (v.body.Some? ==> Decode(v.body.value) == Some(r.body.content))
  {
    DecodeEncode(r.body.content);
  }

  lemma {:induction false} SetCookieEntriesNamed(lib: NetHttp.Stdlib, cs: seq<Har.Cookie>, key: string)
    ensures ValuesNamed(SetCookieEntries(lib, cs), key)
         == if key == NetHttp.CanonicalKey(SetCookieHeader) then CookieLines(lib, cs) else []
  {
    if cs != [] {
      var init := cs[..|cs| - 1];
      SetCookieEntriesNamed(lib, init, key);
      var es := SetCookieEntries(lib, cs);
      assert es == SetCookieEntries(lib, init) + [es[|es| - 1]];
      assert es[..|es| - 1] == SetCookieEntries(lib, init);
    }
  }

  /**
   * Under every name, the converted response holds the cookie lines (for
   * Set-Cookie only), then the values of the recorded headers with that name
   * in order, then the synthesised values with that name.
   */
  lemma ResponseHeaderValues(lib: NetHttp.Stdlib, r: Response, name: string)
    requires r.cookies.Some?
    ensures var key := NetHttp.CanonicalKey(name);
            NetHttp.HeaderValues(ConvertResponseSpec(lib, r).header.value, name)
            == (if key == NetHttp.CanonicalKey(SetCookieHeader) then CookieLines(lib, r.cookies.value) else [])
               + ValuesNamed(r.headers, key)
               + ValuesNamed(Synthesized(r), key)
  {
    var key := NetHttp.CanonicalKey(name);
    var cs := r.cookies.value;
    AddAllValues(map[], Additions(lib, r, cs), key);
    ValuesNamedAppend(SetCookieEntries(lib, cs), r.headers, key);
    ValuesNamedAppend(SetCookieEntries(lib, cs) + r.headers, Synthesized(r), key);
    SetCookieEntriesNamed(lib, cs, key);
  }

  lemma ValuesNamedIfPresent(name: string, value: string, key: string)
    ensures ValuesNamed(IfPresent(name, value), key)
         == if value != "" && NetHttp.CanonicalKey(name) == key then [value] else []
  {
    if value != "" {
      assert IfPresent(name, value)[..0] == [];
    }
  }

  lemma ValuesNamedIfPositive(n: int, key: string)
    ensures ValuesNamed(IfPositive(n), key)
         == if n > 0 && NetHttp.CanonicalKey(ContentLengthHeader) == key then [NetHttp.RuneString(n)] else []
  {
    if n > 0 {
      assert IfPositive(n)[..0] == [];
    }
  }

  /** The canonical forms of the names the conversion adds are pairwise different. */
  lemma AddedNamesDistinct()
    ensures var sc, lo, ct := NetHttp.CanonicalKey(SetCookieHeader), NetHttp.CanonicalKey(LocationHeader), NetHttp.CanonicalKey(ContentTypeHeader);
            var ce, cl := NetHttp.CanonicalKey(ContentEncodingHeader), NetHttp.CanonicalKey(ContentLengthHeader);
            && sc != lo && sc != ct && sc != ce && sc != cl
            && lo != ct && lo != ce && lo != cl
            && ct != ce && ct != cl
            && ce != cl
  {
    assert |NetHttp.CanonicalKey(SetCookieHeader)| == 10;
    assert |NetHttp.CanonicalKey(LocationHeader)| == 8;
    assert |NetHttp.CanonicalKey(ContentTypeHeader)| == 12;
    assert |NetHttp.CanonicalKey(ContentEncodingHeader)| == 16;
    assert |NetHttp.CanonicalKey(ContentLengthHeader)| == 14;
  }

  /** The Location, Content-Type and Content-Encoding values under a canonical name. */
  lemma ValuesNamedNamedEntries(r: Response, key: string)
    ensures ValuesNamed(IfPresent(LocationHeader, r.redirectUrl)
                        + IfPresent(ContentTypeHeader, r.body.mimeType)
                        + IfPresent(ContentEncodingHeader, r.body.encoding), key)
         == (if r.redirectUrl != "" && NetHttp.CanonicalKey(LocationHeader) == key then [r.redirectUrl] else [])
            + (if r.body.mimeType != "" && NetHttp.CanonicalKey(ContentTypeHeader) == key then [r.body.mimeType] else [])
            + (if r.body.encoding != "" && NetHttp.CanonicalKey(ContentEncodingHeader) == key then [r.body.encoding] else [])
  {
    var l := IfPresent(LocationHeader, r.redirectUrl);
    var t := IfPresent(ContentTypeHeader, r.body.mimeType);
    ValuesNamedAppend(l, t, key);
    ValuesNamedAppend(l + t, IfPresent(ContentEncodingHeader, r.body.encoding), key);
    ValuesNamedIfPresent(LocationHeader, r.redirectUrl, key);
    ValuesNamedIfPresent(ContentTypeHeader, r.body.mimeType, key);
    ValuesNamedIfPresent(ContentEncodingHeader, r.body.encoding, key);
  }

  /** The synthesised values under a canonical name, entry by entry. */
  lemma ValuesNamedSynthesized(r: Response, key: string)
    ensures ValuesNamed(Synthesized(r), key)
         == (if r.redirectUrl != "" && NetHttp.CanonicalKey(LocationHeader) == key then [r.redirectUrl] else [])
            + (if r.body.mimeType != "" && NetHttp.CanonicalKey(ContentTypeHeader) == key then [r.body.mimeType] else [])
            + (if r.body.encoding != "" && NetHttp.CanonicalKey(ContentEncodingHeader) == key then [r.body.encoding] else [])
            + (if r.body.compression > 0 && NetHttp.CanonicalKey(ContentLengthHeader) == key
               then [NetHttp.RuneString(r.body.compression)] else [])
            + (if r.body.size > 0 && NetHttp.CanonicalKey(ContentLengthHeader) == key
               then [NetHttp.RuneString(r.body.size)] else [])
  {
    var named := IfPresent(LocationHeader, r.redirectUrl)
                 + IfPresent(ContentTypeHeader, r.body.mimeType)
                 + IfPresent(ContentEncodingHeader, r.body.encoding);
    var c := IfPositive(r.body.compression);
    var z := IfPositive(r.body.size);
    assert Synthesized(r) == named + c + z;
    ValuesNamedNamedEntries(r, key);
    ValuesNamedAppend(named, c, key);
    ValuesNamedAppend(named + c, z, key);
    ValuesNamedIfPositive(r.body.compression, key);
    ValuesNamedIfPositive(r.body.size, key);
  }

  /** None of Location, Content-Type and Content-Encoding is filed under Content-Length. */
  lemma NamedEntriesNotLengths(r: Response)
    ensures ValuesNamed(IfPresent(LocationHeader, r.redirectUrl)
                        + IfPresent(ContentTypeHeader, r.body.mimeType)
                        + IfPresent(ContentEncodingHeader, r.body.encoding),
                        NetHttp.CanonicalKey(ContentLengthHeader)) == []
  {
    var key := NetHttp.CanonicalKey(ContentLengthHeader);
    var l := IfPresent(LocationHeader, r.redirectUrl);
    var t := IfPresent(ContentTypeHeader, r.body.mimeType);
    var e := IfPresent(ContentEncodingHeader, r.body.encoding);
    AddedNamesDistinct();
    ValuesNamedAppend(l, t, key);
    ValuesNamedAppend(l + t, e, key);
    ValuesNamedIfPresent(LocationHeader, r.redirectUrl, key);
    ValuesNamedIfPresent(ContentTypeHeader, r.body.mimeType, key);
    ValuesNamedIfPresent(ContentEncodingHeader, r.body.encoding, key);
  }

  /** Under Content-Length, the synthesised entries contribute the two counts' values only. */
  lemma SynthesizedLengths(r: Response)
    ensures ValuesNamed(Synthesized(r), NetHttp.CanonicalKey(ContentLengthHeader))
         == (if r.body.compression > 0 then [NetHttp.RuneString(r.body.compression)] else [])
            + (if r.body.size > 0 then [NetHttp.RuneString(r.body.size)] else [])
  {
    var key := NetHttp.CanonicalKey(ContentLengthHeader);
    var named := IfPresent(LocationHeader, r.redirectUrl)
                 + IfPresent(ContentTypeHeader, r.body.mimeType)
                 + IfPresent(ContentEncodingHeader, r.body.encoding);
    var c := IfPositive(r.body.compression);
    var z := IfPositive(r.body.size);
    assert Synthesized(r) == named + c + z;
    NamedEntriesNotLengths(r);
    ValuesNamedAppend(named, c, key);
    ValuesNamedAppend(named + c, z, key);
    ValuesNamedIfPositive(r.body.compression, key);
    ValuesNamedIfPositive(r.body.size, key);
  }

  /** Any name other than Set-Cookie: the recorded values, then the synthesised ones. */
  lemma RecordedThenSynthesized(lib: NetHttp.Stdlib, r: Response, name: string)
    requires r.cookies.Some?
    requires NetHttp.CanonicalKey(name) != NetHttp.CanonicalKey(SetCookieHeader)
    ensures NetHttp.HeaderValues(ConvertResponseSpec(lib, r).header.value, name)
         == ValuesNamed(r.headers, NetHttp.CanonicalKey(name)) + ValuesNamed(Synthesized(r), NetHttp.CanonicalKey(name))
  {
    var recorded := ValuesNamed(r.headers, NetHttp.CanonicalKey(name));
    ResponseHeaderValues(lib, r, name);
    assert [] + recorded == recorded;
  }

  /**
   * Set-Cookie holds exactly one line per cookie, in order, before any
   * Set-Cookie value of the recorded headers.
   */
  lemma SetCookieValues(lib: NetHttp.Stdlib, r: Response)
    requires r.cookies.Some?
    ensures NetHttp.HeaderValues(ConvertResponseSpec(lib, r).header.value, SetCookieHeader)
         == CookieLines(lib, r.cookies.value) + ValuesNamed(r.headers, NetHttp.CanonicalKey(SetCookieHeader))
  {
    AddedNamesDistinct();
    ResponseHeaderValues(lib, r, SetCookieHeader);
    ValuesNamedSynthesized(r, NetHttp.CanonicalKey(SetCookieHeader));
  }

  /** Location gains the redirect URL, after the recorded values, exactly when it is not empty. */
  lemma LocationValues(lib: NetHttp.Stdlib, r: Response)
    requires r.cookies.Some?
    ensures NetHttp.HeaderValues(ConvertResponseSpec(lib, r).header.value, LocationHeader)
         == ValuesNamed(r.headers, NetHttp.CanonicalKey(LocationHeader))
            + (if r.redirectUrl != "" then [r.redirectUrl] else [])
  {
    var key := NetHttp.CanonicalKey(LocationHeader);
    AddedNamesDistinct();
    RecordedThenSynthesized(lib, r, LocationHeader);
    assert ValuesNamed(Synthesized(r), key) == (if r.redirectUrl != "" then [r.redirectUrl] else []) by {
      AddedNamesDistinct();
      ValuesNamedSynthesized(r, key);
    }
  }

  /** Content-Type gains the MIME type, after the recorded values, exactly when it is not empty. */
  lemma ContentTypeValues(lib: NetHttp.Stdlib, r: Response)
    requires r.cookies.Some?
    ensures NetHttp.HeaderValues(ConvertResponseSpec(lib, r).header.value, ContentTypeHeader)
         == ValuesNamed(r.headers, NetHttp.CanonicalKey(ContentTypeHeader))
            + (if r.body.mimeType != "" then [r.body.mimeType] else [])
  {
    var key := NetHttp.CanonicalKey(ContentTypeHeader);
    AddedNamesDistinct();
    RecordedThenSynthesized(lib, r, ContentTypeHeader);
    assert ValuesNamed(Synthesized(r), key) == (if r.body.mimeType != "" then [r.body.mimeType] else []) by {
      AddedNamesDistinct();
      ValuesNamedSynthesized(r, key);
    }
  }

  /** Content-Encoding gains the encoding, after the recorded values, exactly when it is not empty. */
  lemma ContentEncodingValues(lib: NetHttp.Stdlib, r: Response)
    requires r.cookies.Some?
    ensures NetHttp.HeaderValues(ConvertResponseSpec(lib, r).header.value, ContentEncodingHeader)
         == ValuesNamed(r.headers, NetHttp.CanonicalKey(ContentEncodingHeader))
            + (if r.body.encoding != "" then [r.body.encoding] else [])
  {
    var key := NetHttp.CanonicalKey(ContentEncodingHeader);
    AddedNamesDistinct();
    RecordedThenSynthesized(lib, r, ContentEncodingHeader);
    assert ValuesNamed(Synthesized(r), key) == (if r.body.encoding != "" then [r.body.encoding] else []) by {
      AddedNamesDistinct();
      ValuesNamedSynthesized(r, key);
    }
  }

  /**
   * Content-Length gains string(rune(n)) for a positive compression count and
   * then for a positive size, after the recorded values: zero, one or two.
   */
  lemma ContentLengthValues(lib: NetHttp.Stdlib, r: Response)
    requires r.cookies.Some?
    ensures NetHttp.HeaderValues(ConvertResponseSpec(lib, r).header.value, ContentLengthHeader)
         == ValuesNamed(r.headers, NetHttp.CanonicalKey(ContentLengthHeader))
            + ((if r.body.compression > 0 then [NetHttp.RuneString(r.body.compression)] else [])
               + (if r.body.size > 0 then [NetHttp.RuneString(r.body.size)] else []))
  {
    AddedNamesDistinct();
    RecordedThenSynthesized(lib, r, ContentLengthHeader);
    SynthesizedLengths(r);
  }

  /**
   * A synthesised Content-Length value is one character, never the decimal
   * numeral of the count it stands for.
   */
  lemma ContentLengthIsNotDecimal(n: int)
    requires n > 0
    ensures |NetHttp.RuneString(n)| == 1
    ensures NetHttp.RuneString(n) != Decimal.Digits(n)
  {
    if n >= 10 {
      assert Decimal.Digits(n) == Decimal.Digits(n / 10) + [Decimal.DigitChar(n % 10)];
    } else {
      assert IsScalarValue(n);
    }
  }

  /**
   * The recorded response of the test fixture: with a cookie list present and
   * a text of 884940 bytes, the converted body has 884940 bytes.
   */
  lemma ResponseScenario(lib: NetHttp.Stdlib, r: Response)
    requires r.cookies.Some?
    requires |Encode(r.body.content)| == 884940
    ensures var v := ConvertResponseSpec(lib, r);
            v.body.Some? && |v.body.value| == 884940
  {
  }

  /** *http.Response, restricted to the fields the conversion sets. */
  class HttpResponse {
    var statusCode: int
    var status: string
    var proto: string
    var header: Option<NetHttp.Header>
    var body: Option<seq<uint8>>

    function Value(): NativeResponse
      reads this
    {
      NativeResponse(statusCode, status, proto, header, body)
    }

    /** The &http.Response{...} literal: the status line set, header and body nil. */
    constructor (statusCode: int, status: string, proto: string)
      ensures Value() == NativeResponse(statusCode, status, proto, None, None)
    {
      this.statusCode := statusCode;
      this.status := status;
      this.proto := proto;
      header := None;
      body := None;
    }
  }

  /** `if value != "" { h.Add(name, value) }` */
  method AddIfPresent(h0: NetHttp.Header, name: string, value: string) returns (h: NetHttp.Header)
    ensures h == AddAll(h0, IfPresent(name, value))
  {
    h := h0;
    if value != "" {
      h := NetHttp.HeaderAdd(h, name, value);
      assert IfPresent(name, value)[..0] == [];
    }
  }

  /** `if n > 0 { h.Add("Content-Length", string(rune(n))) }` */
  method AddIfPositive(h0: NetHttp.Header, n: int) returns (h: NetHttp.Header)
    ensures h == AddAll(h0, IfPositive(n))
  {
    h := h0;
    if n > 0 {
      h := NetHttp.HeaderAdd(h, ContentLengthHeader, NetHttp.RuneString(n));
      assert IfPositive(n)[..0] == [];
    }
  }

  /**
   * The conditional additions after the recorded headers: Location,
   * Content-Type and Content-Encoding when not empty, then a Content-Length
   * value for a positive compression count and one for a positive size.
   */
  method AddSynthesized(r: Response, h0: NetHttp.Header) returns (h: NetHttp.Header)
    ensures h == AddAll(h0, Synthesized(r))
  {
    var l := IfPresent(LocationHeader, r.redirectUrl);
    var t := IfPresent(ContentTypeHeader, r.body.mimeType);
    var e := IfPresent(ContentEncodingHeader, r.body.encoding);
    var c := IfPositive(r.body.compression);
    h := AddIfPresent(h0, LocationHeader, r.redirectUrl);
    h := AddIfPresent(h, ContentTypeHeader, r.body.mimeType);
    AddAllAppend(h0, l, t);
    h := AddIfPresent(h, ContentEncodingHeader, r.body.encoding);
    AddAllAppend(h0, l + t, e);
    h := AddIfPositive(h, r.body.compression);
    AddAllAppend(h0, l + t + e, c);
    h := AddIfPositive(h, r.body.size);
    AddAllAppend(h0, l + t + e + c, IfPositive(r.body.size));
  }

  /** One Header.Add("Set-Cookie", ...) per cookie, its expiry parsed first. */
  method AddSetCookies(lib: NetHttp.Stdlib, cookies: seq<Har.Cookie>, h0: NetHttp.Header) returns (h: NetHttp.Header)
    ensures h == AddAll(h0, SetCookieEntries(lib, cookies))
  {
    h := h0;
    for i := 0 to |cookies|
      invariant h == AddAll(h0, SetCookieEntries(lib, cookies[..i]))
    {
      var c := ResponseCookie(lib, cookies[i]);
      SetCookieEntriesPrefix(lib, cookies, i);
      AddAllSnoc(h0, SetCookieEntries(lib, cookies[..i]), SetCookieEntry(lib, cookies[i]));
      h := NetHttp.HeaderAdd(h, SetCookieHeader, lib.cookieString(c));
    }
    assert cookies[..|cookies|] == cookies;
  }

  /** One Header.Add per recorded header, in order, with no filtering. */
  method AddRecordedHeaders(headers: seq<NameValuePair>, h0: NetHttp.Header) returns (h: NetHttp.Header)
    ensures h == AddAll(h0, headers)
  {
    h := h0;
    for i := 0 to |headers|
      invariant h == AddAll(h0, headers[..i])
    {
      assert headers[..i + 1] == headers[..i] + [headers[i]];
      AddAllSnoc(h0, headers[..i], headers[i]);
      h := NetHttp.HeaderAdd(h, headers[i].name, headers[i].value);
    }
    assert headers[..|headers|] == headers;
  }

  /**
   * The header map of a response whose cookie list is present: Set-Cookie per
   * cookie, the recorded headers, then Location, Content-Type,
   * Content-Encoding and the Content-Length values, each added with Add.
   */
  method BuildHeader(lib: NetHttp.Stdlib, r: Response, cookies: seq<Har.Cookie>) returns (h: NetHttp.Header)
    ensures h == AddAll(map[], Additions(lib, r, cookies))
  {
    h := AddSetCookies(lib, cookies, map[]);
    h := AddRecordedHeaders(r.headers, h);
    h := AddSynthesized(r, h);
    AddAllAppend(map[], SetCookieEntries(lib, cookies), r.headers);
    AddAllAppend(map[], SetCookieEntries(lib, cookies) + r.headers, Synthesized(r));
  }

  /** ConvertResponseIntoHttpResponse: total, and always a new response. */
  method ConvertResponseIntoHttpResponse(lib: NetHttp.Stdlib, r: Response) returns (resp: HttpResponse)
    ensures fresh(resp)
    ensures resp.Value() == ConvertResponseSpec(lib, r)
  {
    resp := new HttpResponse(r.statusCode, r.statusText, r.httpVersion);

    if r.cookies.Some? {
      var h := BuildHeader(lib, r, r.cookies.value);
      if r.body.content != "" {
        resp.body := Some(Encode(r.body.content));
      }
      resp.header := Some(h);
    }
  }
}
