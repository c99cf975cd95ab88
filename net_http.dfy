/**
 * The parts of Go's net/http, net/textproto and time that the converters
 * rely on, at the level the converters observe them: the header map with its
 * canonical keys, url.Values, cookies, instants, and the rune conversion.
 * Library routines whose internals the converters never depend on are
 * fields of `Stdlib`, so that every property proved about the converters
 * holds whatever those routines do.
 */
module NetHttp {
  import opened Wrappers
  import Utf8

  /** http.Header: canonical name to its values, in the order they were added. */
  type Header = map<string, seq<string>>

  /** url.Values: form field name (as given) to its values, in order. */
  type Values = map<string, seq<string>>

  /** An instant, in nanoseconds after Go's zero time (January 1 of year 1, 00:00:00 UTC). */
  datatype Instant = Instant(nanos: int)

  /** time.Time{}: what time.Parse returns along with an error. */
  const ZeroTime := Instant(0)

  /** 24 * time.Hour, in nanoseconds. */
  const Day: int := 24 * 60 * 60 * 1_000_000_000

  function After(t: Instant, d: int): Instant {
    Instant(t.nanos + d)
  }

  /** The fields of http.Cookie that the converters fill in. */
  datatype Cookie = Cookie(
    name: string,
    value: string,
    path: string,
    domain: string,
    expires: Instant,
    httpOnly: bool,
    secure: bool)

  /** Library routines taken as given; the model is proved for every choice of them. */
  datatype Stdlib = Stdlib(
    /** Whether http.NewRequest(method, url, nil) succeeds (valid method, parsable URL). */
    newRequestAccepts: (string, string) -> bool,
    /** url.QueryUnescape: the unescaped text, or None on a malformed escape. */
    queryUnescape: string -> Option<string>,
    /** The sanitisers http.Request.AddCookie applies to a cookie's name and value. */
    sanitizeCookieName: string -> string,
    sanitizeCookieValue: string -> string,
    /** (*http.Cookie).String(): the Set-Cookie serialisation of section 4.1 of RFC 6265. */
    cookieString: Cookie -> string,
    /** time.Parse(time.RFC3339Nano, s), or None when s does not parse. */
    parseRfc3339Nano: string -> Option<Instant>)

  // ---------------------------------------------------------------------------
  // Header-name canonicalisation (textproto.CanonicalMIMEHeaderKey)

  /** A byte allowed in a header field name (an RFC 7230 token character). */
  predicate IsTokenChar(c: char) {
    ('a' <= c <= 'z') || ('A' <= c <= 'Z') || ('0' <= c <= '9') || c == '!' || c == '#' || c == '$' || c == '%' || c == '&' || c == '\''
    || c == '*' || c == '+' || c == '-' || c == '.' || c == '^' || c == '_' || c == '`' || c == '|' || c == '~'
  }

  /** Upper-case the first letter of every hyphen-separated word and lower-case the rest. */
  function TitleCase(s: string, wordStart: bool): (r: string)
    ensures |r| == |s|
    ensures forall i :: 0 <= i < |s| ==> (r[i] == s[i] || ('a' <= s[i] <= 'z') || ('A' <= s[i] <= 'Z'))
    ensures forall i :: 0 <= i < |s| ==> (IsTokenChar(r[i]) <==> IsTokenChar(s[i]))
  {
    if s == [] then []
    else
      var c := CaseChar(s[0], wordStart);
      [c] + TitleCase(s[1..], c == '-')
  }

  /** One character of TitleCase: ASCII upper case at a word start, ASCII lower case elsewhere. */
  function CaseChar(c: char, wordStart: bool): char {
    if wordStart && 'a' <= c <= 'z' then (c as int - 32) as char
    else if !wordStart && 'A' <= c <= 'Z' then (c as int + 32) as char
    else c
  }

  /** Every character of the name is a token character. */
  predicate AllTokenChars(s: string) {
    s == [] || (IsTokenChar(s[0]) && AllTokenChars(s[1..]))
  }

  /**
   * The canonical form of a header name: a name made only of token characters
   * is title-cased per hyphen-separated word ("content-type" becomes
   * "Content-Type"); any other name (with a space, a colon, a non-ASCII
   * character) is kept as it is.
   */
  function CanonicalKey(s: string): (r: string)
    ensures |r| == |s|
  {
    if AllTokenChars(s) then TitleCase(s, true) else s
  }

  /** Canonicalisation never creates a leading ':' (a colon is not a letter and is not a token character). */
  lemma CanonicalKeepsLeadingChar(s: string)
    requires |s| > 0
    ensures CanonicalKey(s)[0] == ':' <==> s[0] == ':'
  {
  }

  /** Canonicalising a canonical name changes nothing. */
  lemma {:induction false} TitleCaseIdempotent(s: string, wordStart: bool)
    ensures TitleCase(TitleCase(s, wordStart), wordStart) == TitleCase(s, wordStart)
    decreases |s|
  {
    if s != [] {
      var c := CaseChar(s[0], wordStart);
      var t := TitleCase(s, wordStart);
      assert t == [c] + TitleCase(s[1..], c == '-');
      assert t[0] == c && t[1..] == TitleCase(s[1..], c == '-');
      assert CaseChar(c, wordStart) == c;
      TitleCaseIdempotent(s[1..], c == '-');
    }
  }

  lemma CanonicalKeyIdempotent(s: string)
    ensures CanonicalKey(CanonicalKey(s)) == CanonicalKey(s)
  {
    if AllTokenChars(s) {
      TitleCaseIdempotent(s, true);
    }
  }

  // ---------------------------------------------------------------------------
  // http.Header and url.Values

  /** Header.Values(name): every value recorded under the name, in order. */
  function HeaderValues(h: Header, name: string): seq<string> {
    var k := CanonicalKey(name);
    if k in h then h[k] else []
  }

  /** Header.Get(name): the first value under the name, or "" if there is none. */
  function HeaderGet(h: Header, name: string): (v: string)
    ensures HeaderValues(h, name) == [] ==> v == ""
    ensures HeaderValues(h, name) != [] ==> v == HeaderValues(h, name)[0]
  {
    var k := CanonicalKey(name);
    if k in h && |h[k]| > 0 then h[k][0] else ""
  }

  /** Header.Set(name, value): the name's values become exactly [value]; other names keep theirs. */
  function HeaderSet(h: Header, name: string, value: string): (r: Header)
    ensures HeaderValues(r, name) == [value]
    ensures forall k :: k != CanonicalKey(name) ==> (k in r <==> k in h) && (k in h ==> r[k] == h[k])
  {
    h[CanonicalKey(name) := [value]]
  }

  /** Header.Add(name, value): value is appended to the name's values. */
  function HeaderAdd(h: Header, name: string, value: string): (r: Header)
    ensures HeaderValues(r, name) == HeaderValues(h, name) + [value]
  {
    var k := CanonicalKey(name);
    h[k := (if k in h then h[k] else []) + [value]]
  }

  /** Header.Add leaves every other canonical name as it was. */
  lemma HeaderAddKeepsOthers(h: Header, name: string, value: string, k: string)
    requires k != CanonicalKey(name)
    ensures k in HeaderAdd(h, name, value) <==> k in h
    ensures k in h ==> HeaderAdd(h, name, value)[k] == h[k]
  {
  }

  /** url.Values.Add(key, value): like Header.Add but the key is used as given. */
  function ValuesAdd(v: Values, key: string, value: string): (r: Values)
    ensures r.Keys == v.Keys + {key}
    ensures r[key] == (if key in v then v[key] else []) + [value]
    ensures forall k :: k in v && k != key ==> r[k] == v[k]
  {
    v[key := (if key in v then v[key] else []) + [value]]
  }

  // ---------------------------------------------------------------------------
  // Request.AddCookie

  /** The request header that carries the cookies. */
  const CookieHeader := "Cookie"

  /** The "name=value" text AddCookie writes for one cookie; it is never empty. */
  function CookiePair(lib: Stdlib, c: Cookie): (s: string)
    ensures '=' in s
  {
    var s := lib.sanitizeCookieName(c.name) + "=" + lib.sanitizeCookieValue(c.value);
    assert s[|lib.sanitizeCookieName(c.name)|] == '=';
    s
  }

  /**
   * Request.AddCookie: the cookie's pair is appended to the single Cookie
   * header, after "; " when that header already has a non-empty first value.
   * Only the name and value are used; path, domain, expiry and flags are not.
   */
  function WithCookie(lib: Stdlib, h: Header, c: Cookie): (r: Header)
    ensures HeaderValues(r, CookieHeader) ==
              [if HeaderGet(h, CookieHeader) == "" then CookiePair(lib, c)
               else HeaderGet(h, CookieHeader) + "; " + CookiePair(lib, c)]
    ensures forall k :: k != CanonicalKey(CookieHeader) ==> (k in r <==> k in h) && (k in h ==> r[k] == h[k])
  {
    var prior := HeaderGet(h, CookieHeader);
    if prior != "" then HeaderSet(h, CookieHeader, prior + "; " + CookiePair(lib, c))
    else HeaderSet(h, CookieHeader, CookiePair(lib, c))
  }

  // ---------------------------------------------------------------------------
  // string(rune(n))

  /** Go's int-to-int32 conversion: the low 32 bits, read as a two's-complement number. */
  function Int32(n: int): (r: int)
    ensures -0x8000_0000 <= r < 0x8000_0000
    ensures (r - n) % 0x1_0000_0000 == 0
  {
    var w := n % 0x1_0000_0000;
    if w < 0x8000_0000 then w else w - 0x1_0000_0000
  }

  /**
   * string(rune(n)): the one-character string of code point n truncated to
   * 32 bits, or U+FFFD when that is not a Unicode scalar value.
   */
  function RuneString(n: int): (s: string)
    ensures |s| == 1
    ensures Utf8.IsScalarValue(n) ==> s[0] as int == n
    ensures Utf8.IsScalarValue(Int32(n)) ==> s[0] as int == Int32(n)
    ensures !Utf8.IsScalarValue(Int32(n)) ==> s == "\U{FFFD}"
  {
    var r := Int32(n);
    if Utf8.IsScalarValue(r) then [r as char] else "\U{FFFD}"
  }
}
