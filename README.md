# harhar converters in Dafny

A Dafny model of the core of harhar (Go). The core has two converters. The
first turns a HAR request record (HTTP Archive) into a Go `*http.Request`.
The second turns a HAR response record into a Go `*http.Response`. Beside
them sit the HAR data types and `NewHAR`, the constructor of an empty
archive.

Modules:

- `Har` (har.dfy): the HAR records, with the fields the converters read.
  `Response.cookies` is an `Option`, which keeps Go's nil slice apart from an
  empty one. It also holds `NewHAR` and the `"20060102150405"` version stamp
  with its parser.
- `NetHttp` (net_http.dfy): the parts of `net/http` the converters observe.
  This covers the header map under canonical names (`Set`, `Add`, `Get`,
  `Values`), `url.Values.Add`, `Request.AddCookie`, Go's `int` to `int32`
  truncation and `string(rune(n))`. Library routines whose internals do not
  matter are fields of the datatype `Stdlib`, so every property is proved for
  any behaviour of them. Those routines are `http.NewRequest` validation,
  `url.QueryUnescape`, the cookie sanitisers, `Cookie.String` and
  `time.Parse`.
- `RequestConverter` (convert_request.dfy) has three parts:
  - functions that specify each step;
  - `ConvertRequestSpec`, the whole result;
  - the method `ConvertRequestIntoHttpRequest`. It runs the source's loops on
    a `HttpRequest` object and is proved to produce `ConvertRequestSpec`.
- `ResponseConverter` (convert_response.dfy): the same layout around
  `ConvertResponseSpec` and `ConvertResponseIntoHttpResponse`.
- `Utf8` (utf8.dfy): Go strings are modelled as code points. Their byte form
  is the UTF-8 encoding, and a strict decoder proves the encoding loses
  nothing.
- `Decimal` (decimal.dfy): zero-padded decimal numerals and their values.
- `Wrappers` (wrappers.dfy): `Option`.

Quirks of the code that the model reproduces as written:

- Query parameters are written as `?` followed by each `name=value` pair,
  with no separator between pairs and a single trailing `&`
  (convert_request.go:20-24).
- A value that `url.QueryUnescape` rejects contributes `""`: the error is
  discarded and the empty result is still added (convert_request.go:32-33).
- The two `Content-Length` values are added with `Add`, so the header keeps
  both, in the order compression, then size (convert_response.go:48-53).
- For POST, PUT and PATCH, a failed `http.NewRequest` leads to a nil
  dereference before the error check (convert_request.go:35-42). This is the
  `NilDereference` outcome.
- The struct definitions in structs.go lack `Body.Params`,
  `Body.Compression` and `Body.Encoding`, which the converters read. The
  datatypes here carry the fields the converters use.

## Model

| member | source | states |
|---|---|---|
| RequestConverter.ConvertRequestIntoHttpRequest | convert_request.go:13-69 | Running the source's steps on a new request object yields exactly the outcome `ConvertRequestSpec` describes. That outcome is a fresh request equal to the specified one, the `NewRequest` error, or the nil dereference. |
| RequestConverter.BuildQuery | convert_request.go:16-26 | The loop with its inverted separator test builds exactly `QuerySuffix(params)`. |
| RequestConverter.QuerySuffixShape | convert_request.go:16-28 | With no parameters the URL is used verbatim. Otherwise the suffix is `?`, then every `name=value` in order with nothing between them, then one `&`. Its length is 2 + Σ(\|name\|+1+\|value\|). |
| RequestConverter.ConcatenatedLength | convert_request.go:18-25 | The concatenated pairs are Σ(\|name\|+1+\|value\|) characters long. |
| RequestConverter.QuerySuffixMergesPairs | convert_request.go:20-24 | Without separators, `[a=1, b=2]` and `[a=1b=2]` give the same suffix `?a=1b=2&`. |
| RequestConverter.HttpRequest.constructor | convert_request.go:28 | A successful `http.NewRequest` gives the method (`""` becomes GET), the URL, HTTP/1.1, an empty header and no form or body. |
| RequestConverter.BuildFormValues | convert_request.go:30-34 | The map's keys are exactly the parameter names. Each name maps to the unescaped values of its parameters, in input order and with duplicates kept. |
| RequestConverter.FormValuesForAbsent | convert_request.go:30-34 | A name that no parameter has gets no values. |
| RequestConverter.OutcomeCases | convert_request.go:28-42 | The conversion succeeds if and only if `NewRequest` accepts. A rejection returns the error if and only if the method is not POST, PUT or PATCH. For those three methods it dereferences the nil request instead. |
| RequestConverter.ConvertedRequest | convert_request.go:15-67 | A converted request has the recorded method and the target URL. `Form` and `PostForm` are the same map of unescaped parameters for POST, PUT and PATCH, and unset otherwise. The body bytes decode back to the recorded text, and the content length is their number. |
| RequestConverter.SetHeadersLastWins | convert_request.go:43-47 | After copying, a canonical name holds exactly the value of its last non-pseudo occurrence. A name that never occurs keeps its prior state. |
| RequestConverter.SetHeadersNoPseudo | convert_request.go:43-47 | Copying never creates a key that starts with `:`. |
| RequestConverter.HttpRequest.CopyHeaders | convert_request.go:43-47 | The loop changes only the header, to `SetHeaders` of the old header. |
| RequestConverter.NoPseudoHeaderSent | convert_request.go:43-61 | No key of the converted request's header starts with `:`. |
| RequestConverter.HttpRequest.AddCookie | convert_request.go:49-57 | Only the header changes, by `Request.AddCookie` of the given cookie. |
| RequestConverter.HttpRequest.AddRecordedCookies | convert_request.go:48-58 | The loop adds one cookie per record, in order, each expiring 24 hours after `now`. |
| RequestConverter.AddCookiesJoins | convert_request.go:48-58 | With one or more cookies there is a single `Cookie` value. It joins with `; ` the earlier non-empty value, then one pair per cookie in order. |
| RequestConverter.AddCookiesKeepsOthers | convert_request.go:48-58 | Adding cookies leaves every name other than `Cookie` unchanged. |
| RequestConverter.CookieHeaderRule | convert_request.go:43-58 | The converted request's `Cookie` header: the joined pairs when cookies are recorded, otherwise the last copied `Cookie` header. |
| RequestConverter.CookiePairs | convert_request.go:48-58 | One pair per cookie. |
| RequestConverter.JoinCookiesNonEmpty | convert_request.go:48-58 | Joining parts whose last part is not empty never gives `""`. |
| RequestConverter.AddCookiesIgnoresExpiry | convert_request.go:48-58 | Two cookie lists that differ only in their recorded expiry texts build the same header. |
| RequestConverter.AddCookiesIgnoresClock | convert_request.go:48-58 | The cookie header is the same whatever the clock reading, since the expiry `now + 24h` is never written. |
| RequestConverter.ExpiresNeverRead | convert_request.go:48-58 | Replacing the cookies' recorded expiry texts leaves the whole conversion unchanged, and so does converting at any other clock reading. |
| RequestConverter.ContentTypeRule | convert_request.go:43-61 | A non-empty MIME type is the single `Content-Type` value, whatever the headers said. An empty one leaves the last copied `Content-Type`, or none. |
| RequestConverter.ReportScenario | convert_request_test.go:21-36 | A recorded POST to `https://api.quobix.com/report`, with no query parameters and a 46549-byte text, converts to a POST to that URL with a 46549-byte body and content length. |
| ResponseConverter.ConvertResponseIntoHttpResponse | convert_response.go:13-60 | The conversion is total. It returns a fresh response equal to `ConvertResponseSpec`. |
| ResponseConverter.HttpResponse.constructor | convert_response.go:15-19 | The response literal: the status line is set, the header and body are nil. |
| ResponseConverter.CookieListGate | convert_response.go:15-57 | The status code, status and protocol are always copied. With a nil cookie list the header and body stay unset. A present list (even empty) sets the header. The body is set if and only if the list is present and the text is not empty, and it decodes to that text. |
| ResponseConverter.BuildHeader | convert_response.go:22-53 | The header is built by `Add`: Set-Cookie per cookie, then the recorded headers, then the synthesised entries, in that order. |
| ResponseConverter.AddSetCookies | convert_response.go:23-35 | The loop adds one `Set-Cookie` line per cookie, in order. |
| ResponseConverter.AddRecordedHeaders | convert_response.go:36-38 | The loop adds every recorded header, in order, with no filtering. |
| ResponseConverter.AddSynthesized | convert_response.go:39-53 | The conditional additions equal `AddAll` of the synthesised entries. |
| ResponseConverter.AddIfPresent | convert_response.go:39-47 | Adds the entry if and only if the value is not empty. |
| ResponseConverter.AddIfPositive | convert_response.go:48-53 | Adds a `Content-Length` entry if and only if the count is positive. |
| ResponseConverter.AddAllValues | convert_response.go:22-53 | A sequence of `Add`s keeps every earlier value. Under each canonical name it appends the values of the entries with that name, in order. |
| ResponseConverter.AddAllAppend | convert_response.go:22-53 | Adding two runs of entries one after the other is adding their concatenation. |
| ResponseConverter.ValuesNamedAppend | convert_response.go:22-53 | The values under a name distribute over concatenated entries. |
| ResponseConverter.ResponseHeaderValues | convert_response.go:21-57 | Under every name, the header holds in order: the cookie lines (for Set-Cookie only), the recorded values with that name, and the synthesised values with that name. |
| ResponseConverter.CookieLines | convert_response.go:23-35 | One serialised line per cookie. |
| ResponseConverter.SetCookieEntriesNamed | convert_response.go:23-35 | The cookie entries are filed under Set-Cookie only, one line per cookie in order. |
| ResponseConverter.SetCookieValues | convert_response.go:21-38 | Set-Cookie holds exactly one line per cookie, in order, before any recorded Set-Cookie value. An unparsable expiry only yields the zero time. |
| ResponseConverter.LocationValues | convert_response.go:39-41 | Location gains the redirect URL, after the recorded values, if and only if the URL is not empty. |
| ResponseConverter.ContentTypeValues | convert_response.go:42-44 | Content-Type gains the MIME type, after the recorded values, if and only if it is not empty. |
| ResponseConverter.ContentEncodingValues | convert_response.go:45-47 | Content-Encoding gains the encoding, after the recorded values, if and only if it is not empty. |
| ResponseConverter.ContentLengthValues | convert_response.go:48-53 | Content-Length gains `string(rune(compression))` for a positive compression, then `string(rune(size))` for a positive size. That makes zero, one or two values after the recorded ones. |
| ResponseConverter.SynthesizedLengths | convert_response.go:48-53 | Among the synthesised entries, only the two counts give Content-Length values. |
| ResponseConverter.AddedNamesDistinct | convert_response.go:34-53 | Set-Cookie, Location, Content-Type, Content-Encoding and Content-Length have pairwise different canonical forms. |
| ResponseConverter.ContentLengthIsNotDecimal | convert_response.go:48-53 | A synthesised Content-Length value is one character, never the decimal numeral of the count. |
| ResponseConverter.ResponseScenario | convert_response_test.go:21-28 | With a present cookie list and a 884940-byte text, the body has 884940 bytes. |
| NetHttp.HeaderGet | convert_request.go:48-58 | `Get` is the first value under the canonical name, or `""` when there is none. |
| NetHttp.HeaderSet | convert_request.go:43-47 | `Set` makes a name's values exactly `[value]`. Every other canonical name is unchanged. |
| NetHttp.HeaderAdd | convert_response.go:36-38 | `Add` appends the value to the name's values. |
| NetHttp.HeaderAddKeepsOthers | convert_response.go:36-38 | `Add` leaves every other canonical name unchanged. |
| NetHttp.ValuesAdd | convert_request.go:30-34 | `url.Values.Add` uses the key as given, appends the value and leaves other keys unchanged. |
| NetHttp.WithCookie | convert_request.go:49-57 | `AddCookie` appends the cookie's pair to the one Cookie value, after `; ` when that value is not empty. Every other name is unchanged. |
| NetHttp.CookiePair | convert_request.go:49-57 | The pair AddCookie writes contains `=`, so it is never empty. |
| NetHttp.TitleCase | convert_request.go:43-47 | Canonical casing keeps the length and changes letters only. It preserves which characters are token characters. |
| NetHttp.TitleCaseIdempotent | convert_request.go:43-47 | Title-casing twice is title-casing once. |
| NetHttp.CanonicalKey | convert_request.go:43-47 | Canonicalisation keeps the length of a name. |
| NetHttp.CanonicalKeyIdempotent | convert_request.go:43-47 | A canonical name is its own canonical form. |
| NetHttp.CanonicalKeepsLeadingChar | convert_request.go:43-47 | A canonical name starts with `:` if and only if the name does. |
| NetHttp.Int32 | convert_response.go:48-53 | Go's int to int32 conversion lands in the int32 range and agrees with the argument modulo 2^32. |
| NetHttp.RuneString | convert_response.go:48-53 | `string(rune(n))` is one character: the low 32 bits of n, read as a signed number, when that is a Unicode scalar value (so n itself for a scalar value), and U+FFFD when it is not. |
| Utf8.EncodeChar | convert_request.go:15 | A character takes one to four bytes, and one byte if and only if it is ASCII. |
| Utf8.Encode | convert_request.go:15 | A string takes between one and four bytes per character. |
| Utf8.EncodeCharScalar | convert_request.go:15 | The bytes of a character announce their own length and carry its code point. |
| Utf8.DecodeEncode | convert_request.go:62-67 | Decoding the bytes of a string gives the string back. |
| Utf8.EncodeAsciiLength | convert_request.go:67 | An ASCII text has one byte per character, so its content length is its length. |
| Har.NewHAR | structs.go:42-54 | The creator name is kept, and the log and creator versions are the same stamp. For a valid time the stamp is 14 digits that parse back to that time. There are no entries and the comment is empty. |
| Har.VersionStampRoundTrip | structs.go:43 | The `"20060102150405"` stamp of a valid time is 14 digits and parses back to the time. |
| Decimal.PaddedRoundTrip | structs.go:43 | A number below 10^width, zero-padded to width, has exactly width digits whose value is the number. |
| Decimal.DigitsFitWidth | structs.go:43 | A numeral fits in width digits if and only if the number is below 10^width. |
| Decimal.ValueOfDigits | structs.go:43 | The value of a number's numeral is the number. |
| Decimal.ValueIgnoresLeadingZeros | structs.go:43 | Leading zeros do not change a numeral's value. |
| Decimal.ValueOfZeros | structs.go:43 | A run of zeros has value 0. |
| Decimal.DigitCharValue | structs.go:43 | A digit character reads back as its digit. |
| Decimal.Digits | structs.go:43 | A numeral is at least one digit, with no leading zero when the number is 10 or more. |

## Left out

- `http.NewRequest` validation of the method and URL is the predicate `Stdlib.newRequestAccepts`. URL parsing and `URL.String()` are not modelled: the request's URL is the text handed to `NewRequest`, and the test's URL comparison is read that way.
- `url.QueryUnescape`, `http.Cookie.String`, the cookie name and value sanitisers and `time.Parse(RFC3339Nano)` are fields of `Stdlib`. Their internals are library code.
- `time.Now()` is the parameter `now`. `NewHAR` takes the local time as a `LocalTime`; time zones and years past 9999 are not modelled.
- The `io.Reader`, `NopCloser` and `ReadAll` wrapping is not modelled. A body is its byte sequence. Reading an in-memory reader cannot fail, so that error branch (convert_request.go:63-65) is never taken.
- `Form` and `PostForm` are two fields holding the same map value. That they alias one Go map is not captured.
- Go strings are modelled as code point sequences, with bytes from their UTF-8 encoding. Go strings that are not valid UTF-8 are not modelled. JSON-decoded HAR text is always valid UTF-8.
- Only the fields of `*http.Request` and `*http.Response` that the converters set are modelled. The request's `Host` and parsed `URL` fields are not.
- The commented-out reverse conversion (convert_response.go:62-128) is dead code.
- JSON struct tags, JSON decoding and the tests' reading of the `.har` fixture are I/O. The scenarios use only the values the tests assert.
- The comments `Time=SUM(Timings.*)` and "always empty" on `Cache` (structs.go:87, 95) state nothing the code enforces.
- NetHttp.HeaderAdd: its contract states only the name's own values. The frame for other names is the separate lemma `HeaderAddKeepsOthers`.
