/**
 * The HAR (HTTP Archive) document: the records the converters read, and the
 * constructor of an empty archive. Field sets are those the converters use;
 * `Response.cookies` keeps Go's nil slice (None) apart from an empty one.
 */
module Har {
  import opened Wrappers
  import opened Decimal

  /** A generic name/value pair: headers, query parameters, form parameters. Names may repeat. */
  datatype NameValuePair = NameValuePair(name: string, value: string)

  /** A recorded cookie; `expires` is the ISO 8601 text of the archive. */
  datatype Cookie = Cookie(
    name: string,
    value: string,
    path: string,
    domain: string,
    expires: string,
    secure: bool,
    httpOnly: bool)

  /** The request's posted data: its MIME type, decoded form parameters and raw text. */
  datatype PostData = PostData(mimeType: string, params: seq<NameValuePair>, content: string)

  datatype Request = Request(
    httpMethod: string,
    url: string,
    httpVersion: string,
    headers: seq<NameValuePair>,
    cookies: seq<Cookie>,
    queryParams: seq<NameValuePair>,
    body: PostData,
    headersSize: int,
    bodySize: int)

  /** The response content: decompressed size, bytes saved by compression, type, text and encoding. */
  datatype Content = Content(
    size: int,
    compression: int,
    mimeType: string,
    content: string,
    encoding: string)

  datatype Response = Response(
    statusCode: int,
    statusText: string,
    httpVersion: string,
    redirectUrl: string,
    headers: seq<NameValuePair>,
    cookies: Option<seq<Cookie>>,
    body: Content,
    headersSize: int,
    bodySize: int)

  datatype Timings = Timings(send: int, wait: int, receive: int)

  datatype Entry = Entry(
    request: Request,
    response: Response,
    start: string,
    time: int,
    timings: Timings,
    cache: map<string, string>)

  datatype Creator = Creator(name: string, version: string)

  datatype Log = Log(creator: Creator, version: string, comment: string, entries: seq<Entry>)

  datatype HAR = HAR(log: Log)

  // ---------------------------------------------------------------------------
  // The archive version stamp

  /** A wall-clock reading, as the fields Go's time formatting prints. */
  datatype LocalTime = LocalTime(year: nat, month: nat, day: nat, hour: nat, minute: nat, second: nat)

  predicate ValidTime(t: LocalTime) {
    && t.year <= 9999
    && 1 <= t.month <= 12
    && 1 <= t.day <= 31
    && t.hour < 24
    && t.minute < 60
    && t.second < 60
  }

  /** The time in Go's layout "20060102150405": year, month, day, hour, minute, second, zero-padded. */
  function VersionStamp(t: LocalTime): string {
    Padded(t.year, 4) + Padded(t.month, 2) + Padded(t.day, 2)
    + Padded(t.hour, 2) + Padded(t.minute, 2) + Padded(t.second, 2)
  }

  /** Reads a stamp of layout "20060102150405" back into its fields. */
  function ParseVersionStamp(s: string): Option<LocalTime> {
    if |s| == 14 && AllDigits(s) then
      Some(LocalTime(Value(s[0..4]), Value(s[4..6]), Value(s[6..8]),
                     Value(s[8..10]), Value(s[10..12]), Value(s[12..14])))
    else None
  }

  /** Six digit fields of widths 4, 2, 2, 2, 2, 2 laid end to end can be cut apart again. */
  lemma StampFields(y: string, mo: string, d: string, h: string, mi: string, se: string)
    requires |y| == 4 && |mo| == 2 && |d| == 2 && |h| == 2 && |mi| == 2 && |se| == 2
    requires AllDigits(y) && AllDigits(mo) && AllDigits(d) && AllDigits(h) && AllDigits(mi) && AllDigits(se)
    ensures var s := y + mo + d + h + mi + se;
            && |s| == 14 && AllDigits(s)
            && s[0..4] == y && s[4..6] == mo && s[6..8] == d
            && s[8..10] == h && s[10..12] == mi && s[12..14] == se
  {
    var s := y + mo + d + h + mi + se;
    forall i | 0 <= i < 14
      ensures IsDigit(s[i])
    {
      if i < 4 { assert s[i] == y[i]; }
      else if i < 6 { assert s[i] == mo[i - 4]; }
      else if i < 8 { assert s[i] == d[i - 6]; }
      else if i < 10 { assert s[i] == h[i - 8]; }
      else if i < 12 { assert s[i] == mi[i - 10]; }
      else { assert s[i] == se[i - 12]; }
    }
  }

  /** The stamp of a valid time is 14 digits, yyyyMMddHHmmss, from which the time can be read back. */
  lemma {:induction false} VersionStampRoundTrip(t: LocalTime)
    requires ValidTime(t)
    ensures |VersionStamp(t)| == 14 && AllDigits(VersionStamp(t))
    ensures ParseVersionStamp(VersionStamp(t)) == Some(t)
  {
    assert Pow10(2) == 100 && Pow10(4) == 10000;
    PaddedRoundTrip(t.year, 4);
    PaddedRoundTrip(t.month, 2);
    PaddedRoundTrip(t.day, 2);
    PaddedRoundTrip(t.hour, 2);
    PaddedRoundTrip(t.minute, 2);
    PaddedRoundTrip(t.second, 2);
    StampFields(Padded(t.year, 4), Padded(t.month, 2), Padded(t.day, 2),
                Padded(t.hour, 2), Padded(t.minute, 2), Padded(t.second, 2));
  }

  /**
   * NewHAR: an archive with no entries whose log and creator carry the same
   * version stamp, taken from the clock reading `now`.
   */
  function NewHAR(creatorName: string, now: LocalTime): (h: HAR)
    ensures h.log.creator.name == creatorName
    ensures h.log.version == h.log.creator.version
    ensures ValidTime(now) ==> |h.log.version| == 14 && AllDigits(h.log.version)
    ensures ValidTime(now) ==> ParseVersionStamp(h.log.version) == Some(now)
    ensures h.log.entries == [] && h.log.comment == ""
  {
    var v := VersionStamp(now);
    assert ValidTime(now) ==> |v| == 14 && AllDigits(v) && ParseVersionStamp(v) == Some(now) by {
      if ValidTime(now) {
        VersionStampRoundTrip(now);
      }
    }
    HAR(Log(Creator(creatorName, v), v, "", []))
  }
}
