/** The browser identity an account impersonates: an operating system and a
    Chrome version, their string forms as stored in the table, and the HTTP
    headers composed from them. */
module Impersonation {
  import opened Wrappers
  import opened Strings

  datatype Os = MacOS | Windows

  /** The stored form of an operating system (the enum's value). */
  function OsToStr(os: Os): string {
    match os
    case MacOS => "macOS"
    case Windows => "Windows"
  }

  /** The enum lookup by value: any string other than the two stored forms
      is refused, and a found value prints back as the string it came from. */
  function OsFromStr(s: string): (r: Option<Os>)
    ensures r.Some? <==> s == "macOS" || s == "Windows"
    ensures r.Some? ==> OsToStr(r.value) == s
  {
    if s == "macOS" then Some(MacOS)
    else if s == "Windows" then Some(Windows)
    else None
  }

  lemma OsRoundTrip(os: Os)
    ensures OsFromStr(OsToStr(os)) == Some(os)
  {
  }

  /** The platform part of the User-Agent string. */
  function UserAgentOs(os: Os): string {
    match os
    case MacOS => "(Macintosh; Intel Mac OS X 10_15_7)"
    case Windows => "(Windows NT 10.0; Win64; x64)"
  }

  datatype Version =
    | Chrome120 | Chrome123 | Chrome124 | Chrome126 | Chrome127
    | Chrome128 | Chrome129 | Chrome130 | Chrome131

  /** The stored form of a version: the full version number. */
  function VersionToStr(v: Version): string {
    match v
    case Chrome120 => "120.0.0.0"
    case Chrome123 => "123.0.0.0"
    case Chrome124 => "124.0.0.0"
    case Chrome126 => "126.0.0.0"
    case Chrome127 => "127.0.0.0"
    case Chrome128 => "128.0.0.0"
    case Chrome129 => "129.0.0.0"
    case Chrome130 => "130.0.0.0"
    case Chrome131 => "131.0.0.0"
  }

  /** The major version number: the first three characters of the full one. */
  function Major(v: Version): string {
    VersionToStr(v)[..3]
  }

  /** The enum lookup by value: the nine full version numbers are accepted,
      everything else is refused. */
  function VersionFromStr(s: string): (r: Option<Version>)
    ensures r.Some? ==> VersionToStr(r.value) == s
    ensures r.None? ==> forall v :: VersionToStr(v) != s
  {
    if s == "120.0.0.0" then Some(Chrome120)
    else if s == "123.0.0.0" then Some(Chrome123)
    else if s == "124.0.0.0" then Some(Chrome124)
    else if s == "126.0.0.0" then Some(Chrome126)
    else if s == "127.0.0.0" then Some(Chrome127)
    else if s == "128.0.0.0" then Some(Chrome128)
    else if s == "129.0.0.0" then Some(Chrome129)
    else if s == "130.0.0.0" then Some(Chrome130)
    else if s == "131.0.0.0" then Some(Chrome131)
    else None
  }

  lemma VersionRoundTrip(v: Version)
    ensures VersionFromStr(VersionToStr(v)) == Some(v)
  {
  }

  /** Two versions print differently: the stored form identifies the version. */
  lemma VersionToStrInjective(v: Version, w: Version)
    requires VersionToStr(v) == VersionToStr(w)
    ensures v == w
  {
    VersionRoundTrip(v);
    VersionRoundTrip(w);
  }

  /** One entry of a `sec-ch-ua` brand list: `"name";v="major"`. */
  function Brand(name: string, major: string): string {
    "\"" + name + "\";v=\"" + major + "\""
  }

  /** The `sec-ch-ua` brand list of a version. */
  function Ua(v: Version): string {
    match v
    case Chrome120 => Brand("Chromium", "120") + ", " + Brand("Google Chrome", "120") + ", " + Brand("Not?A_Brand", "99")
    case Chrome123 => Brand("Google Chrome", "123") + ", " + Brand("Not;A=Brand", "8") + ", " + Brand("Chromium", "123")
    case Chrome124 => Brand("Chromium", "124") + ", " + Brand("Google Chrome", "124") + ", " + Brand("Not-A.Brand", "99")
    case Chrome126 => Brand("Chromium", "126") + ", " + Brand("Google Chrome", "126") + ", " + Brand("Not-A.Brand", "99")
    case Chrome127 => Brand("Not/A)Brand", "8") + ", " + Brand("Chromium", "127") + ", " + Brand("Google Chrome", "127")
    case Chrome128 => Brand("Chromium", "128") + ", " + Brand("Google Chrome", "128") + ", " + Brand("Not?A_Brand", "99")
    case Chrome129 => Brand("Google Chrome", "129") + ", " + Brand("Chromium", "129") + ", " + Brand("Not_A Brand", "24")
    case Chrome130 => Brand("Chromium", "130") + ", " + Brand("Google Chrome", "130") + ", " + Brand("Not?A_Brand", "99")
    case Chrome131 => Brand("Google Chrome", "131") + ", " + Brand("Chromium", "131") + ", " + Brand("Not_A Brand", "24")
  }

  predicate OccursAt(s: string, part: string, i: int) {
    0 <= i && i + |part| <= |s| && s[i..i + |part|] == part
  }

  /** `part in s` for strings. */
  predicate Contains(s: string, part: string) {
    exists i :: 0 <= i <= |s| && OccursAt(s, part, i)
  }

  lemma ContainsPiece(a: string, b: string, c: string)
    ensures Contains(a + b + c, b)
  {
    assert (a + b + c)[|a|..|a| + |b|] == b;
    assert OccursAt(a + b + c, b, |a|);
  }

  /** Each of the three entries of a brand list occurs in it. */
  lemma BrandListContainsEntries(x: string, y: string, z: string)
    ensures Contains(x + ", " + y + ", " + z, x)
    ensures Contains(x + ", " + y + ", " + z, y)
    ensures Contains(x + ", " + y + ", " + z, z)
  {
    assert x + ", " + y + ", " + z == [] + x + (", " + y + ", " + z);
    ContainsPiece([], x, ", " + y + ", " + z);
    assert x + ", " + y + ", " + z == (x + ", ") + y + (", " + z);
    ContainsPiece(x + ", ", y, ", " + z);
    assert x + ", " + y + ", " + z == (x + ", " + y + ", ") + z + [];
    ContainsPiece(x + ", " + y + ", ", z, []);
  }

  /** Whatever its order, a brand list names Chromium and Google Chrome at
      the version's own major number. */
  lemma UaAdvertisesVersion(v: Version)
    ensures Contains(Ua(v), Brand("Chromium", Major(v)))
    ensures Contains(Ua(v), Brand("Google Chrome", Major(v)))
  {
    match v
    case Chrome120 =>
      assert Major(v) == "120";
      BrandListContainsEntries(Brand("Chromium", "120"), Brand("Google Chrome", "120"), Brand("Not?A_Brand", "99"));
    case Chrome123 =>
      assert Major(v) == "123";
      BrandListContainsEntries(Brand("Google Chrome", "123"), Brand("Not;A=Brand", "8"), Brand("Chromium", "123"));
    case Chrome124 =>
      assert Major(v) == "124";
      BrandListContainsEntries(Brand("Chromium", "124"), Brand("Google Chrome", "124"), Brand("Not-A.Brand", "99"));
    case Chrome126 =>
      assert Major(v) == "126";
      BrandListContainsEntries(Brand("Chromium", "126"), Brand("Google Chrome", "126"), Brand("Not-A.Brand", "99"));
    case Chrome127 =>
      assert Major(v) == "127";
      BrandListContainsEntries(Brand("Not/A)Brand", "8"), Brand("Chromium", "127"), Brand("Google Chrome", "127"));
    case Chrome128 =>
      assert Major(v) == "128";
      BrandListContainsEntries(Brand("Chromium", "128"), Brand("Google Chrome", "128"), Brand("Not?A_Brand", "99"));
    case Chrome129 =>
      assert Major(v) == "129";
      BrandListContainsEntries(Brand("Google Chrome", "129"), Brand("Chromium", "129"), Brand("Not_A Brand", "24"));
    case Chrome130 =>
      assert Major(v) == "130";
      BrandListContainsEntries(Brand("Chromium", "130"), Brand("Google Chrome", "130"), Brand("Not?A_Brand", "99"));
    case Chrome131 =>
      assert Major(v) == "131";
      BrandListContainsEntries(Brand("Google Chrome", "131"), Brand("Chromium", "131"), Brand("Not_A Brand", "24"));
  }

  const UserAgentPrefix := "Mozilla/5.0 "
  const UserAgentMiddle := " AppleWebKit/537.36 (KHTML, like Gecko) Chrome/"
  const UserAgentSuffix := " Safari/537.36"

  /** The User-Agent header of a version on an operating system. */
  function UserAgent(v: Version, os: Os): string {
    UserAgentPrefix + UserAgentOs(os) + UserAgentMiddle + VersionToStr(v) + UserAgentSuffix
  }

  /** Reading the impersonated identity back out of a User-Agent string: the
      platform part has a different length on each system, and the version
      sits at a fixed distance from the end. */
  function ParseUserAgent(ua: string): Option<(Version, Os)> {
    var os := if |ua| == |UserAgent(Chrome120, MacOS)| then MacOS else Windows;
    if |ua| < 23 then None
    else match VersionFromStr(ua[|ua| - 23..|ua| - 14])
      case Some(v) => Some((v, os))
      case None => None
  }

  /** Round trip: the User-Agent determines the version and the system it was
      made from, so distinct identities never send the same User-Agent. */
  lemma UserAgentRoundTrip(v: Version, os: Os)
    ensures ParseUserAgent(UserAgent(v, os)) == Some((v, os))
  {
    var ua := UserAgent(v, os);
    var head := UserAgentPrefix + UserAgentOs(os) + UserAgentMiddle;
    assert ua == head + VersionToStr(v) + UserAgentSuffix;
    assert |VersionToStr(v)| == 9;
    assert ua[|ua| - 23..|ua| - 14] == VersionToStr(v);
    VersionRoundTrip(v);
  }

  lemma UserAgentInjective(v: Version, os: Os, w: Version, os': Os)
    requires UserAgent(v, os) == UserAgent(w, os')
    ensures v == w && os == os'
  {
    UserAgentRoundTrip(v, os);
    UserAgentRoundTrip(w, os');
  }

  /** The four identity headers a client sends with every request. */
  function Headers(v: Version, os: Os): (h: map<string, string>)
    ensures h.Keys == {"User-Agent", "sec-ch-ua", "sec-ch-ua-mobile", "sec-ch-ua-platform"}
    ensures h["sec-ch-ua-mobile"] == "?0"
    ensures h["sec-ch-ua-platform"] == "\"" + OsToStr(os) + "\""
    ensures ParseUserAgent(h["User-Agent"]) == Some((v, os))
    ensures Contains(h["sec-ch-ua"], Brand("Chromium", Major(v)))
  {
    UserAgentRoundTrip(v, os);
    UaAdvertisesVersion(v);
    map[
      "User-Agent" := UserAgent(v, os),
      "sec-ch-ua" := Ua(v),
      "sec-ch-ua-mobile" := "?0",
      "sec-ch-ua-platform" := "\"" + OsToStr(os) + "\""
    ]
  }

  // ---------------------------------------------------------------------
  // Per-endpoint request headers

  type HeaderMap = map<string, string>

  /** The headers every same-origin JSON request to the quest site carries,
      before the endpoint-specific ones. */
  function CommonHeaders(): HeaderMap {
    map[
      "Accept" := "*/*",
      "Accept-Encoding" := "gzip, deflate, br, zstd",
      "Accept-Language" := "ru,en;q=0.9,en-GB;q=0.8,en-US;q=0.7",
      "Connection" := "keep-alive",
      "Content-Type" := "application/json",
      "Host" := "chainopera.ai",
      "Sec-Fetch-Dest" := "empty",
      "Sec-Fetch-Mode" := "cors",
      "Sec-Fetch-Site" := "same-origin"
    ]
  }

  const SiteOrigin := "https://chainopera.ai"
  const QuestPage := "https://chainopera.ai/quest/"

  /** Reference shape of an endpoint's headers: the common ones, the referer,
      the cookie, and optionally the site origin and a body length. */
  function EndpointHeaders(referer: string, cookie: string, origin: bool, length: Option<string>): HeaderMap {
    var h := CommonHeaders()["Referer" := referer]["Cookie" := cookie];
    var h' := if origin then h["Origin" := SiteOrigin] else h;
    match length
    case Some(n) => h'["Content-Length" := n]
    case None => h'
  }

  function NonceHeaders(cookie: string): HeaderMap {
    map[
      "Accept" := "*/*",
      "Accept-Encoding" := "gzip, deflate, br, zstd",
      "Accept-Language" := "ru,en;q=0.9,en-GB;q=0.8,en-US;q=0.7",
      "Connection" := "keep-alive",
      "Content-Type" := "application/json",
      "Host" := "chainopera.ai",
      "Origin" := "https://chainopera.ai",
      "Referer" := "https://chainopera.ai/quest/",
      "Sec-Fetch-Dest" := "empty",
      "Sec-Fetch-Mode" := "cors",
      "Sec-Fetch-Site" := "same-origin",
      "Cookie" := cookie
    ]
  }

  function LoginHeaders(cookie: string, length: string): HeaderMap {
    map[
      "Accept" := "*/*",
      "Accept-Encoding" := "gzip, deflate, br, zstd",
      "Accept-Language" := "ru,en;q=0.9,en-GB;q=0.8,en-US;q=0.7",
      "Connection" := "keep-alive",
      "Content-Length" := length,
      "Content-Type" := "application/json",
      "Host" := "chainopera.ai",
      "Origin" := "https://chainopera.ai",
      "Referer" := "https://chainopera.ai/quest/",
      "Sec-Fetch-Dest" := "empty",
      "Sec-Fetch-Mode" := "cors",
      "Sec-Fetch-Site" := "same-origin",
      "Cookie" := cookie
    ]
  }

  function JoinWaitingListHeaders(cookie: string, contentLength: string): HeaderMap {
    map[
      "Accept" := "*/*",
      "Accept-Encoding" := "gzip, deflate, br, zstd",
      "Accept-Language" := "ru,en;q=0.9,en-GB;q=0.8,en-US;q=0.7",
      "Connection" := "keep-alive",
      "Content-Length" := contentLength,
      "Content-Type" := "application/json",
      "Host" := "chainopera.ai",
      "Origin" := "https://chainopera.ai",
      "Referer" := "https://chainopera.ai/quest/join-waiting-list",
      "Sec-Fetch-Dest" := "empty",
      "Sec-Fetch-Mode" := "cors",
      "Sec-Fetch-Site" := "same-origin",
      "Cookie" := cookie
    ]
  }

  function FollowTwitterHeaders(cookie: string): HeaderMap {
    map[
      "Accept" := "*/*",
      "Accept-Encoding" := "gzip, deflate, br, zstd",
      "Accept-Language" := "ru,en;q=0.9,en-GB;q=0.8,en-US;q=0.7",
      "Connection" := "keep-alive",
      "Content-Type" := "application/json",
      "Host" := "chainopera.ai",
      "Referer" := "https://chainopera.ai/quest/",
      "Sec-Fetch-Dest" := "empty",
      "Sec-Fetch-Mode" := "cors",
      "Sec-Fetch-Site" := "same-origin",
      "Cookie" := cookie
    ]
  }

  function WriteTwitterHandleHeaders(cookie: string, contentLength: string): HeaderMap {
    map[
      "Accept" := "*/*",
      "Accept-Encoding" := "gzip, deflate, br, zstd",
      "Accept-Language" := "ru,en;q=0.9,en-GB;q=0.8,en-US;q=0.7",
      "Connection" := "keep-alive",
      "Content-Length" := contentLength,
      "Content-Type" := "application/json",
      "Host" := "chainopera.ai",
      "Origin" := "https://chainopera.ai",
      "Referer" := "https://chainopera.ai/quest/",
      "Sec-Fetch-Dest" := "empty",
      "Sec-Fetch-Mode" := "cors",
      "Sec-Fetch-Site" := "same-origin",
      "Cookie" := cookie
    ]
  }

  function GetInviteCodeHeaders(cookie: string, contentLength: string): HeaderMap {
    map[
      "Accept" := "*/*",
      "Accept-Encoding" := "gzip, deflate, br, zstd",
      "Accept-Language" := "ru,en;q=0.9,en-GB;q=0.8,en-US;q=0.7",
      "Connection" := "keep-alive",
      "Content-Length" := contentLength,
      "Content-Type" := "application/json",
      "Host" := "chainopera.ai",
      "Origin" := "https://chainopera.ai",
      "Referer" := "https://chainopera.ai/quest/",
      "Sec-Fetch-Dest" := "empty",
      "Sec-Fetch-Mode" := "cors",
      "Sec-Fetch-Site" := "same-origin",
      "Cookie" := cookie
    ]
  }

  function WriteInviteCodeHeaders(cookie: string, contentLength: string): HeaderMap {
    map[
      "Accept" := "*/*",
      "Accept-Encoding" := "gzip, deflate, br, zstd",
      "Accept-Language" := "ru,en;q=0.9,en-GB;q=0.8,en-US;q=0.7",
      "Connection" := "keep-alive",
      "Content-Length" := contentLength,
      "Content-Type" := "application/json",
      "Host" := "chainopera.ai",
      "Origin" := "https://chainopera.ai",
      "Referer" := "https://chainopera.ai/quest/",
      "Sec-Fetch-Dest" := "empty",
      "Sec-Fetch-Mode" := "cors",
      "Sec-Fetch-Site" := "same-origin",
      "Cookie" := cookie
    ]
  }

  function DiscordHeaders(cookie: string, contentLength: string, referer: string): HeaderMap {
    map[
      "Accept" := "*/*",
      "Accept-Encoding" := "gzip, deflate, br, zstd",
      "Accept-Language" := "ru,en;q=0.9,en-GB;q=0.8,en-US;q=0.7",
      "Connection" := "keep-alive",
      "Content-Length" := contentLength,
      "Content-Type" := "application/json",
      "Host" := "chainopera.ai",
      "Origin" := "https://chainopera.ai",
      "Referer" := referer,
      "Sec-Fetch-Dest" := "empty",
      "Sec-Fetch-Mode" := "cors",
      "Sec-Fetch-Site" := "same-origin",
      "Cookie" := cookie
    ]
  }

  /** The nonce request has no body: the reference shape with the quest page
      as referer, the site origin and no `Content-Length`. */
  lemma NonceHeadersMatchReference(cookie: string)
    ensures NonceHeaders(cookie) == EndpointHeaders(QuestPage, cookie, true, None)
  {
  }

  /** The login and waiting-list requests: the cookie argument becomes
      `Cookie`, the length argument `Content-Length`. */
  lemma LoginHeadersMatchReference(cookie: string, length: string)
    ensures LoginHeaders(cookie, length) == EndpointHeaders(QuestPage, cookie, true, Some(length))
    ensures JoinWaitingListHeaders(cookie, length)
      == EndpointHeaders("https://chainopera.ai/quest/join-waiting-list", cookie, true, Some(length))
  {
  }

  /** The follow-twitter request alone goes without `Origin` and without a
      body length; the twitter-handle request has both. */
  lemma TwitterHeadersMatchReference(cookie: string, length: string)
    ensures FollowTwitterHeaders(cookie) == EndpointHeaders(QuestPage, cookie, false, None)
    ensures WriteTwitterHandleHeaders(cookie, length) == EndpointHeaders(QuestPage, cookie, true, Some(length))
  {
  }

  /** The two invite-code requests. */
  lemma InviteHeadersMatchReference(cookie: string, length: string)
    ensures GetInviteCodeHeaders(cookie, length) == EndpointHeaders(QuestPage, cookie, true, Some(length))
    ensures WriteInviteCodeHeaders(cookie, length) == EndpointHeaders(QuestPage, cookie, true, Some(length))
  {
  }

  /** The Discord request takes its referer as an argument. */
  lemma DiscordHeadersMatchReference(cookie: string, length: string, referer: string)
    ensures DiscordHeaders(cookie, length, referer) == EndpointHeaders(referer, cookie, true, Some(length))
  {
  }

  /** What the reference shape promises: the cookie and length echo their
      arguments, and Origin and Content-Length are present exactly when asked for. */
  lemma EndpointHeadersEcho(referer: string, cookie: string, origin: bool, length: Option<string>)
    ensures EndpointHeaders(referer, cookie, origin, length)["Cookie"] == cookie
    ensures EndpointHeaders(referer, cookie, origin, length)["Referer"] == referer
    ensures "Origin" in EndpointHeaders(referer, cookie, origin, length) <==> origin
    ensures "Content-Length" in EndpointHeaders(referer, cookie, origin, length) <==> length.Some?
    ensures length.Some? ==> EndpointHeaders(referer, cookie, origin, length)["Content-Length"] == length.value
  {
  }
}
