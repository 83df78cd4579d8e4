/** The target URL: `scheme://host[:port][/path]`, and the Host header made from it.

The authority ends as in section 3.2 of RFC 3986: at the first slash, question
mark or number sign, or with the text. */
module Url {

  import opened Text
  import opened Words

  datatype Scheme = Http | Https

  type Port = p: nat | p <= U16_MAX

  datatype Target = Target(scheme: Scheme, host: string, port: Port)

  datatype UrlError = MissingScheme | UnsupportedScheme(name: string) | InvalidPort | MissingHost

  datatype Parsed = Ok(target: Target) | Err(error: UrlError)

  function DefaultPort(scheme: Scheme): Port {
    match scheme
    case Http => 80
    case Https => 443
  }

  function SchemeName(scheme: Scheme): string {
    match scheme
    case Http => "http"
    case Https => "https"
  }

  /** `host_header`. */
  function HostHeader(t: Target): string {
    if t.port == DefaultPort(t.scheme) then t.host else t.host + ":" + Digits(t.port)
  }

  /** Where "://" first occurs. */
  function SchemeEnd(url: string): (r: Option<nat>)
    ensures r.Some? ==> r.value + 3 <= |url| && url[r.value..r.value + 3] == "://"
  {
    if |url| < 3 then None
    else if url[..3] == "://" then Some(0)
    else
      match SchemeEnd(url[1..])
      case None => None
      case Some(i) =>
        assert url[1..][i..i + 3] == url[i + 1..i + 4];
        Some(i + 1)
  }

  predicate EndsAuthority(c: char) {
    c == '/' || c == '?' || c == '#'
  }

  function AuthorityEnd(rest: string): (n: nat)
    ensures n <= |rest| && (n < |rest| ==> EndsAuthority(rest[n]))
    ensures forall i :: 0 <= i < n ==> !EndsAuthority(rest[i])
  {
    if rest == "" || EndsAuthority(rest[0]) then 0 else 1 + AuthorityEnd(rest[1..])
  }

  /** `rfind(':')`. */
  function LastColon(s: string): (r: Option<nat>)
    ensures r.Some? ==> r.value < |s| && s[r.value] == ':' && forall i :: r.value < i < |s| ==> s[i] != ':'
    ensures r.None? ==> forall i :: 0 <= i < |s| ==> s[i] != ':'
  {
    if s == "" then None
    else if s[|s| - 1] == ':' then Some(|s| - 1)
    else LastColon(s[..|s| - 1])
  }

  function HostAndPort(scheme: Scheme, authority: string): Parsed {
    match LastColon(authority)
    case None => WithHost(scheme, authority, DefaultPort(scheme))
    case Some(i) =>
      var possiblePort := authority[i + 1..];
      if AllDigits(possiblePort) && possiblePort != "" then
        match ParseNumber(possiblePort, U16_MAX + 1)
        case None => Err(InvalidPort)
        case Some(p) => WithHost(scheme, authority[..i], p)
      else WithHost(scheme, authority, DefaultPort(scheme))
  }

  function WithHost(scheme: Scheme, host: string, port: Port): Parsed {
    if host == "" then Err(MissingHost) else Ok(Target(scheme, host, port))
  }

  /** `parse_url`. */
  function ParseUrl(url: string): Parsed {
    match SchemeEnd(url)
    case None => Err(MissingScheme)
    case Some(i) =>
      var name, rest := Lower(url[..i]), url[i + 3..];
      if name == "http" then HostAndPort(Http, rest[..AuthorityEnd(rest)])
      else if name == "https" then HostAndPort(Https, rest[..AuthorityEnd(rest)])
      else Err(UnsupportedScheme(name))
  }

  // ---- the grammar of authorities -----------------------------------------

  /** `head` and, after a colon, the port in digits. */
  predicate EndsInPort(authority: string, head: string, port: string) {
    authority == head + ":" + port && IsNumber(port)
  }

  /** What follows the last colon is a number. */
  predicate PortLike(s: string) {
    match LastColon(s)
    case None => false
    case Some(i) => IsNumber(s[i + 1..])
  }

  lemma EndsInPortOnce(s: string, head: string, port: string)
    requires EndsInPort(s, head, port)
    ensures LastColon(s) == Some(|head|) && s[..|head|] == head && s[|head| + 1..] == port && PortLike(s)
  {
    assert s[|head|] == ':';
    assert forall i :: |head| < i < |s| ==> s[i] == port[i - |head| - 1];
    assert s[|head| + 1..] == port;
  }

  lemma PortLikeSplits(s: string) returns (head: string, port: string)
    ensures PortLike(s) ==> EndsInPort(s, head, port)
  {
    head, port := "", "";
    if PortLike(s) {
      var i := LastColon(s).value;
      head, port := s[..i], s[i + 1..];
      assert s == s[..i] + [s[i]] + s[i + 1..];
    }
  }

  /** The authority names `host` and `port`: the port may be left out when it is the
      default one and the host cannot be mistaken for a host with a port. */
  ghost predicate Names(scheme: Scheme, authority: string, host: string, port: Port) {
    || (authority == host && port == DefaultPort(scheme) && !PortLike(host))
    || (exists digits :: EndsInPort(authority, host, digits) && ValueOf(digits) == port)
  }

  ghost predicate PortTooLarge(authority: string) {
    exists host, digits :: EndsInPort(authority, host, digits) && ValueOf(digits) > U16_MAX
  }

  /** Every authority has exactly one reading. */
  lemma AuthorityGrammar(scheme: Scheme, authority: string, t: Target)
    requires t.scheme == scheme
    ensures HostAndPort(scheme, authority) == Ok(t) <==> t.host != "" && Names(scheme, authority, t.host, t.port)
    ensures HostAndPort(scheme, authority) == Err(MissingHost)
       <==> exists port: Port :: Names(scheme, authority, "", port)
    ensures HostAndPort(scheme, authority) == Err(InvalidPort) <==> PortTooLarge(authority)
  {
    var head, port := PortLikeSplits(authority);
    if PortLike(authority) {
      EndsInPortOnce(authority, head, port);
      forall h, d | EndsInPort(authority, h, d)
        ensures h == head && d == port
      {
        EndsInPortOnce(authority, h, d);
      }
      assert ValueOf(port) <= U16_MAX ==> Names(scheme, authority, head, ValueOf(port));
    } else {
      forall h, d | EndsInPort(authority, h, d)
        ensures false
      {
        EndsInPortOnce(authority, h, d);
      }
      assert authority == "" ==> Names(scheme, authority, "", DefaultPort(scheme));
    }
  }

  // ---- the grammar of URLs ------------------------------------------------

  /** No character that ends an authority. */
  predicate NoEnd(s: string) {
    '/' !in s && '?' !in s && '#' !in s
  }

  /** What may follow an authority. */
  predicate Tail(s: string) {
    s == "" || s[0] == '/' || s[0] == '?' || s[0] == '#'
  }

  lemma {:induction false} SchemeEndAt(name: string, rest: string)
    requires forall i :: 0 <= i < |name| ==> name[i] != ':'
    ensures SchemeEnd(name + "://" + rest) == Some(|name|)
  {
    var url := name + "://" + rest;
    if name == "" {
      assert url[..3] == "://";
    } else {
      assert url[1..] == name[1..] + "://" + rest;
      assert url[..3][0] == name[0];
      SchemeEndAt(name[1..], rest);
    }
  }

  lemma SchemeEndSplits(url: string)
    ensures SchemeEnd(url).Some? ==> url == url[..SchemeEnd(url).value] + "://" + url[SchemeEnd(url).value + 3..]
  {
    hide SchemeEnd;
    if SchemeEnd(url).Some? {
      var i := SchemeEnd(url).value;
      assert url == url[..i] + url[i..i + 3] + url[i + 3..];
    }
  }

  lemma AuthorityEndAt(authority: string, tail: string)
    requires NoEnd(authority) && Tail(tail)
    ensures AuthorityEnd(authority + tail) == |authority|
  {
    var n, rest := AuthorityEnd(authority + tail), authority + tail;
    assert forall i :: 0 <= i < |authority| ==> rest[i] == authority[i];
    assert tail != "" ==> rest[|authority|] == tail[0];
  }

  lemma SchemeHasNoColon(name: string)
    requires Lower(name) == "http" || Lower(name) == "https"
    ensures forall i :: 0 <= i < |name| ==> name[i] != ':'
  {
    hide Lower;
    forall i | 0 <= i < |name|
      ensures name[i] != ':'
    {
      assert LowerChar(name[i]) == Lower(name)[i] != ':';
    }
  }

  lemma ParseParts(url: string, name: string, scheme: Scheme, authority: string, tail: string)
    requires url == name + "://" + (authority + tail)
    requires Lower(name) == SchemeName(scheme) && NoEnd(authority) && Tail(tail)
    ensures ParseUrl(url) == HostAndPort(scheme, authority)
  {
    SchemeHasNoColon(name);
    SchemeEndAt(name, authority + tail);
    AuthorityEndAt(authority, tail);
    assert url[..|name|] == name;
    assert url[|name| + 3..] == authority + tail;
    assert (authority + tail)[..|authority|] == authority;
  }

  /** The parts of a URL: its scheme in any case, its authority and what follows. */
  ghost predicate IsUrl(url: string, name: string, scheme: Scheme, authority: string, tail: string) {
    url == name + "://" + (authority + tail) && Lower(name) == SchemeName(scheme) && NoEnd(authority) && Tail(tail)
  }

  ghost predicate Denotes(url: string, name: string, authority: string, tail: string, t: Target) {
    t.host != "" && IsUrl(url, name, t.scheme, authority, tail) && Names(t.scheme, authority, t.host, t.port)
  }

  /** Exactly the URLs whose authority names the host and the port are parsed to them. */
  lemma UrlGrammar(url: string, t: Target)
    ensures ParseUrl(url) == Ok(t) <==> exists name, authority, tail :: Denotes(url, name, authority, tail, t)
  {
    hide ParseUrl, Denotes;
    if ParseUrl(url) == Ok(t) {
      var name, authority, tail := ParsedDenotes(url, t);
    }
    if name, authority, tail :| Denotes(url, name, authority, tail, t) {
      DenotedParses(url, name, authority, tail, t);
    }
  }

  lemma DenotedParses(url: string, name: string, authority: string, tail: string, t: Target)
    requires Denotes(url, name, authority, tail, t)
    ensures ParseUrl(url) == Ok(t)
  {
    hide ParseUrl, HostAndPort, Names, Lower;
    ParseParts(url, name, t.scheme, authority, tail);
    AuthorityGrammar(t.scheme, authority, t);
  }

  lemma ParsedDenotes(url: string, t: Target) returns (name: string, authority: string, tail: string)
    requires ParseUrl(url) == Ok(t)
    ensures Denotes(url, name, authority, tail, t)
  {
    ParsedScheme(url, t);
    hide ParseUrl, HostAndPort, Names, Lower, SchemeEnd;
    name, authority, tail := UrlParts(url, t.scheme);
    ParseParts(url, name, t.scheme, authority, tail);
    AuthorityGrammar(t.scheme, authority, t);
  }

  /** The parts of a text whose scheme is supported. */
  lemma UrlParts(url: string, scheme: Scheme) returns (name: string, authority: string, tail: string)
    requires SchemeEnd(url).Some? && Lower(url[..SchemeEnd(url).value]) == SchemeName(scheme)
    ensures IsUrl(url, name, scheme, authority, tail)
  {
    hide SchemeEnd, Lower, SchemeName;
    var i := SchemeEnd(url).value;
    var rest := url[i + 3..];
    var n := AuthorityEnd(rest);
    name, authority, tail := url[..i], rest[..n], rest[n..];
    SchemeEndSplits(url);
    hide AuthorityEnd;
    assert rest == authority + tail;
  }

  lemma ParsedScheme(url: string, t: Target)
    requires ParseUrl(url) == Ok(t)
    ensures SchemeEnd(url).Some? && Lower(url[..SchemeEnd(url).value]) == SchemeName(t.scheme)
  {
    hide SchemeEnd, Lower, AuthorityEnd;
  }

  // ---- refusals -----------------------------------------------------------

  predicate MarkAt(url: string, i: nat) {
    i + 3 <= |url| && url[i] == ':' && url[i + 1] == '/' && url[i + 2] == '/'
  }

  predicate FirstMark(url: string, i: nat) {
    MarkAt(url, i) && forall j: nat :: j < i ==> !MarkAt(url, j)
  }

  /** The scheme ends at the first "://". */
  lemma {:induction false} SchemeEndIsFirst(url: string)
    ensures SchemeEnd(url) == None <==> forall i: nat :: !MarkAt(url, i)
    ensures SchemeEnd(url).Some? ==> MarkAt(url, SchemeEnd(url).value)
    ensures SchemeEnd(url).Some? ==> forall i: nat :: i < SchemeEnd(url).value ==> !MarkAt(url, i)
  {
    if |url| < 3 {
    } else {
      assert url[..3] == [url[0], url[1], url[2]];
      assert url[..3] == "://" <==> MarkAt(url, 0);
      SchemeEndIsFirst(url[1..]);
      forall i: nat
        ensures MarkAt(url, i + 1) <==> MarkAt(url[1..], i)
      {
      }
      assert forall i: nat :: MarkAt(url, i) ==> i == 0 || MarkAt(url[1..], i - 1);
    }
  }

  /** When a URL is refused: it has no "://", or what precedes the first one is neither
      "http" nor "https" in any case, or its authority names no host or too large a port. */
  lemma Refusals(url: string, name: string)
    ensures ParseUrl(url) == Err(MissingScheme) <==> forall i: nat :: !MarkAt(url, i)
    ensures ParseUrl(url) == Err(UnsupportedScheme(name))
       <==> exists i: nat :: FirstMark(url, i) && Lower(url[..i]) == name != "http" && name != "https"
    ensures ParseUrl(url) == Err(MissingHost) <==> exists parts :: RefusedAuthority(url, parts, MissingHost)
    ensures ParseUrl(url) == Err(InvalidPort) <==> exists parts :: RefusedAuthority(url, parts, InvalidPort)
  {
    forall parts, error | RefusedAuthority(url, parts, error)
      ensures ParseUrl(url) == Err(error)
    {
      ParseParts(url, parts.name, parts.scheme, parts.authority, parts.tail);
    }
    SchemeEndIsFirst(url);
    hide SchemeEnd, Lower, AuthorityEnd, RefusedAuthority;
    if SchemeEnd(url).Some? {
      var i := SchemeEnd(url).value;
      assert FirstMark(url, i);
      assert forall k: nat :: FirstMark(url, k) ==> k == i;
      if ParseUrl(url) == Err(MissingHost) || ParseUrl(url) == Err(InvalidPort) {
        var scheme := if Lower(url[..i]) == "http" then Http else Https;
        RefusedParts(url, scheme);
      }
    }
  }

  datatype Parts = Parts(name: string, scheme: Scheme, authority: string, tail: string)

  ghost predicate RefusedAuthority(url: string, parts: Parts, error: UrlError) {
    && IsUrl(url, parts.name, parts.scheme, parts.authority, parts.tail)
    && HostAndPort(parts.scheme, parts.authority) == Err(error)
  }

  lemma RefusedParts(url: string, scheme: Scheme)
    requires SchemeEnd(url).Some? && Lower(url[..SchemeEnd(url).value]) == SchemeName(scheme)
    requires ParseUrl(url).Err?
    ensures exists parts :: RefusedAuthority(url, parts, ParseUrl(url).error)
  {
    hide ParseUrl, HostAndPort, IsUrl, Lower, SchemeEnd;
    var name, authority, tail := UrlParts(url, scheme);
    PartsParse(url, name, scheme, authority, tail);
    assert RefusedAuthority(url, Parts(name, scheme, authority, tail), ParseUrl(url).error);
  }

  lemma PartsParse(url: string, name: string, scheme: Scheme, authority: string, tail: string)
    requires IsUrl(url, name, scheme, authority, tail)
    ensures ParseUrl(url) == HostAndPort(scheme, authority)
  {
    hide ParseUrl, HostAndPort, Lower;
    ParseParts(url, name, scheme, authority, tail);
  }

  // ---- round trips --------------------------------------------------------

  /** The URL written with the Host header of a target. */
  function Written(t: Target, tail: string): string {
    SchemeName(t.scheme) + "://" + (HostHeader(t) + tail)
  }

  /** The text of the Host header: the port is left out if and only if it is 80 for HTTP
      or 443 for HTTPS. */
  lemma HeaderText(t: Target)
    ensures (t.scheme == Http && t.port == 80) || (t.scheme == Https && t.port == 443) ==> HostHeader(t) == t.host
    ensures !((t.scheme == Http && t.port == 80) || (t.scheme == Https && t.port == 443)) ==>
      HostHeader(t) == t.host + ":" + Digits(t.port) && |HostHeader(t)| > |t.host| + 1
  {
    DigitsAreValue(t.port);
    hide Digits;
  }

  /** A URL without a port names the default one: 80 for HTTP, 443 for HTTPS. */
  lemma PortLeftOut(url: string, name: string, scheme: Scheme, host: string, tail: string)
    requires IsUrl(url, name, scheme, host, tail) && host != "" && !PortLike(host)
    ensures ParseUrl(url) == Ok(Target(scheme, host, if scheme == Http then 80 else 443))
  {
    hide ParseUrl, HostAndPort, Lower;
    var t := Target(scheme, host, if scheme == Http then 80 else 443);
    ParseParts(url, name, scheme, host, tail);
    AuthorityGrammar(scheme, host, t);
    assert Names(scheme, host, t.host, t.port);
  }

  /** The Host header loses nothing: no character of the host ends the authority, and
      a port that was left out cannot be read off the end of the host. */
  predicate Faithful(t: Target) {
    t.host != "" && NoEnd(t.host) && (t.port != DefaultPort(t.scheme) || !PortLike(t.host))
  }

  /** A written target is parsed back if and only if it is faithful, whatever follows. */
  lemma RoundTrip(t: Target, tail: string)
    requires Tail(tail)
    ensures ParseUrl(Written(t, tail)) == Ok(t) <==> Faithful(t)
  {
    hide HostAndPort, Names, PortLike, Digits, Lower;
    var url, header := Written(t, tail), HostHeader(t);
    DigitsAreValue(t.port);
    LowerNames();
    if NoEnd(t.host) {
      HeaderHasNoEnd(t);
      ParseParts(url, SchemeName(t.scheme), t.scheme, header, tail);
      AuthorityGrammar(t.scheme, header, t);
      HeaderNames(t);
    } else {
      ShorterHost(t, tail);
    }
  }

  lemma LowerNames()
    ensures Lower("http") == "http" && Lower("https") == "https"
  {
  }

  lemma HeaderHasNoEnd(t: Target)
    requires NoEnd(t.host)
    ensures NoEnd(HostHeader(t))
  {
    DigitsAreValue(t.port);
  }

  lemma HeaderNames(t: Target)
    ensures Names(t.scheme, HostHeader(t), t.host, t.port) <==> t.port != DefaultPort(t.scheme) || !PortLike(t.host)
  {
    DigitsAreValue(t.port);
    if t.port != DefaultPort(t.scheme) {
      assert EndsInPort(HostHeader(t), t.host, Digits(t.port));
    } else {
      forall digits
        ensures !EndsInPort(t.host, t.host, digits)
      {
        assert |t.host + ":" + digits| > |t.host|;
      }
    }
  }

  /** A host with a slash in it is cut off there. */
  lemma ShorterHost(t: Target, tail: string)
    requires !NoEnd(t.host)
    ensures ParseUrl(Written(t, tail)) != Ok(t)
  {
    hide HostAndPort, Lower, HostHeader, ParseUrl;
    var url, name, rest := Written(t, tail), SchemeName(t.scheme), HostHeader(t) + tail;
    var n := AuthorityEnd(rest);
    var i :| 0 <= i < |t.host| && EndsAuthority(t.host[i]);
    HeaderStartsWithHost(t, tail, i);
    assert rest == rest[..n] + rest[n..];
    LowerNames();
    ParseParts(url, name, t.scheme, rest[..n], rest[n..]);
    HostWithin(t.scheme, rest[..n], t);
  }

  lemma HeaderStartsWithHost(t: Target, tail: string, i: nat)
    requires i < |t.host|
    ensures i < |HostHeader(t) + tail| && (HostHeader(t) + tail)[i] == t.host[i]
  {
  }

  lemma HostWithin(scheme: Scheme, authority: string, t: Target)
    ensures HostAndPort(scheme, authority) == Ok(t) ==> |t.host| <= |authority|
  {
  }

  /** Every parsed target has a host that ends no authority, so writing it and parsing it
      again gives the same target unless its port was left out and its host is port-like. */
  lemma Reparse(url: string, t: Target, tail: string)
    requires ParseUrl(url) == Ok(t) && Tail(tail)
    ensures ParseUrl(Written(t, tail)) == Ok(t) <==> t.port != DefaultPort(t.scheme) || !PortLike(t.host)
  {
    hide HostAndPort, PortLike, Lower, HostHeader, ParseUrl, Written;
    UrlGrammar(url, t);
    var name, authority, tail' :| Denotes(url, name, authority, tail', t);
    assert |t.host| <= |authority| && t.host == authority[..|t.host|];
    assert forall i :: 0 <= i < |t.host| ==> t.host[i] == authority[i];
    RoundTrip(t, tail);
  }

  /** Such a target exists: an explicit default port after a host that has a colon itself
      is dropped by the header, and the header then names another port. */
  lemma ExplicitDefaultPortIsLost()
    ensures ParseUrl("http://a:90:80") == Ok(Target(Http, "a:90", 80))
    ensures HostHeader(Target(Http, "a:90", 80)) == "a:90"
    ensures ParseUrl("http://a:90") == Ok(Target(Http, "a", 90))
  {
    hide ParseUrl, HostAndPort, Lower;
    LowerNames();
    ParseParts("http://a:90:80", "http", Http, "a:90:80", "");
    ParseParts("http://a:90", "http", Http, "a:90", "");
    TwoPorts();
  }

  lemma TwoPorts()
    ensures HostAndPort(Http, "a:90:80") == Ok(Target(Http, "a:90", 80))
    ensures HostAndPort(Http, "a:90") == Ok(Target(Http, "a", 90))
  {
    hide HostAndPort, PortLike;
    DigitsAreValue(80);
    DigitsAreValue(90);
    assert Digits(80) == "80" && Digits(90) == "90";
    assert EndsInPort("a:90:80", "a:90", "80") && EndsInPort("a:90", "a", "90");
    AuthorityGrammar(Http, "a:90:80", Target(Http, "a:90", 80));
    AuthorityGrammar(Http, "a:90", Target(Http, "a", 90));
  }
}
