/**
 * `parse_url` of `genki/http/url/parse.py`: a loose subset of the generic URI
 * syntax (section 3 of RFC 3986) read as
 *   [scheme "://"] [user [":" password] "@"] host [":" port] ["/" path] ["?" query] ["#" fragment]
 * The parser is a straight line of splits; each split is one function below,
 * applied in the order of the source. Failures are `InvalidURL` (a malformed
 * URL) or `ValueError` (an unknown scheme, a non-numeric port, or userinfo
 * with more than one `:`).
 */
module UrlParse {
  import opened Wrappers
  import opened PyStr

  /** The `Protocol` enumeration: its two members and their string values. */
  datatype Protocol = Http | Https

  function ProtocolValue(p: Protocol): string {
    match p
    case Http => "http"
    case Https => "https"
  }

  /** `Protocol(s)`: `None` where Python raises `ValueError`. */
  function ProtocolFromValue(s: string): (r: Option<Protocol>)
    ensures r.Some? <==> s == "http" || s == "https"
    ensures r.Some? ==> ProtocolValue(r.value) == s
  {
    if s == "http" then Some(Http) else if s == "https" then Some(Https) else None
  }

  /** The scheme names are lower-case, hold no `:` and no whitespace, and
      name their member. */
  lemma ProtocolValueText(p: Protocol)
    ensures var v := ProtocolValue(p);
      v != [] && ':' !in v && '@' !in v && Lower(v) == v && NoSpace(v) && ProtocolFromValue(v) == Some(p)
  {
    var v := ProtocolValue(p);
    assert forall i :: 0 <= i < |v| ==> 'a' <= v[i] <= 'z';
    LowerUnchanged(v);
  }

  /** The port used when the URL names none. */
  function DefaultPort(p: Protocol): (r: int)
    ensures p == Http ==> r == 80
    ensures p == Https ==> r == 443
  {
    if p == Https then 443 else 80
  }

  datatype UrlError = InvalidURL | ValueError

  /** The eight fields of `URLParseResult`. */
  datatype ParsedUrl = ParsedUrl(
    protocol: Protocol, host: string, path: string, port: int,
    username: string, password: string, query: string, fragment: string)

  // ---------------------------------------------------------------------
  // The steps of the parser, in source order

  /** The scheme before the first `://` (`http` when there is none) and the
      text after it. */
  function SplitScheme(url: string): (r: Result<(Protocol, string), UrlError>)
    ensures !Contains(url, "://") ==> r == Ok((Http, url))
    ensures r.Ok? ==> |r.value.1| <= |url|
    ensures r.Ok? ==> IsSuffix(r.value.1, url)
  {
    var i := Find(url, "://");
    if i < 0 then Ok((Http, url))
    else
      match ProtocolFromValue(Lower(url[..i]))
      case None => Err(ValueError)
      case Some(p) => Ok((p, url[i + 3..]))
  }

  /** The userinfo before the first `@`, split on `:` into one or two parts,
      and the text after the `@`: (username, password, rest). More than one
      `:` fails to unpack, a `ValueError`. */
  function SplitUserinfo(s: string): (r: Result<(string, string, string), UrlError>)
    ensures '@' !in s ==> r == Ok(("", "", s))
    ensures r.Ok? ==> ':' !in r.value.0 && '@' !in r.value.0 && ':' !in r.value.1 && '@' !in r.value.1
    ensures r.Ok? && '@' in s ==>
      || (s == r.value.0 + "@" + r.value.2 && r.value.1 == "")
      || s == r.value.0 + ":" + r.value.1 + "@" + r.value.2
    ensures r.Ok? ==> IsSuffix(r.value.2, s)
    ensures r.Err? ==> r.error == ValueError
    ensures r.Err? ==> exists i, j :: 0 <= i < j < IndexOf(s, '@') && s[i] == ':' && s[j] == ':'
  {
    if '@' !in s then Ok(("", "", s))
    else
      var at := IndexOf(s, '@');
      var info := s[..at];
      var rest := s[at + 1..];
      assert s == info + "@" + rest;
      var colon := IndexOf(info, ':');
      if colon < 0 then Ok((info, "", rest))
      else
        var user := info[..colon];
        var password := info[colon + 1..];
        assert info == user + ":" + password;
        if ':' in password then
          var k := IndexOf(password, ':');
          assert s[colon] == ':' && s[colon + 1 + k] == ':';
          Err(ValueError)
        else
          assert forall x :: x in password ==> x in info;
          Ok((user, password, rest))
  }

  /** The host before the first `/`, and the path: `/` followed by the text
      after that `/`, or just `/` when there is none. */
  function SplitPath(s: string): (r: (string, string))
    ensures |r.1| > 0 && r.1[0] == '/'
    ensures '/' !in r.0
    ensures '/' !in s ==> r == (s, "/")
    ensures r.0 <= s
    ensures IsSuffix(r.1[1..], s)
  {
    if '/' !in s then (s, "/")
    else
      var i := IndexOf(s, '/');
      assert ("/" + s[i + 1..])[1..] == s[i + 1..];
      (s[..i], "/" + s[i + 1..])
  }

  /** The path before the first `?`, and the query after it. */
  function SplitQuery(path: string): (r: (string, string))
    requires |path| > 0 && path[0] == '/'
    ensures '?' !in r.0 && |r.0| > 0 && r.0[0] == '/'
    ensures '?' !in path ==> r == (path, "")
    ensures '?' in path ==> path == r.0 + "?" + r.1
  {
    if '?' !in path then (path, "")
    else
      var i := IndexOf(path, '?');
      (path[..i], path[i + 1..])
  }

  /** `host.split(':', maxsplit=1)` when the host holds a `:`: both sides
      must be non-empty (else `InvalidURL`) and the second must be an integer
      (else `ValueError`). Without a `:` the port is the default. */
  function SplitHostPort(host: string, default: int): (r: Result<(string, int), UrlError>)
    ensures ':' !in host ==> r == Ok((host, default))
    ensures r.Ok? && ':' in host ==> r.value.0 != [] && ':' !in r.value.0
    ensures r.Ok? ==> r.value.0 <= host
  {
    if ':' in host then
      var colon := IndexOf(host, ':');
      var name := host[..colon];
      var portText := host[colon + 1..];
      if name == [] || portText == [] then Err(InvalidURL)
      else
        match ParseInt(portText)
        case None => Err(ValueError)
        case Some(port) => Ok((name, port))
    else Ok((host, default))
  }

  /** The split happens at the first `:`: it fails with `InvalidURL` exactly
      when that `:` starts or ends the host, and on success the host is the
      name, a `:`, and a text that `int(...)` reads as the port. */
  lemma SplitHostPortInvalid(host: string, default: int)
    requires ':' in host
    ensures SplitHostPort(host, default) == Err(InvalidURL)
      <==> host[0] == ':' || IndexOf(host, ':') == |host| - 1
  {
    var colon := IndexOf(host, ':');
    assert host[..colon] == [] <==> host[0] == ':';
  }

  lemma SplitHostPortOk(host: string, default: int)
    requires ':' in host
    ensures var r := SplitHostPort(host, default);
      r.Ok? ==> exists t :: host == r.value.0 + ":" + t && ParseInt(t) == Some(r.value.1)
  {
    var colon := IndexOf(host, ':');
    var name := host[..colon];
    var portText := host[colon + 1..];
    var r := SplitHostPort(host, default);
    if r.Ok? {
      assert r.value.0 == name && ParseInt(portText) == Some(r.value.1);
      AroundAt(host, colon, name, portText);
    }
  }

  /** With its first `:` strictly inside, the host splits there. */
  lemma SplitHostPortAt(host: string, i: int, default: int)
    requires 0 < i < |host| - 1 && host[i] == ':' && ':' !in host[..i]
    ensures SplitHostPort(host, default) ==
      match ParseInt(host[i + 1..])
      case None => Err(ValueError)
      case Some(port) => Ok((host[..i], port))
  {
    IndexOfIs(host, ':', i);
    assert ':' in host by {
      assert host[i] == ':';
    }
    assert |host[..i]| > 0 && |host[i + 1..]| > 0;
  }

  /** A bracketed literal: `[`, then text without `]`, then `]`. */
  predicate Bracketed(h: string) {
    |h| >= 2 && h[0] == '[' && h[|h| - 1] == ']' && ']' !in h[..|h| - 1]
  }

  /** The host and the port: after a bracketed literal when the host holds a
      `[` and a `]`, else at the first `:`; the default when there is no port.
      A bracketed host followed by `]:` keeps its brackets and gives up the
      text after `]:` as the port. */
  function SplitPort(host: string, default: int): (r: Result<(string, int), UrlError>)
    requires host != []
    ensures r.Ok? ==> r.value.0 != []
    ensures r.Ok? && ']' !in r.value.0 ==> ':' !in r.value.0
    ensures r.Ok? ==> r.value.0 <= host
    ensures ':' !in host ==> r == Ok((host, default))
    ensures !('[' in host && ']' in host) ==> r == SplitHostPort(host, default)
    ensures '[' in host && ']' in host && r.Ok? ==>
      || r.value == (host, default)
      || (&& r.value.0[|r.value.0| - 1] == ']' && ']' !in r.value.0[..|r.value.0| - 1]
          && exists t :: host == r.value.0 + ":" + t && ParseInt(t) == Some(r.value.1))
  {
    if '[' in host && ']' in host then
      var closing := IndexOf(host, ']');
      if closing != |host| - 1 && host[closing + 1] == ':' then
        var name := host[..closing + 1];
        var portText := host[closing + 2..];
        assert host == name + ":" + portText;
        assert name[..|name| - 1] == host[..closing];
        match ParseInt(portText)
        case None => Err(ValueError)
        case Some(port) => Ok((name, port))
      else Ok((host, default))
    else SplitHostPort(host, default)
  }

  /** A host with a `[`, whose first `]` is followed by `:`, splits there. */
  lemma SplitPortBracketAt(host: string, i: int, default: int)
    requires '[' in host && 0 <= i < |host| - 1 && host[i] == ']' && ']' !in host[..i] && host[i + 1] == ':'
    ensures SplitPort(host, default) ==
      match ParseInt(host[i + 2..])
      case None => Err(ValueError)
      case Some(port) => Ok((host[..i + 1], port))
  {
    IndexOfIs(host, ']', i);
  }

  /** The fragment after the first `#`: taken from the query when the query is
      non-empty, from the path otherwise. */
  function SplitFragment(path: string, query: string): (r: (string, string, string))
    requires |path| > 0 && path[0] == '/' && '?' !in path
    ensures |r.0| > 0 && r.0[0] == '/' && '?' !in r.0
    ensures '#' !in r.1
    ensures query == [] ==> '#' !in r.0
    ensures query != [] ==> r.0 == path && query == (if '#' in query then r.1 + "#" + r.2 else r.1)
    ensures query == [] ==> r.1 == [] && path == (if '#' in path then r.0 + "#" + r.2 else r.0)
  {
    if query != [] then
      if '#' in query then
        var i := IndexOf(query, '#');
        (path, query[..i], query[i + 1..])
      else (path, query, "")
    else if '#' in path then
      var i := IndexOf(path, '#');
      (path[..i], query, path[i + 1..])
    else (path, query, "")
  }

  // ---------------------------------------------------------------------
  // The parser

  /** `parse_url(url)`: strip, then the scheme, then the rest. */
  function ParseUrl(url: string): (r: Result<ParsedUrl, UrlError>)
    ensures r.Ok? ==> Sound(r.value)
  {
    var url := Strip(url);
    match SplitScheme(url)
    case Err(e) => Err(e)
    case Ok((protocol, rest)) => ParseAfterScheme(protocol, rest)
  }

  /** `ParseUrl` is the scheme step followed by the rest. */
  lemma ParseUrlSteps(url: string, protocol: Protocol, rest: string)
    requires SplitScheme(Strip(url)) == Ok((protocol, rest))
    ensures ParseUrl(url) == ParseAfterScheme(protocol, rest)
  {
  }

  /** What every successful parse satisfies: the host is non-empty and has no
      `/`, and no `:` unless bracketed; the path starts with `/` and has no
      `?`; the query has no `#`; the userinfo has no `:` or `@`, and there is
      no password without a username. */
  predicate Sound(u: ParsedUrl) {
    && u.host != [] && '/' !in u.host
    && (']' !in u.host ==> ':' !in u.host)
    && |u.path| > 0 && u.path[0] == '/' && '?' !in u.path
    && '#' !in u.query
    && ':' !in u.username && '@' !in u.username
    && ':' !in u.password && '@' !in u.password
    && (u.username == [] ==> u.password == [])
  }

  /** The steps after the scheme: the empty check, then the userinfo. */
  function ParseAfterScheme(protocol: Protocol, rest: string): (r: Result<ParsedUrl, UrlError>)
    ensures r.Ok? ==> Sound(r.value) && r.value.protocol == protocol
    ensures rest == [] ==> r == Err(InvalidURL)
  {
    if rest == [] then Err(InvalidURL)
    else
      match SplitUserinfo(rest)
      case Err(e) => Err(e)
      case Ok((username, password, rest')) =>
        if '@' in rest && username == [] then Err(InvalidURL)
        else if password != [] && username == [] then Err(InvalidURL)
        else ParseLocation(protocol, username, password, rest')
  }

  /** The steps after the userinfo: path, query, host check, port, fragment. */
  function ParseLocation(protocol: Protocol, username: string, password: string, rest: string)
    : (r: Result<ParsedUrl, UrlError>)
    requires ':' !in username && '@' !in username && ':' !in password && '@' !in password
    requires username == [] ==> password == []
    ensures r.Ok? ==> Sound(r.value)
    ensures r.Ok? ==> r.value.protocol == protocol && r.value.username == username && r.value.password == password
  {
    var (host, path) := SplitPath(rest);
    var (path, query) := SplitQuery(path);
    if host == [] then Err(InvalidURL)
    else
      match SplitPort(host, DefaultPort(protocol))
      case Err(e) => Err(e)
      case Ok((host', port)) =>
        assert '/' !in host' by {
          assert host' <= host;
        }
        var (path, query, fragment) := SplitFragment(path, query);
        Ok(ParsedUrl(protocol, host', path, port, username, password, query, fragment))
  }
  /** `ParseLocation` is the composition of its steps. */
  lemma ParseLocationSteps(protocol: Protocol, username: string, password: string, rest: string,
                           hostPort: string, pathQuery: string, path: string, query: string,
                           host: string, port: int, path': string, query': string, fragment: string)
    requires ':' !in username && '@' !in username && ':' !in password && '@' !in password
    requires username == [] ==> password == []
    requires SplitPath(rest) == (hostPort, pathQuery)
    requires SplitQuery(pathQuery) == (path, query)
    requires hostPort != [] && SplitPort(hostPort, DefaultPort(protocol)) == Ok((host, port))
    requires SplitFragment(path, query) == (path', query', fragment)
    ensures ParseLocation(protocol, username, password, rest)
      == Ok(ParsedUrl(protocol, host, path', port, username, password, query', fragment))
  {
  }

}
