/**
 * The earlier `parse_url` of `genki/http/request/util.py`. It makes the same
 * splits as the current parser of `genki/http/url/parse.py`, but it returns
 * seven fields (no fragment), never looks for a bracketed host, and does not
 * reject an empty username. The two are related exactly by
 * `LegacyAgreement` below.
 */
module LegacyParse {
  import opened Wrappers
  import opened PyStr
  import opened UrlParse

  /** The seven fields of the legacy `URLParseResult`. */
  datatype LegacyUrl = LegacyUrl(
    protocol: Protocol, host: string, path: string, port: int,
    username: string, password: string, query: string)

  /** The port used when the URL names none: 80 for http, 443 otherwise.
      With two protocols this is the current parser's default. */
  function LegacyDefaultPort(p: Protocol): (r: int)
    ensures r == DefaultPort(p)
    ensures r == 80 <==> p == Http
  {
    if p == Http then 80 else 443
  }

  /** What every successful legacy parse satisfies: the host is non-empty
      with no `/` or `:`, the path starts with `/` and has no `?`, and the
      userinfo has no `:` or `@`. */
  predicate LegacySound(u: LegacyUrl) {
    && u.host != [] && '/' !in u.host && ':' !in u.host
    && |u.path| > 0 && u.path[0] == '/' && '?' !in u.path
    && ':' !in u.username && '@' !in u.username
    && ':' !in u.password && '@' !in u.password
  }

  /** `parse_url(url)` of the legacy module. */
  function ParseLegacy(url: string): (r: Result<LegacyUrl, UrlError>)
    ensures r.Ok? ==> LegacySound(r.value)
  {
    var url := Strip(url);
    match SplitScheme(url)
    case Err(e) => Err(e)
    case Ok((protocol, rest)) => LegacyAfterScheme(protocol, rest)
  }

  /** The steps after the scheme: the empty check and the userinfo, with no
      check that a given username is non-empty. */
  function LegacyAfterScheme(protocol: Protocol, rest: string): (r: Result<LegacyUrl, UrlError>)
    ensures r.Ok? ==> LegacySound(r.value) && r.value.protocol == protocol
    ensures rest == [] ==> r == Err(InvalidURL)
  {
    if rest == [] then Err(InvalidURL)
    else
      match SplitUserinfo(rest)
      case Err(e) => Err(e)
      case Ok((username, password, rest')) => LegacyLocation(protocol, username, password, rest')
  }

  /** The steps after the userinfo: path, query, host check, port. */
  function LegacyLocation(protocol: Protocol, username: string, password: string, rest: string)
    : (r: Result<LegacyUrl, UrlError>)
    requires ':' !in username && '@' !in username && ':' !in password && '@' !in password
    ensures r.Ok? ==> LegacySound(r.value)
    ensures r.Ok? ==> r.value.protocol == protocol && r.value.username == username && r.value.password == password
  {
    var (host, path) := SplitPath(rest);
    var (path, query) := SplitQuery(path);
    if host == [] then Err(InvalidURL)
    else
      match SplitHostPort(host, LegacyDefaultPort(protocol))
      case Err(e) => Err(e)
      case Ok((host', port)) =>
        assert '/' !in host' by {
          assert host' <= host;
        }
        Ok(LegacyUrl(protocol, host', path, port, username, password, query))
  }

  // ---------------------------------------------------------------------
  // Agreement with the current parser

  /** The current parser's result for the legacy one's: the fragment is cut
      from the query, or from the path when the query is empty. */
  function AddFragment(r: Result<LegacyUrl, UrlError>): (c: Result<ParsedUrl, UrlError>)
    requires r.Ok? ==> LegacySound(r.value)
    ensures c.Ok? <==> r.Ok?
    ensures r.Err? ==> c.error == r.error
    ensures r.Ok? ==> && c.value.protocol == r.value.protocol && c.value.host == r.value.host
                      && c.value.port == r.value.port && c.value.username == r.value.username
                      && c.value.password == r.value.password
    ensures r.Ok? ==> SplitFragment(r.value.path, r.value.query) == (c.value.path, c.value.query, c.value.fragment)
  {
    match r
    case Err(e) => Err(e)
    case Ok(u) =>
      var (path, query, fragment) := SplitFragment(u.path, u.query);
      Ok(ParsedUrl(u.protocol, u.host, path, u.port, u.username, u.password, query, fragment))
  }

  /** The text after the scheme starts with an `@`-terminated userinfo whose
      username is empty: the case only the current parser rejects. */
  predicate EmptyUsername(rest: string) {
    '@' in rest && SplitUserinfo(rest).Ok? && SplitUserinfo(rest).value.0 == ""
  }

  /** Apart from bracketed hosts, the current parser is the legacy one with
      the fragment cut off and an empty username rejected. */
  lemma LegacyAgreement(url: string)
    requires '[' !in url
    ensures ParseUrl(url) ==
      match SplitScheme(Strip(url))
      case Err(e) => Err(e)
      case Ok((_, rest)) => if EmptyUsername(rest) then Err(InvalidURL) else AddFragment(ParseLegacy(url))
  {
    StripKeeps(url, '[');
    match SplitScheme(Strip(url))
    case Err(_) =>
    case Ok((protocol, rest)) =>
      SuffixAvoids(rest, Strip(url), '[');
      AfterSchemeAgreement(protocol, rest);
  }

  /** Without `@`, `[` and `#`, the two parsers agree on every field they
      share, and the current one finds no fragment. */
  lemma LegacyAgreesPlain(url: string)
    requires '[' !in url && '@' !in url && '#' !in url
    ensures ParseLegacy(url).Ok? <==> ParseUrl(url).Ok?
    ensures ParseLegacy(url).Err? ==> ParseLegacy(url).error == ParseUrl(url).error
    ensures ParseLegacy(url).Ok? ==>
      var l := ParseLegacy(url).value;
      ParseUrl(url) == Ok(ParsedUrl(l.protocol, l.host, l.path, l.port, l.username, l.password, l.query, ""))
  {
    LegacyAgreement(url);
    StripKeeps(url, '@');
    StripKeeps(url, '#');
    match SplitScheme(Strip(url))
    case Err(_) =>
    case Ok((protocol, rest)) =>
      SuffixAvoids(rest, Strip(url), '@');
      SuffixAvoids(rest, Strip(url), '#');
      PlainLocation(protocol, rest);
  }

  lemma PlainLocation(protocol: Protocol, rest: string)
    requires '@' !in rest && '#' !in rest
    ensures var r := LegacyAfterScheme(protocol, rest);
      r.Ok? ==> '#' !in r.value.path && '#' !in r.value.query
  {
    if rest != [] {
      assert LegacyAfterScheme(protocol, rest) == LegacyLocation(protocol, "", "", rest);
      var path := SplitPath(rest).1;
      PathAvoids(rest, '#');
      QueryAvoids(path, '#');
    }
  }

  /** The path split off a text without `x` holds no `x`. */
  lemma PathAvoids(s: string, x: char)
    requires x != '/' && x !in s
    ensures x !in SplitPath(s).1
  {
    var path := SplitPath(s).1;
    SuffixAvoids(path[1..], s, x);
    assert path == [path[0]] + path[1..];
  }

  /** Neither side of the query split of a path without `x` holds `x`. */
  lemma QueryAvoids(path: string, x: char)
    requires |path| > 0 && path[0] == '/' && x !in path
    ensures x !in SplitQuery(path).0 && x !in SplitQuery(path).1
  {
  }

  lemma AfterSchemeAgreement(protocol: Protocol, rest: string)
    requires '[' !in rest
    ensures ParseAfterScheme(protocol, rest)
      == if EmptyUsername(rest) then Err(InvalidURL) else AddFragment(LegacyAfterScheme(protocol, rest))
  {
    if rest != [] {
      match SplitUserinfo(rest)
      case Err(_) =>
      case Ok((username, password, rest')) =>
        if !EmptyUsername(rest) {
          SuffixAvoids(rest', rest, '[');
          LocationAgreement(protocol, username, password, rest');
        }
    }
  }

  lemma LocationAgreement(protocol: Protocol, username: string, password: string, rest: string)
    requires ':' !in username && '@' !in username && ':' !in password && '@' !in password
    requires username == [] ==> password == []
    requires '[' !in rest
    ensures ParseLocation(protocol, username, password, rest)
      == AddFragment(LegacyLocation(protocol, username, password, rest))
  {
    var (host, path) := SplitPath(rest);
    assert '[' !in host by {
      assert host <= rest;
    }
  }

  /** A character absent from a text is absent from its suffixes. */
  lemma SuffixAvoids(a: string, b: string, x: char)
    requires IsSuffix(a, b) && x !in b
    ensures x !in a
  {
  }

  // ---------------------------------------------------------------------
  // Where they differ

  /** The legacy parser accepts `@host`, with an empty username, where the
      current one raises `InvalidURL`. */
  lemma EmptyUsernameAccepted(protocol: Protocol, rest: string, host: string)
    requires rest == "@" + host
    requires host != [] && '/' !in host && '?' !in host && ':' !in host && '@' !in host
    ensures LegacyAfterScheme(protocol, rest)
      == Ok(LegacyUrl(protocol, host, "/", LegacyDefaultPort(protocol), "", "", ""))
    ensures ParseAfterScheme(protocol, rest) == Err(InvalidURL)
  {
    IndexOfIs(rest, '@', 0);
    assert rest[..0] == "" && rest[1..] == host;
    assert SplitUserinfo(rest) == Ok(("", "", host));
  }

  /** A `#` stays in the legacy path: only the current parser cuts it off. */
  lemma FragmentKept(protocol: Protocol, rest: string, host: string, path: string)
    requires rest == host + path
    requires host != [] && '/' !in host && '?' !in host && ':' !in host && '@' !in host && '[' !in host
    requires |path| > 0 && path[0] == '/' && '?' !in path && '@' !in path && '[' !in path
    ensures LegacyAfterScheme(protocol, rest)
      == Ok(LegacyUrl(protocol, host, path, LegacyDefaultPort(protocol), "", "", ""))
    ensures var (path', _, fragment) := SplitFragment(path, "");
      ParseAfterScheme(protocol, rest) == Ok(ParsedUrl(protocol, host, path', DefaultPort(protocol), "", "", "", fragment))
  {
    FragmentKeptLegacy(protocol, rest, host, path);
    AfterSchemeAgreement(protocol, rest);
  }

  lemma FragmentKeptLegacy(protocol: Protocol, rest: string, host: string, path: string)
    requires rest == host + path
    requires host != [] && '/' !in host && '?' !in host && ':' !in host && '@' !in host && '[' !in host
    requires |path| > 0 && path[0] == '/' && '?' !in path && '@' !in path && '[' !in path
    ensures '@' !in rest && '[' !in rest
    ensures LegacyAfterScheme(protocol, rest)
      == Ok(LegacyUrl(protocol, host, path, LegacyDefaultPort(protocol), "", "", ""))
  {
    assert '@' !in rest && '[' !in rest;
    SplitPathAt(rest, host, path);
  }

  /** A text cut at its first `/` splits into the host and the path. */
  lemma SplitPathAt(rest: string, host: string, path: string)
    requires rest == host + path && '/' !in host && |path| > 0 && path[0] == '/'
    ensures SplitPath(rest) == (host, path)
  {
    IndexOfAfter(host, path, '/');
    assert path == [path[0]] + path[1..];
    Around(host, '/', path[1..], rest);
  }
}
