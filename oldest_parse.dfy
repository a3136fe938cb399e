/**
 * The oldest `parse_url`, of `genki/http/util.py`: it returns
 * `(protocol, host, path, port)`, reads no userinfo, and keeps any query in
 * the path. Without an `@` it is the legacy parser with the query put back
 * into the path (`OldestAgreement`).
 */
module OldestParse {
  import opened Wrappers
  import opened PyStr
  import opened UrlParse
  import opened LegacyParse

  /** `parse_url(url)`: strip, then the scheme, then the address. */
  function ParseOldest(url: string): (r: Result<(Protocol, string, string, int), UrlError>)
    ensures r.Ok? ==> r.value.1 != [] && '/' !in r.value.1 && ':' !in r.value.1
    ensures r.Ok? ==> |r.value.2| > 0 && r.value.2[0] == '/'
  {
    var url := Strip(url);
    match SplitScheme(url)
    case Err(e) => Err(e)
    case Ok((protocol, address)) => OldestAddress(protocol, address)
  }

  /** The address after the scheme. Without a `/` it is the host, with an
      optional port, and the path is `/`; otherwise the host is the text
      before the first `/` and must be non-empty, and the path is `/`
      followed by everything after that `/`. */
  function OldestAddress(protocol: Protocol, address: string): (r: Result<(Protocol, string, string, int), UrlError>)
    ensures r.Ok? ==> r.value.0 == protocol
    ensures r.Ok? ==> r.value.1 != [] && '/' !in r.value.1 && ':' !in r.value.1
    ensures r.Ok? ==> |r.value.2| > 0 && r.value.2[0] == '/'
    ensures address == [] ==> r == Err(InvalidURL)
    ensures r.Ok? && '/' !in address ==> r.value.2 == "/"
    ensures r.Ok? && '/' in address ==> IsSuffix(r.value.2, address)
    ensures address != [] && '/' !in address ==> r == OldestHostPort(protocol, address, "/")
    ensures '/' in address && IndexOf(address, '/') == 0 ==> r == Err(InvalidURL)
    ensures '/' in address && IndexOf(address, '/') > 0 ==>
      r == OldestHostPort(protocol, address[..IndexOf(address, '/')], address[IndexOf(address, '/')..])
    ensures r.Ok? && '/' in address ==>
      r.value.2 == address[IndexOf(address, '/')..] && r.value.1 <= address[..IndexOf(address, '/')]
  {
    if address == [] then Err(InvalidURL)
    else if '/' !in address then OldestHostPort(protocol, address, "/")
    else
      var i := IndexOf(address, '/');
      var host := address[..i];
      if host == [] then Err(InvalidURL)
      else
        assert IsSuffix(address[i..], address);
        assert address[i..] == "/" + address[i + 1..];
        OldestHostPort(protocol, host, "/" + address[i + 1..])
  }

  /** The port step, the same in both branches: at the first `:` of the
      host, when there is one. */
  function OldestHostPort(protocol: Protocol, host: string, path: string): (r: Result<(Protocol, string, string, int), UrlError>)
    requires host != [] && '/' !in host
    ensures r.Ok? ==> r.value.0 == protocol && r.value.2 == path
    ensures r.Ok? ==> r.value.1 != [] && '/' !in r.value.1 && ':' !in r.value.1
    ensures r.Ok? ==> r.value.1 <= host
    ensures ':' !in host ==> r == Ok((protocol, host, path, LegacyDefaultPort(protocol)))
    ensures r.Err? <==> SplitHostPort(host, LegacyDefaultPort(protocol)).Err?
    ensures r.Err? ==> r.error == SplitHostPort(host, LegacyDefaultPort(protocol)).error
    ensures r.Ok? ==> r.value.3 == SplitHostPort(host, LegacyDefaultPort(protocol)).value.1
  {
    match SplitHostPort(host, LegacyDefaultPort(protocol))
    case Err(e) => Err(e)
    case Ok((host', port)) =>
      assert '/' !in host' by {
        assert host' <= host;
      }
      Ok((protocol, host', path, port))
  }

  /** Without `@`, the oldest parser succeeds exactly when the legacy one
      does, with the same error otherwise; then protocol, host and port are
      the same, and splitting its path at the first `?` gives the legacy
      path and query. */
  lemma OldestAgreement(url: string)
    requires '@' !in url
    ensures ParseOldest(url).Ok? <==> ParseLegacy(url).Ok?
    ensures ParseOldest(url).Err? ==> ParseOldest(url).error == ParseLegacy(url).error
    ensures ParseOldest(url).Ok? ==>
      var (protocol, host, path, port) := ParseOldest(url).value;
      var l := ParseLegacy(url).value;
      && protocol == l.protocol && host == l.host && port == l.port
      && SplitQuery(path) == (l.path, l.query)
      && l.username == "" && l.password == ""
  {
    StripKeeps(url, '@');
    match SplitScheme(Strip(url))
    case Err(_) =>
    case Ok((protocol, address)) =>
      SuffixAvoids(address, Strip(url), '@');
      AddressAgreement(protocol, address);
  }

  lemma AddressAgreement(protocol: Protocol, address: string)
    requires '@' !in address
    ensures var o := OldestAddress(protocol, address);
      var l := LegacyAfterScheme(protocol, address);
      && (o.Ok? <==> l.Ok?)
      && (o.Err? ==> o.error == l.error)
      && (o.Ok? ==>
           && o.value.0 == l.value.protocol && o.value.1 == l.value.host && o.value.3 == l.value.port
           && SplitQuery(o.value.2) == (l.value.path, l.value.query)
           && l.value.username == "" && l.value.password == "")
  {
  }

  /** Without `@`, `[`, `?` and `#`, the oldest parser returns the current
      parser's protocol, host, path and port, and fails with its error. */
  lemma OldestAgreesCurrent(url: string)
    requires '@' !in url && '[' !in url && '?' !in url && '#' !in url
    ensures ParseOldest(url) ==
      match ParseUrl(url)
      case Err(e) => Err(e)
      case Ok(c) => Ok((c.protocol, c.host, c.path, c.port))
  {
    OldestAgreement(url);
    LegacyAgreesPlain(url);
    var o := ParseOldest(url);
    if o.Ok? {
      StripKeeps(url, '?');
      var address := SplitScheme(Strip(url)).value.1;
      SuffixAvoids(address, Strip(url), '?');
      assert '?' !in o.value.2 by {
        OldestPathFrom(o.value.0, address);
      }
    }
  }

  /** The oldest path is `/` or a suffix of the address. */
  lemma OldestPathFrom(protocol: Protocol, address: string)
    requires '?' !in address
    ensures OldestAddress(protocol, address).Ok? ==> '?' !in OldestAddress(protocol, address).value.2
  {
    var o := OldestAddress(protocol, address);
    if o.Ok? && '/' in address {
      SuffixAvoids(o.value.2, address, '?');
    }
  }
}
