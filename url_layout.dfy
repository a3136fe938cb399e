/**
 * The layout `parse_url` reads, `[scheme://][user[:password]@]host[:port][path][?query][#fragment]`,
 * which is also the layout the URL object writes, and the theorem that the
 * parser reads every part of an unambiguous URL in this layout back.
 */
module UrlLayout {
  import opened Wrappers
  import opened PyStr
  import opened UrlParse

  /** `scheme://`, or nothing. */
  function SchemeText(scheme: Option<Protocol>): string {
    if scheme.Some? then ProtocolValue(scheme.value) + "://" else ""
  }

  /** `user[:password]@`, or nothing when there is no username. */
  function UserinfoText(username: string, password: string): string {
    if username == "" then "" else username + (if password == "" then "" else ":" + password) + "@"
  }

  /** `:port`, or nothing. */
  function PortText(port: Option<int>): string {
    if port.Some? then ":" + IntToString(port.value) else ""
  }

  /** `?query`, `#fragment`, or nothing when the part is empty. */
  function Tagged(tag: char, part: string): string {
    if part == "" then "" else [tag] + part
  }

  /** The layout `parse_url` reads:
      `[scheme://][user[:password]@]host[:port][path][?query][#fragment]`. */
  function Assemble(scheme: Option<Protocol>, username: string, password: string, host: string,
                    port: Option<int>, path: string, query: string, fragment: string): string
  {
    SchemeText(scheme) + UserinfoText(username, password) + host + PortText(port) + path
    + Tagged('?', query) + Tagged('#', fragment)
  }

  /** A host name: non-empty, with no `:` or `[`. */
  predicate HostName(h: string) {
    h != [] && ':' !in h && '[' !in h
  }

  /** The parts of an assembled URL are unambiguous: each delimiter the parser
      splits on first occurs where the layout puts it. */
  predicate Unambiguous(scheme: Option<Protocol>, username: string, password: string, host: string,
                        path: string, query: string, fragment: string)
  {
    && NoSpace(username) && NoSpace(password) && NoSpace(host)
    && NoSpace(path) && NoSpace(query) && NoSpace(fragment)
    && (HostName(host) || Bracketed(host))
    && '/' !in host && '?' !in host && '#' !in host && '@' !in host
    && (path == "" ==> query == "" && fragment == "")
    && (path != "" ==> path[0] == '/' && '?' !in path && '#' !in path)
    && '#' !in query
    && (query == "" ==> '?' !in fragment)
    && (username != "" ==> ':' !in username && '@' !in username && ':' !in password && '@' !in password)
    && (username == "" ==> '@' !in path && '@' !in query && '@' !in fragment)
    && (scheme.None? ==> username == "" && HostName(host) && ':' !in path && ':' !in query && ':' !in fragment)
  }

  /** The port text holds none of the characters the parser splits on. */
  lemma PortTextChars(port: Option<int>)
    ensures NoSpace(PortText(port))
    ensures '/' !in PortText(port) && '@' !in PortText(port) && '?' !in PortText(port)
    ensures '#' !in PortText(port) && '[' !in PortText(port) && ']' !in PortText(port)
  {
    if port.Some? {
      IntToStringChars(port.value);
    }
  }

  lemma NoSchemeInRest(username: string, password: string, host: string, port: Option<int>, tail: string)
    requires username == "" && ':' !in host && ':' !in tail
    ensures !Contains(UserinfoText(username, password) + ((host + PortText(port)) + tail), "://")
  {
    NoSchemeSeparator(host, port, tail);
    assert UserinfoText(username, password) + ((host + PortText(port)) + tail)
      == host + PortText(port) + tail;
  }

  /** No `://` in a scheme-less URL whose only `:` is the port's. */
  lemma NoSchemeSeparator(host: string, port: Option<int>, tail: string)
    requires ':' !in host && ':' !in tail
    ensures !Contains(host + PortText(port) + tail, "://")
  {
    var p := "://";
    FindAfter(host, PortText(port) + tail, p);
    if port.Some? {
      var digits := IntToString(port.value);
      NoSeparatorAfterColon(digits, tail, port.value);
      assert PortText(port) + tail == ":" + (digits + tail);
    } else {
      assert PortText(port) + tail == tail;
      FindAbsent(tail, p);
    }
    assert host + PortText(port) + tail == host + (PortText(port) + tail);
  }

  lemma NoSeparatorAfterColon(digits: string, tail: string, port: int)
    requires digits == IntToString(port) && ':' !in tail
    ensures Find(":" + (digits + tail), "://") == -1
  {
    var p := "://";
    IntToStringChars(port);
    assert ':' !in digits + tail;
    assert !OccursAt(":" + (digits + tail), p, 0) by {
      assert (":" + (digits + tail))[1] == digits[0];
    }
    FindShift(":", digits + tail, p);
    FindAbsent(digits + tail, p);
  }

  lemma SchemeOf(scheme: Option<Protocol>, rest: string)
    requires scheme.None? ==> !Contains(rest, "://")
    ensures SplitScheme(SchemeText(scheme) + rest)
      == Ok((if scheme.Some? then scheme.value else Http, rest))
  {
    if scheme.Some? {
      var v := ProtocolValue(scheme.value);
      var url := v + ("://" + rest);
      assert SchemeText(scheme) + rest == url;
      SchemeFound(scheme.value, v, rest, url);
    } else {
      assert SchemeText(scheme) + rest == rest;
    }
  }

  /** A scheme name and `://` split off the front. */
  lemma SchemeFound(p: Protocol, v: string, rest: string, url: string)
    requires v == ProtocolValue(p) && url == v + ("://" + rest)
    ensures SplitScheme(url) == Ok((p, rest))
  {
    var sep := "://";
    ProtocolValueText(p);
    FindAfter(v, sep + rest, sep);
    FindAtStart(sep, rest);
    Ends(v, sep, rest, url);
  }

  lemma UserinfoOf(username: string, password: string, rest: string)
    requires username != ""
    requires ':' !in username && '@' !in username && ':' !in password && '@' !in password
    ensures SplitUserinfo(UserinfoText(username, password) + rest) == Ok((username, password, rest))
  {
    var info := username + (if password == "" then "" else ":" + password);
    var s := info + ("@" + rest);
    assert UserinfoText(username, password) + rest == s;
    IndexOfAfter(info, "@" + rest, '@');
    assert s[..|info|] == info && s[|info| + 1..] == rest;
    if password == "" {
      assert info == username;
    } else {
      IndexOfAfter(username, ":" + password, ':');
      assert info[..|username|] == username && info[|username| + 1..] == password;
    }
  }

  lemma PathOf(host: string, path: string)
    requires '/' !in host && (path == [] || path[0] == '/')
    ensures SplitPath(host + path) == (host, if path == [] then "/" else path)
  {
    if path != [] {
      var s := host + path;
      IndexOfAfter(host, path, '/');
      assert s[..|host|] == host && "/" + s[|host| + 1..] == path;
    } else {
      assert host + path == host;
    }
  }

  lemma QueryOf(path: string, query: string)
    requires |path| > 0 && path[0] == '/' && '?' !in path
    ensures SplitQuery(path + "?" + query) == (path, query)
  {
    var s := path + "?" + query;
    IndexOfAfter(path, "?" + query, '?');
    assert path + ("?" + query) == s;
    assert s[..|path|] == path && s[|path| + 1..] == query;
  }

  lemma NamePortOf(host: string, port: Option<int>, default: int)
    requires HostName(host)
    ensures SplitPort(host + PortText(port), default)
      == Ok((host, if port.Some? then port.value else default))
  {
    PortTextChars(port);
    assert '[' !in host + PortText(port);
    if port.Some? {
      var digits := IntToString(port.value);
      assert host + PortText(port) == host + (":" + digits);
      ReadPort(digits, port.value);
      HostPortOf(host, digits, port.value, default);
    } else {
      assert host + PortText(port) == host;
    }
  }

  lemma BracketedPortOf(host: string, port: Option<int>, default: int)
    requires Bracketed(host)
    ensures SplitPort(host + PortText(port), default)
      == Ok((host, if port.Some? then port.value else default))
  {
    var inner := host[..|host| - 1];
    assert host == inner + "]";
    if port.Some? {
      var digits := IntToString(port.value);
      ReadPort(digits, port.value);
      BracketedJoin(inner, digits, host, host + PortText(port));
      BracketedHostPortOf(inner, digits, port.value, default);
    } else {
      BracketedNoPort(inner, host, default);
      assert host + PortText(port) == host;
    }
  }

  /** A bracketed literal followed by `:` and the port's digits. */
  lemma BracketedJoin(inner: string, digits: string, host: string, s: string)
    requires host == inner + "]" && s == host + (":" + digits)
    ensures s == inner + ("]" + (":" + digits))
  {
  }

  /** A bracketed literal alone keeps the default port. */
  lemma BracketedNoPort(inner: string, host: string, default: int)
    requires |inner| > 0 && inner[0] == '[' && ']' !in inner && host == inner + "]"
    ensures SplitPort(host, default) == Ok((host, default))
  {
    IndexOfAfter(inner, "]", ']');
    assert host[0] == '[' && host[|inner|] == ']';
  }

  lemma BracketedHostPortOf(inner: string, digits: string, port: int, default: int)
    requires |inner| > 0 && inner[0] == '[' && ']' !in inner && ParseInt(digits) == Some(port)
    ensures SplitPort(inner + ("]" + (":" + digits)), default) == Ok((inner + "]", port))
  {
    var s := inner + ("]" + (":" + digits));
    BracketLayout(inner, digits, s);
    SplitPortBracketAt(s, |inner|, default);
  }

  /** Where the bracket and the colon sit in `inner]:digits`. */
  lemma BracketLayout(inner: string, digits: string, s: string)
    requires |inner| > 0 && inner[0] == '[' && ']' !in inner && s == inner + ("]" + (":" + digits))
    ensures '[' in s && |inner| < |s| - 1 && s[|inner|] == ']' && ']' !in s[..|inner|]
    ensures s[|inner| + 1] == ':' && s[..|inner| + 1] == inner + "]" && s[|inner| + 2..] == digits
  {
    var closed := inner + "]";
    Around(inner, ']', ":" + digits, s);
    assert s == closed + (":" + digits);
    Around(closed, ':', digits, s);
    assert s[0] == inner[0];
  }

  lemma FragmentOf(path: string, query: string, fragment: string)
    requires |path| > 0 && path[0] == '/' && '?' !in path && '#' !in path && '#' !in query
    requires query == "" ==> '?' !in fragment
    ensures query != "" ==> SplitFragment(path, query + Tagged('#', fragment)) == (path, query, fragment)
    ensures query == "" ==> SplitFragment(path + Tagged('#', fragment), "") == (path, "", fragment)
  {
    if fragment != "" {
      if query != "" {
        IndexOfAfter(query, "#" + fragment, '#');
        assert (query + ("#" + fragment))[..|query|] == query;
        assert (query + ("#" + fragment))[|query| + 1..] == fragment;
      } else {
        IndexOfAfter(path, "#" + fragment, '#');
        assert (path + ("#" + fragment))[..|path|] == path;
        assert (path + ("#" + fragment))[|path| + 1..] == fragment;
      }
    } else {
      assert query + Tagged('#', fragment) == query;
      assert path + Tagged('#', fragment) == path;
    }
  }

  /** The path and query steps on the text after the userinfo. */
  lemma PathQueryOf(hostPort: string, path: string, query: string, fragment: string)
    requires '/' !in hostPort
    requires path == "" ==> query == "" && fragment == ""
    requires path != "" ==> path[0] == '/' && '?' !in path
    requires query == "" ==> '?' !in fragment
    ensures var path' := if path == "" then "/" else path;
      var pathQuery := path' + Tagged('?', query) + Tagged('#', fragment);
      && SplitPath(hostPort + (path + Tagged('?', query) + Tagged('#', fragment))) == (hostPort, pathQuery)
      && SplitQuery(pathQuery) ==
         if query == "" then (path' + Tagged('#', fragment), "") else (path', query + Tagged('#', fragment))
  {
    var path' := if path == "" then "/" else path;
    if path == "" {
      assert path + Tagged('?', query) + Tagged('#', fragment) == "";
      assert hostPort + "" == hostPort;
      assert path' + Tagged('?', query) + Tagged('#', fragment) == "/";
      PathOf(hostPort, "");
    } else {
      PathOf(hostPort, path + Tagged('?', query) + Tagged('#', fragment));
    }
    QueryPart(path', query, fragment);
  }

  lemma QueryPart(path: string, query: string, fragment: string)
    requires |path| > 0 && path[0] == '/' && '?' !in path
    requires query == "" ==> '?' !in fragment
    ensures SplitQuery(path + Tagged('?', query) + Tagged('#', fragment)) ==
      if query == "" then (path + Tagged('#', fragment), "") else (path, query + Tagged('#', fragment))
  {
    var pathQuery := path + Tagged('?', query) + Tagged('#', fragment);
    if query != "" {
      QueryOf(path, query + Tagged('#', fragment));
      assert pathQuery == path + "?" + (query + Tagged('#', fragment));
    } else {
      assert pathQuery == path + Tagged('#', fragment);
    }
  }

  /** The text after the userinfo reads back as host, port, path, query and
      fragment. */
  lemma LocationOf(protocol: Protocol, username: string, password: string, host: string,
                   port: Option<int>, path: string, query: string, fragment: string)
    requires ':' !in username && '@' !in username && ':' !in password && '@' !in password
    requires username == [] ==> password == []
    requires HostName(host) || Bracketed(host)
    requires '/' !in host && '?' !in host && '#' !in host
    requires path == "" ==> query == "" && fragment == ""
    requires path != "" ==> path[0] == '/' && '?' !in path && '#' !in path
    requires '#' !in query && (query == "" ==> '?' !in fragment)
    ensures ParseLocation(protocol, username, password,
                          (host + PortText(port)) + (path + Tagged('?', query) + Tagged('#', fragment)))
      == Ok(ParsedUrl(protocol, host, if path == "" then "/" else path,
                      if port.Some? then port.value else DefaultPort(protocol),
                      username, password, query, fragment))
  {
    var hp := host + PortText(port);
    var path' := if path == "" then "/" else path;
    var pathQuery := path' + Tagged('?', query) + Tagged('#', fragment);
    PortTextChars(port);
    assert '/' !in hp;
    PathQueryOf(hp, path, query, fragment);
    if HostName(host) {
      NamePortOf(host, port, DefaultPort(protocol));
    } else {
      BracketedPortOf(host, port, DefaultPort(protocol));
    }
    FragmentOf(path', query, fragment);
    ParseLocationSteps(protocol, username, password,
                       hp + (path + Tagged('?', query) + Tagged('#', fragment)), hp, pathQuery,
                       if query == "" then path' + Tagged('#', fragment) else path',
                       if query == "" then "" else query + Tagged('#', fragment),
                       host, if port.Some? then port.value else DefaultPort(protocol), path', query, fragment);
  }

  /** The userinfo is read back, and what follows it is left to the location
      steps; a password is only written with a username. */
  lemma AfterSchemeOf(protocol: Protocol, username: string, password: string, rest: string)
    requires rest != []
    requires username != "" ==> ':' !in username && '@' !in username && ':' !in password && '@' !in password
    requires username == "" ==> '@' !in rest
    ensures ParseAfterScheme(protocol, UserinfoText(username, password) + rest)
      == ParseLocation(protocol, username, if username == "" then "" else password, rest)
  {
    if username == "" {
      assert UserinfoText(username, password) + rest == rest;
    } else {
      UserinfoOf(username, password, rest);
    }
  }

  /** `parse_url` reads back every part of an unambiguous assembled URL; a
      password without a username is not written, the path defaults to `/`
      and the port to the scheme's. */
  lemma ParseAssembled(scheme: Option<Protocol>, username: string, password: string, host: string,
                       port: Option<int>, path: string, query: string, fragment: string)
    requires Unambiguous(scheme, username, password, host, path, query, fragment)
    ensures
      var protocol := if scheme.Some? then scheme.value else Http;
      ParseUrl(Assemble(scheme, username, password, host, port, path, query, fragment))
      == Ok(ParsedUrl(protocol, host, if path == "" then "/" else path,
                      if port.Some? then port.value else DefaultPort(protocol),
                      username, if username == "" then "" else password, query, fragment))
  {
    var protocol := if scheme.Some? then scheme.value else Http;
    var r1 := UserinfoText(username, password)
              + ((host + PortText(port)) + (path + Tagged('?', query) + Tagged('#', fragment)));
    var url := Assemble(scheme, username, password, host, port, path, query, fragment);
    AssembleParts(scheme, username, password, host, port, path, query, fragment);
    AssembledNoSpace(scheme, username, password, host, port, path, query, fragment);
    StripNoSpace(url);
    SchemeStepOf(scheme, username, password, host, port, path, query, fragment);
    ParseUrlSteps(url, protocol, r1);
    AfterUserinfoOf(protocol, username, password, host, port, path, query, fragment);
  }

  lemma SchemeStepOf(scheme: Option<Protocol>, username: string, password: string, host: string,
                     port: Option<int>, path: string, query: string, fragment: string)
    requires Unambiguous(scheme, username, password, host, path, query, fragment)
    ensures var tail := path + Tagged('?', query) + Tagged('#', fragment);
      var r1 := UserinfoText(username, password) + ((host + PortText(port)) + tail);
      SplitScheme(SchemeText(scheme) + r1) == Ok((if scheme.Some? then scheme.value else Http, r1))
  {
    var tail := path + Tagged('?', query) + Tagged('#', fragment);
    var r1 := UserinfoText(username, password) + ((host + PortText(port)) + tail);
    if scheme.None? {
      NoSchemeInRest(username, password, host, port, tail);
    }
    SchemeOf(scheme, r1);
  }

  /** The part after the scheme reads back. */
  lemma AfterUserinfoOf(protocol: Protocol, username: string, password: string, host: string,
                        port: Option<int>, path: string, query: string, fragment: string)
    requires Unambiguous(Some(protocol), username, password, host, path, query, fragment)
    ensures ParseAfterScheme(protocol, UserinfoText(username, password)
                                       + ((host + PortText(port)) + (path + Tagged('?', query) + Tagged('#', fragment))))
      == Ok(ParsedUrl(protocol, host, if path == "" then "/" else path,
                      if port.Some? then port.value else DefaultPort(protocol),
                      username, if username == "" then "" else password, query, fragment))
  {
    PortTextChars(port);
    AfterSchemeOf(protocol, username, password,
                  (host + PortText(port)) + (path + Tagged('?', query) + Tagged('#', fragment)));
    LocationOf(protocol, username, if username == "" then "" else password, host, port, path, query, fragment);
  }

  lemma AssembleParts(scheme: Option<Protocol>, username: string, password: string, host: string,
                      port: Option<int>, path: string, query: string, fragment: string)
    ensures Assemble(scheme, username, password, host, port, path, query, fragment)
      == SchemeText(scheme) + (UserinfoText(username, password)
         + ((host + PortText(port)) + (path + Tagged('?', query) + Tagged('#', fragment))))
  {
    Regroup(SchemeText(scheme), UserinfoText(username, password), host,
            PortText(port), path, Tagged('?', query), Tagged('#', fragment));
  }

  lemma Regroup(a: string, b: string, c: string, d: string, e: string, f: string, g: string)
    ensures a + b + c + d + e + f + g == a + (b + ((c + d) + (e + f + g)))
  {
  }

  lemma AssembledNoSpace(scheme: Option<Protocol>, username: string, password: string, host: string,
                         port: Option<int>, path: string, query: string, fragment: string)
    requires NoSpace(username) && NoSpace(password) && NoSpace(host)
    requires NoSpace(path) && NoSpace(query) && NoSpace(fragment)
    ensures NoSpace(Assemble(scheme, username, password, host, port, path, query, fragment))
  {
    SchemeTextNoSpace(scheme);
    UserinfoNoSpace(username, password);
    PortTextChars(port);
    TaggedNoSpace('?', query);
    TaggedNoSpace('#', fragment);
    NoSpaceSeven(SchemeText(scheme), UserinfoText(username, password), host, PortText(port), path,
                 Tagged('?', query), Tagged('#', fragment),
                 Assemble(scheme, username, password, host, port, path, query, fragment));
  }

  lemma UserinfoNoSpace(username: string, password: string)
    requires NoSpace(username) && NoSpace(password)
    ensures NoSpace(UserinfoText(username, password))
  {
  }

  lemma TaggedNoSpace(tag: char, part: string)
    requires !IsSpace(tag) && NoSpace(part)
    ensures NoSpace(Tagged(tag, part))
  {
  }

  lemma NoSpaceSeven(a: string, b: string, c: string, d: string, e: string, f: string, g: string, s: string)
    requires NoSpace(a) && NoSpace(b) && NoSpace(c) && NoSpace(d) && NoSpace(e) && NoSpace(f) && NoSpace(g)
    requires s == a + b + c + d + e + f + g
    ensures NoSpace(s)
  {
    NoSpaceAppend(a, b);
    NoSpaceAppend(a + b, c);
    NoSpaceAppend(a + b + c, d);
    NoSpaceAppend(a + b + c + d, e);
    NoSpaceAppend(a + b + c + d + e, f);
    NoSpaceAppend(a + b + c + d + e + f, g);
  }

  /** A name, a `:` and a port text split into the name and the port. */
  lemma HostPortOf(host: string, digits: string, port: int, default: int)
    requires host != [] && ':' !in host && digits != [] && ParseInt(digits) == Some(port)
    ensures SplitHostPort(host + (":" + digits), default) == Ok((host, port))
  {
    IndexAfterName(host, digits);
    HostPortSplit(host + (":" + digits), host, digits, port, default);
  }

  lemma HostPortSplit(s: string, host: string, digits: string, port: int, default: int)
    requires s == host + (":" + digits)
    requires host != [] && digits != [] && ParseInt(digits) == Some(port)
    requires IndexOf(s, ':') == |host|
    ensures SplitHostPort(s, default) == Ok((host, port))
  {
    Around(host, ':', digits, s);
    SplitHostPortAt(s, |host|, default);
  }

  lemma ReadPort(digits: string, port: int)
    requires digits == IntToString(port)
    ensures ParseInt(digits) == Some(port) && digits != [] && ':' !in digits && ']' !in digits
  {
    ParseIntToString(port);
    PortDigitsAvoid(digits, port);
  }

  lemma PortDigitsAvoid(digits: string, port: int)
    requires digits == IntToString(port)
    ensures ':' !in digits && ']' !in digits
  {
    IntToStringChars(port);
  }

  lemma IndexAfterName(host: string, digits: string)
    requires ':' !in host
    ensures IndexOf(host + (":" + digits), ':') == |host|
  {
    IndexOfAfter(host, ":" + digits, ':');
  }

  lemma SuffixAfterName(host: string, digits: string)
    ensures (host + (":" + digits))[|host| + 1..] == digits
  {
  }

  // ---------------------------------------------------------------------
  // Inputs the parser rejects

  /** A URL that is blank after stripping has no host. */
  lemma ParseBlank(url: string)
    requires Strip(url) == ""
    ensures ParseUrl(url) == Err(InvalidURL)
  {
    FindAbsent("", "://");
    ParseUrlSteps(url, Http, "");
  }

  /** A scheme and nothing after it has no host. */
  lemma ParseSchemeOnly(url: string, protocol: Protocol)
    requires url == SchemeText(Some(protocol))
    ensures ParseUrl(url) == Err(InvalidURL)
  {
    assert url + "" == url;
    SchemeOf(Some(protocol), "");
    SchemeTextNoSpace(Some(protocol));
    StripNoSpace(url);
    ParseUrlSteps(url, protocol, "");
  }

  /** A text starting with `/` right after the scheme has an empty host. */
  lemma ParsePathOnly(url: string, scheme: Option<Protocol>, path: string)
    requires url == SchemeText(scheme) + path
    requires |path| > 0 && path[0] == '/' && '@' !in path && NoSpace(path)
    requires scheme.None? ==> ':' !in path
    ensures ParseUrl(url) == Err(InvalidURL)
  {
    var protocol := if scheme.Some? then scheme.value else Http;
    SchemeTextNoSpace(scheme);
    NoSpaceAppend(SchemeText(scheme), path);
    StripNoSpace(url);
    if scheme.None? {
      FindAbsent(path, "://");
    }
    SchemeOf(scheme, path);
    ParseUrlSteps(url, protocol, path);
    NoHostLocation(protocol, path);
  }

  lemma NoHostLocation(protocol: Protocol, rest: string)
    requires |rest| > 0 && rest[0] == '/' && '@' !in rest
    ensures ParseAfterScheme(protocol, rest) == Err(InvalidURL)
  {
    IndexOfIs(rest, '/', 0);
    assert rest[..0] == "";
  }

  lemma SchemeTextNoSpace(scheme: Option<Protocol>)
    ensures NoSpace(SchemeText(scheme)) && '@' !in SchemeText(scheme)
  {
    if scheme.Some? {
      var sep := "://";
      ProtocolValueText(scheme.value);
      assert NoSpace(sep) && '@' !in sep;
      NoSpaceAppend(ProtocolValue(scheme.value), sep);
    }
  }

  /** A host whose `:` is followed by nothing, or preceded by nothing, is
      malformed. */
  lemma ParseEmptyPortSide(url: string, scheme: Option<Protocol>, host: string, portFirst: bool)
    requires url == SchemeText(scheme) + (if portFirst then ":" + host else host + ":")
    requires HostName(host) && NoSpace(host)
    requires '/' !in host && '?' !in host && '#' !in host && '@' !in host
    ensures ParseUrl(url) == Err(InvalidURL)
  {
    var rest := if portFirst then ":" + host else host + ":";
    var protocol := if scheme.Some? then scheme.value else Http;
    SchemeTextNoSpace(scheme);
    NoSpaceAppend(SchemeText(scheme), rest);
    StripNoSpace(url);
    if scheme.None? {
      ColonNoSeparator(host, portFirst);
    }
    SchemeOf(scheme, rest);
    ParseUrlSteps(url, protocol, rest);
    EmptySideLocation(protocol, host, portFirst);
  }

  lemma ColonNoSeparator(host: string, portFirst: bool)
    requires host != [] && ':' !in host && '/' !in host
    ensures !Contains(if portFirst then ":" + host else host + ":", "://")
  {
    if portFirst {
      assert !OccursAt(":" + host, "://", 0) by {
        assert (":" + host)[1] == host[0];
      }
      FindShift(":", host, "://");
      FindAbsent(host, "://");
    } else {
      FindAfter(host, ":", "://");
    }
  }

  lemma EmptySideLocation(protocol: Protocol, host: string, portFirst: bool)
    requires HostName(host) && '/' !in host && '@' !in host
    ensures ParseAfterScheme(protocol, if portFirst then ":" + host else host + ":") == Err(InvalidURL)
  {
    var rest := if portFirst then ":" + host else host + ":";
    assert '/' !in rest && '[' !in rest && '@' !in rest && ':' in rest;
    if portFirst {
      assert rest[0] == ':';
    } else {
      IndexOfAfter(host, ":", ':');
    }
    SplitHostPortInvalid(rest, DefaultPort(protocol));
  }

  /** A scheme other than `http` or `https` (in any case) is a `ValueError`. */
  lemma ParseUnknownScheme(url: string, scheme: string, rest: string)
    requires url == scheme + "://" + rest
    requires ':' !in scheme && ProtocolFromValue(Lower(scheme)).None?
    requires NoSpace(scheme) && NoSpace(rest)
    ensures ParseUrl(url) == Err(ValueError)
  {
    UnknownSchemeSplit(scheme, rest);
  }

  lemma UnknownSchemeSplit(scheme: string, rest: string)
    requires ':' !in scheme && ProtocolFromValue(Lower(scheme)).None?
    requires NoSpace(scheme) && NoSpace(rest)
    ensures ParseUrl(scheme + "://" + rest) == Err(ValueError)
  {
    var sep := "://";
    var url := scheme + (sep + rest);
    assert scheme + "://" + rest == url;
    UnknownSchemeText(scheme, sep, rest, url);
    StripNoSpace(url);
  }

  /** An unknown scheme name before `://` fails the scheme step. */
  lemma UnknownSchemeText(scheme: string, sep: string, rest: string, url: string)
    requires sep == "://" && url == scheme + (sep + rest)
    requires ':' !in scheme && ProtocolFromValue(Lower(scheme)).None?
    requires NoSpace(scheme) && NoSpace(rest)
    ensures NoSpace(url) && SplitScheme(url) == Err(ValueError)
  {
    assert NoSpace(sep);
    NoSpaceAppend(sep, rest);
    NoSpaceAppend(scheme, sep + rest);
    FindAfter(scheme, sep + rest, sep);
    FindAtStart(sep, rest);
    Ends(scheme, sep, rest, url);
  }

}
