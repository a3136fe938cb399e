/**
 * The URLs the repository's tests feed to `parse_url`, with the results the
 * tests expect, and a few more showing userinfo, query, fragment and a
 * bracketed host. Each accepted URL is read back through `ParseAssembled`.
 */
module UrlExamples {
  import opened Wrappers
  import opened PyStr
  import opened UrlParse
  import opened UrlLayout

  /** `ParseAssembled` for a URL given as text. */
  lemma ReadsBack(url: string, scheme: Option<Protocol>, username: string, password: string, host: string,
                  port: Option<int>, path: string, query: string, fragment: string)
    requires url == Assemble(scheme, username, password, host, port, path, query, fragment)
    requires Unambiguous(scheme, username, password, host, path, query, fragment)
    ensures
      var protocol := if scheme.Some? then scheme.value else Http;
      ParseUrl(url)
      == Ok(ParsedUrl(protocol, host, if path == "" then "/" else path,
                      if port.Some? then port.value else DefaultPort(protocol),
                      username, if username == "" then "" else password, query, fragment))
  {
    ParseAssembled(scheme, username, password, host, port, path, query, fragment);
  }

  /** A URL text cut after the host into the two halves of its layout. */
  lemma AssembledFrom(url: string, scheme: Option<Protocol>, username: string, password: string, host: string,
                      port: Option<int>, path: string, query: string, fragment: string, front: string, back: string)
    requires url == front + back
    requires front == SchemeText(scheme) + UserinfoText(username, password) + host
    requires back == PortText(port) + path + Tagged('?', query) + Tagged('#', fragment)
    ensures url == Assemble(scheme, username, password, host, port, path, query, fragment)
  {
    Halves(SchemeText(scheme), UserinfoText(username, password), host,
           PortText(port), path, Tagged('?', query), Tagged('#', fragment));
  }

  lemma Halves(a: string, b: string, c: string, d: string, e: string, f: string, g: string)
    ensures a + b + c + d + e + f + g == (a + b + c) + (d + e + f + g)
  {
  }

  /** The port texts of the examples. */
  lemma PortText8080()
    ensures PortText(Some(8080)) == ":8080"
  {
  }

  lemma PortText8443()
    ensures PortText(Some(8443)) == ":8443"
  {
  }

  /** `ReadsBack` with the expected parts named. */
  lemma ReadsBackAs(url: string, scheme: Option<Protocol>, username: string, password: string, host: string,
                    port: Option<int>, path: string, query: string, fragment: string, expected: ParsedUrl)
    requires url == Assemble(scheme, username, password, host, port, path, query, fragment)
    requires Unambiguous(scheme, username, password, host, path, query, fragment)
    requires var protocol := if scheme.Some? then scheme.value else Http;
      expected == ParsedUrl(protocol, host, if path == "" then "/" else path,
                            if port.Some? then port.value else DefaultPort(protocol),
                            username, if username == "" then "" else password, query, fragment)
    ensures ParseUrl(url) == Ok(expected)
  {
    ReadsBack(url, scheme, username, password, host, port, path, query, fragment);
  }

  /** Lower-case letters, digits and dots: none of them is whitespace or a
      delimiter the parser splits on. */
  predicate NameChar(c: char) {
    'a' <= c <= 'z' || '0' <= c <= '9' || c == '.'
  }

  /** Name characters, `/` and `=`. */
  predicate PathChar(c: char) {
    NameChar(c) || c == '/' || c == '='
  }

  predicate NameText(s: string) {
    forall i :: 0 <= i < |s| ==> NameChar(s[i])
  }

  predicate PathText(s: string) {
    forall i :: 0 <= i < |s| ==> PathChar(s[i])
  }

  /** Path characters and `:`, as in a URL without userinfo, brackets, query
      or fragment. */
  predicate PlainText(s: string) {
    forall i :: 0 <= i < |s| ==> PathChar(s[i]) || s[i] == ':'
  }

  lemma NameAvoids(s: string)
    requires NameText(s)
    ensures NoSpace(s) && ':' !in s && '/' !in s && '@' !in s && '?' !in s && '#' !in s && '[' !in s
  {
  }

  lemma PathAvoids(s: string)
    requires PathText(s)
    ensures NoSpace(s) && ':' !in s && '@' !in s && '?' !in s && '#' !in s
  {
  }

  lemma PlainAvoids(s: string)
    requires PlainText(s)
    ensures '@' !in s && '[' !in s && '?' !in s && '#' !in s
  {
  }

  /** Parts made of name and path characters, laid out as a URL, are
      unambiguous. */
  lemma PartsOf(scheme: Option<Protocol>, username: string, password: string, host: string,
                path: string, query: string, fragment: string)
    requires host != [] && NameText(host) && NameText(username) && NameText(password)
    requires PathText(path) && PathText(query) && PathText(fragment)
    requires path != "" ==> path[0] == '/'
    requires path == "" ==> query == "" && fragment == ""
    requires scheme.None? ==> username == ""
    ensures Unambiguous(scheme, username, password, host, path, query, fragment)
  {
    NameAvoids(host);
    NameAvoids(username);
    NameAvoids(password);
    PathAvoids(path);
    PathAvoids(query);
    PathAvoids(fragment);
  }

  // The accepted URLs of the request-preparation tests.

  lemma BareHostNoScheme(url: string)
    requires url == "example.com"
    ensures ParseUrl(url) == Ok(ParsedUrl(Http, "example.com", "/", 80, "", "", "", ""))
  {
    BareHostNoSchemeLayout();
    BareHostNoSchemeParts();
    ReadsBackAs(url, None, "", "", "example.com", None, "", "", "", ParsedUrl(Http, "example.com", "/", 80, "", "", "", ""));
  }

  lemma BareHostNoSchemeLayout()
    ensures "example.com" == Assemble(None, "", "", "example.com", None, "", "", "")
  {
  }

  lemma BareHostNoSchemeParts()
    ensures Unambiguous(None, "", "", "example.com", "", "", "")
  {
    PartsOf(None, "", "", "example.com", "", "", "");
  }

  lemma BareHostHttp(url: string)
    requires url == "http://example.com"
    ensures ParseUrl(url) == Ok(ParsedUrl(Http, "example.com", "/", 80, "", "", "", ""))
  {
    BareHostHttpLayout();
    BareHostHttpParts();
    ReadsBack(url, Some(Http), "", "", "example.com", None, "", "", "");
  }

  lemma BareHostHttpLayout()
    ensures "http://example.com" == Assemble(Some(Http), "", "", "example.com", None, "", "", "")
  {
  }

  lemma BareHostHttpParts()
    ensures Unambiguous(Some(Http), "", "", "example.com", "", "", "")
  {
    PartsOf(Some(Http), "", "", "example.com", "", "", "");
  }

  lemma BareHostHttps(url: string)
    requires url == "https://example.com"
    ensures ParseUrl(url) == Ok(ParsedUrl(Https, "example.com", "/", 443, "", "", "", ""))
  {
    BareHostHttpsLayout();
    BareHostHttpsParts();
    ReadsBack(url, Some(Https), "", "", "example.com", None, "", "", "");
  }

  lemma BareHostHttpsLayout()
    ensures "https://example.com" == Assemble(Some(Https), "", "", "example.com", None, "", "", "")
  {
  }

  lemma BareHostHttpsParts()
    ensures Unambiguous(Some(Https), "", "", "example.com", "", "", "")
  {
    PartsOf(Some(Https), "", "", "example.com", "", "", "");
  }

  lemma RootPathNoScheme(url: string)
    requires url == "example.com/"
    ensures ParseUrl(url) == Ok(ParsedUrl(Http, "example.com", "/", 80, "", "", "", ""))
  {
    RootPathNoSchemeLayout();
    RootPathNoSchemeParts();
    ReadsBack(url, None, "", "", "example.com", None, "/", "", "");
  }

  lemma RootPathNoSchemeLayout()
    ensures "example.com/" == Assemble(None, "", "", "example.com", None, "/", "", "")
  {
  }

  lemma RootPathNoSchemeParts()
    ensures Unambiguous(None, "", "", "example.com", "/", "", "")
  {
    PartsOf(None, "", "", "example.com", "/", "", "");
  }

  lemma RootPathHttp(url: string)
    requires url == "http://example.com/"
    ensures ParseUrl(url) == Ok(ParsedUrl(Http, "example.com", "/", 80, "", "", "", ""))
  {
    RootPathHttpLayout();
    RootPathHttpParts();
    ReadsBack(url, Some(Http), "", "", "example.com", None, "/", "", "");
  }

  lemma RootPathHttpLayout()
    ensures "http://example.com/" == Assemble(Some(Http), "", "", "example.com", None, "/", "", "")
  {
  }

  lemma RootPathHttpParts()
    ensures Unambiguous(Some(Http), "", "", "example.com", "/", "", "")
  {
    PartsOf(Some(Http), "", "", "example.com", "/", "", "");
  }

  lemma RootPathHttps(url: string)
    requires url == "https://example.com/"
    ensures ParseUrl(url) == Ok(ParsedUrl(Https, "example.com", "/", 443, "", "", "", ""))
  {
    RootPathHttpsLayout();
    RootPathHttpsParts();
    ReadsBack(url, Some(Https), "", "", "example.com", None, "/", "", "");
  }

  lemma RootPathHttpsLayout()
    ensures "https://example.com/" == Assemble(Some(Https), "", "", "example.com", None, "/", "", "")
  {
  }

  lemma RootPathHttpsParts()
    ensures Unambiguous(Some(Https), "", "", "example.com", "/", "", "")
  {
    PartsOf(Some(Https), "", "", "example.com", "/", "", "");
  }

  lemma LongerPathNoScheme(url: string)
    requires url == "example.com/some/path"
    ensures ParseUrl(url) == Ok(ParsedUrl(Http, "example.com", "/some/path", 80, "", "", "", ""))
  {
    LongerPathNoSchemeLayout();
    LongerPathNoSchemeParts();
    ReadsBack(url, None, "", "", "example.com", None, "/some/path", "", "");
  }

  lemma LongerPathNoSchemeLayout()
    ensures "example.com/some/path" == Assemble(None, "", "", "example.com", None, "/some/path", "", "")
  {
  }

  lemma LongerPathNoSchemeParts()
    ensures Unambiguous(None, "", "", "example.com", "/some/path", "", "")
  {
    PartsOf(None, "", "", "example.com", "/some/path", "", "");
  }

  lemma LongerPathHttp(url: string)
    requires url == "http://example.com/some/path"
    ensures ParseUrl(url) == Ok(ParsedUrl(Http, "example.com", "/some/path", 80, "", "", "", ""))
  {
    LongerPathHttpLayout();
    LongerPathHttpParts();
    ReadsBack(url, Some(Http), "", "", "example.com", None, "/some/path", "", "");
  }

  lemma LongerPathHttpLayout()
    ensures "http://example.com/some/path" == Assemble(Some(Http), "", "", "example.com", None, "/some/path", "", "")
  {
  }

  lemma LongerPathHttpParts()
    ensures Unambiguous(Some(Http), "", "", "example.com", "/some/path", "", "")
  {
    PartsOf(Some(Http), "", "", "example.com", "/some/path", "", "");
  }

  lemma LongerPathHttps(url: string)
    requires url == "https://example.com/some/path"
    ensures ParseUrl(url) == Ok(ParsedUrl(Https, "example.com", "/some/path", 443, "", "", "", ""))
  {
    LongerPathHttpsLayout();
    LongerPathHttpsParts();
    ReadsBack(url, Some(Https), "", "", "example.com", None, "/some/path", "", "");
  }

  lemma LongerPathHttpsLayout()
    ensures "https://example.com/some/path" == Assemble(Some(Https), "", "", "example.com", None, "/some/path", "", "")
  {
  }

  lemma LongerPathHttpsParts()
    ensures Unambiguous(Some(Https), "", "", "example.com", "/some/path", "", "")
  {
    PartsOf(Some(Https), "", "", "example.com", "/some/path", "", "");
  }

  lemma ExplicitPortNoScheme(url: string)
    requires url == "example.com:8080/some/path"
    ensures ParseUrl(url) == Ok(ParsedUrl(Http, "example.com", "/some/path", 8080, "", "", "", ""))
  {
    ExplicitPortNoSchemeLayout();
    LongerPathNoSchemeParts();
    ReadsBack(url, None, "", "", "example.com", Some(8080), "/some/path", "", "");
  }

  lemma ExplicitPortNoSchemeLayout()
    ensures "example.com:8080/some/path" == Assemble(None, "", "", "example.com", Some(8080), "/some/path", "", "")
  {
    PortText8080();
  }


  lemma ExplicitPortHttp(url: string)
    requires url == "http://example.com:8080/some/path"
    ensures ParseUrl(url) == Ok(ParsedUrl(Http, "example.com", "/some/path", 8080, "", "", "", ""))
  {
    ExplicitPortHttpLayout();
    LongerPathHttpParts();
    ReadsBack(url, Some(Http), "", "", "example.com", Some(8080), "/some/path", "", "");
  }

  lemma ExplicitPortHttpLayout()
    ensures "http://example.com:8080/some/path" == Assemble(Some(Http), "", "", "example.com", Some(8080), "/some/path", "", "")
  {
    var url, scheme, host, port, path := "http://example.com:8080/some/path", "http://", "example.com", ":8080", "/some/path";
    ExplicitPortHttpPieces(url, scheme, host, port, path);
    HttpScheme(scheme);
    PortText8080();
    AssembledFrom(url, Some(Http), "", "", host, Some(8080), path, "", "", scheme + host, port + path);
  }

  lemma ExplicitPortHttpPieces(url: string, scheme: string, host: string, port: string, path: string)
    requires url == "http://example.com:8080/some/path"
    requires scheme == "http://" && host == "example.com" && port == ":8080" && path == "/some/path"
    ensures url == (scheme + host) + (port + path)
  {
  }


  lemma ExplicitPortHttps(url: string)
    requires url == "https://example.com:8080/some/path"
    ensures ParseUrl(url) == Ok(ParsedUrl(Https, "example.com", "/some/path", 8080, "", "", "", ""))
  {
    ExplicitPortHttpsLayout();
    LongerPathHttpsParts();
    ReadsBack(url, Some(Https), "", "", "example.com", Some(8080), "/some/path", "", "");
  }

  lemma ExplicitPortHttpsLayout()
    ensures "https://example.com:8080/some/path" == Assemble(Some(Https), "", "", "example.com", Some(8080), "/some/path", "", "")
  {
    var url, scheme, host, port, path := "https://example.com:8080/some/path", "https://", "example.com", ":8080", "/some/path";
    ExplicitPortHttpsPieces(url, scheme, host, port, path);
    HttpsScheme(scheme);
    PortText8080();
    AssembledFrom(url, Some(Https), "", "", host, Some(8080), path, "", "", scheme + host, port + path);
  }

  lemma ExplicitPortHttpsPieces(url: string, scheme: string, host: string, port: string, path: string)
    requires url == "https://example.com:8080/some/path"
    requires scheme == "https://" && host == "example.com" && port == ":8080" && path == "/some/path"
    ensures url == (scheme + host) + (port + path)
  {
  }


  /** Userinfo, a query and a fragment cut from the query. */
  lemma AllParts(url: string)
    requires url == "https://user:pw@example.com:8443/a?b=c#top"
    ensures ParseUrl(url)
            == Ok(ParsedUrl(Https, "example.com", "/a", 8443, "user", "pw", "b=c", "top"))
  {
    AllPartsLayout();
    AllPartsParts();
    ReadsBack(url, Some(Https), "user", "pw", "example.com", Some(8443), "/a", "b=c", "top");
  }

  lemma AllPartsLayout()
    ensures "https://user:pw@example.com:8443/a?b=c#top" == Assemble(Some(Https), "user", "pw", "example.com", Some(8443), "/a", "b=c", "top")
  {
    var url, front, back := "https://user:pw@example.com:8443/a?b=c#top", "https://user:pw@example.com", ":8443/a?b=c#top";
    AllPartsHalves(url, front, back);
    AllPartsFront(front);
    AllPartsBack(back);
    AssembledFrom(url, Some(Https), "user", "pw", "example.com", Some(8443), "/a", "b=c", "top", front, back);
  }

  lemma AllPartsHalves(url: string, front: string, back: string)
    requires url == "https://user:pw@example.com:8443/a?b=c#top"
    requires front == "https://user:pw@example.com" && back == ":8443/a?b=c#top"
    ensures url == front + back
  {
  }

  lemma AllPartsFront(front: string)
    requires front == "https://user:pw@example.com"
    ensures front == SchemeText(Some(Https)) + UserinfoText("user", "pw") + "example.com"
  {
    var scheme, info, host := "https://", "user:pw@", "example.com";
    AllPartsFrontPieces(front, scheme, info, host);
    HttpsScheme(scheme);
    UserPw(info);
  }

  lemma AllPartsFrontPieces(front: string, scheme: string, info: string, host: string)
    requires front == "https://user:pw@example.com"
    requires scheme == "https://" && info == "user:pw@" && host == "example.com"
    ensures front == scheme + info + host
  {
  }

  lemma HttpScheme(scheme: string)
    requires scheme == "http://"
    ensures scheme == SchemeText(Some(Http))
  {
  }

  lemma HttpsScheme(scheme: string)
    requires scheme == "https://"
    ensures scheme == SchemeText(Some(Https))
  {
  }

  lemma UserPw(info: string)
    requires info == "user:pw@"
    ensures info == UserinfoText("user", "pw")
  {
  }

  lemma AllPartsBack(back: string)
    requires back == ":8443/a?b=c#top"
    ensures back == PortText(Some(8443)) + "/a" + Tagged('?', "b=c") + Tagged('#', "top")
  {
    PortText8443();
    assert Tagged('?', "b=c") == "?b=c";
    assert Tagged('#', "top") == "#top";
  }

  lemma AllPartsParts()
    ensures Unambiguous(Some(Https), "user", "pw", "example.com", "/a", "b=c", "top")
  {
    PartsOf(Some(Https), "user", "pw", "example.com", "/a", "b=c", "top");
  }

  /** Without a query the fragment is cut from the path. */
  lemma FragmentFromPath(url: string)
    requires url == "http://user@example.com/a#top"
    ensures ParseUrl(url)
            == Ok(ParsedUrl(Http, "example.com", "/a", 80, "user", "", "", "top"))
  {
    FragmentFromPathLayout();
    FragmentFromPathParts();
    ReadsBack(url, Some(Http), "user", "", "example.com", None, "/a", "", "top");
  }

  lemma FragmentFromPathLayout()
    ensures "http://user@example.com/a#top" == Assemble(Some(Http), "user", "", "example.com", None, "/a", "", "top")
  {
  }

  lemma FragmentFromPathParts()
    ensures Unambiguous(Some(Http), "user", "", "example.com", "/a", "", "top")
  {
    PartsOf(Some(Http), "user", "", "example.com", "/a", "", "top");
  }

  /** A bracketed host keeps its brackets, and its port follows `]:`. */
  lemma BracketedHost(url: string)
    requires url == "http://[::1]:8080/"
    ensures ParseUrl(url) == Ok(ParsedUrl(Http, "[::1]", "/", 8080, "", "", "", ""))
  {
    BracketedHostLayout();
    BracketedHostParts();
    ReadsBack(url, Some(Http), "", "", "[::1]", Some(8080), "/", "", "");
  }

  lemma BracketedHostLayout()
    ensures "http://[::1]:8080/" == Assemble(Some(Http), "", "", "[::1]", Some(8080), "/", "", "")
  {
    PortText8080();
  }

  lemma BracketedHostParts()
    ensures Unambiguous(Some(Http), "", "", "[::1]", "/", "", "")
  {
  }

  lemma BracketedHostDefaultPort(url: string)
    requires url == "https://[::1]"
    ensures ParseUrl(url) == Ok(ParsedUrl(Https, "[::1]", "/", 443, "", "", "", ""))
  {
    BracketedHostDefaultPortLayout();
    BracketedHostDefaultPortParts();
    ReadsBack(url, Some(Https), "", "", "[::1]", None, "", "", "");
  }

  lemma BracketedHostDefaultPortLayout()
    ensures "https://[::1]" == Assemble(Some(Https), "", "", "[::1]", None, "", "", "")
  {
  }

  lemma BracketedHostDefaultPortParts()
    ensures Unambiguous(Some(Https), "", "", "[::1]", "", "", "")
  {
  }

  // The URLs the tests expect to raise `InvalidURL`.

  lemma InvalidSchemeOnly(url: string)
    requires url == "https://"
    ensures ParseUrl(url) == Err(InvalidURL)
  {
    ParseSchemeOnly(url, Https);
  }

  lemma InvalidSlashOnly(url: string)
    requires url == "/"
    ensures ParseUrl(url) == Err(InvalidURL)
  {
    ParsePathOnly(url, None, "/");
  }

  lemma InvalidEmpty(url: string)
    requires url == ""
    ensures ParseUrl(url) == Err(InvalidURL)
  {
    ParseBlank(url);
  }

  lemma InvalidEmptyPort(url: string)
    requires url == "example.com:"
    ensures ParseUrl(url) == Err(InvalidURL)
  {
    var host := "example.com";
    ExampleHost(host);
    assert url == SchemeText(None) + (host + ":");
    ParseEmptyPortSide(url, None, host, false);
  }

  lemma InvalidEmptyName(url: string)
    requires url == ":example.com"
    ensures ParseUrl(url) == Err(InvalidURL)
  {
    var host := "example.com";
    ExampleHost(host);
    assert url == SchemeText(None) + (":" + host);
    ParseEmptyPortSide(url, None, host, true);
  }

  lemma InvalidSchemeEmptyPort(url: string)
    requires url == "http://example.com:"
    ensures ParseUrl(url) == Err(InvalidURL)
  {
    var host := "example.com";
    ExampleHost(host);
    SchemeEmptyPortLayout(url, host);
    ParseEmptyPortSide(url, Some(Http), host, false);
  }

  lemma SchemeEmptyPortLayout(url: string, host: string)
    requires url == "http://example.com:" && host == "example.com"
    ensures url == SchemeText(Some(Http)) + (host + ":")
  {
  }

  lemma InvalidSchemeEmptyName(url: string)
    requires url == "http://:example.com"
    ensures ParseUrl(url) == Err(InvalidURL)
  {
    var host := "example.com";
    ExampleHost(host);
    SchemeEmptyNameLayout(url, host);
    ParseEmptyPortSide(url, Some(Http), host, true);
  }

  lemma SchemeEmptyNameLayout(url: string, host: string)
    requires url == "http://:example.com" && host == "example.com"
    ensures url == SchemeText(Some(Http)) + (":" + host)
  {
  }

  /** The host of the examples is a host name with none of the parser's
      delimiters. */
  lemma ExampleHost(host: string)
    requires host == "example.com"
    ensures HostName(host) && NoSpace(host)
    ensures '/' !in host && '?' !in host && '#' !in host && '@' !in host
  {
    NameAvoids(host);
  }

  /** An unknown scheme is a `ValueError`, not `InvalidURL`. */
  lemma UnknownScheme(url: string)
    requires url == "htps://example.com/"
    ensures ParseUrl(url) == Err(ValueError)
  {
    var scheme, rest := "htps", "example.com/";
    UnknownSchemeName(scheme);
    PathAvoids(rest);
    UnknownSchemeLayout(url, scheme, rest);
    ParseUnknownScheme(url, scheme, rest);
  }

  lemma UnknownSchemeLayout(url: string, scheme: string, rest: string)
    requires url == "htps://example.com/" && scheme == "htps" && rest == "example.com/"
    ensures url == scheme + "://" + rest
  {
  }

  lemma UnknownSchemeName(scheme: string)
    requires scheme == "htps"
    ensures ':' !in scheme && NoSpace(scheme) && ProtocolFromValue(Lower(scheme)).None?
  {
    NameAvoids(scheme);
    LowerUnchanged(scheme);
  }
}
