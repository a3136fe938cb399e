/**
 * The `URL` object of `genki/http/url/url.py`: the eight parsed parts as
 * fields, each with a setter, and the URL text, rebuilt from the parts by
 * `update()` the next time it is read after any part changed.
 */
module Url {
  import opened Wrappers
  import opened PyStr
  import opened Codecs
  import opened UrlParse
  import opened UrlLayout

  /** The port `update()` writes: none when it is the scheme's default. */
  function WrittenPort(protocol: Protocol, port: int): (r: Option<int>)
    ensures r.None? <==> (port == 443 && protocol == Https) || (port == 80 && protocol == Http)
    ensures r.Some? ==> r.value == port
  {
    if port == DefaultPort(protocol) then None else Some(port)
  }

  /** The text `update()` builds from the parts:
      `protocol://[user[:password]@]host[:port]path[?query][#fragment]`. */
  function Compose(u: ParsedUrl): (r: string)
    ensures ProtocolValue(u.protocol) + "://" <= r
    ensures |r| >= |ProtocolValue(u.protocol)| + 3 + |u.host| + |u.path|
  {
    var scheme := SchemeText(Some(u.protocol));
    var rest := UserinfoText(u.username, u.password) + u.host + PortText(WrittenPort(u.protocol, u.port)) + u.path
                + Tagged('?', u.query) + Tagged('#', u.fragment);
    var r := Assemble(Some(u.protocol), u.username, u.password, u.host,
                      WrittenPort(u.protocol, u.port), u.path, u.query, u.fragment);
    assert r == scheme + rest;
    r
  }

  /** Parts the rebuilt text can carry without ambiguity: what the parser
      would read back from it. */
  predicate Writable(u: ParsedUrl) {
    && Unambiguous(Some(u.protocol), u.username, u.password, u.host, u.path, u.query, u.fragment)
    && u.path != ""
    && (u.username == "" ==> u.password == "")
  }

  /** Parsing the rebuilt text gives the parts back. */
  lemma ComposeReadsBack(u: ParsedUrl)
    requires Writable(u)
    ensures ParseUrl(Compose(u)) == Ok(u)
  {
    ParseAssembled(Some(u.protocol), u.username, u.password, u.host,
                   WrittenPort(u.protocol, u.port), u.path, u.query, u.fragment);
  }

  /** Writable parts with the same text are the same parts, so comparing two
      URLs by their text compares their parts. */
  lemma ComposeInjective(u: ParsedUrl, v: ParsedUrl)
    requires Writable(u) && Writable(v) && Compose(u) == Compose(v)
    ensures u == v
  {
    ComposeReadsBack(u);
    ComposeReadsBack(v);
  }

  /** `update()`'s f-strings, piece by piece, are `Compose`. */
  lemma ComposeText(u: ParsedUrl, userinfo: string, portText: string, url: string)
    requires userinfo == UserinfoText(u.username, u.password)
    requires portText == PortText(WrittenPort(u.protocol, u.port))
    requires url == ProtocolValue(u.protocol) + "://" + userinfo + u.host + portText + u.path
      + (if u.query != "" then "?" + u.query else "") + (if u.fragment != "" then "#" + u.fragment else "")
    ensures url == Compose(u)
  {
  }

  /** The path setter: a `/` is put in front of a path without one. */
  function RootedPath(value: string): (r: string)
    ensures |r| > 0 && r[0] == '/'
    ensures value != [] && value[0] == '/' ==> r == value
    ensures !(value != [] && value[0] == '/') ==> r == "/" + value
  {
    if |value| > 0 && value[0] == '/' then value else "/" + value
  }

  class URL {
    var protocol: Protocol
    var host: string
    var path: string
    var port: int
    var query: string
    var username: string
    var password: string
    var fragment: string
    /** `_string`: the text last built by `update()`. */
    var cached: string
    /** `_dirty`: a part changed since `update()` last ran. */
    var dirty: bool

    /** The cached text is current unless a part changed. */
    ghost predicate Valid()
      reads this
    {
      !dirty ==> cached == Compose(Parts())
    }

    function Parts(): ParsedUrl
      reads this
    {
      ParsedUrl(protocol, host, path, port, username, password, query, fragment)
    }

    /** The parts of a parse result; the text is built on first use. */
    constructor FromParts(u: ParsedUrl)
      ensures Parts() == u && dirty && Valid()
    {
      protocol, host, path, port := u.protocol, u.host, u.path, u.port;
      query, username, password, fragment := u.query, u.username, u.password, u.fragment;
      cached, dirty := "", true;
    }

    /** `URL(url)`: fails with the parser's error. */
    static method Parse(url: string) returns (r: Result<URL, UrlError>)
      ensures r.Ok? <==> ParseUrl(url).Ok?
      ensures r.Err? ==> r.error == ParseUrl(url).error
      ensures r.Ok? ==> fresh(r.value) && r.value.Parts() == ParseUrl(url).value && r.value.Valid()
    {
      var parsed := ParseUrl(url);
      if parsed.Err? {
        r := Err(parsed.error);
      } else {
        var x := new URL.FromParts(parsed.value);
        r := Ok(x);
      }
    }

    /** `url.string = value`: on a parse error nothing changes; otherwise
        every part is replaced and the text is marked stale. */
    method SetString(value: string) returns (err: Option<UrlError>)
      modifies this
      ensures ParseUrl(value).Err? ==> err == Some(ParseUrl(value).error) && Parts() == old(Parts())
      ensures ParseUrl(value).Err? ==> dirty == old(dirty) && cached == old(cached)
      ensures ParseUrl(value).Ok? ==> err.None? && Parts() == ParseUrl(value).value && dirty
      ensures old(Valid()) ==> Valid()
    {
      var parsed := ParseUrl(value);
      if parsed.Err? {
        err := Some(parsed.error);
      } else {
        SetParts(parsed.value);
        err := None;
      }
    }

    /** The assignments of the `string` setter after a successful parse. */
    method SetParts(u: ParsedUrl)
      modifies this
      ensures Parts() == u && dirty && cached == old(cached)
    {
      protocol, host, path, port := u.protocol, u.host, u.path, u.port;
      query, username, password, fragment := u.query, u.username, u.password, u.fragment;
      dirty := true;
    }

    /** `url.string = value` with `bytes`: decoded as UTF-8 first; a decoding
        failure is a `ValueError` (`UnicodeDecodeError` is one). */
    method SetBytes(value: seq<byte>) returns (err: Option<UrlError>)
      modifies this
      ensures Decode(value).None? ==> err == Some(ValueError) && Parts() == old(Parts())
      ensures Decode(value).None? ==> dirty == old(dirty) && cached == old(cached)
      ensures Decode(value).Some? ==> var s := Decode(value).value;
        && (ParseUrl(s).Err? ==> err == Some(ParseUrl(s).error) && Parts() == old(Parts()))
        && (ParseUrl(s).Ok? ==> err.None? && Parts() == ParseUrl(s).value && dirty)
      ensures old(Valid()) ==> Valid()
    {
      var decoded := Decode(value);
      if decoded.None? {
        err := Some(ValueError);
      } else {
        err := SetString(decoded.value);
      }
    }

    /** `update()`: rebuilds the text from the parts. */
    method Update()
      modifies this
      ensures cached == Compose(Parts()) && !dirty && Valid()
      ensures Parts() == old(Parts())
    {
      var userinfo := UserinfoPart(username, password);
      var portText := PortPart(protocol, port);
      var url := ProtocolValue(protocol) + "://" + userinfo + host + portText + path;
      var queryText := "";
      if query != "" {
        queryText := "?" + query;
      }
      var fragmentText := "";
      if fragment != "" {
        fragmentText := "#" + fragment;
      }
      url := url + queryText + fragmentText;
      ComposeText(Parts(), userinfo, portText, url);
      cached := url;
      dirty := false;
    }

    /** The userinfo piece of `update()`. */
    static method UserinfoPart(username: string, password: string) returns (userinfo: string)
      ensures userinfo == UserinfoText(username, password)
    {
      userinfo := "";
      if username != "" {
        userinfo := username;
        if password != "" {
          userinfo := userinfo + ":" + password;
        }
        userinfo := userinfo + "@";
      }
    }

    /** The port piece of `update()`: nothing for the scheme's default port. */
    static method PortPart(protocol: Protocol, port: int) returns (portText: string)
      ensures portText == PortText(WrittenPort(protocol, port))
    {
      portText := "";
      if !((port == 443 && protocol == Https) || (port == 80 && protocol == Http)) {
        portText := ":" + IntToString(port);
      }
    }

    /** `url.string` (and `str(url)`): the text, rebuilt first when stale. */
    method GetString() returns (s: string)
      requires Valid()
      modifies this
      ensures s == Compose(Parts()) && cached == s && !dirty && Valid()
      ensures Parts() == old(Parts())
    {
      if dirty {
        Update();
      }
      s := cached;
    }

    /** The `protocol` setter: `Protocol(value.lower())`, a `ValueError`
        leaving the URL unchanged for anything but `http` and `https`. */
    method SetProtocol(value: string) returns (err: Option<UrlError>)
      modifies this
      ensures ProtocolFromValue(Lower(value)).None? ==> err == Some(ValueError) && Parts() == old(Parts())
      ensures ProtocolFromValue(Lower(value)).None? ==> dirty == old(dirty) && cached == old(cached)
      ensures ProtocolFromValue(Lower(value)).Some? ==>
        && err.None? && dirty
        && Parts() == old(Parts()).(protocol := ProtocolFromValue(Lower(value)).value)
      ensures old(Valid()) ==> Valid()
    {
      var p := ProtocolFromValue(Lower(value));
      if p.None? {
        err := Some(ValueError);
      } else {
        protocol := p.value;
        dirty := true;
        err := None;
      }
    }

    method SetHost(value: string)
      modifies this
      ensures Parts() == old(Parts()).(host := value) && dirty && Valid()
    {
      host := value;
      dirty := true;
    }

    /** The `path` setter: rooted with a leading `/`. */
    method SetPath(value: string)
      modifies this
      ensures Parts() == old(Parts()).(path := RootedPath(value)) && dirty && Valid()
    {
      var v := value;
      if !(|v| > 0 && v[0] == '/') {
        v := "/" + v;
      }
      path := v;
      dirty := true;
    }

    /** The `port` setter with an int: `int(value)` is the value itself. */
    method SetPort(value: int)
      modifies this
      ensures Parts() == old(Parts()).(port := value) && dirty && Valid()
    {
      port := value;
      dirty := true;
    }

    /** The `port` setter with a string: `int(value)`, a `ValueError`
        leaving the URL unchanged when it is not an integer. */
    method SetPortText(value: string) returns (err: Option<UrlError>)
      modifies this
      ensures ParseInt(value).None? ==> err == Some(ValueError) && Parts() == old(Parts())
      ensures ParseInt(value).None? ==> dirty == old(dirty) && cached == old(cached)
      ensures ParseInt(value).Some? ==> err.None? && dirty && Parts() == old(Parts()).(port := ParseInt(value).value)
      ensures old(Valid()) ==> Valid()
    {
      var n := ParseInt(value);
      if n.None? {
        err := Some(ValueError);
      } else {
        SetPort(n.value);
        err := None;
      }
    }

    method SetQuery(value: string)
      modifies this
      ensures Parts() == old(Parts()).(query := value) && dirty && Valid()
    {
      query := value;
      dirty := true;
    }

    method SetUsername(value: string)
      modifies this
      ensures Parts() == old(Parts()).(username := value) && dirty && Valid()
    {
      username := value;
      dirty := true;
    }

    method SetPassword(value: string)
      modifies this
      ensures Parts() == old(Parts()).(password := value) && dirty && Valid()
    {
      password := value;
      dirty := true;
    }

    method SetFragment(value: string)
      modifies this
      ensures Parts() == old(Parts()).(fragment := value) && dirty && Valid()
    {
      fragment := value;
      dirty := true;
    }

    /** `url == value` with a string: compares the rebuilt text. */
    method EqualsString(value: string) returns (b: bool)
      requires Valid()
      modifies this
      ensures b <==> Compose(Parts()) == value
      ensures Parts() == old(Parts()) && Valid()
    {
      var s := GetString();
      b := s == value;
    }

    /** `url == other` with a URL: compares the two rebuilt texts. */
    method EqualsUrl(other: URL) returns (b: bool)
      requires Valid() && other.Valid()
      modifies this, other
      ensures b <==> Compose(old(Parts())) == Compose(old(other.Parts()))
      ensures Parts() == old(Parts()) && other.Parts() == old(other.Parts())
      ensures Valid() && other.Valid()
    {
      var s := GetString();
      var t := other.GetString();
      b := s == t;
    }

    /** `url.copy()`: a new object with the same parts and cached text. */
    method Copy() returns (c: URL)
      ensures fresh(c) && c.Parts() == Parts() && c.cached == cached && c.dirty == dirty
      ensures Valid() ==> c.Valid()
    {
      c := new URL.FromParts(Parts());
      c.cached := cached;
      c.dirty := dirty;
    }
  }

  /** The text of a URL built from a string parses back to the same parts
      whenever those parts are writable. */
  lemma ReparseRebuilt(url: string)
    requires ParseUrl(url).Ok? && Writable(ParseUrl(url).value)
    ensures ParseUrl(Compose(ParseUrl(url).value)) == ParseUrl(url)
  {
    ComposeReadsBack(ParseUrl(url).value);
  }
}
