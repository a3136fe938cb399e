/**
 * `RequestBuilder` of `genki/http/request/request_builder.py`: a URL object,
 * a headers object, a method, a body and an HTTP version, with setters that
 * check and normalise what they are given, redirects recorded in a chain,
 * and the request serialised as a request line (section 3.1.1 of RFC 7230),
 * the header block and the body.
 */
module Request {
  import opened Wrappers
  import opened PyStr
  import opened Codecs
  import opened Methods
  import UrlParse
  import opened Url
  import opened HttpHeaders

  /** The exceptions the builder raises. `UnicodeDecodeError` and
      `UnicodeEncodeError` are `ValueError`s. */
  datatype RequestError = InvalidURL | ValueError | TypeError

  function FromUrlError(e: UrlParse.UrlError): RequestError {
    match e
    case InvalidURL => InvalidURL
    case ValueError => ValueError
  }

  /** The `redirect` record: the URL before the redirect (a copy), the URL
      object after it, and the status code. */
  datatype Redirect = Redirect(source: URL, destination: URL, statusCode: int)

  // ---------------------------------------------------------------------
  // What the setters accept

  /** A value given for the URL: a string, a `URL`, or anything else. */
  datatype UrlArg = UrlText(s: string) | UrlObject(u: URL) | OtherUrl

  /** A value given for the headers: a `Headers`, a plain dict (its items in
      order), `bytes`, or anything else. */
  datatype HeadersArg = HeadersObject(h: Headers) | HeadersDict(items: Entries) | HeadersBytes(b: seq<byte>) | OtherHeaders

  /** A value given for the method: a member, a string, or anything else. */
  datatype MethodArg = MethodMember(m: Method) | MethodText(s: string) | OtherMethod

  /** A value given for the body: `None`, `str`, `bytes`, `bytearray`, or an
      object of another type, falsy (`0`, `[]`, ...) or not. */
  datatype BodyArg = NoBody | StrBody(s: string) | BytesBody(b: seq<byte>) | ByteArrayBody(b: seq<byte>) | OtherBody(falsy: bool)

  /** `Method(value)`. */
  function MethodOf(v: MethodArg): (r: Result<Method, RequestError>)
    ensures v.MethodMember? ==> r == Ok(v.m)
    ensures v.MethodText? ==> (r.Ok? <==> v.s in Values) && (r.Ok? ==> Value(r.value) == v.s)
    ensures r.Err? ==> r.error == ValueError
  {
    match v
    case MethodMember(m) => Ok(m)
    case MethodText(s) => if FromValue(s).Some? then Ok(FromValue(s).value) else Err(ValueError)
    case OtherMethod => Err(ValueError)
  }

  /** `not value` for a body. */
  predicate Falsy(v: BodyArg) {
    match v
    case NoBody => true
    case StrBody(s) => s == ""
    case BytesBody(b) => b == []
    case ByteArrayBody(b) => b == []
    case OtherBody(falsy) => falsy
  }

  /** A body value is falsy exactly when the body setter stores no bytes. */
  lemma FalsyStoresNothing(v: BodyArg)
    ensures Falsy(v) <==> BodyOf(v) == Ok([])
  {
    if v.StrBody? && v.s != [] {
      EncodeLength(v.s);
    }
  }

  /** The bytes the body setter stores: none for a falsy value, the bytes
      themselves, or the UTF-8 encoding of a string; `TypeError` for any other
      truthy value. */
  function BodyOf(v: BodyArg): (r: Result<seq<byte>, RequestError>)
    ensures r.Err? <==> v.OtherBody? && !v.falsy
    ensures r.Err? ==> r.error == TypeError
    ensures Falsy(v) ==> r == Ok([])
    ensures v.StrBody? ==> r.Ok? && Decode(r.value) == Some(v.s)
    ensures (v.BytesBody? || v.ByteArrayBody?) ==> r == Ok(v.b)
  {
    match v
    case NoBody => Ok([])
    case StrBody(s) =>
      DecodeEncode(s);
      Ok(Encode(s))
    case BytesBody(b) => Ok(b)
    case ByteArrayBody(b) => Ok(b)
    case OtherBody(falsy) => if falsy then Ok([]) else Err(TypeError)
  }

  const ContentLength: string := "Content-Length"

  /** The headers after the body is set: `Content-Length` is the body's
      length when there is a body, and is removed when there is none. */
  function WithContentLength(e: Entries, body: seq<byte>): (r: Entries)
    ensures DistinctKeys(e) ==> DistinctKeys(r)
    ensures DistinctKeys(e) ==> Lookup(r, ContentLength) == if body != [] then Some(Int(|body|)) else None
    ensures forall k :: k != ContentLength ==> Lookup(r, k) == Lookup(e, k)
  {
    if body != [] then Put(e, ContentLength, Int(|body|)) else Delete(e, ContentLength)
  }

  /** The headers after the body setter has run on `v`: unchanged when it
      raises, with `Content-Length` updated otherwise. */
  function BodyEntries(e: Entries, v: BodyArg): Entries {
    if BodyOf(v).Err? then e else WithContentLength(e, BodyOf(v).value)
  }

  // ---------------------------------------------------------------------
  // Serialisation

  /** `f'{method} {path} HTTP/{version}\r\n'`. */
  function RequestLine(m: Method, path: string, version: string): (r: string)
    ensures IsAscii(r) <==> IsAscii(path) && IsAscii(version)
    ensures |r| >= |Value(m)| + 3 && r[..|Value(m)| + 1] == Value(m) + " " && r[|r| - 2..] == "\r\n"
  {
    var verb := Value(m) + " ";
    assert IsAscii(verb) by {
      assert forall i :: 0 <= i < |Value(m)| ==> verb[i] == Value(m)[i];
    }
    var r := verb + path + " HTTP/" + version + "\r\n";
    AsciiConcat(verb, path);
    AsciiConcat(verb + path, " HTTP/");
    AsciiConcat(verb + path + " HTTP/", version);
    AsciiConcat(verb + path + " HTTP/" + version, "\r\n");
    assert IsAscii(" HTTP/") && IsAscii("\r\n");
    r
  }

  /** The headers as `to_bytes` sends them: `Host` set to the URL's host, and
      `Connection: close` added unless a `Connection` is already there. */
  function Prepared(e: Entries, host: string): (r: Entries)
    ensures DistinctKeys(e) ==> DistinctKeys(r)
    ensures Lookup(r, "Host") == Some(Str(host))
    ensures Lookup(e, "Connection").Some? ==> Lookup(r, "Connection") == Lookup(e, "Connection")
    ensures Lookup(e, "Connection").None? ==> Lookup(r, "Connection") == Some(Str("close"))
    ensures forall k :: k != "Host" && k != "Connection" ==> Lookup(r, k) == Lookup(e, k)
  {
    var withHost := Put(e, "Host", Str(host));
    PutIfAbsentLookup(withHost, "Connection", Str("close"));
    PutIfAbsent(withHost, "Connection", Str("close"))
  }

  lemma PutIfAbsentLookup(e: Entries, k: string, v: HValue)
    ensures Lookup(e, k).Some? ==> Lookup(PutIfAbsent(e, k, v), k) == Lookup(e, k)
    ensures Lookup(e, k).None? ==> Lookup(PutIfAbsent(e, k, v), k) == Some(v)
    ensures forall k' :: k' != k ==> Lookup(PutIfAbsent(e, k, v), k') == Lookup(e, k')
  {
  }

  /** The request's bytes: the request line in ASCII (a `ValueError` when it
      is not ASCII), the header block, then the body. */
  function RequestBytes(m: Method, path: string, version: string, e: Entries, body: seq<byte>)
    : (r: Result<seq<byte>, RequestError>)
    ensures r.Err? <==> !IsAscii(RequestLine(m, path, version))
    ensures r.Err? ==> r.error == ValueError
    ensures r.Ok? ==> r.value == Encode(RequestLine(m, path, version)) + RenderBytes(e) + body
  {
    match AsciiEncode(RequestLine(m, path, version))
    case None => Err(ValueError)
    case Some(line) => Ok(line + RenderBytes(e) + body)
  }

  /** Assigning a value a dictionary already holds changes nothing. */
  lemma PutSame(e: Entries, k: string, v: HValue)
    requires Lookup(e, k) == Some(v)
    ensures Put(e, k, v) == e
  {
    var p := Position(e, k);
    assert e[p] == (k, v);
    assert e[p := (k, v)] == e;
  }

  /** Preparing the headers twice is preparing them once, so a second
      `to_bytes` sends the same bytes as the first. */
  lemma PreparedIdempotent(e: Entries, host: string)
    ensures Prepared(Prepared(e, host), host) == Prepared(e, host)
  {
    var once := Prepared(e, host);
    PutSame(once, "Host", Str(host));
  }

  lemma RequestBytesStable(m: Method, path: string, version: string, e: Entries, host: string, body: seq<byte>)
    ensures RequestBytes(m, path, version, Prepared(Prepared(e, host), host), body)
         == RequestBytes(m, path, version, Prepared(e, host), body)
  {
    PreparedIdempotent(e, host);
  }

  /** The error of the headers setter: `TypeError` for an unsupported
      type, `ValueError` for bytes that do not decode. */
  function HeadersError(v: HeadersArg): (r: Option<RequestError>)
    ensures r.Some? <==> v.OtherHeaders? || (v.HeadersBytes? && ParseHeaders(v.b).None?)
    ensures v.OtherHeaders? ==> r == Some(TypeError)
  {
    if v.OtherHeaders? then Some(TypeError)
    else if v.HeadersBytes? && ParseHeaders(v.b).None? then Some(ValueError)
    else None
  }

  /** The error of the URL setter: `TypeError` for an unsupported type, the
      parser's error for a string it rejects. */
  function UrlArgError(v: UrlArg): (r: Option<RequestError>)
    ensures r.Some? <==> v.OtherUrl? || (v.UrlText? && UrlParse.ParseUrl(v.s).Err?)
    ensures v.OtherUrl? ==> r == Some(TypeError)
    ensures v.UrlText? && r.Some? ==> r == Some(FromUrlError(UrlParse.ParseUrl(v.s).error))
  {
    match v
    case OtherUrl => Some(TypeError)
    case UrlObject(_) => None
    case UrlText(s) => if UrlParse.ParseUrl(s).Err? then Some(FromUrlError(UrlParse.ParseUrl(s).error)) else None
  }

  /** The exception `__init__` raises: that of the first setter to fail, in
      the order headers, URL, body, method. */
  function FirstError(urlArg: UrlArg, headersArg: HeadersArg, bodyArg: BodyArg, methodArg: MethodArg)
    : (r: Option<RequestError>)
    ensures r.None? <==> && HeadersError(headersArg).None? && UrlArgError(urlArg).None?
                         && BodyOf(bodyArg).Ok? && MethodOf(methodArg).Ok?
    ensures HeadersError(headersArg).Some? ==> r == HeadersError(headersArg)
  {
    if HeadersError(headersArg).Some? then HeadersError(headersArg)
    else LaterError(urlArg, bodyArg, methodArg)
  }

  /** The exception of the setters after the headers one: URL, body, method. */
  function LaterError(urlArg: UrlArg, bodyArg: BodyArg, methodArg: MethodArg): Option<RequestError> {
    if UrlArgError(urlArg).Some? then UrlArgError(urlArg)
    else if BodyOf(bodyArg).Err? then Some(BodyOf(bodyArg).error)
    else if MethodOf(methodArg).Err? then Some(MethodOf(methodArg).error)
    else None
  }

  /** The URL object the URL setter stores for `v`: the object given, or a
      new one holding the parse of the string. */
  predicate Installed(v: UrlArg, u: URL)
    reads u
  {
    match v
    case UrlObject(given) => u == given
    case UrlText(s) => UrlParse.ParseUrl(s) == Ok(u.Parts())
    case OtherUrl => false
  }

  /** The entries the headers setter starts from. */
  function StartEntries(v: HeadersArg): Entries
    reads if v.HeadersObject? then {v.h} else {}
  {
    match v
    case HeadersObject(h) => h.entries
    case HeadersDict(items) => PutAll([], items)
    case HeadersBytes(b) => if ParseHeaders(b).Some? then ParseHeaders(b).value else []
    case OtherHeaders => []
  }

  // ---------------------------------------------------------------------
  // The builder

  /** The bytes of a request whose line encodes. */
  lemma RequestBytesOk(m: Method, path: string, version: string, e: Entries, body: seq<byte>, line: seq<byte>, text: seq<byte>)
    requires AsciiEncode(RequestLine(m, path, version)) == Some(line) && text == RenderBytes(e)
    ensures RequestBytes(m, path, version, e, body) == Ok(line + text + body)
  {
  }

  /** Where a redirect to `location` leads from a URL with parts `prior`:
      a location starting with `/` keeps everything but the path, any other
      is parsed as a whole URL and may fail. */
  function Followed(prior: UrlParse.ParsedUrl, location: string): (r: Result<UrlParse.ParsedUrl, UrlParse.UrlError>)
    ensures |location| > 0 && location[0] == '/' ==>
      r.Ok? && r.value.path == location && r.value.(path := prior.path) == prior
    ensures !(|location| > 0 && location[0] == '/') ==>
      (r.Err? <==> UrlParse.ParseUrl(location).Err?) && (r.Ok? ==> UrlParse.Sound(r.value))
  {
    if |location| > 0 && location[0] == '/' then Ok(prior.(path := location))
    else UrlParse.ParseUrl(location)
  }

  class RequestBuilder {
    var url: URL
    var headers: Headers
    var httpMethod: Method
    var body: seq<byte>
    var httpVersion: string
    var redirectChain: seq<Redirect>

    ghost predicate Valid()
      reads this, url, headers
    {
      url.Valid() && headers.Valid()
    }

    /** The fields before `__init__` runs its setters. */
    constructor Init(u: URL, h: Headers)
      ensures url == u && headers == h && httpMethod == GET && body == []
      ensures httpVersion == "1.1" && redirectChain == []
    {
      url, headers, httpMethod, body := u, h, GET, [];
      httpVersion, redirectChain := "1.1", [];
    }

    /** `RequestBuilder(url, headers=..., body=..., method=..., http_version=...)`:
        the headers, URL, body and method setters in that order, the first
        failing one raising. A `Headers` object given is used, and changed,
        in place. */
    static method New(urlArg: UrlArg, headersArg: HeadersArg, bodyArg: BodyArg, methodArg: MethodArg, version: string)
      returns (r: Result<RequestBuilder, RequestError>)
      requires urlArg.UrlObject? ==> urlArg.u.Valid()
      requires headersArg.HeadersObject? ==> headersArg.h.Valid()
      modifies if headersArg.HeadersObject? then {headersArg.h} else {}
      ensures r.Err? <==> FirstError(urlArg, headersArg, bodyArg, methodArg).Some?
      ensures r.Err? ==> r.error == FirstError(urlArg, headersArg, bodyArg, methodArg).value
      ensures r.Ok? ==> && fresh(r.value) && r.value.Valid()
                        && MethodOf(methodArg) == Ok(r.value.httpMethod)
                        && BodyOf(bodyArg) == Ok(r.value.body)
                        && r.value.httpVersion == version && r.value.redirectChain == []
      ensures r.Ok? ==> Installed(urlArg, r.value.url) && (!urlArg.UrlObject? ==> fresh(r.value.url))
      ensures r.Ok? ==> && (headersArg.HeadersObject? ==> r.value.headers == headersArg.h)
                        && (!headersArg.HeadersObject? ==> fresh(r.value.headers))
                        && r.value.headers.entries == WithContentLength(old(StartEntries(headersArg)), r.value.body)
      ensures headersArg.HeadersObject? ==>
                headersArg.h.entries == if UrlArgError(urlArg).Some? then old(headersArg.h.entries)
                                        else BodyEntries(old(headersArg.h.entries), bodyArg)
    {
      var h := HeadersFrom(headersArg);
      if h.Err? {
        return Err(h.error);
      }
      r := Finish(urlArg, h.value, bodyArg, methodArg, version);
    }

    /** The rest of `__init__` once the headers are stored: the URL setter,
        then the body, method and version setters. */
    static method Finish(urlArg: UrlArg, h: Headers, bodyArg: BodyArg, methodArg: MethodArg, version: string)
      returns (r: Result<RequestBuilder, RequestError>)
      requires urlArg.UrlObject? ==> urlArg.u.Valid()
      requires h.Valid()
      modifies h
      ensures r.Err? <==> LaterError(urlArg, bodyArg, methodArg).Some?
      ensures r.Err? ==> r.error == LaterError(urlArg, bodyArg, methodArg).value
      ensures r.Ok? ==> && fresh(r.value) && r.value.Valid()
                        && MethodOf(methodArg) == Ok(r.value.httpMethod)
                        && BodyOf(bodyArg) == Ok(r.value.body)
                        && r.value.httpVersion == version && r.value.redirectChain == []
      ensures r.Ok? ==> Installed(urlArg, r.value.url) && (!urlArg.UrlObject? ==> fresh(r.value.url))
      ensures r.Ok? ==> r.value.headers == h && h.entries == WithContentLength(old(h.entries), r.value.body)
      ensures h.entries == if UrlArgError(urlArg).Some? then old(h.entries) else BodyEntries(old(h.entries), bodyArg)
    {
      var u := UrlFrom(urlArg);
      if u.Err? {
        return Err(u.error);
      }
      r := Build(u.value, h, bodyArg, methodArg, version);
    }

    /** The builder over a URL and a headers object, with the body, method
        and version setters run. */
    static method Build(u: URL, h: Headers, bodyArg: BodyArg, methodArg: MethodArg, version: string)
      returns (r: Result<RequestBuilder, RequestError>)
      requires u.Valid() && h.Valid()
      modifies h
      ensures r.Err? <==> BodyOf(bodyArg).Err? || MethodOf(methodArg).Err?
      ensures r.Err? ==> r.error == if BodyOf(bodyArg).Err? then BodyOf(bodyArg).error else MethodOf(methodArg).error
      ensures r.Ok? ==> && fresh(r.value) && r.value.url == u && r.value.headers == h && r.value.Valid()
                        && MethodOf(methodArg) == Ok(r.value.httpMethod) && BodyOf(bodyArg) == Ok(r.value.body)
                        && r.value.httpVersion == version && r.value.redirectChain == []
                        && h.entries == WithContentLength(old(h.entries), r.value.body)
      ensures h.entries == BodyEntries(old(h.entries), bodyArg)
    {
      var b := new RequestBuilder.Init(u, h);
      var err := b.Configure(bodyArg, methodArg, version);
      if err.Some? {
        return Err(err.value);
      }
      r := Ok(b);
    }

    /** The body, method and version setters of `__init__`. */
    method Configure(bodyArg: BodyArg, methodArg: MethodArg, version: string) returns (err: Option<RequestError>)
      requires headers.Valid()
      modifies this, headers
      ensures err == if BodyOf(bodyArg).Err? then Some(BodyOf(bodyArg).error)
                     else if MethodOf(methodArg).Err? then Some(MethodOf(methodArg).error) else None
      ensures err.None? ==> && BodyOf(bodyArg) == Ok(body) && MethodOf(methodArg) == Ok(httpMethod)
                            && httpVersion == version
                            && headers.entries == WithContentLength(old(headers.entries), body)
      ensures body == (if BodyOf(bodyArg).Err? then old(body) else BodyOf(bodyArg).value)
      ensures headers.entries == BodyEntries(old(headers.entries), bodyArg)
      ensures MethodOf(methodArg).Err? ==> httpMethod == old(httpMethod)
      ensures err.Some? ==> httpVersion == old(httpVersion)
      ensures headers.Valid()
      ensures url == old(url) && headers == old(headers) && redirectChain == old(redirectChain)
    {
      err := SetBody(bodyArg);
      if err.Some? {
        return;
      }
      err := SetMethod(methodArg);
      if err.Some? {
        return;
      }
      httpVersion := version;
    }

    /** What the headers setter stores. */
    static method HeadersFrom(v: HeadersArg) returns (r: Result<Headers, RequestError>)
      requires v.HeadersObject? ==> v.h.Valid()
      ensures r.Err? <==> HeadersError(v).Some?
      ensures r.Err? ==> r.error == HeadersError(v).value
      ensures r.Ok? ==> r.value.Valid() && r.value.entries == StartEntries(v)
      ensures r.Ok? ==> (v.HeadersObject? ==> r.value == v.h) && (!v.HeadersObject? ==> fresh(r.value))
    {
      match v
      case HeadersObject(h) =>
        r := Ok(h);
      case HeadersDict(items) =>
        var h := new Headers(items);
        r := Ok(h);
      case HeadersBytes(b) =>
        var h := Headers.FromBytes(b);
        if h.None? {
          r := Err(ValueError);
        } else {
          r := Ok(h.value);
        }
      case OtherHeaders =>
        r := Err(TypeError);
    }

    /** What the URL setter stores. */
    static method UrlFrom(v: UrlArg) returns (r: Result<URL, RequestError>)
      requires v.UrlObject? ==> v.u.Valid()
      ensures r.Err? <==> UrlArgError(v).Some?
      ensures r.Err? ==> r.error == UrlArgError(v).value
      ensures r.Ok? ==> r.value.Valid() && Installed(v, r.value) && (!v.UrlObject? ==> fresh(r.value))
    {
      match v
      case UrlText(s) =>
        var u := URL.Parse(s);
        if u.Err? {
          r := Err(FromUrlError(u.error));
        } else {
          r := Ok(u.value);
        }
      case UrlObject(u) =>
        r := Ok(u);
      case OtherUrl =>
        r := Err(TypeError);
    }

    /** `builder.url = value`: nothing changes on an error. */
    method SetUrl(v: UrlArg) returns (err: Option<RequestError>)
      requires v.UrlObject? ==> v.u.Valid()
      modifies this
      ensures err == UrlArgError(v)
      ensures err.Some? ==> url == old(url)
      ensures err.None? ==> url.Valid() && Installed(v, url) && (!v.UrlObject? ==> fresh(url))
      ensures headers == old(headers) && httpMethod == old(httpMethod) && body == old(body)
      ensures httpVersion == old(httpVersion) && redirectChain == old(redirectChain)
    {
      var u := UrlFrom(v);
      if u.Err? {
        err := Some(u.error);
      } else {
        Install(u.value);
        err := None;
      }
    }

    /** The assignment to `_url`. */
    method Install(u: URL)
      modifies this
      ensures url == u
      ensures headers == old(headers) && httpMethod == old(httpMethod) && body == old(body)
      ensures httpVersion == old(httpVersion) && redirectChain == old(redirectChain)
    {
      url := u;
    }

    /** `builder.headers = value`: nothing changes on an error. The body and
        its `Content-Length` are not revisited. */
    method SetHeaders(v: HeadersArg) returns (err: Option<RequestError>)
      requires v.HeadersObject? ==> v.h.Valid()
      modifies this
      ensures err == HeadersError(v)
      ensures err.Some? ==> headers == old(headers)
      ensures err.None? ==> headers.Valid() && headers.entries == StartEntries(v)
      ensures err.None? ==> (v.HeadersObject? ==> headers == v.h) && (!v.HeadersObject? ==> fresh(headers))
      ensures url == old(url) && httpMethod == old(httpMethod) && body == old(body)
      ensures httpVersion == old(httpVersion) && redirectChain == old(redirectChain)
    {
      var h := HeadersFrom(v);
      if h.Err? {
        err := Some(h.error);
      } else {
        headers := h.value;
        err := None;
      }
    }

    /** `builder.method = value`: `Method(value)`, nothing changing on a
        `ValueError`. */
    method SetMethod(v: MethodArg) returns (err: Option<RequestError>)
      modifies this
      ensures MethodOf(v).Err? ==> err == Some(ValueError) && httpMethod == old(httpMethod)
      ensures MethodOf(v).Ok? ==> err.None? && httpMethod == MethodOf(v).value
      ensures url == old(url) && headers == old(headers) && body == old(body)
      ensures httpVersion == old(httpVersion) && redirectChain == old(redirectChain)
    {
      var m := MethodOf(v);
      if m.Err? {
        err := Some(m.error);
      } else {
        httpMethod := m.value;
        err := None;
      }
    }

    /** `builder.body = value`: the body normalised to bytes, then
        `Content-Length` made to agree with it. A `TypeError` changes
        nothing. */
    method SetBody(v: BodyArg) returns (err: Option<RequestError>)
      requires headers.Valid()
      modifies this, headers
      ensures BodyOf(v).Err? ==> err == Some(TypeError) && body == old(body)
      ensures BodyOf(v).Err? ==> headers.entries == old(headers.entries)
      ensures BodyOf(v).Ok? ==> err.None? && body == BodyOf(v).value
      ensures BodyOf(v).Ok? ==> headers.entries == WithContentLength(old(headers.entries), body)
      ensures headers.Valid()
      ensures url == old(url) && headers == old(headers) && httpMethod == old(httpMethod)
      ensures httpVersion == old(httpVersion) && redirectChain == old(redirectChain)
    {
      var b := BodyOf(v);
      if b.Err? {
        return Some(b.error);
      }
      StoreBody(b.value);
      err := None;
    }

    /** The body assignment and the `Content-Length` update after it. */
    method StoreBody(b: seq<byte>)
      requires headers.Valid()
      modifies this, headers
      ensures body == b && headers.entries == WithContentLength(old(headers.entries), b)
      ensures headers.Valid()
      ensures url == old(url) && headers == old(headers) && httpMethod == old(httpMethod)
      ensures httpVersion == old(httpVersion) && redirectChain == old(redirectChain)
    {
      body := b;
      if body != [] {
        headers.Set(ContentLength, Int(|body|));
      } else if headers.Get(ContentLength).Some? {
        headers.RemoveHeader(ContentLength);
      }
    }

    /** `append_body(b)` with the default UTF-8 encoding: a falsy value
        changes nothing; otherwise its bytes are added after the body, and
        `Content-Length` follows. Adding an object of another type to
        `bytes` raises `TypeError`. */
    method AppendBody(v: BodyArg) returns (err: Option<RequestError>)
      requires headers.Valid()
      modifies this, headers
      ensures err.Some? <==> BodyOf(v).Err?
      ensures (Falsy(v) || err.Some?) ==> body == old(body) && headers.entries == old(headers.entries)
      ensures !Falsy(v) && err.None? ==> body == old(body) + BodyOf(v).value
      ensures !Falsy(v) && err.None? ==> headers.entries == WithContentLength(old(headers.entries), body)
      ensures headers.Valid()
      ensures url == old(url) && headers == old(headers) && httpMethod == old(httpMethod)
      ensures httpVersion == old(httpVersion) && redirectChain == old(redirectChain)
    {
      if Falsy(v) {
        return None;
      }
      var b := BodyOf(v);
      if b.Err? {
        return Some(b.error);
      }
      StoreBody(body + b.value);
      err := None;
    }

    /** `redirect_to(code, location)`: a location starting with `/` replaces
        only the path, any other is parsed as a whole new URL; the chain gets
        one record holding a copy of the URL as it was, the URL object
        itself, and the code. A location that does not parse raises and
        changes nothing. */
    method RedirectTo(code: int, location: string) returns (err: Option<RequestError>)
      requires url.Valid()
      modifies this, url
      ensures url == old(url) && headers == old(headers) && httpMethod == old(httpMethod)
      ensures body == old(body) && httpVersion == old(httpVersion)
      ensures var f := Followed(old(url.Parts()), location);
        && (f.Err? ==> err == Some(FromUrlError(f.error)) && url.Parts() == old(url.Parts()) && redirectChain == old(redirectChain))
        && (f.Ok? ==> err.None? && url.Parts() == f.value)
      ensures err.None? ==>
        && |redirectChain| == |old(redirectChain)| + 1
        && redirectChain[..|old(redirectChain)|] == old(redirectChain)
        && var last := redirectChain[|old(redirectChain)|];
           && fresh(last.source) && last.source.Parts() == old(url.Parts())
           && last.destination == url && last.statusCode == code
      ensures url.Valid()
    {
      var source := url.Copy();
      var e := Follow(url, location);
      if e.Some? {
        return Some(FromUrlError(e.value));
      }
      redirectChain := redirectChain + [Redirect(source, url, code)];
      err := None;
    }

    /** The URL change of a redirect: a path replaces the path, anything
        else is parsed as a whole URL. */
    static method Follow(u: URL, location: string) returns (err: Option<UrlParse.UrlError>)
      requires u.Valid()
      modifies u
      ensures var f := Followed(old(u.Parts()), location);
        && (f.Err? ==> err == Some(f.error) && u.Parts() == old(u.Parts()))
        && (f.Ok? ==> err.None? && u.Parts() == f.value)
      ensures u.Valid()
    {
      if |location| > 0 && location[0] == '/' {
        u.SetPath(location);
        err := None;
      } else {
        err := u.SetString(location);
      }
    }

    /** `set_header(key, value)`; returns the builder. */
    method SetHeader(key: string, value: HValue) returns (self: RequestBuilder)
      modifies headers
      ensures self == this
      ensures headers.entries == Put(old(headers.entries), key, value)
      ensures old(headers.Valid()) ==> headers.Valid()
    {
      headers.Set(key, value);
      self := this;
    }

    /** `remove_header(key)`; returns the builder. */
    method RemoveHeader(key: string) returns (self: RequestBuilder)
      modifies headers
      ensures self == this
      ensures headers.entries == Delete(old(headers.entries), key)
      ensures old(headers.Valid()) ==> headers.Valid()
    {
      headers.RemoveHeader(key);
      self := this;
    }

    /** `to_bytes()`: the request line, the prepared headers and the body. A
        non-ASCII request line raises before the headers are touched. */
    method ToBytes() returns (r: Result<seq<byte>, RequestError>)
      requires headers.Valid()
      modifies headers
      ensures !IsAscii(RequestLine(httpMethod, url.path, httpVersion)) ==>
        r == Err(ValueError) && headers.entries == old(headers.entries)
      ensures IsAscii(RequestLine(httpMethod, url.path, httpVersion)) ==>
        headers.entries == Prepared(old(headers.entries), url.host)
      ensures r == RequestBytes(httpMethod, url.path, httpVersion, Prepared(old(headers.entries), url.host), body)
      ensures headers.Valid()
    {
      var line := AsciiEncode(RequestLine(httpMethod, url.path, httpVersion));
      if line.None? {
        return Err(ValueError);
      }
      ghost var prior := headers.entries;
      Prepare(headers, url.host);
      var text := headers.ToBytes();
      RequestBytesOk(httpMethod, url.path, httpVersion, Prepared(prior, url.host), body, line.value, text);
      var s := line.value + text;
      if body != [] {
        s := s + body;
      } else {
        assert s + body == s;
      }
      r := Ok(s);
    }

    /** The two header updates `to_bytes` makes before rendering. */
    static method Prepare(h: Headers, host: string)
      requires h.Valid()
      modifies h
      ensures h.entries == Prepared(old(h.entries), host) && h.Valid()
    {
      h.Set("Host", Str(host));
      h.SetIfNone("Connection", Str("close"));
    }
  }
}
