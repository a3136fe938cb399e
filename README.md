# genki HTTP client core, modelled in Dafny

genki is a small Python HTTP client that writes requests to a raw socket and
reads the answers back. This project models the part of it that is pure
text and byte handling:

- the three URL parsers: the current `parse_url` of `genki/http/url/parse.py`
  (scheme, userinfo, path, query, bracketed hosts, port, fragment), the
  legacy one of `genki/http/request/util.py` (no fragment, empty usernames
  accepted) and the oldest one of `genki/http/util.py` (a four-tuple);
- the `URL` class with its cached text, dirty flag and setters;
- the `Headers` ordered dictionary, with its byte parser `from_bytes` and its
  renderings `to_str` and `to_bytes`;
- the `RequestBuilder` class: its setters, `redirect_to`, `append_body`,
  `set_header`, `remove_header` and `to_bytes`;
- the parts of `Response` that compute: the status line, `content_type`,
  `is_html`, `charset` and `body`;
- the `Method` enumeration.

Modules:

| module | file | models |
|---|---|---|
| `Wrappers` | `wrappers.dfy` | `Option` and `Result` |
| `PyStr` | `pystr.dfy` | the Python `str` operations the core uses: `strip`, `lower`, `find`, `split`, `join`, `isdigit`, `int()`, `str(int)` and `str.split()` |
| `Codecs` | `codecs.dfy` | bytes, strict UTF-8 `encode`/`decode` and strict ASCII `encode` |
| `Methods` | `methods.dfy` | `genki/http/constants/method.py` |
| `UrlParse` | `url_parse.dfy` | `genki/http/url/parse.py` |
| `UrlLayout` | `url_layout.dfy` | what `parse_url` reads back from a URL laid out from its parts, and the shapes it rejects |
| `UrlExamples` | `url_examples.dfy` | the URLs of `tests/request_prep.py`, and a few more, run through the current parser |
| `LegacyParse` | `legacy_parse.dfy` | `genki/http/request/util.py`, and how the current parser refines it |
| `OldestParse` | `oldest_parse.dfy` | `genki/http/util.py`, and how it agrees with the other two |
| `OldestExamples` | `oldest_examples.dfy` | the URLs and results of `test.py`, for the oldest parser |
| `Url` | `url.dfy` | `genki/http/url/url.py` (class `URL`) |
| `HttpHeaders` | `headers.dfy` | `genki/http/headers.py` (class `Headers`) |
| `HeadersRoundTrip` | `headers_roundtrip.dfy` | `from_bytes(to_bytes(h)) == h` |
| `Request` | `request.dfy` | `genki/http/request/request_builder.py` (class `RequestBuilder`) |
| `HttpResponse` | `response.dfy` | `genki/http/response.py` |

The pure parts (the parsers, `Method`, `Response`, the `Headers` renderings)
are datatypes and functions. `URL`, `Headers` and `RequestBuilder` are classes
whose methods update their fields in place. `Headers.from_bytes` is a method
with a loop, proved against the function `ParseHeaders`. A Python exception
becomes the `Err` of a `Result`, or the `Some` of an `Option<Error>` for a
method that returns nothing. The error names match the Python ones:
`InvalidURL`, `ValueError`, `TypeError` and `AttributeError`.
`UnicodeDecodeError` and `UnicodeEncodeError` are subclasses of `ValueError`
in Python, and the model names them `ValueError`.

A `Headers` object is a sequence of distinct (name, value) pairs in insertion
order. Assigning to an existing name keeps its position, and a new name goes
at the end, as in an `OrderedDict`. A value is a string or an int.

Decisions where the source leaves something open:

- `Protocol` is defined in `genki/http/constants`, which is not part of this
  model. Its two members are taken from how the parsers and `url.py:148-149`
  use it: `Protocol('http')` and `Protocol('https')` succeed and every other
  value raises `ValueError`.
- `f'{self.method}'` and `f'{self.protocol}'` render the member's value
  (`GET`, `http`). This is how a `str`-mixin `Enum` formats before
  Python 3.11.
- `Headers` defines neither `set_if_none` nor `remove_header`, although
  `request_builder.py` calls both. The model takes `set_if_none(k, v)` to
  insert only when `k` is absent. It takes `remove_header(k)` to delete `k`,
  doing nothing when `k` is absent.

## Model

| member | source | states |
|---|---|---|
| `Methods.FromValue` | genki/http/constants/method.py:4-13 | `Method(s)` succeeds exactly when `s` is one of the nine values, and gives the member whose value is `s` |
| `Methods.NineMembers` | genki/http/constants/method.py:5-13 | there are nine pairwise distinct members, and the value set is exactly the set of the members' values |
| `Methods.ValueInjective` | genki/http/constants/method.py:5-13 | distinct members have distinct values, and lookup by value inverts `Value` |
| `Methods.Value` | genki/http/constants/method.py:5-13 | each member's value is a non-empty upper-case ASCII word |
| `UrlParse.ProtocolFromValue` | genki/http/url/parse.py:23 | `Protocol(x)` succeeds exactly for `http` and `https`, and gives the member with that value |
| `UrlParse.ProtocolValueText` | genki/http/url/parse.py:23 | a scheme name is non-empty and lower-case, has no `:`, `@` or whitespace, and reads back to its member |
| `UrlParse.DefaultPort` | genki/http/url/parse.py:29 | the port is 443 for `https` and 80 for `http` |
| `UrlParse.SplitScheme` | genki/http/url/parse.py:19-26 | without `://` the scheme is `http` and the rest is the whole text; otherwise the rest is a suffix of the text |
| `UrlParse.ParseUrlSteps` | genki/http/url/parse.py:17-26 | `parse_url` is the strip and the scheme split, followed by the steps after the scheme |
| `UrlParse.SplitUserinfo` | genki/http/url/parse.py:34-44 | with no `@` the userinfo is empty. Otherwise the text is `user@rest` or `user:pw@rest`, with no `:` or `@` in either part. The split fails with `ValueError` only when the userinfo holds two `:` |
| `UrlParse.ParseAfterScheme` | genki/http/url/parse.py:28-49 | an empty rest raises `InvalidURL`; every success is `Sound` and keeps the protocol |
| `UrlParse.SplitPath` | genki/http/url/parse.py:51-56 | the host is a prefix with no `/`; the path starts with `/` and is `/` when the text has no `/` |
| `UrlParse.SplitQuery` | genki/http/url/parse.py:58-61 | the path keeps its leading `/` and loses any `?`; when there is a `?`, path + `?` + query is the input |
| `UrlParse.SplitHostPort` | genki/http/url/parse.py:72-76 | with no `:` the default port is kept; a success leaves a non-empty name without `:` that prefixes the host |
| `UrlParse.SplitHostPortInvalid` | genki/http/url/parse.py:73-75 | with a `:`, `InvalidURL` is raised exactly when the first `:` is the first or the last character |
| `UrlParse.SplitHostPortOk` | genki/http/url/parse.py:73-76 | a successful split is name + `:` + a text that `int()` reads as the port |
| `UrlParse.SplitHostPortAt` | genki/http/url/parse.py:73-76 | a host whose first `:` is strictly inside splits at that `:` |
| `UrlParse.SplitPort` | genki/http/url/parse.py:66-76 | without both `[` and `]` this is the `:` split. With them, the host is kept whole with the default port, or it keeps the bracketed literal and the port follows `]:` |
| `UrlParse.SplitPortBracketAt` | genki/http/url/parse.py:67-71 | a host with `[` whose first `]` is followed by `:` splits after the `]` |
| `UrlParse.SplitFragment` | genki/http/url/parse.py:78-86 | a non-empty query is cut at its first `#`, and otherwise the path is; the rest is unchanged and the pieces rejoin to the input |
| `UrlParse.ParseLocation` | genki/http/url/parse.py:51-97 | every success is `Sound` and keeps the protocol, the username and the password |
| `UrlParse.ParseLocationSteps` | genki/http/url/parse.py:51-97 | the steps after the userinfo compose: path, query, host check, port, then fragment |
| `UrlParse.ParseUrl` | genki/http/url/parse.py:13-97 | every accepted URL gives `Sound` parts: a non-empty host with no `/` (and no `:` unless bracketed), a path starting with `/` and without `?`, a query without `#`, and userinfo without `:` or `@` |
| `UrlLayout.ParseAssembled` | genki/http/url/parse.py:13-97 | a URL laid out as `[scheme://][user[:pw]@]host[:port][path][?query][#fragment]` from unambiguous parts parses back to exactly those parts, with `/`, the protocol's default port and `http` filling what is absent |
| `UrlLayout.ParseBlank` | genki/http/url/parse.py:31-32 | a URL that is blank after stripping raises `InvalidURL` |
| `UrlLayout.ParseSchemeOnly` | genki/http/url/parse.py:31-32 | a scheme and `://` with nothing after them raises `InvalidURL` |
| `UrlLayout.ParsePathOnly` | genki/http/url/parse.py:63-64 | a text that starts with `/` right after the scheme has an empty host and raises `InvalidURL` |
| `UrlLayout.ParseEmptyPortSide` | genki/http/url/parse.py:74-75 | `host:` and `:host` raise `InvalidURL`, with or without a scheme |
| `UrlLayout.ParseUnknownScheme` | genki/http/url/parse.py:23 | a scheme other than `http`/`https` raises `ValueError` |
| `UrlExamples.BareHostNoScheme` | tests/request_prep.py:15-16 | `example.com` parses to http, `example.com`, `/`, 80 |
| `UrlExamples.BareHostHttp` | tests/request_prep.py:18-19 | `http://example.com` parses to http, `example.com`, `/`, 80 |
| `UrlExamples.BareHostHttps` | tests/request_prep.py:21-22 | `https://example.com` parses to https, `example.com`, `/`, 443 |
| `UrlExamples.RootPathNoScheme` | tests/request_prep.py:25-26 | `example.com/` parses to http, `example.com`, `/`, 80 |
| `UrlExamples.RootPathHttp` | tests/request_prep.py:28-29 | `http://example.com/` parses to http, `example.com`, `/`, 80 |
| `UrlExamples.RootPathHttps` | tests/request_prep.py:31-32 | `https://example.com/` parses to https, `example.com`, `/`, 443 |
| `UrlExamples.LongerPathNoScheme` | tests/request_prep.py:35-36 | `example.com/some/path` parses to http, `example.com`, `/some/path`, 80 |
| `UrlExamples.LongerPathHttp` | tests/request_prep.py:38-39 | `http://example.com/some/path` parses to http, `example.com`, `/some/path`, 80 |
| `UrlExamples.LongerPathHttps` | tests/request_prep.py:41-42 | `https://example.com/some/path` parses to https, `example.com`, `/some/path`, 443 |
| `UrlExamples.ExplicitPortNoScheme` | tests/request_prep.py:45-46 | `example.com:8080/some/path` parses to http, `example.com`, `/some/path`, 8080 |
| `UrlExamples.ExplicitPortHttp` | tests/request_prep.py:48-49 | `http://example.com:8080/some/path` parses to http, `example.com`, `/some/path`, 8080 |
| `UrlExamples.ExplicitPortHttps` | tests/request_prep.py:51-52 | `https://example.com:8080/some/path` parses to https, `example.com`, `/some/path`, 8080 |
| `UrlExamples.InvalidSchemeOnly` | tests/request_prep.py:68 | `https://` raises `InvalidURL` |
| `UrlExamples.InvalidSlashOnly` | tests/request_prep.py:69 | `/` raises `InvalidURL` |
| `UrlExamples.InvalidEmpty` | tests/request_prep.py:70 | the empty URL raises `InvalidURL` |
| `UrlExamples.InvalidEmptyPort` | tests/request_prep.py:71 | `example.com:` raises `InvalidURL` |
| `UrlExamples.InvalidEmptyName` | tests/request_prep.py:72 | `:example.com` raises `InvalidURL` |
| `UrlExamples.InvalidSchemeEmptyPort` | tests/request_prep.py:73 | `http://example.com:` raises `InvalidURL` |
| `UrlExamples.InvalidSchemeEmptyName` | tests/request_prep.py:74 | `http://:example.com` raises `InvalidURL` |
| `UrlExamples.UnknownScheme` | genki/http/url/parse.py:23 | `htps://example.com/` raises `ValueError` |
| `UrlExamples.AllParts` | genki/http/url/parse.py:34-82 | `https://user:pw@example.com:8443/a?b=c#top` gives every part, with the fragment cut from the query |
| `UrlExamples.FragmentFromPath` | genki/http/url/parse.py:83-86 | `http://user@example.com/a#top` takes the fragment from the path when there is no query |
| `UrlExamples.BracketedHost` | genki/http/url/parse.py:67-71 | `http://[::1]:8080/` keeps the brackets in the host and reads the port after `]:` |
| `UrlExamples.BracketedHostDefaultPort` | genki/http/url/parse.py:67-68 | `https://[::1]` keeps the host whole with port 443 |
| `LegacyParse.LegacyDefaultPort` | genki/http/request/util.py:29 | the port is 80 exactly for http, and it equals the current parser's default |
| `LegacyParse.ParseLegacy` | genki/http/request/util.py:13-76 | every accepted URL has a non-empty host with no `/` or `:`, a path starting with `/` without `?`, and userinfo without `:` or `@` |
| `LegacyParse.LegacyAfterScheme` | genki/http/request/util.py:31-44 | an empty rest raises `InvalidURL`; a success keeps the protocol |
| `LegacyParse.LegacyLocation` | genki/http/request/util.py:46-76 | a success keeps the protocol, username and password |
| `LegacyParse.AddFragment` | genki/http/url/parse.py:78-86 | a legacy result extended by the fragment step: same host, port and userinfo, with path, query and fragment as `SplitFragment` cuts them |
| `LegacyParse.LegacyAgreement` | genki/http/url/parse.py:13-97 | without `[`, the current parser is the legacy one plus two changes: an empty username (parse.py:45-46) raises `InvalidURL`, and the fragment step is added |
| `LegacyParse.LegacyAgreesPlain` | genki/http/request/util.py:13-76 | on URLs without `[`, `@` or `#`, both parsers accept the same inputs, fail with the same error, and give the same parts with an empty fragment |
| `LegacyParse.PlainLocation` | genki/http/request/util.py:46-56 | a rest without `@` or `#` gives a legacy path and query without `#` |
| `LegacyParse.LocationAgreement` | genki/http/url/parse.py:51-97 | the current steps after the userinfo are the legacy ones plus the fragment step, for a rest without `[` |
| `LegacyParse.EmptyUsernameAccepted` | genki/http/url/parse.py:45-46 | `@host` is accepted by the legacy parser with empty userinfo, and rejected with `InvalidURL` by the current one |
| `LegacyParse.FragmentKept` | genki/http/url/parse.py:83-86 | a `#` stays in the legacy path, and the current parser cuts it off into the fragment |
| `OldestParse.ParseOldest` | genki/http/util.py:7-43 | an accepted URL has a non-empty host with no `/` or `:`, and a path starting with `/` |
| `OldestParse.OldestAddress` | genki/http/util.py:20-43 | an empty address raises `InvalidURL`. Without `/` the whole address is the host part and the path is `/`. With `/` at position 0 it raises `InvalidURL`; otherwise the text before the first `/` is the host part and the path is the text from that `/` on |
| `OldestParse.OldestHostPort` | genki/http/util.py:37-43 | a success keeps the protocol and path, with a non-empty name without `:` that prefixes the host. Without `:` the host is kept whole with the default port; otherwise it succeeds or fails exactly as the host-and-port split does, with its error and port |
| `OldestParse.OldestAgreement` | genki/http/util.py:7-43 | without `@`, the oldest and legacy parsers accept the same URLs and fail with the same error. They give the same protocol, host and port; the oldest path is the legacy path and query rejoined |
| `OldestParse.AddressAgreement` | genki/http/util.py:22-43 | the same agreement for the text after the scheme |
| `OldestParse.OldestAgreesCurrent` | genki/http/util.py:7-43 | without `@`, `[`, `?` or `#`, the oldest parser's result is the current parser's protocol, host, path and port, error for error |
| `OldestParse.OldestPathFrom` | genki/http/util.py:33-43 | an address without `?` gives a path without `?` |
| `OldestExamples.OldestBareHostNoScheme` | test.py:13-14 | `example.com` gives (http, `example.com`, `/`, 80) |
| `OldestExamples.OldestBareHostHttp` | test.py:16-17 | `http://example.com` gives (http, `example.com`, `/`, 80) |
| `OldestExamples.OldestBareHostHttps` | test.py:19-20 | `https://example.com` gives (https, `example.com`, `/`, 443) |
| `OldestExamples.OldestRootPathNoScheme` | test.py:23-24 | `example.com/` gives (http, `example.com`, `/`, 80) |
| `OldestExamples.OldestRootPathHttp` | test.py:26-27 | `http://example.com/` gives (http, `example.com`, `/`, 80) |
| `OldestExamples.OldestRootPathHttps` | test.py:29-30 | `https://example.com/` gives (https, `example.com`, `/`, 443) |
| `OldestExamples.OldestLongerPathNoScheme` | test.py:33-34 | `example.com/some/path` gives (http, `example.com`, `/some/path`, 80) |
| `OldestExamples.OldestLongerPathHttp` | test.py:36-37 | `http://example.com/some/path` gives (http, `example.com`, `/some/path`, 80) |
| `OldestExamples.OldestLongerPathHttps` | test.py:39-40 | `https://example.com/some/path` gives (https, `example.com`, `/some/path`, 443) |
| `OldestExamples.OldestExplicitPortNoScheme` | test.py:43-44 | `example.com:8080/some/path` gives (http, `example.com`, `/some/path`, 8080) |
| `OldestExamples.OldestExplicitPortHttp` | test.py:46-47 | `http://example.com:8080/some/path` gives (http, `example.com`, `/some/path`, 8080) |
| `OldestExamples.OldestExplicitPortHttps` | test.py:49-50 | `https://example.com:8080/some/path` gives (https, `example.com`, `/some/path`, 8080) |
| `OldestExamples.OldestInvalidSchemeOnly` | test.py:59 | `https://` raises `InvalidURL` |
| `OldestExamples.OldestInvalidSlashOnly` | test.py:60 | `/` raises `InvalidURL` |
| `OldestExamples.OldestInvalidEmpty` | test.py:61 | the empty URL raises `InvalidURL` |
| `OldestExamples.OldestInvalidEmptyPort` | test.py:62 | `example.com:` raises `InvalidURL` |
| `OldestExamples.OldestInvalidEmptyName` | test.py:63 | `:example.com` raises `InvalidURL` |
| `OldestExamples.OldestInvalidSchemeEmptyPort` | test.py:64 | `http://example.com:` raises `InvalidURL` |
| `OldestExamples.OldestInvalidSchemeEmptyName` | test.py:65 | `http://:example.com` raises `InvalidURL` |
| `OldestExamples.OldestUnknownScheme` | test.py:72-73 | `htps://example.com/` raises `ValueError` |
| `OldestExamples.LegacyEmptyUsername` | genki/http/request/util.py:36-44 | the legacy parser accepts `@example.com` with an empty username |
| `OldestExamples.CurrentEmptyUsername` | genki/http/url/parse.py:45-46 | the current parser rejects `@example.com` with `InvalidURL` |
| `OldestExamples.NoSchemeGiven` | genki/http/util.py:10-18 | `@example.com` has no `://`, so the oldest parser takes it as an http address |
| `Url.WrittenPort` | genki/http/url/url.py:147-153 | the port is left out of the text exactly when it is 443 with https or 80 with http |
| `Url.ComposeText` | genki/http/url/url.py:138-161 | the text `update` builds is the parser's layout of the parts: scheme, userinfo, host, the port unless it is the default, the path, and then `?query` and `#fragment` when they are non-empty |
| `Url.ComposeReadsBack` | genki/http/url/url.py:135-164 | parsing the rebuilt text of writable parts gives those parts back |
| `Url.ComposeInjective` | genki/http/url/url.py:135-164 | two sets of writable parts with the same text are equal |
| `Url.Compose` | genki/http/url/url.py:155-156 | the rebuilt text starts with the scheme and `://`, and is at least as long as scheme, `://`, host and path together |
| `Url.ReparseRebuilt` | genki/http/url/url.py:38-59 | when a parsed URL's parts are writable, its rebuilt text parses back to the same result |
| `Url.RootedPath` | genki/http/url/url.py:103-108 | the stored path starts with `/`: the value itself when it does, `/` + value otherwise |
| `Url.URL.Parse` | genki/http/url/url.py:23-24 | `URL(s)` fails exactly when `parse_url(s)` does, with its error; otherwise it holds the parsed parts |
| `Url.URL.FromParts` | genki/http/url/url.py:23-24 | a new `URL` holds the given parts with its text marked dirty |
| `Url.URL.SetString` | genki/http/url/url.py:44-59 | a text that does not parse raises and changes nothing; one that parses replaces all eight parts and marks the text dirty |
| `Url.URL.SetParts` | genki/http/url/url.py:50-59 | the eight fields become the parse result's, and the text is marked dirty |
| `Url.URL.SetBytes` | genki/http/url/url.py:45-47 | bytes are decoded as UTF-8 first; invalid bytes raise `ValueError` and change nothing |
| `Url.URL.Update` | genki/http/url/url.py:135-164 | the cached text becomes the composed text of the parts, the dirty flag is cleared, and the parts are unchanged |
| `Url.URL.UserinfoPart` | genki/http/url/url.py:139-145 | `user[:password]@`, or nothing without a username |
| `Url.URL.PortPart` | genki/http/url/url.py:147-153 | `:port`, or nothing for the protocol's default port |
| `Url.URL.GetString` | genki/http/url/url.py:38-42 | the `string` property is the composed text of the current parts, cached afterwards |
| `Url.URL.SetProtocol` | genki/http/url/url.py:93-96 | `Protocol(value.lower())` sets the protocol or raises `ValueError` and changes nothing |
| `Url.URL.SetHost` | genki/http/url/url.py:98-101 | only the host changes, and the text is marked dirty |
| `Url.URL.SetPath` | genki/http/url/url.py:103-108 | only the path changes, to the rooted value |
| `Url.URL.SetPort` | genki/http/url/url.py:110-113 | an int sets only the port |
| `Url.URL.SetPortText` | genki/http/url/url.py:110-113 | a string goes through `int()`: a non-number raises `ValueError` and changes nothing |
| `Url.URL.SetQuery` | genki/http/url/url.py:115-118 | only the query changes |
| `Url.URL.SetUsername` | genki/http/url/url.py:120-123 | only the username changes |
| `Url.URL.SetPassword` | genki/http/url/url.py:125-128 | only the password changes |
| `Url.URL.SetFragment` | genki/http/url/url.py:130-133 | only the fragment changes |
| `Url.URL.EqualsString` | genki/http/url/url.py:32-34 | a URL equals a string exactly when its composed text is that string |
| `Url.URL.EqualsUrl` | genki/http/url/url.py:35-36 | two URLs are equal exactly when their composed texts are |
| `Url.URL.Copy` | genki/http/url/url.py:166-167 | `copy` is a new object with the same parts, cached text and dirty flag |
| `HttpHeaders.Lookup` | genki/http/headers.py:21 | a name has a value exactly when it is among the keys, and the pair is in the headers |
| `HttpHeaders.Put` | genki/http/headers.py:24-30 | assignment keeps names distinct and keeps an existing name's position, appending a new name; the name then maps to the value and every other name is unchanged |
| `HttpHeaders.PutAll` | genki/http/headers.py:52-54 | assigning the items one by one keeps names distinct |
| `HttpHeaders.PutAllDistinct` | genki/http/headers.py:52-54 | `Headers(d)` for a dict with distinct names holds exactly its items, in order |
| `HttpHeaders.Delete` | genki/http/request/request_builder.py:106 | removal keeps names distinct, leaves the name absent and the others unchanged, and changes nothing when the name is absent. When present, exactly its entry is cut out and the remaining entries keep their order |
| `HttpHeaders.PutIfAbsent` | genki/http/request/request_builder.py:135 | `set_if_none` appends the pair when the name is absent and changes nothing otherwise |
| `HttpHeaders.Render` | genki/http/headers.py:33-41 | the text ends with a blank line, and is only the blank line for no headers |
| `HttpHeaders.TextReadsBack` | genki/http/headers.py:25-30 | a string value is its own text, and `int()` of an integer value's text gives the integer back |
| `HttpHeaders.FieldLineLayout` | genki/http/headers.py:36 | a field line is the name, `: ` and the value's text, and for a name without `:` its first colon ends the name |
| `HttpHeaders.FieldLines` | genki/http/headers.py:34-39 | one field line per entry, in order |
| `HttpHeaders.RenderBytes` | genki/http/headers.py:43-44 | `to_bytes` is the UTF-8 encoding of `to_str`, and ends in CR LF CR LF |
| `HttpHeaders.HeaderBlock` | genki/http/headers.py:8-9 | the bytes before the first blank line, or all of them when there is none |
| `HttpHeaders.ReadLine` | genki/http/headers.py:13-19 | a line without `:` is skipped. Otherwise the text before the first `:` and the text after it are decoded and stripped, and a line that does not decode is reported |
| `HttpHeaders.ReadLineIs` | genki/http/headers.py:14-19 | which name and value a line with decodable sides gives |
| `HttpHeaders.FieldValue` | genki/http/headers.py:21-30 | a repeated name gets `old,new` as a string; a new all-digit value an int that `int()` reads; any other value stays a string |
| `HttpHeaders.AddLine` | genki/http/headers.py:13-30 | how one line updates the headers: skipped, merged, or failing on undecodable bytes |
| `HttpHeaders.ApplyLines` | genki/http/headers.py:12-31 | the lines' fields, applied in order, give headers with distinct names |
| `HttpHeaders.ApplyLinesStuck` | genki/http/headers.py:19 | once a line fails to decode, the whole call fails |
| `HttpHeaders.ParseHeaders` | genki/http/headers.py:7-31 | a successful `from_bytes` gives headers with distinct names |
| `HttpHeaders.Headers.constructor` | genki/http/headers.py:52-54 | the new headers hold the items assigned in order, exactly the items when their names are distinct |
| `HttpHeaders.Headers.Get` | genki/http/headers.py:21 | `get` finds a value exactly for a present name, and it is that name's pair |
| `HttpHeaders.Headers.Set` | genki/http/request/request_builder.py:104 | `headers[k] = v` is `Put` and keeps names distinct |
| `HttpHeaders.Headers.SetIfNone` | genki/http/request/request_builder.py:135 | `set_if_none` is `PutIfAbsent` and keeps names distinct |
| `HttpHeaders.Headers.RemoveHeader` | genki/http/request/request_builder.py:106 | `remove_header` is `Delete` and keeps names distinct |
| `HttpHeaders.Headers.ToStr` | genki/http/headers.py:33-41 | `to_str` is `Render` of the current headers |
| `HttpHeaders.Headers.ToBytes` | genki/http/headers.py:43-44 | `to_bytes` is the UTF-8 encoding of `to_str` |
| `HttpHeaders.Headers.AddField` | genki/http/headers.py:21-30 | one parsed field assigns the merged or converted value |
| `HttpHeaders.Headers.FromBytes` | genki/http/headers.py:7-31 | the loop over the lines gives new headers holding exactly `ParseHeaders(b)`, and fails exactly when it does |
| `HeadersRoundTrip.RoundTrip` | genki/http/headers.py:7-44 | `from_bytes(h.to_bytes())` gives `h` back when names have no `:`, CR or surrounding whitespace, and values are non-negative ints or strings without CR or surrounding whitespace that are not all digits |
| `Request.MethodOf` | genki/http/request/request_builder.py:80-82 | the method setter keeps a member and looks a string up by value; anything else raises `ValueError` |
| `Request.BodyOf` | genki/http/request/request_builder.py:88-101 | any falsy value gives no bytes. `bytes` and `bytearray` are kept, and a string is stored as its UTF-8 encoding, which decodes back to it. Any other truthy value raises `TypeError` |
| `Request.FalsyStoresNothing` | genki/http/request/request_builder.py:92-99 | a body value is falsy exactly when the setter stores no bytes for it |
| `Request.WithContentLength` | genki/http/request/request_builder.py:103-106 | after the body changes, `Content-Length` is the body's length if the body is non-empty and absent otherwise; every other header is unchanged |
| `Request.Prepared` | genki/http/request/request_builder.py:134-135 | `Host` is set to the URL's host; `Connection` becomes `close` unless it is already there; every other header is unchanged |
| `Request.PreparedIdempotent` | genki/http/request/request_builder.py:134-135 | preparing the headers twice is the same as preparing them once |
| `Request.RequestBytes` | genki/http/request/request_builder.py:131-139 | a request line that is not ASCII raises `ValueError`; otherwise the bytes are the line, then the rendered headers, then the body |
| `Request.RequestBytesStable` | genki/http/request/request_builder.py:131-139 | calling `to_bytes` again gives the same bytes |
| `Request.HeadersError` | genki/http/request/request_builder.py:62-74 | the headers setter raises `TypeError` for an unsupported type, and otherwise fails only on bytes `from_bytes` rejects |
| `Request.UrlArgError` | genki/http/request/request_builder.py:49-56 | the URL setter raises `TypeError` for an unsupported type, and the parser's error for a string it rejects |
| `Request.FirstError` | genki/http/request/request_builder.py:37-41 | `__init__` succeeds exactly when all four setters accept their values; a headers error comes first |
| `Request.RequestBuilder.New` | genki/http/request/request_builder.py:27-43 | `RequestBuilder(...)` raises the first setter's error. Otherwise it holds the URL the setter installs, the headers object given or a new one, the method, the body and `Content-Length`, the version and an empty chain. When it raises, a `Headers` object passed in is left as it was if the URL setter failed, and otherwise has had the body setter's `Content-Length` update exactly when that setter succeeded |
| `Request.RequestBuilder.Init` | genki/http/request/request_builder.py:27-36 | the fields before the setters run: the method is `GET`, the body empty, the version `1.1` and the chain empty |
| `Request.RequestBuilder.Build` | genki/http/request/request_builder.py:40-43 | once URL and headers are set, the body then the method setter run, body errors first. The headers have had the `Content-Length` update exactly when the body setter succeeded, whether or not the method setter then fails |
| `Request.RequestBuilder.Finish` | genki/http/request/request_builder.py:38-43 | after the headers setter: the URL, body and method setters run in that order and the first failure is raised. The headers are untouched when the URL setter fails, and otherwise have had the body setter's `Content-Length` update exactly when that setter succeeded |
| `Request.RequestBuilder.Configure` | genki/http/request/request_builder.py:40-42 | the body, method and version setters in order, and the first failure. A failing body setter leaves the body and headers as they were, a failing method setter leaves the method, and after any failure the version is unchanged |
| `Request.RequestBuilder.HeadersFrom` | genki/http/request/request_builder.py:62-74 | the object the headers setter stores: the `Headers` given, or new headers from the dict or the bytes |
| `Request.RequestBuilder.UrlFrom` | genki/http/request/request_builder.py:49-56 | the object the URL setter stores: the `URL` given or a new one parsed from the string |
| `Request.RequestBuilder.SetUrl` | genki/http/request/request_builder.py:49-56 | the `url` setter installs that object or raises, and no other field changes |
| `Request.RequestBuilder.Install` | genki/http/request/request_builder.py:51-54 | the assignment to `_url` changes the URL field only |
| `Request.RequestBuilder.SetHeaders` | genki/http/request/request_builder.py:62-74 | the `headers` setter stores that object or raises, and no other field changes |
| `Request.RequestBuilder.SetMethod` | genki/http/request/request_builder.py:80-82 | the `method` setter sets the member or raises `ValueError`, and no other field changes |
| `Request.RequestBuilder.SetBody` | genki/http/request/request_builder.py:88-106 | the `body` setter stores the bytes and updates `Content-Length`, or raises `TypeError` and changes nothing |
| `Request.RequestBuilder.StoreBody` | genki/http/request/request_builder.py:103-106 | storing bytes updates `Content-Length` to match |
| `Request.RequestBuilder.AppendBody` | genki/http/request/request_builder.py:117-121 | a falsy value changes nothing. Otherwise its bytes are appended and `Content-Length` follows the new body; an unsupported type raises `TypeError` |
| `Request.RequestBuilder.RedirectTo` | genki/http/request/request_builder.py:108-115 | a location starting with `/` replaces only the path, and any other location is parsed as a whole URL. A location that does not parse raises and changes nothing. Otherwise the chain gains one record: a fresh copy of the old URL, the URL object itself, and the code |
| `Request.RequestBuilder.Follow` | genki/http/request/request_builder.py:110-113 | the URL change of a redirect: the path setter or the string setter |
| `Request.Followed` | genki/http/request/request_builder.py:110-113 | a location starting with `/` replaces the path and keeps every other part. Any other location fails exactly when the parser rejects it, and a success is a parse result |
| `Request.RequestBuilder.SetHeader` | genki/http/request/request_builder.py:123-125 | `set_header` assigns the header and returns the builder |
| `Request.RequestBuilder.RemoveHeader` | genki/http/request/request_builder.py:127-129 | `remove_header` deletes the header and returns the builder |
| `Request.RequestBuilder.ToBytes` | genki/http/request/request_builder.py:131-139 | a request line that is not ASCII raises `ValueError` before any header changes. Otherwise the headers are prepared (`Host`, `Connection`) and the result is `RequestBytes` of the prepared headers |
| `Request.RequestLine` | genki/http/request/request_builder.py:132-133 | the request line is the method's value and a space, then the path and version, ending in CR LF; it is ASCII exactly when the path and the version are |
| `Request.RequestBuilder.Prepare` | genki/http/request/request_builder.py:134-135 | the two header updates of `to_bytes` give `Prepared` |
| `HttpResponse.StatusLine` | genki/http/response.py:22-23 | the status line needs at least two words, the second read by `int()`, and otherwise raises `ValueError`; the version is the first word and the code is the value `int()` gives for the second |
| `HttpResponse.StatusLineReadsBack` | genki/http/response.py:22-23 | `version code reason` gives the version and the code's value |
| `HttpResponse.StatusCodeReadsBack` | genki/http/response.py:22-23 | a status line written with `str(code)` reads the code back |
| `HttpResponse.StatusLineExample` | genki/http/response.py:22-23 | `HTTP/1.1 200 OK` gives `HTTP/1.1` and 200 |
| `HttpResponse.StatusLineOneWord` | genki/http/response.py:22 | a line of one word raises `ValueError` |
| `HttpResponse.FewWords` | genki/http/response.py:22 | any line with fewer than two words raises `ValueError` |
| `HttpResponse.NewResponse` | genki/http/response.py:17-26 | `Response(...)` succeeds exactly when the status line reads and the code is a known status; it keeps the source, headers and body |
| `HttpResponse.ContentType` | genki/http/response.py:39-40 | the `Content-Type` value, or `''` when it is absent |
| `HttpResponse.IsHtml` | genki/http/response.py:43-44 | whether the stripped content type starts with `text/html`; an int value raises `AttributeError` |
| `HttpResponse.NoContentTypeNotHtml` | genki/http/response.py:43-44 | no `Content-Type` means not HTML |
| `HttpResponse.IsHtmlIgnoresSpace` | genki/http/response.py:44 | leading whitespace in the content type does not change `is_html` |
| `HttpResponse.LastPiece` | genki/http/response.py:53-54 | the last piece of a split has no separator, ends the text, and is the whole text or follows a separator |
| `HttpResponse.LastSplit` | genki/http/response.py:53-54 | the last element of `split(x)` is that piece |
| `HttpResponse.Charset` | genki/http/response.py:46-54 | no `;` gives none, and an int content type raises `TypeError`. Otherwise the charset is lower-case, with no `;` or `=` |
| `HttpResponse.CharsetOf` | genki/http/response.py:53-54 | `type;param=value` gives `value`, lower-cased |
| `HttpResponse.CharsetExample` | genki/http/response.py:46-54 | `text/html; charset=UTF-8` gives `utf-8` |
| `HttpResponse.EmptyCharset` | genki/http/response.py:51-54 | `text/html;` gives the empty charset |
| `HttpResponse.BodyOf` | genki/http/response.py:31-36 | the bytes are kept raw exactly when there is no charset or it is empty. Otherwise they are decoded with the charset, a decoding failure is an error, and a charset error propagates |
| `HttpResponse.PlainBodyRaw` | genki/http/response.py:31-36 | a content type without `;` leaves the body raw |
| `HttpResponse.NoContentTypeRaw` | genki/http/response.py:31-36 | no `Content-Type` leaves the body raw |
| `HttpResponse.Utf8BodyDecoded` | genki/http/response.py:31-36 | `text/html; charset=UTF-8` decodes the body as `utf-8` |
| `PyStr.LStrip` | genki/http/url/parse.py:17 | the leading whitespace is removed, and only that |
| `PyStr.RStrip` | genki/http/url/parse.py:17 | the trailing whitespace is removed, and only that |
| `PyStr.Strip` | genki/http/url/parse.py:17 | the result is no longer than the text, and neither starts nor ends with whitespace |
| `PyStr.StripResult` | genki/http/url/parse.py:17 | `strip` leaves no surrounding whitespace, never grows, and is the identity on trimmed text |
| `PyStr.Lower` | genki/http/url/parse.py:23 | `lower` maps each ASCII upper-case letter to its lower case and keeps every other character |
| `PyStr.IndexOf` | genki/http/url/parse.py:37 | `find` of a character gives its first position, or -1 when absent |
| `PyStr.Find` | genki/http/headers.py:9 | `find` of a subsequence gives its first occurrence, or -1 when there is none |
| `PyStr.Split` | genki/http/headers.py:12 | `split` of any text gives at least one piece |
| `PyStr.SplitJoin` | genki/http/headers.py:12 | splitting a join on its separator gives the parts back when no part holds the separator's first element |
| `PyStr.NatToString` | genki/http/headers.py:25 | `str(n)` is digits without a leading zero, whose value is `n` |
| `PyStr.IntToString` | genki/http/headers.py:25 | `str(i)` is a minus sign for a negative `i` followed by the digits of its magnitude |
| `PyStr.ParseIntToString` | genki/http/url/url.py:112 | `int(str(i)) == i` |
| `PyStr.ParseIntDigits` | genki/http/headers.py:26-27 | `int()` of an all-digit text is its decimal value |
| `PyStr.ParseIntShape` | genki/http/headers.py:26-27 | `int()` rejects blank text. An accepted text, once stripped, starts with a digit or a sign and ends with a digit, and a negative value comes from a leading `-` |
| `PyStr.Words` | genki/http/response.py:22 | `str.split()` gives non-empty words without whitespace |
| `Codecs.EncodeChar` | genki/http/headers.py:44 | a character's UTF-8 encoding is 1 to 4 bytes, and a single byte exactly for ASCII |
| `Codecs.EncodeAppend` | genki/http/headers.py:44 | encoding distributes over concatenation |
| `Codecs.EncodeLength` | genki/http/headers.py:44 | UTF-8 encoding takes between one and four bytes per character |
| `Codecs.AsciiConcat` | genki/http/request/request_builder.py:132-133 | a concatenation is ASCII exactly when both parts are |
| `Codecs.EncodeAscii` | genki/http/request/request_builder.py:131-132 | an ASCII text is encoded byte for byte |
| `Codecs.Decode` | genki/http/headers.py:19 | a successful decode is the bytes of the text it returns |
| `Codecs.DecodeEncode` | genki/http/headers.py:19 | decoding an encoding gives the text back |
| `Codecs.AsciiEncode` | genki/http/request/request_builder.py:131-132 | `encode('ascii')` succeeds exactly on ASCII text, with its UTF-8 bytes |

## Left out

- The socket layer is not part of this model: `http_session.py`, `http_requests.py`, `request.py`, `client.py`, `async_request.py`. It does I/O and threading.
- `Protocol`, `Code` and `StatusCode` (`genki/http/constants`) are not part of this model. `Protocol` is modelled from its uses. `Code(...)` is a predicate parameter `isCode` of `HttpResponse.NewResponse`.
- `HttpResponse.BodyOf`: `bytes.decode(charset)` for an arbitrary codec is a function parameter. An unknown codec (`LookupError`) and bytes the codec rejects are both `DecodeError`.
- `PyStr.Lower`: only ASCII letters are lowered. That is as much as deciding the protocol needs; Unicode case mapping is not modelled.
- `PyStr.ParseIntDigits`: `int()` and `str.isdigit` accept ASCII digits only. Other Unicode decimal digits are not modelled.
- `HttpHeaders.FieldValue`: `str.isdigit()` is also true for characters such as `²` and `①` that `int()` rejects. For a header line `X: ²`, `from_bytes` (`headers.py:26-27`) then raises `ValueError`, but `ParseHeaders` returns the string value `²`. This error path is not modelled, because the model's `isdigit` covers ASCII digits only.
- `Request.BodyOf` and `HttpHeaders.RenderBytes`: a Python `str` may hold a lone surrogate, and a Dafny `string` cannot. So `.encode('utf-8')` raising `UnicodeEncodeError`, a `ValueError`, is not modelled, neither in the body setter (`request_builder.py:98-99`) nor in `Headers.to_bytes` (`headers.py:44`). Every modelled text encodes.
- `Request.BodyOf`: the `str_encoding` and `encoding` parameters of the body setter and `append_body` are fixed at `utf-8`. The setter can only be called with the default anyway.
- `RequestBuilder.to_str` (`request_builder.py:141-142`) is left out. It is `to_bytes` decoded with `errors='replace'`, and replacement decoding is not modelled.
- The `protocol` and `port` slots and the unused `params` argument of `RequestBuilder.__init__` are left out; nothing reads them.
- The shared mutable default `headers=Headers()` of `RequestBuilder.__init__` is left out. A call that omits `headers` gets fresh empty headers, so a later builder does not see an earlier builder's changes.
- `Url.URL.EqualsUrl`: comparing a `URL` with anything other than a string or a `URL` returns `None` in Python; that case is not modelled.
- `Headers.__bool__` and `Headers.__repr__` are left out: both read a `headers` attribute the class never sets, so both raise `AttributeError`. `Response.__repr__`, `URL.__str__` and `URL.__repr__` are left out too; they only format.
- `HttpResponse.NewResponse`: the response keeps its headers as the entry sequence rather than as a `Headers` object, which nothing mutates after construction.
- `tests/request_prep.py:55-62` and `:81-103` are left out. They read `protocol`, `host`, `path` and `port` attributes that `RequestBuilder` no longer has, and they expect `to_bytes` output without the `Connection: close` header that `request_builder.py:135` adds. Their URL cases (`:13-53`, `:67-75`) are modelled in `UrlExamples`, through the parser that `RequestBuilder(url)` runs.
- Aliasing is modelled only where the source creates it: a `URL` or `Headers` object given to `RequestBuilder` is stored and changed in place, and the redirect record's destination is the builder's own `URL`.
