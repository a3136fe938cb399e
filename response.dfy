/**
 * `Response` of `genki/http/response.py`: the status line split into the
 * HTTP version and the status code, and the properties read off the
 * headers — the content type, whether it is HTML, its charset — and the
 * body, decoded with that charset when there is one.
 *
 * The response is a value: its fields are assigned once. The status-code
 * enum `Code(...)` and the codec behind `bytes.decode(charset)` are not
 * part of this model; they are passed in as functions.
 */
module HttpResponse {
  import opened Wrappers
  import opened PyStr
  import opened HttpHeaders
  import Codecs

  /** The exceptions the properties raise. `DecodeError` stands for
      whatever the codec raises: an unknown charset or undecodable bytes. */
  datatype ResponseError = ValueError | TypeError | AttributeError | DecodeError

  datatype Response = Response(
    source: string, httpVersion: string, statusCode: int,
    headers: Entries, rawBody: seq<Codecs.byte>)

  /** What the `body` property returns: the raw bytes or the decoded text. */
  datatype Body = Raw(bytes: seq<Codecs.byte>) | Decoded(text: string)

  // ---------------------------------------------------------------------
  // The status line

  /** `http_version, status_code_str, *_ = status_line.split()` and
      `int(status_code_str)`: the first two whitespace-separated words, the
      second read as an integer; `ValueError` when there are fewer than two
      words or the second is not an integer. */
  function StatusLine(line: string): (r: Result<(string, int), ResponseError>)
    ensures r.Ok? <==> |Words(line)| >= 2 && ParseInt(Words(line)[1]).Some?
    ensures r.Ok? ==> IsWord(r.value.0) && r.value.0 == Words(line)[0]
    ensures r.Ok? ==> r.value.1 == ParseInt(Words(line)[1]).value
    ensures r.Err? ==> r.error == ValueError
  {
    var words := Words(line);
    if |words| < 2 then Err(ValueError)
    else
      match ParseInt(words[1])
      case None => Err(ValueError)
      case Some(code) => Ok((words[0], code))
  }

  /** `Response(source, status_line, headers, body)`; `isCode` is the
      membership test of the status-code enum, whose failure is a
      `ValueError`. */
  function NewResponse(source: string, statusLine: string, headers: Entries, body: seq<Codecs.byte>,
                       isCode: int -> bool): (r: Result<Response, ResponseError>)
    ensures r.Ok? <==> StatusLine(statusLine).Ok? && isCode(StatusLine(statusLine).value.1)
    ensures r.Err? ==> r.error == ValueError
    ensures r.Ok? ==> && StatusLine(statusLine) == Ok((r.value.httpVersion, r.value.statusCode))
                      && r.value.source == source && r.value.headers == headers && r.value.rawBody == body
  {
    match StatusLine(statusLine)
    case Err(e) => Err(e)
    case Ok((version, code)) =>
      if isCode(code) then Ok(Response(source, version, code, headers, body)) else Err(ValueError)
  }

  /** A word followed by whitespace (or nothing) is the first word. */
  lemma WordsCons(w: string, rest: string, s: string)
    requires IsWord(w) && (rest == [] || IsSpace(rest[0])) && s == w + rest
    ensures Words(s) == [w] + Words(rest)
  {
    FirstSpaceOf(w, rest, s);
    assert s[0] == w[0];
    assert s[..|w|] == w && s[|w|..] == rest;
  }

  /** The first whitespace of `w + rest` ends the word `w`. */
  lemma FirstSpaceOf(w: string, rest: string, s: string)
    requires IsWord(w) && (rest == [] || IsSpace(rest[0])) && s == w + rest
    ensures FirstSpace(s) == |w|
  {
    var n := FirstSpace(s);
    assert forall i :: 0 <= i < |w| ==> s[i] == w[i];
    assert rest != [] ==> s[|w|] == rest[0];
  }

  /** Leading whitespace does not change the words. */
  lemma WordsSpace(c: char, rest: string, s: string)
    requires IsSpace(c) && s == [c] + rest
    ensures Words(s) == Words(rest)
  {
    assert s[1..] == rest;
  }

  /** The first two words of `a b rest`, for words `a` and `b` and a `rest`
      that is empty or starts with whitespace. */
  lemma TwoWords(a: string, b: string, rest: string, line: string)
    requires IsWord(a) && IsWord(b) && (rest == [] || IsSpace(rest[0]))
    requires line == a + " " + b + rest
    ensures |Words(line)| >= 2 && Words(line)[0] == a && Words(line)[1] == b
  {
    var tail := b + rest;
    var spaced := [' '] + tail;
    assert line == a + spaced;
    WordsCons(a, spaced, line);
    SpacedWord(b, rest, tail, spaced);
    Heads(a, b, Words(line), Words(spaced), Words(rest));
  }

  lemma SpacedWord(b: string, rest: string, tail: string, spaced: string)
    requires IsWord(b) && (rest == [] || IsSpace(rest[0]))
    requires tail == b + rest && spaced == [' '] + tail
    ensures Words(spaced) == [b] + Words(rest)
  {
    WordsSpace(' ', tail, spaced);
    WordsCons(b, rest, tail);
  }

  lemma Heads(a: string, b: string, all: seq<string>, after: seq<string>, later: seq<string>)
    requires all == [a] + after && after == [b] + later
    ensures |all| >= 2 && all[0] == a && all[1] == b
  {
  }

  /** A status line `version digits reason` gives back its version and the
      value of its digits. */
  lemma StatusLineReadsBack(version: string, digits: string, reason: string, line: string)
    requires IsWord(version) && IsDigits(digits) && (reason == [] || IsSpace(reason[0]))
    requires line == version + " " + digits + reason
    ensures StatusLine(line) == Ok((version, DigitsValue(digits)))
  {
    assert IsWord(digits) by {
      forall i | 0 <= i < |digits| ensures !IsSpace(digits[i]) {
        assert IsDigit(digits[i]);
      }
    }
    TwoWords(version, digits, reason, line);
    ParseIntDigits(digits);
  }

  /** `str(code)` in a status line reads back as `code`. */
  lemma StatusCodeReadsBack(version: string, code: nat, reason: string)
    requires IsWord(version) && (reason == [] || IsSpace(reason[0]))
    ensures StatusLine(version + " " + NatToString(code) + reason) == Ok((version, code))
  {
    StatusLineReadsBack(version, NatToString(code), reason, version + " " + NatToString(code) + reason);
  }

  /** `HTTP/1.1 200 OK`. */
  lemma StatusLineExample(line: string)
    requires line == "HTTP/1.1 200 OK"
    ensures StatusLine(line) == Ok(("HTTP/1.1", 200))
  {
    assert IsWord("HTTP/1.1");
    assert NatToString(200) == "200";
    assert line == "HTTP/1.1" + " " + NatToString(200) + " OK";
    StatusCodeReadsBack("HTTP/1.1", 200, " OK");
  }

  /** A status line of one word raises `ValueError`. */
  lemma StatusLineOneWord(w: string)
    requires IsWord(w)
    ensures StatusLine(w) == Err(ValueError)
  {
    OneWord(w);
    FewWords(w);
  }

  lemma OneWord(w: string)
    requires IsWord(w)
    ensures |Words(w)| == 1
  {
    var empty: string := [];
    assert w == w + empty;
    WordsCons(w, empty, w);
  }

  /** A status line of fewer than two words raises `ValueError`. */
  lemma FewWords(line: string)
    requires |Words(line)| < 2
    ensures StatusLine(line) == Err(ValueError)
  {
  }

  // ---------------------------------------------------------------------
  // Properties read off the headers

  /** `headers.get('Content-Type', '')`. */
  function ContentType(resp: Response): (r: HValue)
    ensures Lookup(resp.headers, "Content-Type").Some? ==> r == Lookup(resp.headers, "Content-Type").value
    ensures Lookup(resp.headers, "Content-Type").None? ==> r == Str("")
  {
    match Lookup(resp.headers, "Content-Type")
    case Some(v) => v
    case None => Str("")
  }

  /** `content_type.strip().startswith('text/html')`; an int content type has
      no `strip` and raises `AttributeError`. */
  function IsHtml(resp: Response): (r: Result<bool, ResponseError>)
    ensures ContentType(resp).Int? <==> r == Err(AttributeError)
    ensures ContentType(resp).Str? ==> r == Ok("text/html" <= Strip(ContentType(resp).s))
  {
    match ContentType(resp)
    case Int(_) => Err(AttributeError)
    case Str(s) => Ok("text/html" <= Strip(s))
  }

  /** Without a `Content-Type` header, a response is not HTML. */
  lemma NoContentTypeNotHtml(resp: Response)
    requires Lookup(resp.headers, "Content-Type").None?
    ensures IsHtml(resp) == Ok(false)
  {
    var empty: string := [];
    StripEmpty(empty);
    assert ContentType(resp) == Str(empty);
  }

  lemma StripEmpty(s: string)
    requires s == []
    ensures Strip(s) == [] && !("text/html" <= Strip(s))
  {
  }

  /** Leading whitespace in the content type does not change `is_html`. */
  lemma IsHtmlIgnoresSpace(resp: Response, spaced: Response, ct: string, c: char)
    requires IsSpace(c) && ContentType(resp) == Str(ct) && ContentType(spaced) == Str([c] + ct)
    ensures IsHtml(spaced) == IsHtml(resp)
  {
    StripSpaceFirst(c, ct, [c] + ct);
  }

  /** `strip()` drops a leading whitespace character. */
  lemma StripSpaceFirst(c: char, t: string, s: string)
    requires IsSpace(c) && s == [c] + t
    ensures Strip(s) == Strip(t)
  {
    assert s[1..] == t;
  }

  /** The text after the last `x` of `s` (all of `s` when `x` is absent):
      the last piece of `s.split(x)`. */
  function LastPiece(s: string, x: char): (r: string)
    ensures AfterLast(s, x, r)
  {
    LastSplit(s, x);
    Last(Split(s, [x]))
  }

  /** The last element of a non-empty sequence. */
  function Last<T>(parts: seq<T>): T
    requires |parts| > 0
  {
    parts[|parts| - 1]
  }

  /** `r` is a suffix of `s` without `x`, and is all of `s` or follows an `x`. */
  predicate AfterLast(s: string, x: char, r: string) {
    x !in r && IsSuffix(r, s) && (r == s || s[|s| - |r| - 1] == x)
  }

  /** The last piece of a split has no separator, ends the text, and is the
      whole text or follows a separator. */
  lemma {:induction false} LastSplit(s: string, x: char)
    ensures AfterLast(s, x, Last(Split(s, [x])))
    decreases |s|
  {
    var i := Find(s, [x]);
    if i < 0 {
      NotFoundAbsent(s, x);
    } else {
      var rest := s[i + 1..];
      LastSplit(rest, x);
      SplitStep(s, x, i, rest);
      AfterLastShift(s, x, i, rest, Last(Split(rest, [x])));
    }
  }

  /** A one-element pattern that is not found does not occur. */
  lemma NotFoundAbsent(s: string, x: char)
    requires Find(s, [x]) < 0
    ensures x !in s && Split(s, [x]) == [s]
  {
    forall k | 0 <= k < |s| ensures s[k] != x {
      assert !OccursAt(s, [x], k);
      assert s[k..k + 1] == [s[k]];
    }
  }

  /** Splitting at a found `x` leaves the last piece to the rest. */
  lemma SplitStep(s: string, x: char, i: int, rest: string)
    requires i == Find(s, [x]) && i >= 0 && rest == s[i + 1..]
    ensures i < |s| && s[i] == x
    ensures Last(Split(s, [x])) == Last(Split(rest, [x]))
  {
    assert s[i..i + 1] == [x];
    assert s[i] == s[i..i + 1][0];
    assert Split(s, [x]) == [s[..i]] + Split(rest, [x]);
  }

  /** A piece after the last `x` of the text after an `x` at `i` is the
      piece after the last `x` of the whole text. */
  lemma AfterLastShift(s: string, x: char, i: nat, rest: string, r: string)
    requires i < |s| && s[i] == x && rest == s[i + 1..]
    requires AfterLast(rest, x, r)
    ensures AfterLast(s, x, r)
  {
    if r == rest {
      assert s[|s| - |r| - 1] == s[i];
    } else {
      assert s[|s| - |r| - 1] == rest[|rest| - |r| - 1];
    }
  }

  /** The conditions of `LastPiece` determine it: it is the longest suffix
      without `x`. */
  lemma LastPieceIs(s: string, x: char, t: string)
    requires AfterLast(s, x, t)
    ensures LastPiece(s, x) == t
  {
    var r := LastPiece(s, x);
    assert r == s[|s| - |r|..] && t == s[|s| - |t|..];
  }

  /** `charset`: `None` without a `;` in the content type; otherwise the
      lowercased text after the last `=` of the text after the last `;`,
      not trimmed. An int content type raises `TypeError` at `in`. */
  function Charset(resp: Response): (r: Result<Option<string>, ResponseError>)
    ensures ContentType(resp).Int? <==> r == Err(TypeError)
    ensures ContentType(resp).Str? ==> (r == Ok(None) <==> ';' !in ContentType(resp).s)
    ensures r.Ok? && r.value.Some? ==> var c := r.value.value;
      ';' !in c && '=' !in c && forall i :: 0 <= i < |c| ==> !('A' <= c[i] <= 'Z')
  {
    match ContentType(resp)
    case Int(_) => Err(TypeError)
    case Str(ct) =>
      if ';' !in ct then Ok(None)
      else
        var c := Lower(LastPiece(LastPiece(ct, ';'), '='));
        LowerKeeps(LastPiece(LastPiece(ct, ';'), '='), ';');
        LowerKeeps(LastPiece(LastPiece(ct, ';'), '='), '=');
        Ok(Some(c))
  }

  /** Lower-casing leaves a non-letter absent. */
  lemma LowerKeeps(s: string, x: char)
    requires x !in s && !('A' <= x <= 'Z') && !('a' <= x <= 'z')
    ensures x !in Lower(s)
  {
    forall i | 0 <= i < |s| ensures Lower(s)[i] != x {
      assert s[i] != x;
    }
  }

  /** A content type `head;param=value` with no `;` after the first one
      shown and no `=` in the value has charset `value`, lowercased. */
  lemma CharsetOf(resp: Response, ct: string, head: string, param: string, value: string)
    requires ContentType(resp) == Str(ct) && ct == head + ";" + param + "=" + value
    requires ';' !in param && ';' !in value && '=' !in value
    ensures Charset(resp) == Ok(Some(Lower(value)))
  {
    var segment := param + "=" + value;
    CharsetText(ct, head, param, value, segment);
    CharsetPieces(resp, ct, segment, value);
  }

  /** The pieces `charset` cuts from `head;param=value`. */
  lemma CharsetText(ct: string, head: string, param: string, value: string, segment: string)
    requires ct == head + ";" + param + "=" + value && segment == param + "=" + value
    requires ';' !in param && ';' !in value && '=' !in value
    ensures ';' in ct && LastPiece(ct, ';') == segment && LastPiece(segment, '=') == value
  {
    assert ct[|head|] == ';';
    assert LastPiece(ct, ';') == segment by {
      assert ct == head + ";" + segment;
      assert ';' !in segment;
      LastPieceIs(ct, ';', segment);
    }
    assert LastPiece(segment, '=') == value by {
      assert segment[|segment| - |value| - 1] == '=';
      LastPieceIs(segment, '=', value);
    }
  }

  /** The charset is the lowercased last `=`-piece of the last `;`-piece. */
  lemma CharsetPieces(resp: Response, ct: string, segment: string, value: string)
    requires ContentType(resp) == Str(ct) && ';' in ct
    requires LastPiece(ct, ';') == segment && LastPiece(segment, '=') == value
    ensures Charset(resp) == Ok(Some(Lower(value)))
  {
  }

  /** `text/html; charset=UTF-8` has charset `utf-8`. */
  lemma CharsetExample(resp: Response, head: string, ct: string)
    requires head == "text/html" && ct == head + "; charset=UTF-8" && ContentType(resp) == Str(ct)
    ensures Charset(resp) == Ok(Some("utf-8"))
  {
    ExampleLayout(head, ct);
    CharsetOf(resp, ct, head, " charset", "UTF-8");
  }

  lemma ExampleLayout(head: string, ct: string)
    requires ct == head + "; charset=UTF-8"
    ensures ct == head + ";" + " charset" + "=" + "UTF-8"
    ensures Lower("UTF-8") == "utf-8"
  {
  }

  /** `text/html;` has the empty charset. */
  lemma EmptyCharset(resp: Response)
    requires ContentType(resp) == Str("text/html;")
    ensures Charset(resp) == Ok(Some(""))
  {
    var ct := "text/html;";
    assert ';' in ct by {
      assert ct[9] == ';';
    }
    LastPieceIs(ct, ';', "");
    LastPieceIs("", '=', "");
  }

  // ---------------------------------------------------------------------
  // The body

  /** `body`: the bytes decoded with the charset when the charset is a
      non-empty string, the raw bytes otherwise. `decode(charset, bytes)` is
      the codec, `None` where it raises. */
  function BodyOf(resp: Response, decode: (string, seq<Codecs.byte>) -> Option<string>)
    : (r: Result<Body, ResponseError>)
    ensures Charset(resp).Err? ==> r == Err(Charset(resp).error)
    ensures Charset(resp) == Ok(None) || Charset(resp) == Ok(Some("")) <==> r == Ok(Raw(resp.rawBody))
    ensures r.Ok? && r.value.Decoded? ==>
      Charset(resp).Ok? && Charset(resp).value.Some? && decode(Charset(resp).value.value, resp.rawBody) == Some(r.value.text)
    ensures r == Err(DecodeError) <==>
      (Charset(resp).Ok? && Charset(resp).value.Some? && Charset(resp).value.value != ""
       && decode(Charset(resp).value.value, resp.rawBody).None?)
  {
    match Charset(resp)
    case Err(e) => Err(e)
    case Ok(None) => Ok(Raw(resp.rawBody))
    case Ok(Some(charset)) =>
      if charset == "" then Ok(Raw(resp.rawBody))
      else
        match decode(charset, resp.rawBody)
        case None => Err(DecodeError)
        case Some(text) => Ok(Decoded(text))
  }

  /** A content type without parameters leaves the body as bytes. */
  lemma PlainBodyRaw(resp: Response, ct: string, decode: (string, seq<Codecs.byte>) -> Option<string>)
    requires ContentType(resp) == Str(ct) && ';' !in ct
    ensures BodyOf(resp, decode) == Ok(Raw(resp.rawBody))
  {
    assert Charset(resp) == Ok(None);
  }

  /** Without a `Content-Type` header the body is the raw bytes. */
  lemma NoContentTypeRaw(resp: Response, decode: (string, seq<Codecs.byte>) -> Option<string>)
    requires Lookup(resp.headers, "Content-Type").None?
    ensures BodyOf(resp, decode) == Ok(Raw(resp.rawBody))
  {
    PlainBodyRaw(resp, "", decode);
  }

  /** `text/html; charset=UTF-8` decodes the body as `utf-8`. */
  lemma Utf8BodyDecoded(resp: Response, head: string, ct: string,
                         decode: (string, seq<Codecs.byte>) -> Option<string>)
    requires head == "text/html" && ct == head + "; charset=UTF-8" && ContentType(resp) == Str(ct)
    requires decode("utf-8", resp.rawBody).Some?
    ensures BodyOf(resp, decode) == Ok(Decoded(decode("utf-8", resp.rawBody).value))
  {
    CharsetExample(resp, head, ct);
  }
}
