/**
 * `Headers.from_bytes(h.to_bytes())` gives `h` back, for headers whose names
 * and values survive the trip: names without `:` or CR and without
 * surrounding whitespace, values that are non-negative ints or strings
 * without CR, without surrounding whitespace and not made only of digits
 * (those would come back as ints).
 */
module HeadersRoundTrip {
  import opened Wrappers
  import opened PyStr
  import opened Codecs
  import opened HttpHeaders

  predicate NameReadsBack(k: string) {
    Trimmed(k) && ':' !in k && '\r' !in k
  }

  predicate ValueReadsBack(v: HValue) {
    match v
    case Int(i) => i >= 0
    case Str(s) => Trimmed(s) && !IsDigits(s) && '\r' !in s
  }

  predicate EntriesReadBack(e: Entries) {
    && DistinctKeys(e)
    && forall i :: 0 <= i < |e| ==> NameReadsBack(e[i].0) && ValueReadsBack(e[i].1)
  }

  /** The round trip. */
  lemma RoundTrip(e: Entries)
    requires EntriesReadBack(e)
    ensures ParseHeaders(RenderBytes(e)) == Some(e)
  {
    var lines := EncodeAll(FieldLines(e));
    EncodeJoin(FieldLines(e));
    var body := Join(lines, CRLF);
    assert RenderBytes(e) == body + BlankLine;
    forall i | 0 <= i < |lines| ensures CR !in lines[i] && |lines[i]| > 0 {
      LineReadsBack(e[i].0, e[i].1);
    }
    if e == [] {
      assert RenderBytes(e) == BlankLine + [];
      FindAtStart(BlankLine, []);
      assert HeaderBlock(RenderBytes(e)) == [];
      var empty: seq<byte> := [];
      assert Split(empty, CRLF) == [empty];
      assert ApplyLines([[]]) == AddLine([], []);
    } else {
      BlockEnd(lines);
      assert HeaderBlock(RenderBytes(e)) == body;
      SplitJoin(lines, CRLF);
      ApplyLinesPrefix(e, lines, |e|);
      assert lines[..|e|] == lines && e[..|e|] == e;
    }
  }

  function EncodeAll(parts: seq<string>): (r: seq<seq<byte>>)
    ensures |r| == |parts| && forall i :: 0 <= i < |parts| ==> r[i] == Encode(parts[i])
  {
    seq(|parts|, i requires 0 <= i < |parts| => Encode(parts[i]))
  }

  /** Encoding a CRLF-join is joining the encodings with CR LF. */
  lemma {:induction false} EncodeJoin(parts: seq<string>)
    ensures Encode(Join(parts, "\r\n")) == Join(EncodeAll(parts), CRLF)
  {
    if |parts| > 1 {
      var rest := parts[1..];
      EncodeJoin(rest);
      var encoded := EncodeAll(parts);
      assert encoded[1..] == EncodeAll(rest);
      EncodeJoinStep(parts[0], Join(rest, "\r\n"), Join(parts, "\r\n"));
      assert Join(encoded, CRLF) == encoded[0] + CRLF + Join(encoded[1..], CRLF);
    }
  }

  /** Encoding `head` CR LF `tail`. */
  lemma EncodeJoinStep(head: string, tail: string, text: string)
    requires text == head + "\r\n" + tail
    ensures Encode(text) == Encode(head) + CRLF + Encode(tail)
  {
    var sep := "\r\n";
    EncodeCRLF(sep);
    EncodeThree(head, sep, tail, text);
  }

  /** The encoding of CR LF. */
  lemma EncodeCRLF(sep: string)
    requires sep == "\r\n"
    ensures Encode(sep) == CRLF
  {
    var tail := sep[1..];
    assert Encode(sep) == EncodeChar('\r') + Encode(tail);
    assert Encode(tail) == EncodeChar('\n') + Encode(tail[1..]);
  }

  /** Encoding three pieces. */
  lemma EncodeThree(a: string, b: string, c: string, text: string)
    requires text == a + b + c
    ensures Encode(text) == Encode(a) + Encode(b) + Encode(c)
  {
    var ab := a + b;
    EncodeAppend(a, b);
    EncodeAppend(ab, c);
  }

  /** Non-empty lines without CR, joined by CR LF and followed by an empty
      line: the first empty line is the one at the end. */
  lemma {:induction false} BlockEnd(parts: seq<seq<byte>>)
    requires |parts| > 0
    requires forall i :: 0 <= i < |parts| ==> CR !in parts[i] && |parts[i]| > 0
    ensures Find(Join(parts, CRLF) + BlankLine, BlankLine) == |Join(parts, CRLF)|
  {
    if |parts| == 1 {
      FindAfter(parts[0], BlankLine, BlankLine);
      FindAtStart(BlankLine, []);
      assert BlankLine + [] == BlankLine;
    } else {
      var later := parts[1..];
      var rest := Join(later, CRLF);
      var tail := rest + BlankLine;
      BlockEnd(later);
      assert later[0] == parts[1];
      JoinStart(later, rest);
      AfterCRLF(tail);
      FindAfter(parts[0], CRLF + tail, BlankLine);
      JoinBlock(parts, rest, tail);
    }
  }

  /** A CR LF join of non-empty parts starts with the first part's first byte. */
  lemma JoinStart(parts: seq<seq<byte>>, joined: seq<byte>)
    requires |parts| > 0 && |parts[0]| > 0 && joined == Join(parts, CRLF)
    ensures |joined| > 0 && joined[0] == parts[0][0]
  {
  }

  /** After CR LF followed by anything but CR, an empty line is found only
      where it is found in what follows. */
  lemma AfterCRLF(tail: seq<byte>)
    requires |tail| > 0 && tail[0] != CR
    ensures Find(CRLF + tail, BlankLine) == if Find(tail, BlankLine) < 0 then -1 else 2 + Find(tail, BlankLine)
  {
    var s := CRLF + tail;
    assert s[1] == LF && s[2] == tail[0];
    forall j | 0 <= j < |CRLF| ensures !OccursAt(s, BlankLine, j) {
      if j + 4 <= |s| {
        assert s[j..j + 4][0] == s[j] && s[j..j + 4][2] == s[j + 2];
      }
    }
    FindShift(CRLF, tail, BlankLine);
  }

  lemma JoinBlock(parts: seq<seq<byte>>, rest: seq<byte>, tail: seq<byte>)
    requires |parts| > 1 && rest == Join(parts[1..], CRLF) && tail == rest + BlankLine
    ensures Join(parts, CRLF) + BlankLine == parts[0] + (CRLF + tail)
    ensures |Join(parts, CRLF)| == |parts[0]| + 2 + |rest|
  {
  }

  /** Each rendered line reads back as its own name and value, and holds no CR. */
  lemma LineReadsBack(k: string, v: HValue)
    requires NameReadsBack(k) && ValueReadsBack(v)
    ensures ReadLine(Encode(FieldLine(k, v))) == Field(k, Text(v))
    ensures CR !in Encode(FieldLine(k, v)) && |Encode(FieldLine(k, v))| > 0
  {
    TextTrimmed(v);
    LineFields(k, Text(v), Encode(FieldLine(k, v)));
    LineNoCR(k, Text(v), FieldLine(k, v));
  }

  lemma LineFields(k: string, t: string, line: seq<byte>)
    requires NameReadsBack(k) && Trimmed(t) && line == Encode(k + ": " + t)
    ensures ReadLine(line) == Field(k, t)
  {
    LineLayout(k, t, line);
    DecodeEncode(k);
    DecodeEncode(" " + t);
    StripBack(k, t);
    ReadLineIs(line, |Encode(k)|, k, " " + t);
  }

  lemma LineNoCR(k: string, t: string, text: string)
    requires '\r' !in k && '\r' !in t && text == k + ": " + t
    ensures CR !in Encode(text) && |Encode(text)| > 0
  {
    assert '\r' !in text;
    EncodeAvoidsAscii(text, '\r');
    assert text[0] in text;
    assert Encode(text) == EncodeChar(text[0]) + Encode(text[1..]);
  }

  /** The bytes of `k: t`: the name's bytes, the colon, the rest. */
  lemma LineLayout(k: string, t: string, line: seq<byte>)
    requires ':' !in k && line == Encode(k + ": " + t)
    ensures IndexOf(line, COLON) == |Encode(k)|
    ensures line[..|Encode(k)|] == Encode(k) && line[|Encode(k)| + 1..] == Encode(" " + t)
  {
    var after := " " + t;
    var name := Encode(k);
    var rest := Encode(after);
    EncodeColon(k, t, after, k + ": " + t, line);
    EncodeAvoidsAscii(k, ':');
    IndexOfAfter(name, [COLON] + rest, COLON);
    Around(name, COLON, rest, line);
  }

  /** `k: t` encodes as the name's bytes, a colon and the encoded `" " + t`. */
  lemma EncodeColon(k: string, t: string, after: string, text: string, line: seq<byte>)
    requires after == " " + t && text == k + ": " + t && line == Encode(text)
    ensures line == Encode(k) + ([COLON] + Encode(after))
  {
    var colon := ":";
    ColonSpace(k, t, colon, after, text);
    EncodeThree(k, colon, after, text);
    EncodeOneColon(colon);
  }

  lemma ColonSpace(k: string, t: string, colon: string, after: string, text: string)
    requires colon == ":" && after == " " + t && text == k + ": " + t
    ensures text == k + colon + after
  {
  }

  lemma EncodeOneColon(colon: string)
    requires colon == ":"
    ensures Encode(colon) == [COLON]
  {
    assert Encode(colon) == EncodeChar(':') + Encode([]);
  }

  lemma StripBack(k: string, t: string)
    requires Trimmed(k) && Trimmed(t)
    ensures Strip(k) == k && Strip(" " + t) == t
  {
    StripResult(k);
    StripResult(t);
    assert " " + t == [' '] + t;
    StripSkipsLeadingSpace(' ', t);
  }

  /** A value that reads back renders trimmed and without CR. */
  lemma TextTrimmed(v: HValue)
    requires ValueReadsBack(v)
    ensures Trimmed(Text(v)) && '\r' !in Text(v)
  {
    if v.Int? {
      var t := Text(v);
      IntToStringChars(v.i);
      assert t[0] in t && t[|t| - 1] in t;
    }
  }

  /** A fresh name with a value that reads back is stored as that value. */
  lemma FieldValueReadsBack(e: Entries, k: string, v: HValue)
    requires k !in Keys(e) && ValueReadsBack(v)
    ensures FieldValue(e, k, Text(v)) == v
  {
    if v.Int? {
      ParseIntToString(v.i);
      ParseIntDigits(Text(v));
    }
  }

  /** The first `n` rendered lines read back as the first `n` entries. */
  lemma {:induction false} ApplyLinesPrefix(e: Entries, lines: seq<seq<byte>>, n: nat)
    requires EntriesReadBack(e) && lines == EncodeAll(FieldLines(e)) && n <= |e|
    ensures ApplyLines(lines[..n]) == Some(e[..n])
  {
    if n == 0 {
      assert lines[..0] == [];
    } else {
      ApplyLinesPrefix(e, lines, n - 1);
      ApplyLinesNext(lines, n - 1);
      NextLine(e, lines, n);
    }
  }

  /** The `n`-th rendered line adds the `n`-th entry. */
  lemma NextLine(e: Entries, lines: seq<seq<byte>>, n: nat)
    requires EntriesReadBack(e) && lines == EncodeAll(FieldLines(e)) && 0 < n <= |e|
    ensures AddLine(e[..n - 1], lines[n - 1]) == Some(e[..n])
  {
    var k, v := e[n - 1].0, e[n - 1].1;
    assert NameReadsBack(k) && ValueReadsBack(v);
    assert lines[n - 1] == Encode(FieldLine(k, v));
    FreshAtEnd(e, n);
    LineReadsBack(k, v);
    AddFreshLine(e[..n - 1], lines[n - 1], k, v);
  }

  /** A line naming a fresh field appends that field. */
  lemma AddFreshLine(prior: Entries, line: seq<byte>, k: string, v: HValue)
    requires ReadLine(line) == Field(k, Text(v))
    requires k !in Keys(prior) && ValueReadsBack(v)
    ensures AddLine(prior, line) == Some(prior + [(k, v)])
  {
    FieldValueReadsBack(prior, k, v);
    assert Position(prior, k) == -1;
  }
}
