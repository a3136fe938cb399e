/**
 * `Headers` of `genki/http/headers.py`: an ordered dictionary from field
 * name to a value that is a string or an int, parsed from a CRLF-separated
 * header block and rendered back as `name: value` lines.
 *
 * The ordered dictionary is a sequence of (name, value) entries with
 * distinct names; assigning an existing name replaces its value in place,
 * assigning a new one appends it, as Python's `OrderedDict` does. The
 * source calls `set_if_none` and `remove_header` on headers but does not
 * define them; here they are "assign when absent" and "delete the entry".
 */
module HttpHeaders {
  import opened Wrappers
  import opened PyStr
  import opened Codecs

  /** A header value: `str` or `int`. */
  datatype HValue = Str(s: string) | Int(i: int)

  type Entries = seq<(string, HValue)>

  /** `str(value)`. */
  function Text(v: HValue): string {
    match v
    case Str(s) => s
    case Int(i) => IntToString(i)
  }

  /** `str(value)` keeps a string and writes an int so that `int()` reads it
      back. */
  lemma TextReadsBack(v: HValue)
    ensures v.Str? ==> Text(v) == v.s
    ensures v.Int? ==> ParseInt(Text(v)) == Some(v.i)
  {
    if v.Int? {
      ParseIntToString(v.i);
    }
  }

  /** No name occurs twice. */
  predicate DistinctKeys(e: Entries) {
    forall i, j :: 0 <= i < j < |e| ==> e[i].0 != e[j].0
  }

  /** The names, in order. */
  function Keys(e: Entries): (r: seq<string>)
    ensures |r| == |e| && forall i :: 0 <= i < |e| ==> r[i] == e[i].0
  {
    seq(|e|, i requires 0 <= i < |e| => e[i].0)
  }

  // ---------------------------------------------------------------------
  // The ordered dictionary

  /** The position of the entry named `k`, or -1. */
  function Position(e: Entries, k: string): (r: int)
    ensures -1 <= r < |e|
    ensures r >= 0 ==> e[r].0 == k && forall j :: 0 <= j < r ==> e[j].0 != k
    ensures r < 0 ==> forall j :: 0 <= j < |e| ==> e[j].0 != k
  {
    if e == [] then -1
    else if e[0].0 == k then 0
    else
      var p := Position(e[1..], k);
      if p < 0 then -1 else p + 1
  }

  /** `headers.get(k)`. */
  function Lookup(e: Entries, k: string): (r: Option<HValue>)
    ensures r.Some? <==> k in Keys(e)
    ensures r.Some? ==> (k, r.value) in e
  {
    var p := Position(e, k);
    if p < 0 then None else Some(e[p].1)
  }

  /** `headers[k] = v`: replaces the value in place when `k` is present,
      appends the entry otherwise. */
  function Put(e: Entries, k: string, v: HValue): (r: Entries)
    ensures DistinctKeys(e) ==> DistinctKeys(r)
    ensures Keys(r) == if k in Keys(e) then Keys(e) else Keys(e) + [k]
    ensures Lookup(r, k) == Some(v)
    ensures forall k' :: k' != k ==> Lookup(r, k') == Lookup(e, k')
  {
    var p := Position(e, k);
    var r := if p < 0 then e + [(k, v)] else e[p := (k, v)];
    assert Keys(r) == if k in Keys(e) then Keys(e) else Keys(e) + [k];
    PositionIs(r, k, if p < 0 then |e| else p);
    forall k' | k' != k ensures Lookup(r, k') == Lookup(e, k') {
      assert Position(r, k') == Position(e, k') by {
        PositionOther(e, r, k', p);
      }
    }
    r
  }

  /** Replacing or appending an entry not named `k'` leaves the position of
      `k'` unchanged. */
  lemma PositionOther(e: Entries, r: Entries, k': string, p: int)
    requires -1 <= p < |e|
    requires |r| == |e| + (if p < 0 then 1 else 0)
    requires forall j :: 0 <= j < |e| && j != p ==> r[j] == e[j]
    requires p >= 0 ==> r[p].0 == e[p].0 && e[p].0 != k'
    requires p < 0 ==> r[|e|].0 != k'
    ensures Position(r, k') == Position(e, k')
  {
    var q := Position(e, k');
    forall j | 0 <= j < |r| && (q < 0 || j < q) ensures r[j].0 != k' {
      NameBefore(e, r, k', p, q, j);
    }
    if q >= 0 {
      assert q != p && r[q] == e[q];
    }
    PositionIs(r, k', q);
  }

  lemma NameBefore(e: Entries, r: Entries, k': string, p: int, q: int, j: int)
    requires -1 <= p < |e| && q == Position(e, k')
    requires |r| == |e| + (if p < 0 then 1 else 0)
    requires forall j :: 0 <= j < |e| && j != p ==> r[j] == e[j]
    requires p >= 0 ==> r[p].0 == e[p].0 && e[p].0 != k'
    requires p < 0 ==> r[|e|].0 != k'
    requires 0 <= j < |r| && (q < 0 || j < q)
    ensures r[j].0 != k'
  {
    if j != p && j < |e| {
      assert r[j] == e[j];
    }
  }

  lemma PositionIs(e: Entries, k: string, q: int)
    requires -1 <= q < |e|
    requires q >= 0 ==> e[q].0 == k && forall j :: 0 <= j < q ==> e[j].0 != k
    requires q < 0 ==> forall j :: 0 <= j < |e| ==> e[j].0 != k
    ensures Position(e, k) == q
  {
    var p := Position(e, k);
    if p >= 0 && q >= 0 {
      assert !(p < q) && !(q < p);
    }
  }

  /** `del headers[k]` when present; otherwise nothing changes. The other
      entries keep their order. */
  function Delete(e: Entries, k: string): (r: Entries)
    ensures DistinctKeys(e) ==> DistinctKeys(r)
    ensures DistinctKeys(e) ==> Lookup(r, k) == None
    ensures forall k' :: k' != k ==> Lookup(r, k') == Lookup(e, k')
    ensures k !in Keys(e) ==> r == e
    ensures k in Keys(e) ==> |r| == |e| - 1
    ensures k in Keys(e) ==> RemovedFrom(e, r, Position(e, k))
    ensures forall x :: x in r ==> x in e
  {
    var p := Position(e, k);
    if p < 0 then e
    else
      DeleteAt(e, p);
      e[..p] + e[p + 1..]
  }

  /** The facts about removing the entry at `p`, the first one named `k`. */
  lemma DeleteAt(e: Entries, p: int)
    requires 0 <= p < |e| && Position(e, e[p].0) == p
    ensures var r := e[..p] + e[p + 1..];
      && (DistinctKeys(e) ==> DistinctKeys(r))
      && (DistinctKeys(e) ==> Lookup(r, e[p].0) == None)
      && (forall k' :: k' != e[p].0 ==> Lookup(r, k') == Lookup(e, k'))
      && (forall x :: x in r ==> x in e)
      && RemovedFrom(e, r, p)
  {
    var r := e[..p] + e[p + 1..];
    RemovedAt(e, p);
    RemovedFacts(e, r, p);
  }

  lemma RemovedAt(e: Entries, p: int)
    requires 0 <= p < |e|
    ensures var r := e[..p] + e[p + 1..];
      && |r| == |e| - 1
      && (forall j :: 0 <= j < p ==> r[j] == e[j])
      && (forall j :: p <= j < |r| ==> r[j] == e[j + 1])
  {
  }

  /** `r` is `e` without its entry at `p`. */
  predicate RemovedFrom(e: Entries, r: Entries, p: int) {
    && 0 <= p < |e| && |r| == |e| - 1
    && (forall j :: 0 <= j < p ==> r[j] == e[j])
    && (forall j :: p <= j < |r| ==> r[j] == e[j + 1])
  }

  lemma RemovedFacts(e: Entries, r: Entries, p: int)
    requires 0 <= p < |e| && Position(e, e[p].0) == p
    requires |r| == |e| - 1
    requires forall j :: 0 <= j < p ==> r[j] == e[j]
    requires forall j :: p <= j < |r| ==> r[j] == e[j + 1]
    ensures DistinctKeys(e) ==> DistinctKeys(r)
    ensures DistinctKeys(e) ==> Lookup(r, e[p].0) == None
    ensures forall k' :: k' != e[p].0 ==> Lookup(r, k') == Lookup(e, k')
    ensures forall x :: x in r ==> x in e
  {
    assert RemovedFrom(e, r, p);
    if DistinctKeys(e) {
      RemovedDistinct(e, r, p);
    }
    RemovedLookups(e, r, p);
    RemovedSubset(e, r, p);
  }

  lemma RemovedDistinct(e: Entries, r: Entries, p: int)
    requires RemovedFrom(e, r, p) && DistinctKeys(e)
    ensures DistinctKeys(r) && Lookup(r, e[p].0) == None
  {
    PositionIs(r, e[p].0, -1);
  }

  lemma RemovedLookups(e: Entries, r: Entries, p: int)
    requires RemovedFrom(e, r, p)
    ensures forall k' :: k' != e[p].0 ==> Lookup(r, k') == Lookup(e, k')
  {
    forall k' | k' != e[p].0 ensures Lookup(r, k') == Lookup(e, k') {
      DeleteOther(e, r, p, k');
    }
  }

  lemma RemovedSubset(e: Entries, r: Entries, p: int)
    requires RemovedFrom(e, r, p)
    ensures forall x :: x in r ==> x in e
  {
    forall x | x in r ensures x in e {
      var j :| 0 <= j < |r| && r[j] == x;
      if j < p {
        assert e[j] == x;
      } else {
        assert e[j + 1] == x;
      }
    }
  }

  lemma DeleteOther(e: Entries, r: Entries, p: int, k': string)
    requires 0 <= p < |e| && e[p].0 != k'
    requires |r| == |e| - 1
    requires forall j :: 0 <= j < p ==> r[j] == e[j]
    requires forall j :: p <= j < |r| ==> r[j] == e[j + 1]
    ensures Position(r, k') == (if Position(e, k') > p then Position(e, k') - 1 else Position(e, k'))
  {
    var q := Position(e, k');
    if q < 0 {
      PositionIs(r, k', -1);
    } else if q < p {
      PositionIs(r, k', q);
    } else {
      PositionIs(r, k', q - 1);
    }
  }

  /** `set_if_none(k, v)`: assigns only when `k` is absent. */
  function PutIfAbsent(e: Entries, k: string, v: HValue): (r: Entries)
    ensures DistinctKeys(e) ==> DistinctKeys(r)
    ensures k in Keys(e) ==> r == e
    ensures k !in Keys(e) ==> r == e + [(k, v)]
  {
    if Lookup(e, k).Some? then e else Put(e, k, v)
  }

  /** The assignments `self[key] = value` of `__init__`, in order. */
  function PutAll(e: Entries, items: Entries): (r: Entries)
    ensures DistinctKeys(e) ==> DistinctKeys(r)
  {
    if items == [] then e
    else
      var last := items[|items| - 1];
      Put(PutAll(e, items[..|items| - 1]), last.0, last.1)
  }

  /** Copying a dictionary, whose names are distinct, keeps its entries and
      their order. */
  lemma {:induction false} PutAllDistinct(items: Entries)
    requires DistinctKeys(items)
    ensures PutAll([], items) == items
  {
    if items != [] {
      var n := |items|;
      var init := items[..n - 1];
      var last := items[n - 1];
      FreshAtEnd(items, n);
      assert items[..n] == items;
      assert DistinctKeys(init);
      PutAllDistinct(init);
      assert Position(init, last.0) == -1;
    }
  }

  /** In a dictionary, the `n`-th name is not among the ones before it. */
  lemma FreshAtEnd(e: Entries, n: nat)
    requires DistinctKeys(e) && 0 < n <= |e|
    ensures e[n - 1].0 !in Keys(e[..n - 1])
    ensures e[..n - 1] + [e[n - 1]] == e[..n]
  {
    var prior := e[..n - 1];
    forall j | 0 <= j < |prior| ensures prior[j].0 != e[n - 1].0 {
      assert prior[j] == e[j];
    }
  }

  /** One more item assigned. */
  lemma PutAllNext(items: Entries, i: nat)
    requires i < |items|
    ensures PutAll([], items[..i + 1]) == Put(PutAll([], items[..i]), items[i].0, items[i].1)
  {
    assert items[..i + 1][..i] == items[..i] && items[..i + 1][i] == items[i];
  }

  // ---------------------------------------------------------------------
  // Rendering: `to_str` and `to_bytes`

  /** `f'{key}: {value}'`. */
  function FieldLine(k: string, v: HValue): string {
    k + ": " + Text(v)
  }

  /** A field line is the name, `: ` and the value's text; its first colon
      is the one after the name when the name has none. */
  lemma FieldLineLayout(k: string, v: HValue)
    ensures var r := FieldLine(k, v);
      && |r| == |k| + 2 + |Text(v)| && r[..|k|] == k && r[|k| + 2..] == Text(v)
      && (':' !in k ==> IndexOf(r, ':') == |k|)
  {
    assert FieldLine(k, v) == k + (": " + Text(v));
    if ':' !in k {
      IndexOfAfter(k, ": " + Text(v), ':');
    }
  }

  function FieldLines(e: Entries): (r: seq<string>)
    ensures |r| == |e| && forall i :: 0 <= i < |e| ==> r[i] == FieldLine(e[i].0, e[i].1)
  {
    seq(|e|, i requires 0 <= i < |e| => FieldLine(e[i].0, e[i].1))
  }

  /** `to_str`: the field lines joined by CRLF, then an empty line. */
  function Render(e: Entries): (r: string)
    ensures e == [] ==> r == "\r\n\r\n"
    ensures |r| >= 4 && r[|r| - 4..] == "\r\n\r\n"
  {
    Join(FieldLines(e), "\r\n") + "\r\n\r\n"
  }

  /** `to_bytes`: the UTF-8 encoding of `to_str`. */
  function RenderBytes(e: Entries): (r: seq<byte>)
    ensures r == Encode(Render(e))
    ensures |r| >= 4 && r[|r| - 4..] == BlankLine
  {
    var s := Join(FieldLines(e), "\r\n");
    EncodeAppend(s, "\r\n\r\n");
    assert Encode("\r\n\r\n") == BlankLine;
    Encode(s) + BlankLine
  }

  // ---------------------------------------------------------------------
  // Parsing: `from_bytes`

  const CRLF: seq<byte> := [CR, LF]
  const BlankLine: seq<byte> := [CR, LF, CR, LF]

  /** Everything before the first empty line; all of `b` when there is none. */
  function HeaderBlock(b: seq<byte>): (r: seq<byte>)
    ensures r <= b
    ensures !Contains(b, BlankLine) ==> r == b
    ensures Contains(b, BlankLine) ==> |r| == Find(b, BlankLine)
  {
    var i := Find(b, BlankLine);
    if i < 0 then b else b[..i]
  }

  /** What one line of the block contributes. */
  datatype LineResult = NoColon | Field(name: string, value: string) | Undecodable

  /** A line without `:` is skipped; otherwise the name is the text before
      the first `:` and the value the text after it, each decoded as UTF-8
      (failing as `UnicodeDecodeError` does) and stripped. */
  function ReadLine(line: seq<byte>): (r: LineResult)
    ensures r == NoColon <==> COLON !in line
    ensures r.Field? ==> Trimmed(r.name) && Trimmed(r.value)
  {
    if COLON !in line then NoColon
    else
      var i := IndexOf(line, COLON);
      match Decode(line[..i])
      case None => Undecodable
      case Some(name) =>
        match Decode(line[i + 1..])
        case None => Undecodable
        case Some(value) =>
          StripResult(name);
          StripResult(value);
          Field(Strip(name), Strip(value))
  }

  /** A line whose first `:` is at `i`, with both sides decodable. */
  lemma ReadLineIs(line: seq<byte>, i: int, name: string, value: string)
    requires 0 <= i < |line| && IndexOf(line, COLON) == i
    requires Decode(line[..i]) == Some(name) && Decode(line[i + 1..]) == Some(value)
    ensures ReadLine(line) == Field(Strip(name), Strip(value))
  {
  }

  /** The value stored for a field: a repeated name merges into
      `str(old) + ',' + value` (section 4.2 of RFC 2616); a first value made
      of digits is stored as its int, any other as a string. */
  function FieldValue(e: Entries, name: string, value: string): (v: HValue)
    ensures Lookup(e, name).Some? ==> v == Str(Text(Lookup(e, name).value) + "," + value)
    ensures Lookup(e, name).None? && IsDigits(value) ==> v.Int? && v.i >= 0 && ParseInt(value) == Some(v.i)
    ensures Lookup(e, name).None? && !IsDigits(value) ==> v == Str(value)
  {
    match Lookup(e, name)
    case Some(prior) => Str(Text(prior) + "," + value)
    case None =>
      if IsDigits(value) then
        ParseIntDigits(value);
        Int(DigitsValue(value))
      else Str(value)
  }

  /** One line applied to the entries so far; `None` on a decoding failure. */
  function AddLine(e: Entries, line: seq<byte>): (r: Option<Entries>)
    ensures ReadLine(line).NoColon? ==> r == Some(e)
    ensures ReadLine(line).Undecodable? ==> r == None
    ensures ReadLine(line).Field? ==> r == Some(Put(e, ReadLine(line).name, FieldValue(e, ReadLine(line).name, ReadLine(line).value)))
  {
    match ReadLine(line)
    case NoColon => Some(e)
    case Undecodable => None
    case Field(name, value) => Some(Put(e, name, FieldValue(e, name, value)))
  }

  /** The lines applied in order, from an empty dictionary. */
  function ApplyLines(lines: seq<seq<byte>>): (r: Option<Entries>)
    ensures r.Some? ==> DistinctKeys(r.value)
  {
    if lines == [] then Some([])
    else
      match ApplyLines(lines[..|lines| - 1])
      case None => None
      case Some(e) => AddLine(e, lines[|lines| - 1])
  }

  /** `Headers.from_bytes(b)`; `None` where decoding raises. */
  function ParseHeaders(b: seq<byte>): (r: Option<Entries>)
    ensures r.Some? ==> DistinctKeys(r.value)
  {
    ApplyLines(Split(HeaderBlock(b), CRLF))
  }

  /** Once a line fails to decode, so does the whole block. */
  lemma {:induction false} ApplyLinesStuck(lines: seq<seq<byte>>, n: nat)
    requires n <= |lines| && ApplyLines(lines[..n]) == None
    ensures ApplyLines(lines) == None
    decreases |lines| - n
  {
    if n < |lines| {
      assert lines[..n + 1][..n] == lines[..n];
      ApplyLinesStuck(lines, n + 1);
    } else {
      assert lines[..n] == lines;
    }
  }

  /** One more line is one more `AddLine`. */
  lemma ApplyLinesNext(lines: seq<seq<byte>>, i: nat)
    requires i < |lines|
    ensures ApplyLines(lines[..i + 1]) ==
      match ApplyLines(lines[..i])
      case None => None
      case Some(e) => AddLine(e, lines[i])
  {
    assert lines[..i + 1][..i] == lines[..i] && lines[..i + 1][i] == lines[i];
  }

  /** The line read at its first colon. */
  lemma LineRead(line: seq<byte>, colon: int, name: Option<string>, value: Option<string>)
    requires COLON in line && colon == IndexOf(line, COLON)
    requires name == Decode(line[..colon]) && value == Decode(line[colon + 1..])
    ensures name.None? || value.None? <==> ReadLine(line) == Undecodable
    ensures name.Some? && value.Some? ==> ReadLine(line) == Field(Strip(name.value), Strip(value.value))
  {
  }

  /** A line naming a field adds it to the dictionary read so far. */
  lemma StepField(lines: seq<seq<byte>>, i: nat, e: Entries, k: string, v: string)
    requires i < |lines| && ApplyLines(lines[..i]) == Some(e) && ReadLine(lines[i]) == Field(k, v)
    ensures ApplyLines(lines[..i + 1]) == Some(Put(e, k, FieldValue(e, k, v)))
  {
    ApplyLinesNext(lines, i);
  }

  /** A line without a colon changes nothing. */
  lemma StepNoColon(lines: seq<seq<byte>>, i: nat, e: Entries)
    requires i < |lines| && ApplyLines(lines[..i]) == Some(e) && COLON !in lines[i]
    ensures ApplyLines(lines[..i + 1]) == Some(e)
  {
    ApplyLinesNext(lines, i);
  }

  /** A line that does not decode fails the whole block. */
  lemma StepStuck(lines: seq<seq<byte>>, i: nat, e: Entries)
    requires i < |lines| && ApplyLines(lines[..i]) == Some(e) && ReadLine(lines[i]) == Undecodable
    ensures ApplyLines(lines) == None
  {
    ApplyLinesNext(lines, i);
    ApplyLinesStuck(lines, i + 1);
  }

  // ---------------------------------------------------------------------
  // The object

  class Headers {
    var entries: Entries

    ghost predicate Valid()
      reads this
    {
      DistinctKeys(entries)
    }

    /** `Headers(mapping)`: the mapping's items assigned in order. */
    constructor(items: Entries)
      ensures entries == PutAll([], items)
      ensures Valid()
      ensures DistinctKeys(items) ==> entries == items
    {
      entries := [];
      new;
      var i := 0;
      while i < |items|
        invariant 0 <= i <= |items|
        invariant entries == PutAll([], items[..i])
      {
        Set(items[i].0, items[i].1);
        PutAllNext(items, i);
        i := i + 1;
      }
      assert items[..i] == items;
      if DistinctKeys(items) {
        PutAllDistinct(items);
      }
    }

    /** `headers.get(k)`. */
    function Get(k: string): (r: Option<HValue>)
      reads this
      ensures r.Some? <==> k in Keys(entries)
      ensures r.Some? ==> (k, r.value) in entries
    {
      Lookup(entries, k)
    }

    /** `headers[k] = v`. */
    method Set(k: string, v: HValue)
      modifies this
      ensures entries == Put(old(entries), k, v)
      ensures old(Valid()) ==> Valid()
    {
      entries := Put(entries, k, v);
    }

    /** `headers.set_if_none(k, v)`. */
    method SetIfNone(k: string, v: HValue)
      modifies this
      ensures entries == PutIfAbsent(old(entries), k, v)
      ensures old(Valid()) ==> Valid()
    {
      if Get(k).None? {
        Set(k, v);
      }
    }

    /** `headers.remove_header(k)`. */
    method RemoveHeader(k: string)
      modifies this
      ensures entries == Delete(old(entries), k)
      ensures old(Valid()) ==> Valid()
    {
      entries := Delete(entries, k);
    }

    /** `headers.to_str()`. */
    function ToStr(): (r: string)
      reads this
      ensures r == Render(entries)
    {
      Render(entries)
    }

    /** `headers.to_bytes()`. */
    function ToBytes(): (r: seq<byte>)
      reads this
      ensures r == Encode(ToStr())
    {
      RenderBytes(entries)
    }

    /** One `name: value` line of `from_bytes`: merged with an existing
        value, stored as an int when it is made of digits, as a string
        otherwise. */
    method AddField(name: string, value: string)
      modifies this
      ensures entries == Put(old(entries), name, FieldValue(old(entries), name, value))
    {
      var existing := Get(name);
      if existing.Some? {
        Set(name, Str(Text(existing.value) + "," + value));
      } else if IsDigits(value) {
        Set(name, Int(DigitsValue(value)));
      } else {
        Set(name, Str(value));
      }
    }

    /** `Headers.from_bytes(b)`: the block before the first empty line, split
        at CRLF, each line inserted or merged in turn. `None` where decoding
        raises. */
    static method FromBytes(b: seq<byte>) returns (r: Option<Headers>)
      ensures r.Some? <==> ParseHeaders(b).Some?
      ensures r.Some? ==> fresh(r.value) && r.value.entries == ParseHeaders(b).value && r.value.Valid()
    {
      var block := b;
      var cut := Find(b, BlankLine);
      if cut >= 0 {
        block := b[..cut];
      }
      var lines := Split(block, CRLF);
      assert lines == Split(HeaderBlock(b), CRLF);
      var h := new Headers([]);
      var i := 0;
      while i < |lines|
        invariant 0 <= i <= |lines|
        invariant fresh(h)
        invariant ApplyLines(lines[..i]) == Some(h.entries)
      {
        var line := lines[i];
        if COLON in line {
          var colon := IndexOf(line, COLON);
          var name := Decode(line[..colon]);
          var value := Decode(line[colon + 1..]);
          LineRead(line, colon, name, value);
          if name.None? || value.None? {
            StepStuck(lines, i, h.entries);
            return None;
          }
          StepField(lines, i, h.entries, Strip(name.value), Strip(value.value));
          h.AddField(Strip(name.value), Strip(value.value));
        } else {
          StepNoColon(lines, i, h.entries);
        }
        i := i + 1;
      }
      assert lines[..i] == lines;
      r := Some(h);
    }
  }
}
