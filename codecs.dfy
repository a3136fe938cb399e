/**
 * Bytes, and the two text codecs the client uses: Python's strict UTF-8
 * (`str.encode()`, `bytes.decode()`) and strict ASCII (`str.encode('ascii')`).
 * A Dafny `char` is a Unicode scalar value, so every string has a UTF-8
 * encoding; decoding fails exactly on byte sequences that are not the
 * encoding of any string (truncated, overlong, surrogate or out-of-range
 * sequences), as Python's strict decoder does.
 */
module Codecs {
  import opened Wrappers

  newtype byte = b: int | 0 <= b < 256

  /** Byte values of the ASCII characters the protocol uses as delimiters. */
  const CR: byte := 13
  const LF: byte := 10
  const COLON: byte := 58

  // ---------------------------------------------------------------------
  // UTF-8 encoding

  /** The UTF-8 encoding of one character: 1 to 4 bytes; only an ASCII
      character is encoded as a single byte, and that byte is its code. */
  function EncodeChar(c: char): (r: seq<byte>)
    ensures 1 <= |r| <= 4
    ensures (c as int < 0x80) == (|r| == 1)
    ensures |r| == 1 ==> r[0] as int == c as int
    ensures |r| > 1 ==> forall i :: 0 <= i < |r| ==> r[i] >= 0x80
  {
    var n := c as int;
    if n < 0x80 then [n as byte]
    else if n < 0x800 then [(0xC0 + n / 64) as byte, (0x80 + n % 64) as byte]
    else if n < 0x10000 then
      [(0xE0 + n / 64 / 64) as byte, (0x80 + n / 64 % 64) as byte, (0x80 + n % 64) as byte]
    else
      [(0xF0 + n / 64 / 64 / 64) as byte, (0x80 + n / 64 / 64 % 64) as byte,
       (0x80 + n / 64 % 64) as byte, (0x80 + n % 64) as byte]
  }

  /** `s.encode('utf-8')`. */
  function Encode(s: string): seq<byte> {
    if s == [] then [] else EncodeChar(s[0]) + Encode(s[1..])
  }

  /** Each character takes one to four bytes. */
  lemma {:induction false} EncodeLength(s: string)
    ensures |s| <= |Encode(s)| <= 4 * |s|
  {
    if s != [] {
      EncodeLength(s[1..]);
    }
  }

  lemma {:induction false} EncodeAppend(a: string, b: string)
    ensures Encode(a + b) == Encode(a) + Encode(b)
  {
    if a != [] {
      calc {
        Encode(a + b);
        EncodeChar((a + b)[0]) + Encode((a + b)[1..]);
        { assert (a + b)[0] == a[0] && (a + b)[1..] == a[1..] + b; }
        EncodeChar(a[0]) + Encode(a[1..] + b);
        { EncodeAppend(a[1..], b); }
        EncodeChar(a[0]) + (Encode(a[1..]) + Encode(b));
        Encode(a) + Encode(b);
      }
    } else {
      assert a + b == b;
    }
  }

  /** An ASCII character absent from a string has its byte absent from the
      string's encoding: multi-byte encodings use only bytes from 0x80 up. */
  lemma {:induction false} EncodeAvoidsAscii(s: string, c: char)
    requires c as int < 0x80 && c !in s
    ensures (c as int) as byte !in Encode(s)
  {
    if s != [] {
      EncodeAvoidsAscii(s[1..], c);
      assert s[0] != c;
    }
  }

  /** A string of ASCII characters is encoded byte for byte. */
  predicate IsAscii(s: string) {
    forall i :: 0 <= i < |s| ==> s[i] as int < 0x80
  }

  /** A concatenation is ASCII exactly when both parts are. */
  lemma AsciiConcat(a: string, b: string)
    ensures IsAscii(a + b) <==> IsAscii(a) && IsAscii(b)
  {
    if IsAscii(a + b) {
      forall i | 0 <= i < |a| ensures a[i] as int < 0x80 {
        assert (a + b)[i] == a[i];
      }
      forall i | 0 <= i < |b| ensures b[i] as int < 0x80 {
        assert (a + b)[|a| + i] == b[i];
      }
    }
  }

  lemma {:induction false} EncodeAscii(s: string)
    requires IsAscii(s)
    ensures |Encode(s)| == |s|
    ensures forall i :: 0 <= i < |s| ==> Encode(s)[i] as int == s[i] as int
  {
    if s != [] {
      EncodeAscii(s[1..]);
      assert IsAscii(s[1..]) by {
        forall i | 0 <= i < |s| - 1 ensures s[1..][i] as int < 0x80 {
          assert s[i + 1] as int < 0x80;
        }
      }
      assert s[0] as int < 0x80;
    }
  }

  // ---------------------------------------------------------------------
  // Strict UTF-8 decoding

  predicate IsContinuation(b: byte) {
    0x80 <= b < 0xC0
  }

  /** Six payload bits are appended below `q`. */
  lemma DivMod64(q: int, r: int)
    requires 0 <= r < 64
    ensures (q * 64 + r) / 64 == q && (q * 64 + r) % 64 == r
  {
  }

  function Decode2(b0: byte, b1: byte): (c: char)
    requires 0xC2 <= b0 <= 0xDF && IsContinuation(b1)
    ensures EncodeChar(c) == [b0, b1]
  {
    var n := (b0 as int - 0xC0) * 64 + (b1 as int - 0x80);
    DivMod64(b0 as int - 0xC0, b1 as int - 0x80);
    n as char
  }

  function Decode3(b0: byte, b1: byte, b2: byte): (c: char)
    requires 0xE0 <= b0 <= 0xEF && IsContinuation(b1) && IsContinuation(b2)
    requires b0 == 0xE0 ==> b1 >= 0xA0
    requires b0 == 0xED ==> b1 < 0xA0
    ensures EncodeChar(c) == [b0, b1, b2]
  {
    var hi := (b0 as int - 0xE0) * 64 + (b1 as int - 0x80);
    var n := hi * 64 + (b2 as int - 0x80);
    DivMod64(hi, b2 as int - 0x80);
    DivMod64(b0 as int - 0xE0, b1 as int - 0x80);
    n as char
  }

  function Decode4(b0: byte, b1: byte, b2: byte, b3: byte): (c: char)
    requires 0xF0 <= b0 <= 0xF4 && IsContinuation(b1) && IsContinuation(b2) && IsContinuation(b3)
    requires b0 == 0xF0 ==> b1 >= 0x90
    requires b0 == 0xF4 ==> b1 < 0x90
    ensures EncodeChar(c) == [b0, b1, b2, b3]
  {
    var top := (b0 as int - 0xF0) * 64 + (b1 as int - 0x80);
    var hi := top * 64 + (b2 as int - 0x80);
    var n := hi * 64 + (b3 as int - 0x80);
    DivMod64(hi, b3 as int - 0x80);
    DivMod64(top, b2 as int - 0x80);
    DivMod64(b0 as int - 0xF0, b1 as int - 0x80);
    n as char
  }

  /** The character encoded at the start of `b` and the number of bytes its
      encoding takes, or `None` when `b` does not start with a well-formed
      UTF-8 sequence. What it decodes re-encodes to the bytes it consumed. */
  function DecodeFirst(b: seq<byte>): (r: Option<(char, nat)>)
    requires |b| > 0
    ensures r.Some? ==> 1 <= r.value.1 <= |b| && EncodeChar(r.value.0) == b[..r.value.1]
  {
    var b0 := b[0];
    if b0 < 0x80 then
      Some((b0 as int as char, 1))
    else if 0xC2 <= b0 <= 0xDF then
      if |b| >= 2 && IsContinuation(b[1]) then
        Some((Decode2(b0, b[1]), 2))
      else None
    else if 0xE0 <= b0 <= 0xEF then
      if && |b| >= 3 && IsContinuation(b[1]) && IsContinuation(b[2])
         && (b0 == 0xE0 ==> b[1] >= 0xA0) && (b0 == 0xED ==> b[1] < 0xA0)
      then
        Some((Decode3(b0, b[1], b[2]), 3))
      else None
    else if 0xF0 <= b0 <= 0xF4 then
      if && |b| >= 4 && IsContinuation(b[1]) && IsContinuation(b[2]) && IsContinuation(b[3])
         && (b0 == 0xF0 ==> b[1] >= 0x90) && (b0 == 0xF4 ==> b[1] < 0x90)
      then
        Some((Decode4(b0, b[1], b[2], b[3]), 4))
      else None
    else None
  }

  /** `b.decode('utf-8')` in strict mode; `None` where Python raises
      `UnicodeDecodeError`. Whatever it returns encodes back to `b`. */
  function Decode(b: seq<byte>): (r: Option<string>)
    ensures r.Some? ==> Encode(r.value) == b
    decreases |b|
  {
    if b == [] then Some([])
    else
      match DecodeFirst(b)
      case None => None
      case Some((c, n)) =>
        match Decode(b[n..])
        case None => None
        case Some(rest) =>
          EncodeCons(b, c, n, rest);
          Some([c] + rest)
  }

  /** A character whose encoding starts `b`, followed by a text whose
      encoding is the rest of `b`, encodes as `b`. */
  lemma EncodeCons(b: seq<byte>, c: char, n: nat, rest: string)
    requires n <= |b| && EncodeChar(c) == b[..n] && Encode(rest) == b[n..]
    ensures Encode([c] + rest) == b
  {
    assert ([c] + rest)[0] == c && ([c] + rest)[1..] == rest;
    assert b == b[..n] + b[n..];
  }

  /** Decoding reads back the character that starts an encoding. */
  lemma DecodeFirstEncodeChar(c: char, rest: seq<byte>)
    ensures DecodeFirst(EncodeChar(c) + rest) == Some((c, |EncodeChar(c)|))
  {
    var n := c as int;
    if n < 0x80 {
      assert (EncodeChar(c) + rest)[0] == EncodeChar(c)[0];
    } else if n < 0x800 {
      DecodeFirstTwo(c, rest);
    } else if n < 0x10000 {
      DecodeFirstThree(c, rest);
    } else {
      DecodeFirstFour(c, rest);
    }
  }

  lemma DecodeFirstTwo(c: char, rest: seq<byte>)
    requires 0x80 <= c as int < 0x800
    ensures DecodeFirst(EncodeChar(c) + rest) == Some((c, 2))
  {
    var e := EncodeChar(c);
    var b := e + rest;
    assert b[0] == e[0] && b[1] == e[1];
  }

  lemma DecodeFirstThree(c: char, rest: seq<byte>)
    requires 0x800 <= c as int < 0x10000
    ensures DecodeFirst(EncodeChar(c) + rest) == Some((c, 3))
  {
    var e := EncodeChar(c);
    var b := e + rest;
    assert b[0] == e[0] && b[1] == e[1] && b[2] == e[2];
  }

  lemma DecodeFirstFour(c: char, rest: seq<byte>)
    requires 0x10000 <= c as int
    ensures DecodeFirst(EncodeChar(c) + rest) == Some((c, 4))
  {
    var e := EncodeChar(c);
    var b := e + rest;
    assert b[0] == e[0] && b[1] == e[1] && b[2] == e[2] && b[3] == e[3];
  }


  /** `s.encode().decode() == s`. */
  lemma {:induction false} DecodeEncode(s: string)
    ensures Decode(Encode(s)) == Some(s)
  {
    if s != [] {
      var e := EncodeChar(s[0]);
      DecodeFirstEncodeChar(s[0], Encode(s[1..]));
      assert (e + Encode(s[1..]))[|e|..] == Encode(s[1..]);
      DecodeEncode(s[1..]);
      assert [s[0]] + s[1..] == s;
    }
  }

  // ---------------------------------------------------------------------
  // Strict ASCII encoding

  /** `s.encode('ascii')`; `None` where Python raises `UnicodeEncodeError`.
      On ASCII text it agrees with UTF-8. */
  function AsciiEncode(s: string): (r: Option<seq<byte>>)
    ensures r.Some? <==> IsAscii(s)
    ensures r.Some? ==> r.value == Encode(s)
  {
    if IsAscii(s) then
      EncodeAscii(s);
      Some(seq(|s|, i requires 0 <= i < |s| => s[i] as int as byte))
    else None
  }
}
