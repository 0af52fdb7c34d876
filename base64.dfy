/**
  Go's `encoding/base64` standard encoding (section 4 of RFC 4648, padded,
  not strict): `StdEncoding.DecodeString` and the matching encoder.

  The decoder works four characters at a time. Carriage returns and line
  feeds are skipped wherever they appear, so decoding is defined on the text
  with those removed. On a malformed quantum it stops, reports an error, and
  still returns the bytes of the quanta decoded before it (and, for padding
  followed by trailing characters, the bytes of the padded quantum).
 */
module Base64 {

  newtype byte = x: int | 0 <= x < 256

  const Pad: char := '='

  /** The 64 characters of the standard alphabet. */
  predicate IsSymbol(c: char)
  {
    ('A' <= c <= 'Z') || ('a' <= c <= 'z') || ('0' <= c <= '9') || c == '+' || c == '/'
  }

  /** The six-bit value of an alphabet character (the decoder's lookup table). */
  function Value(c: char): (v: int)
    requires IsSymbol(c)
    ensures 0 <= v < 64
  {
    if 'A' <= c <= 'Z' then c as int - 'A' as int
    else if 'a' <= c <= 'z' then c as int - 'a' as int + 26
    else if '0' <= c <= '9' then c as int - '0' as int + 52
    else if c == '+' then 62
    else 63
  }

  /** The alphabet character of a six-bit value; `Value` reads it back. */
  function Symbol(v: int): (c: char)
    requires 0 <= v < 64
    ensures IsSymbol(c) && Value(c) == v
  {
    if v < 26 then ('A' as int + v) as char
    else if v < 52 then ('a' as int + v - 26) as char
    else if v < 62 then ('0' as int + v - 52) as char
    else if v == 62 then '+'
    else '/'
  }

  /** The text with every '\r' and '\n' removed. */
  function StripNewlines(s: string): (t: string)
    ensures '\r' !in t && '\n' !in t
    ensures |t| <= |s|
  {
    if |s| == 0 then ""
    else if s[0] == '\r' || s[0] == '\n' then StripNewlines(s[1..])
    else [s[0]] + StripNewlines(s[1..])
  }

  /**
    The three bytes of one quantum of four six-bit values, as Go assembles
    them: a 24-bit value split into its high, middle and low byte.
   */
  function QuantumBytes(a: int, b: int, c: int, d: int): seq<byte>
    requires 0 <= a < 64 && 0 <= b < 64 && 0 <= c < 64 && 0 <= d < 64
  {
    var v := a * 262144 + b * 4096 + c * 64 + d;
    [(v / 65536) as byte, (v / 256 % 256) as byte, (v % 256) as byte]
  }

  /** The bytes decoded so far and whether decoding finished without error. */
  datatype Decoded = Decoded(bytes: seq<byte>, ok: bool)

  /** Decoding of text without line breaks, quantum by quantum. */
  function DecodeQuanta(t: string): Decoded
    decreases |t|
  {
    if |t| == 0 then Decoded([], true)
    else if |t| < 2 || !IsSymbol(t[0]) || !IsSymbol(t[1]) || |t| == 2 then Decoded([], false)
    else if t[2] == Pad then
      // "xx==": one byte, then nothing may follow
      if |t| == 3 || t[3] != Pad then Decoded([], false)
      else Decoded(QuantumBytes(Value(t[0]), Value(t[1]), 0, 0)[..1], |t| == 4)
    else if !IsSymbol(t[2]) || |t| == 3 then Decoded([], false)
    else if t[3] == Pad then
      // "xxx=": two bytes, then nothing may follow
      Decoded(QuantumBytes(Value(t[0]), Value(t[1]), Value(t[2]), 0)[..2], |t| == 4)
    else if !IsSymbol(t[3]) then Decoded([], false)
    else
      var rest := DecodeQuanta(t[4..]);
      Decoded(QuantumBytes(Value(t[0]), Value(t[1]), Value(t[2]), Value(t[3])) + rest.bytes, rest.ok)
  }

  /** `StdEncoding.DecodeString(s)`: the returned bytes and whether `err` was nil. */
  function DecodeString(s: string): Decoded
  {
    DecodeQuanta(StripNewlines(s))
  }

  /** The four characters that encode three bytes. */
  function EncodeQuantum(x: byte, y: byte, z: byte): string
  {
    [Symbol(x as int / 4), Symbol(x as int % 4 * 16 + y as int / 16),
     Symbol(y as int % 16 * 4 + z as int / 64), Symbol(z as int % 64)]
  }

  /** `StdEncoding.EncodeToString(b)`: four characters per three bytes, padded with '='. */
  function Encode(b: seq<byte>): string
    decreases |b|
  {
    if |b| == 0 then ""
    else if |b| == 1 then
      [Symbol(b[0] as int / 4), Symbol(b[0] as int % 4 * 16), Pad, Pad]
    else if |b| == 2 then
      [Symbol(b[0] as int / 4), Symbol(b[0] as int % 4 * 16 + b[1] as int / 16),
       Symbol(b[1] as int % 16 * 4), Pad]
    else
      EncodeQuantum(b[0], b[1], b[2]) + Encode(b[3..])
  }

  /**
    Success needs a length that is a multiple of four, and the output never
    exceeds three bytes per four characters (the buffer `DecodeString`
    allocates).
   */
  lemma {:induction false} DecodeQuantaBounds(t: string)
    ensures DecodeQuanta(t).ok ==> |t| % 4 == 0
    ensures |DecodeQuanta(t).bytes| <= |t| / 4 * 3
    decreases |t|
  {
    if |t| >= 4 && IsSymbol(t[0]) && IsSymbol(t[1]) && IsSymbol(t[2]) && IsSymbol(t[3]) {
      DecodeQuantaBounds(t[4..]);
      QuantumLength(|t| - 4);
    } else if |t| >= 4 {
      QuantumLength(|t| - 4);
    }
  }

  /** One more quantum adds one to the quotient by four and leaves the remainder. */
  lemma QuantumLength(n: nat)
    ensures (n + 4) / 4 == n / 4 + 1 && (n + 4) % 4 == n % 4
  {
  }

  /** The encoding has four characters per three bytes, rounded up, all from the alphabet or padding. */
  lemma {:induction false} EncodeShape(b: seq<byte>)
    ensures |Encode(b)| == (|b| + 2) / 3 * 4
    ensures forall i :: 0 <= i < |Encode(b)| ==> IsSymbol(Encode(b)[i]) || Encode(b)[i] == Pad
    decreases |b|
  {
    if |b| >= 3 {
      EncodeShape(b[3..]);
      ByteGroups(|b| - 3);
      var q := EncodeQuantum(b[0], b[1], b[2]);
      assert Encode(b) == q + Encode(b[3..]);
      assert forall i :: 0 <= i < |q| ==> IsSymbol(q[i]);
    }
  }

  /** Three more bytes make one more group of three, rounded up. */
  lemma ByteGroups(n: nat)
    ensures (n + 5) / 3 == (n + 2) / 3 + 1
  {
  }

  /** Splitting three bytes into four six-bit values and assembling them again gives the bytes back. */
  lemma QuantumRoundTrip(x: byte, y: byte, z: byte)
    ensures QuantumBytes(x as int / 4, x as int % 4 * 16 + y as int / 16,
                         y as int % 16 * 4 + z as int / 64, z as int % 64) == [x, y, z]
  {
    var i, j, k := x as int, y as int, z as int;
    var v := (i / 4) * 262144 + (i % 4 * 16 + j / 16) * 4096 + (j % 16 * 4 + k / 64) * 64 + k % 64;
    assert v == i * 65536 + j * 256 + k;
    assert v / 65536 == i;
    assert v / 256 == i * 256 + j;
    assert v / 256 % 256 == j;
    assert v % 256 == k;
  }

  /** Text without line breaks is decoded as it stands. */
  lemma {:induction false} NoNewlinesUnchanged(s: string)
    requires '\r' !in s && '\n' !in s
    ensures StripNewlines(s) == s
  {
    if |s| > 0 {
      NoNewlinesUnchanged(s[1..]);
      assert s == [s[0]] + s[1..];
    }
  }

  /**
    Line breaks are dropped and nothing else: stripping two pieces of text
    one after the other is stripping each, so every other character stays,
    in order.
   */
  lemma {:induction false} StripNewlinesAppend(a: string, b: string)
    ensures StripNewlines(a + b) == StripNewlines(a) + StripNewlines(b)
    decreases |a|
  {
    if |a| == 0 {
      assert a + b == b;
    } else {
      assert (a + b)[0] == a[0];
      assert (a + b)[1..] == a[1..] + b;
      StripNewlinesAppend(a[1..], b);
    }
  }

  /** A full quantum of four alphabet characters decodes to its three bytes, then decoding goes on. */
  lemma DecodeFullQuantum(a: int, b: int, c: int, d: int, rest: string)
    requires 0 <= a < 64 && 0 <= b < 64 && 0 <= c < 64 && 0 <= d < 64
    ensures var t := [Symbol(a), Symbol(b), Symbol(c), Symbol(d)] + rest;
      DecodeQuanta(t) == Decoded(QuantumBytes(a, b, c, d) + DecodeQuanta(rest).bytes, DecodeQuanta(rest).ok)
  {
    var t := [Symbol(a), Symbol(b), Symbol(c), Symbol(d)] + rest;
    assert t[0] == Symbol(a) && t[1] == Symbol(b) && t[2] == Symbol(c) && t[3] == Symbol(d);
    assert t[4..] == rest;
  }

  /** The last quantum of a one-byte remainder: "xx==". */
  lemma DecodeOneByteTail(x: byte)
    ensures DecodeQuanta(Encode([x])) == Decoded([x], true)
  {
    var t := Encode([x]);
    assert t == [Symbol(x as int / 4), Symbol(x as int % 4 * 16), Pad, Pad];
    QuantumRoundTrip(x, 0, 0);
    assert DecodeQuanta(t).bytes == QuantumBytes(x as int / 4, x as int % 4 * 16, 0, 0)[..1];
  }

  /** The last quantum of a two-byte remainder: "xxx=". */
  lemma DecodeTwoByteTail(x: byte, y: byte)
    ensures DecodeQuanta(Encode([x, y])) == Decoded([x, y], true)
  {
    var t := Encode([x, y]);
    var a, b, c := x as int / 4, x as int % 4 * 16 + y as int / 16, y as int % 16 * 4;
    assert t == [Symbol(a), Symbol(b), Symbol(c), Pad];
    QuantumRoundTrip(x, y, 0);
    assert DecodeQuanta(t).bytes == QuantumBytes(a, b, c, 0)[..2];
  }

  /** The encoding of three or more bytes starts with the four characters of the first three. */
  lemma EncodeFirst(b: seq<byte>)
    requires |b| >= 3
    ensures Encode(b) == EncodeQuantum(b[0], b[1], b[2]) + Encode(b[3..])
  {
  }

  /** The four characters of three bytes decode to those bytes, then decoding goes on. */
  lemma DecodeFirstQuantum(x: byte, y: byte, z: byte, rest: string)
    ensures DecodeQuanta(EncodeQuantum(x, y, z) + rest)
         == Decoded([x, y, z] + DecodeQuanta(rest).bytes, DecodeQuanta(rest).ok)
  {
    var i, j, k := x as int, y as int, z as int;
    QuantumRoundTrip(x, y, z);
    DecodeFullQuantum(i / 4, i % 4 * 16 + j / 16, j % 16 * 4 + k / 64, k % 64, rest);
  }

  /** Decoding what the encoder produced gives back the bytes, without error. */
  lemma {:induction false} DecodeQuantaEncode(b: seq<byte>)
    ensures DecodeQuanta(Encode(b)) == Decoded(b, true)
    decreases |b|
  {
    if |b| == 1 {
      DecodeOneByteTail(b[0]);
      assert b == [b[0]];
    } else if |b| == 2 {
      DecodeTwoByteTail(b[0], b[1]);
      assert b == [b[0], b[1]];
    } else if |b| >= 3 {
      DecodeQuantaEncode(b[3..]);
      EncodeFirst(b);
      DecodeFirstQuantum(b[0], b[1], b[2], Encode(b[3..]));
      assert b == [b[0], b[1], b[2]] + b[3..];
    }
  }

  /** Whole quanta in front of any text decode to their bytes, then decoding goes on with the text. */
  lemma {:induction false} DecodeWholeQuanta(b: seq<byte>, rest: string)
    requires |b| % 3 == 0
    ensures DecodeQuanta(Encode(b) + rest)
         == Decoded(b + DecodeQuanta(rest).bytes, DecodeQuanta(rest).ok)
    decreases |b|
  {
    var tail := DecodeQuanta(rest);
    if |b| == 0 {
      assert Encode(b) + rest == rest;
      assert b + tail.bytes == tail.bytes;
    } else {
      DecodeWholeQuanta(b[3..], rest);
      EncodeFirstThen(b, rest);
      DecodeFirstQuantum(b[0], b[1], b[2], Encode(b[3..]) + rest);
      SplitFirstThree(b, tail.bytes);
    }
  }

  /** The encoding of three or more bytes followed by text, regrouped around its first quantum. */
  lemma EncodeFirstThen(b: seq<byte>, rest: string)
    requires |b| >= 3
    ensures Encode(b) + rest == EncodeQuantum(b[0], b[1], b[2]) + (Encode(b[3..]) + rest)
  {
    var q, e := EncodeQuantum(b[0], b[1], b[2]), Encode(b[3..]);
    EncodeFirst(b);
    assert (q + e) + rest == q + (e + rest);
  }

  /** Bytes followed by more bytes, regrouped around their first three. */
  lemma SplitFirstThree(b: seq<byte>, more: seq<byte>)
    requires |b| >= 3
    ensures b + more == [b[0], b[1], b[2]] + (b[3..] + more)
  {
    assert b == [b[0], b[1], b[2]] + b[3..];
  }

  /**
    A character outside the alphabet after whole quanta is an error, yet the
    bytes of the quanta before it are still returned.
   */
  lemma TrailingGarbage(b: seq<byte>)
    requires |b| % 3 == 0
    ensures DecodeString(Encode(b) + "!") == Decoded(b, false)
  {
    var s := Encode(b) + "!";
    EncodeShape(b);
    assert '\r' !in s && '\n' !in s;
    NoNewlinesUnchanged(s);
    DecodeWholeQuanta(b, "!");
    assert b + [] == b;
  }

  /** `DecodeString(EncodeToString(b))` returns `b` and no error. */
  lemma DecodeEncode(b: seq<byte>)
    ensures DecodeString(Encode(b)) == Decoded(b, true)
  {
    var s := Encode(b);
    EncodeShape(b);
    assert '\r' !in s && '\n' !in s;
    NoNewlinesUnchanged(s);
    DecodeQuantaEncode(b);
  }

  /**
    Missing padding is an error: text whose length, line breaks aside, is not
    a multiple of four never decodes cleanly.
   */
  lemma MissingPaddingFails(s: string)
    requires |StripNewlines(s)| % 4 != 0
    ensures !DecodeString(s).ok
  {
    DecodeQuantaBounds(StripNewlines(s));
  }
}
