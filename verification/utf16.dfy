/**
 * Java strings are sequences of UTF-16 code units, and commons-lang's
 * `escapeJava` walks them unit by unit. This module encodes Dafny strings
 * (sequences of Unicode scalar values) as UTF-16 and decodes them back.
 */
module Utf16 {
  import opened JavaLang

  /** One UTF-16 code unit, a Java `char`. */
  type Unit = u: int | 0 <= u < 0x1_0000

  predicate IsHighSurrogate(u: int) { 0xD800 <= u < 0xDC00 }

  predicate IsLowSurrogate(u: int) { 0xDC00 <= u < 0xE000 }

  /** The scalar value a surrogate pair stands for. */
  function Combine(hi: int, lo: int): int {
    0x1_0000 + (hi - 0xD800) * 0x400 + (lo - 0xDC00)
  }

  /** The one or two units that stand for `c`. */
  function EncodeChar(c: char): (r: seq<Unit>)
    ensures |r| == 1 <==> c as int < 0x1_0000
    ensures |r| == 1 ==> r[0] == c as int && !IsHighSurrogate(r[0]) && !IsLowSurrogate(r[0])
    ensures |r| == 2 ==> IsHighSurrogate(r[0]) && IsLowSurrogate(r[1])
    ensures |r| == 2 ==> Combine(r[0], r[1]) == c as int
  {
    var v := c as int;
    if v < 0x1_0000 then [v]
    else [0xD800 + (v - 0x1_0000) / 0x400, 0xDC00 + (v - 0x1_0000) % 0x400]
  }

  /** The units of a whole string, in order. */
  function Encode(s: string): (r: seq<Unit>)
    ensures |s| <= |r| <= 2 * |s|
  {
    if s == [] then [] else EncodeChar(s[0]) + Encode(s[1..])
  }

  /** Reads units back into characters; a lone surrogate is malformed. */
  function Decode(us: seq<Unit>): Option<string>
    decreases |us|
  {
    if us == [] then Some([])
    else if IsHighSurrogate(us[0]) then
      if 2 <= |us| && IsLowSurrogate(us[1]) then
        var c := Combine(us[0], us[1]) as char;
        match Decode(us[2..])
        case None => None
        case Some(rest) => Some([c] + rest)
      else None
    else if IsLowSurrogate(us[0]) then None
    else
      match Decode(us[1..])
      case None => None
      case Some(rest) => Some([us[0] as char] + rest)
  }

  lemma EncodeAppend(a: string, b: string)
    ensures Encode(a + b) == Encode(a) + Encode(b)
  {
    if a == [] {
      assert a + b == b;
    } else {
      assert (a + b)[0] == a[0];
      assert (a + b)[1..] == a[1..] + b;
      EncodeAppend(a[1..], b);
      calc {
        Encode(a + b);
        EncodeChar(a[0]) + Encode(a[1..] + b);
        EncodeChar(a[0]) + (Encode(a[1..]) + Encode(b));
        (EncodeChar(a[0]) + Encode(a[1..])) + Encode(b);
      }
    }
  }

  /** Decoding undoes encoding, for every string. */
  lemma {:induction false} DecodeEncode(s: string)
    ensures Decode(Encode(s)) == Some(s)
  {
    if s != [] {
      var us := EncodeChar(s[0]);
      var rest := Encode(s[1..]);
      assert Encode(s) == us + rest;
      DecodeEncode(s[1..]);
      if |us| == 1 {
        assert (us + rest)[1..] == rest;
      } else {
        assert (us + rest)[2..] == rest;
      }
      assert [s[0]] + s[1..] == s;
    }
  }

  /** Encoding undoes decoding, for every well-formed sequence of units. */
  lemma {:induction false} EncodeDecode(us: seq<Unit>)
    ensures Decode(us).Some? ==> Encode(Decode(us).value) == us
    decreases |us|
  {
    if us != [] && Decode(us).Some? {
      var n := if IsHighSurrogate(us[0]) then 2 else 1;
      var c := if n == 2 then Combine(us[0], us[1]) as char else us[0] as char;
      var rest := Decode(us[n..]).value;
      EncodeDecode(us[n..]);
      if n == 2 {
        SplitPair(us[0], us[1]);
      }
      assert EncodeChar(c) == us[..n];
      assert Decode(us).value == [c] + rest;
      assert ([c] + rest)[0] == c && ([c] + rest)[1..] == rest;
      assert us == us[..n] + us[n..];
    }
  }

  /** The surrogates of a pair are recovered from the scalar value it stands for. */
  lemma SplitPair(hi: int, lo: int)
    requires IsHighSurrogate(hi) && IsLowSurrogate(lo)
    ensures (Combine(hi, lo) - 0x1_0000) / 0x400 == hi - 0xD800
    ensures (Combine(hi, lo) - 0x1_0000) % 0x400 == lo - 0xDC00
  {
  }

  /** Hence two strings with the same units are the same string. */
  lemma EncodeInjective(a: string, b: string)
    requires Encode(a) == Encode(b)
    ensures a == b
  {
    DecodeEncode(a);
    DecodeEncode(b);
  }
}
