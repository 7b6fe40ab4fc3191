/**
 * commons-lang `StringEscapeUtils.escapeJava`, which the appender uses to
 * embed free text in a quoted query literal, and a reader for such a
 * literal that undoes it.
 *
 * The escaper walks the UTF-16 units of its input: a quote or backslash
 * gets a backslash in front; backspace, tab, newline, form feed and
 * carriage return become their two-letter escapes; every other unit below
 * 32 and every unit above 0x7F becomes `\u` and four upper-case hex digits;
 * everything else is copied.
 */
module StringEscape {
  import opened JavaLang
  import opened Utf16

  /** The upper-case hex digit for `d`. */
  function HexDigit(d: int): (c: char)
    requires 0 <= d < 16
    ensures IsHexDigit(c) && HexValue(c) == d
  {
    if d < 10 then ('0' as int + d) as char else ('A' as int + d - 10) as char
  }

  predicate IsHexDigit(c: char) {
    '0' <= c <= '9' || 'A' <= c <= 'F' || 'a' <= c <= 'f'
  }

  function HexValue(c: char): (d: int)
    requires IsHexDigit(c)
    ensures 0 <= d < 16
  {
    if '0' <= c <= '9' then c as int - '0' as int
    else if 'A' <= c <= 'F' then c as int - 'A' as int + 10
    else c as int - 'a' as int + 10
  }

  /** Four upper-case hex digits, most significant first. */
  function Hex4(u: Unit): (r: string)
    ensures |r| == 4
  {
    var r3 := u % 0x1000;
    var r2 := r3 % 0x100;
    [HexDigit(u / 0x1000), HexDigit(r3 / 0x100), HexDigit(r2 / 0x10), HexDigit(r2 % 0x10)]
  }

  /** Reading the four digits back gives the unit. */
  lemma Hex4Value(u: Unit)
    ensures var r := Hex4(u);
            && IsHexDigit(r[0]) && IsHexDigit(r[1]) && IsHexDigit(r[2]) && IsHexDigit(r[3])
            && HexValue(r[0]) * 0x1000 + HexValue(r[1]) * 0x100 + HexValue(r[2]) * 0x10 + HexValue(r[3]) == u
  {
  }

  /** A unit that the escaper copies unchanged. */
  predicate IsPlain(u: int) {
    32 <= u <= 0x7F && u != '"' as int && u != '\\' as int
  }

  /** The escape of one UTF-16 unit. */
  function EscapeUnit(u: Unit): (r: string)
    ensures IsPlain(u) ==> r == [u as char]
    ensures !IsPlain(u) ==> |r| >= 2 && r[0] == '\\'
    ensures forall i :: 0 <= i < |r| ==> 32 <= r[i] as int <= 0x7F
  {
    if u > 0x7F then "\\u" + Hex4(u)
    else if u < 32 then
      if u == 8 then "\\b"
      else if u == 10 then "\\n"
      else if u == 9 then "\\t"
      else if u == 12 then "\\f"
      else if u == 13 then "\\r"
      else "\\u" + Hex4(u)
    else if u == '"' as int then "\\\""
    else if u == '\\' as int then "\\\\"
    else [u as char]
  }

  /** The escape of one character: the escapes of its one or two UTF-16 units. */
  function EscapeChar(c: char): (r: string)
    ensures 32 <= c as int <= 0x7F && c != '"' && c != '\\' ==> r == [c]
    ensures forall i :: 0 <= i < |r| ==> 32 <= r[i] as int <= 0x7F
  {
    var us := EncodeChar(c);
    if |us| == 1 then EscapeUnit(us[0]) else EscapeUnit(us[0]) + EscapeUnit(us[1])
  }

  /** `escapeJava` on a non-null string, character by character. */
  function Escape(s: string): (r: string)
    ensures |s| <= |r|
  {
    if s == [] then [] else EscapeChar(s[0]) + Escape(s[1..])
  }

  /** `escapeJava` on a reference: null stays null. */
  function EscapeNullable(s: JString): (r: JString)
    ensures r.Null? <==> s.Null?
    ensures s.Str? ==> r.value == Escape(s.value)
  {
    match s
    case Null => Null
    case Str(v) => Str(Escape(v))
  }

  // ---------------------------------------------------------------------------
  // Reading a quoted literal back

  /**
   * Decodes the escape sequence at the start of `t` (which starts with a
   * backslash): the unit it stands for and how many characters it spans.
   */
  function EscapeAt(t: string): (r: Option<(Unit, nat)>)
    requires 1 <= |t| && t[0] == '\\'
    ensures r.Some? ==> (r.value.1 == 2 || r.value.1 == 6) && r.value.1 <= |t|
  {
    if |t| < 2 then None
    else match t[1]
      case 'b' => Some((8, 2))
      case 't' => Some((9, 2))
      case 'n' => Some((10, 2))
      case 'f' => Some((12, 2))
      case 'r' => Some((13, 2))
      case '"' => Some((34, 2))
      case '\'' => Some((39, 2))
      case '\\' => Some((92, 2))
      case 'u' => UnicodeEscape(t)
      case _ => None
  }

  /** A `\u` escape: four hex digits after the two-character prefix. */
  function UnicodeEscape(t: string): (r: Option<(Unit, nat)>)
    requires 2 <= |t|
    ensures r.Some? ==> r.value.1 == 6 <= |t|
  {
    if 6 <= |t| && IsHexDigit(t[2]) && IsHexDigit(t[3]) && IsHexDigit(t[4]) && IsHexDigit(t[5]) then
      Some((HexValue(t[2]) * 0x1000 + HexValue(t[3]) * 0x100 + HexValue(t[4]) * 0x10 + HexValue(t[5]), 6))
    else None
  }

  /** Prepends `us` to a read result and moves its closing index by `n`. */
  function Shift(us: seq<Unit>, n: nat, r: Option<(seq<Unit>, nat)>): Option<(seq<Unit>, nat)> {
    match r
    case None => None
    case Some((vs, k)) => Some((us + vs, n + k))
  }

  /**
   * Reads the body of a double-quoted literal that starts at the beginning
   * of `t`: decodes escape sequences up to the first quote that is not part
   * of one. Returns the decoded units and the index of that closing quote;
   * None for an unknown escape, a raw line break or a missing closing quote.
   */
  function ReadLiteral(t: string): Option<(seq<Unit>, nat)>
    decreases |t|
  {
    if t == [] then None
    else if t[0] == '"' then Some(([], 0))
    else if t[0] == '\\' then
      match EscapeAt(t)
      case None => None
      case Some((u, n)) => Shift([u], n, ReadLiteral(t[n..]))
    else if t[0] == '\n' || t[0] == '\r' then None
    else Shift(EncodeChar(t[0]), 1, ReadLiteral(t[1..]))
  }

  lemma ShiftShift(a: seq<Unit>, n: nat, b: seq<Unit>, m: nat, r: Option<(seq<Unit>, nat)>)
    ensures Shift(a, n, Shift(b, m, r)) == Shift(a + b, n + m, r)
  {
    if r.Some? {
      assert a + (b + r.value.0) == (a + b) + r.value.0;
    }
  }

  lemma ShiftNothing(r: Option<(seq<Unit>, nat)>)
    ensures Shift([], 0, r) == r
  {
    if r.Some? {
      assert [] + r.value.0 == r.value.0;
    }
  }

  lemma ReadEscapedUnit(u: Unit, t: string)
    ensures ReadLiteral(EscapeUnit(u) + t) == Shift([u], |EscapeUnit(u)|, ReadLiteral(t))
  {
    var e := EscapeUnit(u);
    if IsPlain(u) {
      assert (e + t)[1..] == t;
    } else if u > 0x7F || (u < 32 && u != 8 && u != 9 && u != 10 && u != 12 && u != 13) {
      ReadUnicodeUnit(u, t);
    } else {
      assert (e + t)[2..] == t;
    }
  }

  /** A `\u` escape reads back as its unit. */
  lemma ReadUnicodeUnit(u: Unit, t: string)
    ensures ReadLiteral("\\u" + Hex4(u) + t) == Shift([u], 6, ReadLiteral(t))
  {
    Hex4Value(u);
    assert ("\\u" + Hex4(u) + t)[6..] == t;
  }

  lemma ReadEscapedChar(c: char, t: string)
    ensures ReadLiteral(EscapeChar(c) + t) == Shift(EncodeChar(c), |EscapeChar(c)|, ReadLiteral(t))
  {
    var us := EncodeChar(c);
    ReadEscapedUnit(us[0], t);
    if |us| == 2 {
      var e0, e1 := EscapeUnit(us[0]), EscapeUnit(us[1]);
      assert EscapeChar(c) + t == e0 + (e1 + t);
      ReadEscapedUnit(us[0], e1 + t);
      ReadEscapedUnit(us[1], t);
      ShiftShift([us[0]], |e0|, [us[1]], |e1|, ReadLiteral(t));
      assert [us[0]] + [us[1]] == us;
    } else {
      assert [us[0]] == us;
    }
  }

  lemma ReadEscapedFirst(s: string, t: string)
    requires s != []
    ensures ReadLiteral(Escape(s) + t)
         == Shift(EncodeChar(s[0]), |EscapeChar(s[0])|, ReadLiteral(Escape(s[1..]) + t))
  {
    var e, rest := EscapeChar(s[0]), Escape(s[1..]);
    assert Escape(s) + t == e + (rest + t);
    ReadEscapedChar(s[0], rest + t);
  }

  lemma {:induction false} ReadEscaped(s: string, t: string)
    ensures ReadLiteral(Escape(s) + t) == Shift(Encode(s), |Escape(s)|, ReadLiteral(t))
  {
    if s == [] {
      assert Escape(s) + t == t;
      ShiftNothing(ReadLiteral(t));
    } else {
      var us, vs := EncodeChar(s[0]), Encode(s[1..]);
      var n, m := |EscapeChar(s[0])|, |Escape(s[1..])|;
      assert Encode(s) == us + vs;
      assert |Escape(s)| == n + m;
      ReadEscapedFirst(s, t);
      ReadEscaped(s[1..], t);
      ShiftShift(us, n, vs, m, ReadLiteral(t));
    }
  }

  /**
   * The escaper is safe for quoted literals and loses nothing: when an
   * escaped string is followed by a quote, a reader of the literal stops at
   * exactly that quote (nothing in the escaped text can close the literal
   * early) and recovers the original UTF-16 units.
   */
  lemma LiteralRoundTrip(s: string, rest: string)
    ensures ReadLiteral(Escape(s) + "\"" + rest) == Some((Encode(s), |Escape(s)|))
  {
    assert Escape(s) + "\"" + rest == Escape(s) + ("\"" + rest);
    ReadEscaped(s, "\"" + rest);
    assert Encode(s) + [] == Encode(s);
  }

  /** Escaping is applied character by character, so it distributes over concatenation. */
  lemma {:induction false} EscapeAppend(a: string, b: string)
    ensures Escape(a + b) == Escape(a) + Escape(b)
  {
    if a == [] {
      assert a + b == b;
    } else {
      assert (a + b)[0] == a[0];
      assert (a + b)[1..] == a[1..] + b;
      EscapeAppend(a[1..], b);
    }
  }

  /** Distinct strings have distinct escapes. */
  lemma EscapeInjective(a: string, b: string)
    requires Escape(a) == Escape(b)
    ensures a == b
  {
    LiteralRoundTrip(a, "");
    LiteralRoundTrip(b, "");
    EncodeInjective(a, b);
  }

  /** A character the escaper copies unchanged. */
  predicate IsPlainChar(c: char) {
    IsPlain(c as int)
  }

  lemma EscapeCharLength(c: char)
    ensures IsPlainChar(c) ==> |EscapeChar(c)| == 1
    ensures !IsPlainChar(c) ==> |EscapeChar(c)| >= 2
  {
  }

  /**
   * The escaper leaves a string unchanged exactly when every character
   * lies between U+0020 and U+007F and is neither the quote nor the
   * backslash; otherwise it makes it strictly longer.
   */
  lemma {:induction false} EscapeIdentity(s: string)
    ensures Escape(s) == s <==> forall i :: 0 <= i < |s| ==> IsPlainChar(s[i])
    ensures Escape(s) != s ==> |Escape(s)| > |s|
  {
    if s != [] {
      EscapeIdentity(s[1..]);
      EscapeCharLength(s[0]);
      assert Escape(s) == EscapeChar(s[0]) + Escape(s[1..]);
      if forall i :: 0 <= i < |s| ==> IsPlainChar(s[i]) {
        assert forall i :: 0 <= i < |s[1..]| ==> IsPlainChar(s[1..][i]) by {
          forall i | 0 <= i < |s[1..]| ensures IsPlainChar(s[1..][i]) {
            assert s[1..][i] == s[i + 1];
          }
        }
        assert [s[0]] + s[1..] == s;
      } else {
        var j :| 0 <= j < |s| && !IsPlainChar(s[j]);
        if j > 0 {
          assert s[1..][j - 1] == s[j];
        }
        assert |Escape(s)| > |s|;
      }
    }
  }

  /** The two-letter escapes: quote, backslash, and the five named control characters. */
  lemma EscapeTable()
    ensures Escape("\"") == "\\\""
    ensures Escape("\\") == "\\\\"
    ensures Escape([8 as char]) == "\\b"
    ensures Escape("\t") == "\\t"
    ensures Escape("\n") == "\\n"
    ensures Escape([12 as char]) == "\\f"
    ensures Escape("\r") == "\\r"
  {
    EscapeSingle('"');
    EscapeSingle('\\');
    EscapeSingle(8 as char);
    EscapeSingle('\t');
    EscapeSingle('\n');
    EscapeSingle(12 as char);
    EscapeSingle('\r');
  }

  /** Every other control character below 32 becomes `\u` and its four hex digits. */
  lemma EscapeControl(c: char)
    requires c as int < 32 && c as int != 8 && c as int != 9 && c as int != 10 && c as int != 12 && c as int != 13
    ensures Escape([c]) == "\\u" + Hex4(c as int)
  {
    EscapeSingle(c);
  }

  lemma EscapeSingle(c: char)
    ensures Escape([c]) == EscapeChar(c)
  {
    assert Escape([c]) == EscapeChar(c) + Escape([]);
  }

  /** A character of the Basic Multilingual Plane above 0x7F becomes `\u` and its four hex digits. */
  lemma EscapeNonAscii(c: char)
    requires 0x7F < c as int < 0x1_0000
    ensures Escape([c]) == "\\u" + Hex4(c as int)
  {
    EscapeSingle(c);
  }

  /**
   * A character above U+FFFF becomes the `\u` escapes of its two surrogate
   * units, high then low.
   */
  lemma EscapeSupplementary(c: char)
    requires 0x1_0000 <= c as int
    ensures var us := EncodeChar(c);
            |us| == 2 && Escape([c]) == "\\u" + Hex4(us[0]) + "\\u" + Hex4(us[1])
  {
    EscapeSingle(c);
  }

  /** A character above U+FFFF whose surrogates' hex digits are known. */
  lemma EscapePair(c: char, high: string, low: string)
    requires 0x1_0000 <= c as int
    requires Hex4(EncodeChar(c)[0]) == high && Hex4(EncodeChar(c)[1]) == low
    ensures Escape([c]) == "\\u" + high + "\\u" + low
  {
    EscapeSupplementary(c);
  }

  /** U+1F600, a face emoji, becomes the escapes of the surrogates D83D and DE00. */
  lemma EscapeEmoji()
    ensures Escape("\U{1F600}") == "\\u" + "D83D" + "\\u" + "DE00"
  {
    var us := EncodeChar('\U{1F600}');
    assert us == [0xD83D, 0xDE00];
    assert Hex4(0xD83D) == "D83D";
    assert Hex4(0xDE00) == "DE00";
    EscapePair('\U{1F600}', "D83D", "DE00");
  }

  /** A letter whose four hex digits are known. */
  lemma EscapeLetter(c: char, digits: string)
    requires 0x7F < c as int < 0x1_0000 && Hex4(c as int) == digits
    ensures Escape([c]) == "\\u" + digits
  {
    EscapeNonAscii(c);
  }

  /** The `\u` escapes of the Cyrillic letters in the service tests. */
  lemma EscapeCyrillic()
    ensures Escape("\U{444}") == "\\u0444"
    ensures Escape("\U{432}") == "\\u0432"
    ensures Escape("\U{43C}") == "\\u043C"
  {
    EscapeLetter('\U{444}', "0444");
    EscapeLetter('\U{432}', "0432");
    EscapeLetter('\U{43C}', "043C");
  }

  /** The `\u` escapes of the Latin-1 letters in the service tests. */
  lemma EscapeLatin1()
    ensures Escape("\U{C4}") == "\\u00C4"
    ensures Escape("\U{DC}") == "\\u00DC"
    ensures Escape("\U{D5}") == "\\u00D5"
  {
    EscapeLetter('\U{C4}', "00C4");
    EscapeLetter('\U{DC}', "00DC");
    EscapeLetter('\U{D5}', "00D5");
  }

  /** The ASCII punctuation of the service tests' tricky summary and description is left as it is. */
  lemma EscapePunctuation()
    ensures Escape("?!~") == "?!~"
    ensures Escape("@#$%^") == "@#$%^"
    ensures Escape("&()_+") == "&()_+"
    ensures Escape(",.*/-") == ",.*/-"
  {
    EscapeMarks();
    EscapeSymbols();
    EscapeBrackets();
    EscapeStops();
  }

  lemma EscapeMarks()
    ensures Escape("?!~") == "?!~"
  {
    EscapeIdentity("?!~");
  }

  lemma EscapeSymbols()
    ensures Escape("@#$%^") == "@#$%^"
  {
    EscapeIdentity("@#$%^");
  }

  lemma EscapeBrackets()
    ensures Escape("&()_+") == "&()_+"
  {
    EscapeIdentity("&()_+");
  }

  lemma EscapeStops()
    ensures Escape(",.*/-") == ",.*/-"
  {
    EscapeIdentity(",.*/-");
  }

  /** Escaping strings whose escapes are known, joined. */
  lemma EscapeJoin(a: string, ea: string, b: string, eb: string)
    requires Escape(a) == ea && Escape(b) == eb
    ensures Escape(a + b) == ea + eb
  {
    EscapeAppend(a, b);
  }

  /**
   * The tricky summary of the service tests, piece by piece: tab and newline
   * get two-letter escapes, each Cyrillic or Latin-1 letter a `\u` escape,
   * and the ASCII punctuation stays as it is.
   */
  lemma EscapeTrickySummary()
    ensures Escape("?!~" + "\t" + "\n" + ",.*/-" + "@#$%^" + "&()_+"
                   + "\U{444}" + "\U{432}" + "\U{43C}" + "\U{C4}" + "\U{DC}" + "\U{D5}")
         == "?!~" + "\\t" + "\\n" + ",.*/-" + "@#$%^" + "&()_+"
            + "\\u0444" + "\\u0432" + "\\u043C" + "\\u00C4" + "\\u00DC" + "\\u00D5"
  {
    EscapePunctuation();
    EscapeTable();
    EscapeCyrillic();
    EscapeLatin1();
    EscapeJoin("?!~", "?!~", "\t", "\\t");
    EscapeJoin("?!~" + "\t", "?!~" + "\\t", "\n", "\\n");
    EscapeJoin("?!~" + "\t" + "\n", "?!~" + "\\t" + "\\n", ",.*/-", ",.*/-");
    var s2, e2 := "?!~" + "\t" + "\n" + ",.*/-", "?!~" + "\\t" + "\\n" + ",.*/-";
    EscapeJoin(s2, e2, "@#$%^", "@#$%^");
    EscapeJoin(s2 + "@#$%^", e2 + "@#$%^", "&()_+", "&()_+");
    var s3, e3 := s2 + "@#$%^" + "&()_+", e2 + "@#$%^" + "&()_+";
    EscapeJoin(s3, e3, "\U{444}", "\\u0444");
    EscapeJoin(s3 + "\U{444}", e3 + "\\u0444", "\U{432}", "\\u0432");
    EscapeJoin(s3 + "\U{444}" + "\U{432}", e3 + "\\u0444" + "\\u0432", "\U{43C}", "\\u043C");
    var s6, e6 := s3 + "\U{444}" + "\U{432}" + "\U{43C}", e3 + "\\u0444" + "\\u0432" + "\\u043C";
    EscapeJoin(s6, e6, "\U{C4}", "\\u00C4");
    EscapeJoin(s6 + "\U{C4}", e6 + "\\u00C4", "\U{DC}", "\\u00DC");
    EscapeJoin(s6 + "\U{C4}" + "\U{DC}", e6 + "\\u00C4" + "\\u00DC", "\U{D5}", "\\u00D5");
  }

  /**
   * The tricky description of the service tests, piece by piece: the same
   * characters as the tricky summary in another order, escaped the same way.
   */
  lemma EscapeTrickyDescription()
    ensures Escape("@#$%^" + "&()_+" + "\U{444}" + "\U{432}" + "\U{43C}" + "\U{C4}" + "\U{DC}" + "\U{D5}"
                   + "?!~" + "\t" + "\n" + ",.*/-")
         == "@#$%^" + "&()_+" + "\\u0444" + "\\u0432" + "\\u043C" + "\\u00C4" + "\\u00DC" + "\\u00D5"
            + "?!~" + "\\t" + "\\n" + ",.*/-"
  {
    EscapePunctuation();
    EscapeTable();
    EscapeCyrillic();
    EscapeLatin1();
    EscapeJoin("@#$%^", "@#$%^", "&()_+", "&()_+");
    var s0, e0 := "@#$%^" + "&()_+", "@#$%^" + "&()_+";
    EscapeJoin(s0, e0, "\U{444}", "\\u0444");
    EscapeJoin(s0 + "\U{444}", e0 + "\\u0444", "\U{432}", "\\u0432");
    EscapeJoin(s0 + "\U{444}" + "\U{432}", e0 + "\\u0444" + "\\u0432", "\U{43C}", "\\u043C");
    var s3, e3 := s0 + "\U{444}" + "\U{432}" + "\U{43C}", e0 + "\\u0444" + "\\u0432" + "\\u043C";
    EscapeJoin(s3, e3, "\U{C4}", "\\u00C4");
    EscapeJoin(s3 + "\U{C4}", e3 + "\\u00C4", "\U{DC}", "\\u00DC");
    EscapeJoin(s3 + "\U{C4}" + "\U{DC}", e3 + "\\u00C4" + "\\u00DC", "\U{D5}", "\\u00D5");
    var s6, e6 := s3 + "\U{C4}" + "\U{DC}" + "\U{D5}", e3 + "\\u00C4" + "\\u00DC" + "\\u00D5";
    EscapeJoin(s6, e6, "?!~", "?!~");
    EscapeJoin(s6 + "?!~", e6 + "?!~", "\t", "\\t");
    EscapeJoin(s6 + "?!~" + "\t", e6 + "?!~" + "\\t", "\n", "\\n");
    EscapeJoin(s6 + "?!~" + "\t" + "\n", e6 + "?!~" + "\\t" + "\\n", ",.*/-", ",.*/-");
  }
}
