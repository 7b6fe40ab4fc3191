/**
 * The few pieces of Java and commons-lang string behaviour the appender
 * relies on: nullable strings, how a StringBuilder renders them, and the
 * commons-lang notion of a blank string.
 */
module JavaLang {

  /** An optional value: nothing, or a value. */
  datatype Option<T> = None | Some(value: T)

  /** A Java `String` reference: either null or a sequence of characters. */
  datatype JString = Null | Str(value: string)

  /**
   * What `StringBuilder.append(String)` appends for a reference: the
   * characters themselves, or the four letters "null" for a null reference.
   */
  function Text(s: JString): (r: string)
    ensures s.Str? ==> r == s.value
    ensures s.Null? ==> r == "null"
  {
    match s
    case Null => "null"
    case Str(v) => v
  }

  /**
   * `Character.isWhitespace(char)`: the Unicode space, line and paragraph
   * separators other than the three no-break spaces (U+00A0, U+2007,
   * U+202F), plus the ASCII controls U+0009..U+000D and U+001C..U+001F.
   * A character outside the Basic Multilingual Plane reaches the Java
   * method as two surrogate units, neither of which is whitespace, so it
   * is not whitespace here either.
   */
  predicate IsWhitespace(c: char) {
    var v := c as int;
    || 0x09 <= v <= 0x0D
    || 0x1C <= v <= 0x20
    || v == 0x1680
    || 0x2000 <= v <= 0x2006
    || 0x2008 <= v <= 0x200A
    || v == 0x2028 || v == 0x2029
    || v == 0x205F
    || v == 0x3000
  }

  /** commons-lang `StringUtils.isBlank`: null, empty, or whitespace only. */
  predicate IsBlank(s: JString) {
    match s
    case Null => true
    case Str(v) => forall i :: 0 <= i < |v| ==> IsWhitespace(v[i])
  }

  /**
   * The ordinary separators are whitespace; the three no-break spaces and
   * letters are not.
   */
  lemma WhitespaceTable()
    ensures IsWhitespace(' ') && IsWhitespace('\t') && IsWhitespace('\n') && IsWhitespace('\r')
    ensures IsWhitespace('\U{2003}') && IsWhitespace('\U{3000}')
    ensures !IsWhitespace('\U{A0}') && !IsWhitespace('\U{2007}') && !IsWhitespace('\U{202F}')
    ensures !IsWhitespace('a') && !IsWhitespace('0')
  {
  }

  /** A string is blank exactly when both halves of any split of it are. */
  lemma {:induction false} BlankAppend(a: string, b: string)
    ensures IsBlank(Str(a + b)) <==> IsBlank(Str(a)) && IsBlank(Str(b))
  {
    if IsBlank(Str(a)) && IsBlank(Str(b)) {
      forall i | 0 <= i < |a + b| ensures IsWhitespace((a + b)[i]) {
        if i < |a| {
          assert (a + b)[i] == a[i];
        } else {
          assert (a + b)[i] == b[i - |a|];
        }
      }
    }
    if IsBlank(Str(a + b)) {
      forall i | 0 <= i < |a| ensures IsWhitespace(a[i]) {
        assert (a + b)[i] == a[i];
      }
      forall i | 0 <= i < |b| ensures IsWhitespace(b[i]) {
        assert (a + b)[|a| + i] == b[i];
      }
    }
  }
}
