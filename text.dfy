/** String helpers with the meaning JavaScript gives them: decimal rendering
    of numbers, `String.prototype.split` on one character, `startsWith`,
    `trim` and the string-to-number conversion used by `<` and by `Number`. */
module Text {
  import opened Wrappers

  // ---------------------------------------------------------------------
  // Decimal digits

  predicate IsDigit(c: char) {
    '0' <= c <= '9'
  }

  predicate AllDigits(s: string) {
    forall i :: 0 <= i < |s| ==> IsDigit(s[i])
  }

  function DigitChar(d: nat): (c: char)
    requires d < 10
    ensures IsDigit(c)
  {
    ('0' as int + d) as char
  }

  function DigitValue(c: char): (d: nat)
    requires IsDigit(c)
    ensures d < 10 && DigitChar(d) == c
  {
    c as int - '0' as int
  }

  /** `String(n)` for a non-negative integer below 10^21. */
  function Decimal(n: nat): (r: string)
    ensures |r| >= 1 && AllDigits(r)
    ensures n >= 10 ==> r[0] != '0'
    ensures n < 10 ==> r == [DigitChar(n)]
    decreases n
  {
    if n < 10 then [DigitChar(n)] else Decimal(n / 10) + [DigitChar(n % 10)]
  }

  /** The number a string of decimal digits denotes (the empty string is 0). */
  function ValueOf(s: string): nat
    requires AllDigits(s)
  {
    if s == [] then 0 else ValueOf(s[..|s| - 1]) * 10 + DigitValue(s[|s| - 1])
  }

  /** Reading back a rendered number gives the number. */
  lemma {:induction false} ValueOfDecimal(n: nat)
    ensures ValueOf(Decimal(n)) == n
    decreases n
  {
    if n >= 10 {
      var r := Decimal(n);
      assert r[..|r| - 1] == Decimal(n / 10);
      ValueOfDecimal(n / 10);
    }
  }

  lemma DecimalInjective(a: nat, b: nat)
    ensures Decimal(a) == Decimal(b) <==> a == b
  {
    ValueOfDecimal(a);
    ValueOfDecimal(b);
  }

  /** Leading zeros do not change the value. */
  lemma {:induction false} ValueOfLeadingZero(s: string)
    requires AllDigits(s)
    ensures AllDigits(['0'] + s) && ValueOf(['0'] + s) == ValueOf(s)
    decreases |s|
  {
    var t := ['0'] + s;
    if s != [] {
      assert t[..|t| - 1] == ['0'] + s[..|s| - 1];
      ValueOfLeadingZero(s[..|s| - 1]);
    }
  }

  lemma DigitsHaveNoDash(s: string)
    requires AllDigits(s)
    ensures '-' !in s
  {
  }

  /** `s` left-padded with '0' to at least `width` characters, as date
      formatting pads a day or a month. */
  function PadLeft(s: string, width: nat): (r: string)
    ensures |r| == if |s| >= width then |s| else width
    ensures AllDigits(s) ==> AllDigits(r)
    decreases width - |s|
  {
    if |s| >= width then s else PadLeft(['0'] + s, width)
  }

  lemma {:induction false} ValueOfPadLeft(s: string, width: nat)
    requires AllDigits(s)
    ensures AllDigits(PadLeft(s, width)) && ValueOf(PadLeft(s, width)) == ValueOf(s)
    decreases width - |s|
  {
    if |s| < width {
      ValueOfLeadingZero(s);
      ValueOfPadLeft(['0'] + s, width);
    }
  }

  // ---------------------------------------------------------------------
  // Prefixes and splitting

  predicate StartsWith(s: string, prefix: string) {
    |prefix| <= |s| && s[..|prefix|] == prefix
  }

  /** `s.split(sep)` for a one-character separator: the pieces between
      separators, in order; the empty string gives one empty piece. */
  function Split(s: string, sep: char): (r: seq<string>)
    ensures |r| >= 1
    decreases |s|
  {
    if s == [] then [[]]
    else
      var rest := Split(s[1..], sep);
      if s[0] == sep then [[]] + rest else [[s[0]] + rest[0]] + rest[1..]
  }

  /** `parts.join(sep)`. */
  function Join(parts: seq<string>, sep: char): string
    requires |parts| >= 1
    decreases |parts|
  {
    if |parts| == 1 then parts[0] else parts[0] + [sep] + Join(parts[1..], sep)
  }

  predicate NoSeparator(parts: seq<string>, sep: char) {
    forall i :: 0 <= i < |parts| ==> sep !in parts[i]
  }

  lemma {:induction false} SplitPiecesHaveNoSeparator(s: string, sep: char)
    ensures NoSeparator(Split(s, sep), sep)
    decreases |s|
  {
    if s != [] {
      SplitPiecesHaveNoSeparator(s[1..], sep);
      var rest := Split(s[1..], sep);
      if s[0] != sep {
        assert sep !in rest[0];
      }
    }
  }

  /** Joining the pieces back with the separator gives the original string. */
  lemma {:induction false} JoinSplit(s: string, sep: char)
    ensures Join(Split(s, sep), sep) == s
    decreases |s|
  {
    if s != [] {
      JoinSplit(s[1..], sep);
      var rest := Split(s[1..], sep);
      if s[0] != sep {
        if |rest| > 1 {
          assert [s[0]] + rest[0] + [sep] + Join(rest[1..], sep) == [s[0]] + Join(rest, sep);
        }
      }
    }
  }

  /** Splitting at a separator splits each side on its own. */
  lemma {:induction false} SplitAround(a: string, b: string, sep: char)
    ensures Split(a + [sep] + b, sep) == Split(a, sep) + Split(b, sep)
    decreases |a|
  {
    if a == [] {
      assert a + [sep] + b == [sep] + b;
    } else {
      assert (a + [sep] + b)[1..] == a[1..] + [sep] + b;
      SplitAround(a[1..], b, sep);
    }
  }

  /** A string without the separator is a single piece. */
  lemma {:induction false} SplitWithoutSeparator(s: string, sep: char)
    requires sep !in s
    ensures Split(s, sep) == [s]
    decreases |s|
  {
    if s != [] {
      assert sep !in s[1..];
      SplitWithoutSeparator(s[1..], sep);
      assert [s[0]] + s[1..] == s;
    }
  }

  /** Splitting joined pieces gives the pieces back, when none holds the separator. */
  lemma {:induction false} SplitJoin(parts: seq<string>, sep: char)
    requires |parts| >= 1 && NoSeparator(parts, sep)
    ensures Split(Join(parts, sep), sep) == parts
    decreases |parts|
  {
    if |parts| == 1 {
      SplitWithoutSeparator(parts[0], sep);
    } else {
      SplitJoin(parts[1..], sep);
      SplitAround(parts[0], Join(parts[1..], sep), sep);
      SplitWithoutSeparator(parts[0], sep);
    }
  }

  /** Two pieces joined by the separator split back into those pieces. */
  lemma SplitTwo(a: string, b: string, sep: char)
    requires sep !in a && sep !in b
    ensures Split(a + [sep] + b, sep) == [a, b]
  {
    SplitAround(a, b, sep);
    SplitWithoutSeparator(a, sep);
    SplitWithoutSeparator(b, sep);
  }

  /** Three pieces joined by the separator split back into those pieces. */
  lemma SplitThree(a: string, b: string, c: string, sep: char)
    requires sep !in a && sep !in b && sep !in c
    ensures Split(a + [sep] + b + [sep] + c, sep) == [a, b, c]
  {
    assert a + [sep] + b + [sep] + c == a + [sep] + (b + [sep] + c);
    SplitAround(a, b + [sep] + c, sep);
    SplitWithoutSeparator(a, sep);
    SplitTwo(b, c, sep);
  }

  function Last<T>(s: seq<T>): T
    requires |s| >= 1
  {
    s[|s| - 1]
  }

  /** `s.split(sep).pop()`: what follows the last separator. */
  function AfterLast(s: string, sep: char): string {
    Last(Split(s, sep))
  }

  /** `s.split(sep)[0]`: what precedes the first separator. */
  function BeforeFirst(s: string, sep: char): string {
    Split(s, sep)[0]
  }

  lemma {:induction false} BeforeFirstIsPrefix(s: string, sep: char)
    ensures var f := BeforeFirst(s, sep);
      sep !in f && StartsWith(s, f) && (|f| < |s| ==> s[|f|] == sep)
    decreases |s|
  {
    SplitPiecesHaveNoSeparator(s, sep);
    if s != [] {
      BeforeFirstIsPrefix(s[1..], sep);
    }
  }

  /** What follows the last separator is a suffix without the separator,
      preceded by a separator unless it is the whole string. */
  lemma {:induction false} AfterLastIsSuffix(s: string, sep: char)
    ensures var l := AfterLast(s, sep);
      sep !in l && |l| <= |s| && s[|s| - |l|..] == l && (|l| < |s| ==> s[|s| - |l| - 1] == sep)
      && (|Split(s, sep)| > 1 ==> |l| < |s|)
    decreases |s|
  {
    SplitPiecesHaveNoSeparator(s, sep);
    if s != [] {
      var t := s[1..];
      AfterLastIsSuffix(t, sep);
      var rest := Split(t, sep);
      var l := Last(rest);
      if |rest| == 1 {
        JoinSplit(t, sep);
        assert rest == [rest[0]] && l == t;
      }
      if s[0] == sep || |rest| > 1 {
        assert AfterLast(s, sep) == l;
        assert s[|s| - |l|..] == t[|t| - |l|..];
        if |l| < |t| {
          assert s[|s| - |l| - 1] == t[|t| - |l| - 1];
        }
      } else {
        assert AfterLast(s, sep) == [s[0]] + t == s;
      }
    }
  }

  // ---------------------------------------------------------------------
  // Whitespace and numbers

  /** The characters `String.prototype.trim` removes (the ECMAScript
      WhiteSpace and LineTerminator code points). */
  predicate IsJsWhitespace(c: char) {
    c == ' ' || c == '\t' || c == '\n' || c == '\r' || c == '\U{000B}' || c == '\U{000C}'
    || c == '\U{00A0}' || c == '\U{1680}' || ('\U{2000}' <= c <= '\U{200A}')
    || c == '\U{2028}' || c == '\U{2029}' || c == '\U{202F}' || c == '\U{205F}'
    || c == '\U{3000}' || c == '\U{FEFF}'
  }

  predicate AllWhitespace(s: string) {
    forall i :: 0 <= i < |s| ==> IsJsWhitespace(s[i])
  }

  function TrimStart(s: string): (r: string)
    decreases |s|
  {
    if s != [] && IsJsWhitespace(s[0]) then TrimStart(s[1..]) else s
  }

  function TrimEnd(s: string): (r: string)
    decreases |s|
  {
    if s != [] && IsJsWhitespace(s[|s| - 1]) then TrimEnd(s[..|s| - 1]) else s
  }

  /** `s.trim()`. */
  function Trim(s: string): string {
    TrimEnd(TrimStart(s))
  }

  lemma {:induction false} TrimStartEmpty(s: string)
    ensures TrimStart(s) == [] <==> AllWhitespace(s)
    decreases |s|
  {
    if s != [] {
      TrimStartEmpty(s[1..]);
      if AllWhitespace(s) {
        assert AllWhitespace(s[1..]);
      }
      if IsJsWhitespace(s[0]) && AllWhitespace(s[1..]) {
        assert forall i :: 1 <= i < |s| ==> s[i] == s[1..][i - 1];
      }
    }
  }

  lemma {:induction false} TrimEndKeepsFirstNonWhitespace(s: string)
    requires s != [] && !IsJsWhitespace(s[0])
    ensures TrimEnd(s) != []
    decreases |s|
  {
    if |s| > 1 && IsJsWhitespace(s[|s| - 1]) {
      TrimEndKeepsFirstNonWhitespace(s[..|s| - 1]);
    }
  }

  lemma {:induction false} TrimStartStartsClean(s: string)
    ensures TrimStart(s) == [] || !IsJsWhitespace(TrimStart(s)[0])
    decreases |s|
  {
    if s != [] && IsJsWhitespace(s[0]) {
      TrimStartStartsClean(s[1..]);
    }
  }

  /** A string trims to nothing exactly when every character is whitespace. */
  lemma TrimEmpty(s: string)
    ensures Trim(s) == [] <==> AllWhitespace(s)
  {
    TrimStartEmpty(s);
    TrimStartStartsClean(s);
    if TrimStart(s) != [] {
      TrimEndKeepsFirstNonWhitespace(TrimStart(s));
    }
  }

  /** JavaScript's string-to-number conversion (`Number(s)`, and the operand
      conversion of `<`), restricted to integers: after trimming, the empty
      string is 0, an optionally signed run of decimal digits is its value,
      and anything else is NaN (here `None`). */
  function JsToNumber(s: string): (r: Option<int>)
    ensures (s != [] && AllDigits(s)) ==> r == Some(ValueOf(s))
  {
    var t := Trim(s);
    if t == [] then Some(0)
    else if AllDigits(t) then Some(ValueOf(t))
    else if |t| >= 2 && t[0] == '-' && AllDigits(t[1..]) then Some(-(ValueOf(t[1..]) as int))
    else if |t| >= 2 && t[0] == '+' && AllDigits(t[1..]) then Some(ValueOf(t[1..]))
    else None
  }
}
