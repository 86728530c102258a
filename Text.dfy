/**
 * The pieces of Go's standard library that the high-score file format relies on:
 * `strings.Split` with a one-character separator, `strings.TrimSpace` (only whether
 * a line trims to the empty string), `strconv.Itoa` and `strconv.Atoi`.
 * Text is a sequence of Unicode characters; the file's bytes are taken to be valid UTF-8.
 */
module Text {
  import opened Wrappers

  const MinInt64: int := -0x8000_0000_0000_0000
  const MaxInt64: int := 0x7FFF_FFFF_FFFF_FFFF

  /** Go's `int` on a 64-bit platform. */
  predicate IsInt64(n: int) { MinInt64 <= n <= MaxInt64 }

  // ---------------------------------------------------------------------------
  // strings.Split(s, sep) for a one-character separator

  /** Joins the parts with `sep` between neighbours (the inverse of `SplitOn`). */
  function Join(parts: seq<string>, sep: char): string
    requires |parts| >= 1
  {
    if |parts| == 1 then parts[0] else parts[0] + [sep] + Join(parts[1..], sep)
  }

  /**
   * The pieces of `s` between occurrences of `sep`: never empty, free of `sep`, and
   * joined back with `sep` they give `s`. These three facts determine the result
   * (see `SplitJoin`).
   */
  function SplitOn(s: string, sep: char): (parts: seq<string>)
    ensures |parts| >= 1
    ensures forall i :: 0 <= i < |parts| ==> sep !in parts[i]
    ensures Join(parts, sep) == s
  {
    if |s| == 0 then [""]
    else
      var rest := SplitOn(s[1..], sep);
      if s[0] == sep then
        [""] + rest
      else
        var parts := [[s[0]] + rest[0]] + rest[1..];
        assert parts[1..] == rest[1..];
        assert |rest| == 1 ==> Join(parts, sep) == [s[0]] + rest[0] == s;
        assert |rest| > 1 ==> Join(parts, sep) == [s[0]] + rest[0] + [sep] + Join(rest[1..], sep) == s;
        parts
  }

  /** Splitting undoes joining, for parts that do not contain the separator. */
  lemma {:induction false} SplitJoin(parts: seq<string>, sep: char)
    requires |parts| >= 1
    requires forall i :: 0 <= i < |parts| ==> sep !in parts[i]
    ensures SplitOn(Join(parts, sep), sep) == parts
  {
    if |parts| == 1 {
      SplitFree(parts[0], sep);
    } else {
      SplitJoin(parts[1..], sep);
      SplitAround(parts[0], Join(parts[1..], sep), sep);
      SplitFree(parts[0], sep);
      assert parts == [parts[0]] + parts[1..];
    }
  }

  /** A string without the separator splits into itself. */
  lemma {:induction false} SplitFree(s: string, sep: char)
    requires sep !in s
    ensures SplitOn(s, sep) == [s]
  {
    if |s| > 0 {
      SplitFree(s[1..], sep);
      assert [s[0]] + s[1..] == s;
    }
  }

  /** A separator between `a` and `b` splits them apart. */
  lemma {:induction false} SplitAround(a: string, b: string, sep: char)
    ensures SplitOn(a + [sep] + b, sep) == SplitOn(a, sep) + SplitOn(b, sep)
  {
    if |a| == 0 {
      assert a + [sep] + b == [sep] + b;
      SplitCons(sep, b, sep);
    } else {
      var tail := a[1..] + [sep] + b;
      var front, back := SplitOn(a[1..], sep), SplitOn(b, sep);
      assert a + [sep] + b == [a[0]] + tail;
      assert a == [a[0]] + a[1..];
      SplitAround(a[1..], b, sep);
      SplitCons(a[0], tail, sep);
      SplitCons(a[0], a[1..], sep);
      if a[0] == sep {
        calc {
          SplitOn(a + [sep] + b, sep);
          SplitOn([a[0]] + tail, sep);
          [""] + (front + back);
          { ConcatAssoc([""], front, back); }
          ([""] + front) + back;
          SplitOn(a, sep) + back;
        }
      } else {
        calc {
          SplitOn(a + [sep] + b, sep);
          SplitOn([a[0]] + tail, sep);
          [[a[0]] + (front + back)[0]] + (front + back)[1..];
          { MergeFirst([a[0]], front, back); }
          ([[a[0]] + front[0]] + front[1..]) + back;
          SplitOn(a, sep) + back;
        }
      }
    }
  }

  /** How a split starts: a leading separator closes an empty piece, any other character opens the first piece. */
  lemma SplitCons(c: char, s: string, sep: char)
    ensures SplitOn([c] + s, sep) ==
      if c == sep then [""] + SplitOn(s, sep)
      else [[c] + SplitOn(s, sep)[0]] + SplitOn(s, sep)[1..]
  {
    assert ([c] + s)[1..] == s;
  }

  lemma ConcatAssoc<T>(p: seq<T>, q: seq<T>, r: seq<T>)
    ensures p + (q + r) == (p + q) + r
  {
  }

  lemma MergeFirst(h: string, t: seq<string>, r: seq<string>)
    requires |t| >= 1
    ensures [h + (t + r)[0]] + (t + r)[1..] == ([h + t[0]] + t[1..]) + r
  {
    assert (t + r)[1..] == t[1..] + r;
  }

  // ---------------------------------------------------------------------------
  // strings.TrimSpace(line) == ""

  /** Go's `unicode.IsSpace`: Latin-1 spaces and the other Unicode White_Space characters. */
  predicate IsSpace(c: char)
  {
    c == '\t' || c == '\n' || c == '\U{000B}' || c == '\U{000C}' || c == '\r' || c == ' '
    || c == '\U{0085}' || c == '\U{00A0}' || c == '\U{1680}'
    || ('\U{2000}' <= c <= '\U{200A}')
    || c == '\U{2028}' || c == '\U{2029}' || c == '\U{202F}' || c == '\U{205F}' || c == '\U{3000}'
  }

  /** `strings.TrimSpace(line) == ""`: the line holds nothing but white space. */
  predicate IsBlank(line: string)
  {
    forall i :: 0 <= i < |line| ==> IsSpace(line[i])
  }

  // ---------------------------------------------------------------------------
  // Decimal digits

  predicate IsDigit(c: char) { '0' <= c <= '9' }

  predicate AllDigits(s: string) { forall i :: 0 <= i < |s| ==> IsDigit(s[i]) }

  function DigitValue(c: char): nat
    requires IsDigit(c)
  {
    c as int - '0' as int
  }

  function DigitChar(d: nat): (c: char)
    requires d < 10
    ensures IsDigit(c) && DigitValue(c) == d
  {
    ('0' as int + d) as char
  }

  /** The number a string of decimal digits denotes, most significant digit first. */
  function DigitsValue(s: string): nat
    requires AllDigits(s)
  {
    if |s| == 0 then 0 else DigitsValue(s[..|s| - 1]) * 10 + DigitValue(s[|s| - 1])
  }

  /** The shortest decimal numeral of `n`: a non-empty string of digits that denotes `n`. */
  function NatToDecimal(n: nat): (s: string)
    ensures |s| >= 1 && AllDigits(s)
    ensures DigitsValue(s) == n
  {
    if n < 10 then [DigitChar(n)]
    else
      var s := NatToDecimal(n / 10) + [DigitChar(n % 10)];
      assert s[..|s| - 1] == NatToDecimal(n / 10);
      s
  }

  // ---------------------------------------------------------------------------
  // strconv.Itoa and strconv.Atoi

  /** `strconv.Itoa`: a minus sign for negative numbers, then the decimal digits. */
  function Itoa(n: int): (s: string)
    ensures |s| >= 1
    ensures forall i :: 0 <= i < |s| ==> IsDigit(s[i]) || (i == 0 && s[i] == '-')
  {
    if n < 0 then "-" + NatToDecimal(-n) else NatToDecimal(n)
  }

  /** The text after an optional leading `+` or `-`. */
  function Unsigned(s: string): string
  {
    if |s| > 0 && (s[0] == '-' || s[0] == '+') then s[1..] else s
  }

  /** A decimal integer as `strconv.Atoi` reads it: an optional sign, then one or more ASCII digits. */
  predicate IntText(s: string)
  {
    |Unsigned(s)| >= 1 && AllDigits(Unsigned(s))
  }

  /** The value an integer text denotes: its digits' value, negated after a `-`. */
  function SignedValue(s: string): int
    requires IntText(s)
  {
    var magnitude: int := DigitsValue(Unsigned(s));
    if s[0] == '-' then -magnitude else magnitude
  }

  /**
   * `strconv.Atoi`: an optional `+` or `-`, then one or more ASCII digits (leading zeros
   * allowed, no spaces, no underscores), denoting a value within Go's 64-bit `int`.
   * Anything else is an error, modelled as `None`.
   */
  function Atoi(s: string): (r: Option<int>)
    ensures r.Some? <==> IntText(s) && IsInt64(SignedValue(s))
    ensures r.Some? ==> r.value == SignedValue(s)
    ensures r.Some? ==> |s| >= 1 && forall i :: 0 <= i < |s| ==> IsDigit(s[i]) || (i == 0 && (s[i] == '-' || s[i] == '+'))
  {
    if |s| == 0 then None
    else
      var digits := if s[0] == '-' || s[0] == '+' then s[1..] else s;
      if |digits| == 0 || !AllDigits(digits) then None
      else
        var magnitude: int := DigitsValue(digits);
        var v := if s[0] == '-' then -magnitude else magnitude;
        if IsInt64(v) then Some(v) else None
  }

  /** Reading back what `Itoa` wrote gives the number again, for every 64-bit `int`. */
  lemma AtoiItoa(n: int)
    requires IsInt64(n)
    ensures Atoi(Itoa(n)) == Some(n)
  {
    var s := Itoa(n);
    if n < 0 {
      assert s[1..] == NatToDecimal(-n);
    }
  }
}
