/**
 * The string operations the application relies on, over strings as sequences of
 * characters (one `char` per character; the strings the application builds and
 * compares here are ASCII, where this agrees with JavaScript's UTF-16 code
 * units): decimal rendering of integers (`String(n)`, template
 * literals), `parseInt` on digit strings, `padStart`, `trim`, `split` on one
 * character, `join`, `includes`, and the `<` order on strings.
 */
module Text {
  import opened Wrappers

  // ---------------------------------------------------------------- digits

  predicate IsDigit(c: char) {
    '0' <= c <= '9'
  }

  predicate AllDigits(s: string) {
    forall i :: 0 <= i < |s| ==> IsDigit(s[i])
  }

  function DigitChar(d: nat): (c: char)
    requires d < 10
    ensures IsDigit(c)
  {
    (48 + d) as char
  }

  function DigitValue(c: char): (d: nat)
    requires IsDigit(c)
    ensures d < 10 && DigitChar(d) == c
  {
    (c as int) - 48
  }

  /** Decimal rendering of a natural number, as JavaScript prints an integer. */
  function NatToString(n: nat): (s: string)
    ensures 1 <= |s| && AllDigits(s)
    ensures s[0] == '0' <==> n == 0
    decreases n
  {
    if n < 10 then [DigitChar(n)] else NatToString(n / 10) + [DigitChar(n % 10)]
  }

  /** Decimal rendering of an integer, with a leading `-` when negative. */
  function IntToString(i: int): (s: string)
    ensures i >= 0 ==> s == NatToString(i)
    ensures i < 0 ==> s == "-" + NatToString(-i)
  {
    if i < 0 then "-" + NatToString(-i) else NatToString(i)
  }

  /** The value of a string of decimal digits, most significant first. */
  function DigitsValue(s: string): nat
    requires AllDigits(s)
  {
    if s == [] then 0 else DigitsValue(s[..|s| - 1]) * 10 + DigitValue(s[|s| - 1])
  }

  function Pow10(k: nat): (p: nat)
    ensures p >= 1
  {
    if k == 0 then 1 else 10 * Pow10(k - 1)
  }

  /** Rendering then reading back a number gives the number. */
  lemma {:induction false} DigitsValueOfNatToString(n: nat)
    ensures DigitsValue(NatToString(n)) == n
  {
    if n >= 10 {
      var s := NatToString(n);
      assert s[..|s| - 1] == NatToString(n / 10);
      DigitsValueOfNatToString(n / 10);
    }
  }

  lemma {:induction false} LeadingNonZeroValue(s: string)
    requires AllDigits(s) && 1 <= |s| && s[0] != '0'
    ensures DigitsValue(s) >= Pow10(|s| - 1)
  {
    if |s| > 1 {
      var p := s[..|s| - 1];
      assert p[0] == s[0];
      LeadingNonZeroValue(p);
    }
  }

  /** Reading a digit string without a leading zero then rendering it gives it back. */
  lemma {:induction false} NatToStringOfDigits(s: string)
    requires AllDigits(s) && 1 <= |s| && (s[0] != '0' || |s| == 1)
    ensures NatToString(DigitsValue(s)) == s
  {
    if |s| == 1 {
      assert s == [s[0]];
    } else {
      var p := s[..|s| - 1];
      assert p[0] == s[0];
      LeadingNonZeroValue(p);
      NatToStringOfDigits(p);
      assert s == p + [s[|s| - 1]];
    }
  }

  /** Numbers of exactly `k` digits render as exactly `k` characters. */
  lemma {:induction false} NatToStringLength(n: nat, k: nat)
    requires 1 <= k && Pow10(k - 1) <= n < Pow10(k)
    ensures |NatToString(n)| == k
  {
    if k > 1 {
      NatToStringLength(n / 10, k - 1);
    }
  }

  // ------------------------------------------------------------ parseInt

  /** The leading run of decimal digits of `s`. */
  function LeadingDigits(s: string): (p: string)
    ensures AllDigits(p) && |p| <= |s| && p == s[..|p|]
    ensures |p| < |s| ==> !IsDigit(s[|p|])
    ensures AllDigits(s) ==> p == s
  {
    if s == [] || !IsDigit(s[0]) then [] else [s[0]] + LeadingDigits(s[1..])
  }

  /**
   * `parseInt(s)` for a string that starts with its digits: the value of the
   * leading digit run, or `None` (NaN) when there is none.
   */
  function ParseInt(s: string): (r: Option<nat>)
    ensures AllDigits(s) && s != [] ==> r == Some(DigitsValue(s))
  {
    var p := LeadingDigits(s);
    if p == [] then None else Some(DigitsValue(p))
  }

  // ------------------------------------------------------------ padStart

  function Repeat(c: char, n: nat): (s: string)
    ensures |s| == n && forall i :: 0 <= i < n ==> s[i] == c
  {
    if n == 0 then [] else [c] + Repeat(c, n - 1)
  }

  /** `s.padStart(n, c)`: prefix copies of `c` up to length `n`; never truncates. */
  function PadStart(s: string, n: nat, c: char): (r: string)
    ensures |r| == if |s| >= n then |s| else n
    ensures r[|r| - |s|..] == s
    ensures forall i :: 0 <= i < |r| - |s| ==> r[i] == c
  {
    if |s| >= n then s else Repeat(c, n - |s|) + s
  }

  /** `String(n).padStart(2, "0")`, written by cases (`TwoDigitsIsPadStart`). */
  function TwoDigits(n: int): string {
    if 0 <= n < 10 then "0" + IntToString(n) else IntToString(n)
  }

  lemma TwoDigitsIsPadStart(n: int)
    ensures TwoDigits(n) == PadStart(IntToString(n), 2, '0')
  {
    if 0 <= n < 10 {
      assert IntToString(n) == [DigitChar(n)];
      assert Repeat('0', 1) == "0";
    } else if n >= 10 {
      assert |NatToString(n)| >= 2;
    }
  }

  /** Below 100, `TwoDigits(n)` is exactly two digits and reads back as `n`. */
  lemma TwoDigitPad(n: nat)
    requires n < 100
    ensures var p := TwoDigits(n);
            |p| == 2 && AllDigits(p) && DigitsValue(p) == n
  {
    var p := TwoDigits(n);
    if n < 10 {
      assert p == ['0', DigitChar(n)];
      assert p[..1] == ['0'];
      assert DigitsValue(['0']) == 0;
      assert DigitsValue(p) == DigitsValue(p[..1]) * 10 + DigitValue(p[1]);
    } else {
      NatToStringLength(n, 2);
      DigitsValueOfNatToString(n);
    }
  }

  /** Distinct integers render differently. */
  lemma IntToStringInjective(a: int, b: int)
    ensures IntToString(a) == IntToString(b) ==> a == b
  {
    var sa, sb := IntToString(a), IntToString(b);
    if a >= 0 && b >= 0 {
      DigitsValueOfNatToString(a);
      DigitsValueOfNatToString(b);
    } else if a < 0 && b < 0 {
      assert sa[1..] == NatToString(-a) && sb[1..] == NatToString(-b);
      DigitsValueOfNatToString(-a);
      DigitsValueOfNatToString(-b);
    } else {
      assert IsDigit(sa[0]) != IsDigit(sb[0]);
    }
  }

  // ---------------------------------------------------------------- trim

  /** The white space and line terminators that `String.prototype.trim` removes. */
  predicate IsWhitespace(c: char) {
    var k := c as int;
    k == 0x09 || k == 0x0A || k == 0x0B || k == 0x0C || k == 0x0D || k == 0x20
    || k == 0xA0 || k == 0x1680 || (0x2000 <= k <= 0x200A) || k == 0x2028
    || k == 0x2029 || k == 0x202F || k == 0x205F || k == 0x3000 || k == 0xFEFF
  }

  predicate AllWhitespace(s: string) {
    forall i :: 0 <= i < |s| ==> IsWhitespace(s[i])
  }

  function TrimStart(s: string): (r: string)
    ensures |r| <= |s|
    ensures r == [] || !IsWhitespace(r[0])
  {
    if s != [] && IsWhitespace(s[0]) then TrimStart(s[1..]) else s
  }

  /** `trimStart` drops a white-space prefix and keeps the rest. */
  lemma {:induction false} TrimStartDropsBlankPrefix(s: string)
    ensures TrimStart(s) == s[|s| - |TrimStart(s)|..]
    ensures AllWhitespace(s[..|s| - |TrimStart(s)|])
  {
    if s != [] && IsWhitespace(s[0]) {
      TrimStartDropsBlankPrefix(s[1..]);
      var n := |s| - |TrimStart(s)|;
      assert s[1..][n - 1..] == s[n..];
      assert forall i :: 1 <= i < n ==> s[..n][i] == s[1..][..n - 1][i - 1];
    }
  }

  function TrimEnd(s: string): (r: string)
    ensures |r| <= |s|
    ensures r == [] || !IsWhitespace(r[|r| - 1])
  {
    if s != [] && IsWhitespace(s[|s| - 1]) then TrimEnd(s[..|s| - 1]) else s
  }

  /** `trimEnd` drops a white-space suffix and keeps the rest. */
  lemma {:induction false} TrimEndDropsBlankSuffix(s: string)
    ensures TrimEnd(s) == s[..|TrimEnd(s)|]
    ensures AllWhitespace(s[|TrimEnd(s)|..])
  {
    if s != [] && IsWhitespace(s[|s| - 1]) {
      TrimEndDropsBlankSuffix(s[..|s| - 1]);
      var n := |TrimEnd(s)|;
      assert s[..|s| - 1][..n] == s[..n];
      assert forall i :: 0 <= i < |s| - 1 - n ==> s[n..][i] == s[..|s| - 1][n..][i];
    }
  }

  function Trim(s: string): string {
    TrimEnd(TrimStart(s))
  }

  /** `s.trim()` is empty exactly when `s` is blank. */
  lemma TrimEmptyIffBlank(s: string)
    ensures Trim(s) == [] <==> AllWhitespace(s)
  {
    var t := TrimStart(s);
    TrimStartDropsBlankPrefix(s);
    TrimEndDropsBlankSuffix(t);
    assert s[..|s|] == s;
    assert t[0..] == t;
    if t != [] {
      assert t[0] == s[|s| - |t|];
    }
  }

  /** Leading white space does not change the result of `trim`. */
  lemma {:induction false} TrimStartSkipsWhitespace(w: string, s: string)
    requires AllWhitespace(w)
    ensures TrimStart(w + s) == TrimStart(s)
  {
    if w != [] {
      assert (w + s)[1..] == w[1..] + s;
      TrimStartSkipsWhitespace(w[1..], s);
    } else {
      assert w + s == s;
    }
  }

  /** A string without surrounding white space is its own trim. */
  predicate IsTrimmed(s: string) {
    s == [] || (!IsWhitespace(s[0]) && !IsWhitespace(s[|s| - 1]))
  }

  lemma TrimOfTrimmed(s: string)
    requires IsTrimmed(s)
    ensures Trim(s) == s
  {
  }

  // ------------------------------------------------------- split and join

  /**
   * `s.split(sep)` for a one-character separator: the pieces between
   * separators, so one more piece than there are separators.
   */
  function Split(s: string, sep: char): (parts: seq<string>)
    ensures |parts| >= 1
  {
    if s == [] then [""]
    else
      var rest := Split(s[1..], sep);
      if s[0] == sep then [""] + rest else [[s[0]] + rest[0]] + rest[1..]
  }

  /** No piece holds the separator. */
  lemma {:induction false} SplitPiecesLackSeparator(s: string, sep: char, k: int)
    requires 0 <= k < |Split(s, sep)|
    ensures sep !in Split(s, sep)[k]
  {
    if s != [] {
      var rest := Split(s[1..], sep);
      if s[0] == sep {
        if k > 0 {
          SplitPiecesLackSeparator(s[1..], sep, k - 1);
        }
      } else if k == 0 {
        SplitPiecesLackSeparator(s[1..], sep, 0);
        assert sep !in [s[0]] + rest[0];
      } else {
        SplitPiecesLackSeparator(s[1..], sep, k);
      }
    }
  }

  /** A string without the separator is a single piece. */
  lemma {:induction false} SplitWithoutSeparator(s: string, sep: char)
    requires sep !in s
    ensures Split(s, sep) == [s]
  {
    if s != [] {
      assert sep !in s[1..];
      SplitWithoutSeparator(s[1..], sep);
      assert [s[0]] + s[1..] == s;
    }
  }

  /** `parts.join(sep)`. */
  function Join(parts: seq<string>, sep: string): string {
    if parts == [] then ""
    else if |parts| == 1 then parts[0]
    else parts[0] + sep + Join(parts[1..], sep)
  }

  /** Splitting after a separator-free prefix only lengthens the first piece. */
  lemma {:induction false} SplitAfterPrefix(p: string, s: string, sep: char)
    requires sep !in p
    ensures Split(p + s, sep) == [p + Split(s, sep)[0]] + Split(s, sep)[1..]
  {
    var t := Split(s, sep);
    if p == [] {
      assert p + s == s && p + t[0] == t[0];
      assert [t[0]] + t[1..] == t;
    } else {
      assert (p + s)[0] == p[0] != sep;
      assert (p + s)[1..] == p[1..] + s;
      assert sep !in p[1..];
      SplitAfterPrefix(p[1..], s, sep);
      var u := Split(p[1..] + s, sep);
      assert u[0] == p[1..] + t[0] && u[1..] == t[1..];
      assert [p[0]] + (p[1..] + t[0]) == p + t[0];
    }
  }

  /** The first piece of `n + "," + x` is `n` when `n` has no comma. */
  lemma SplitAtFirst(n: string, x: string, sep: char)
    requires sep !in n
    ensures Split(n + [sep] + x, sep) == [n] + Split(x, sep)
  {
    assert n + [sep] + x == n + ([sep] + x);
    assert ([sep] + x)[1..] == x;
    SplitAfterPrefix(n, [sep] + x, sep);
    assert n + "" == n;
  }

  /** `parts.map(p => p.trim())`. */
  function TrimAll(parts: seq<string>): (r: seq<string>)
    ensures |r| == |parts|
  {
    seq(|parts|, k requires 0 <= k < |parts| => Trim(parts[k]))
  }

  lemma TrimAllCons(x: string, rest: seq<string>)
    ensures TrimAll([x] + rest) == [Trim(x)] + TrimAll(rest)
  {
    var l, r := TrimAll([x] + rest), [Trim(x)] + TrimAll(rest);
    assert |l| == |r|;
    forall k | 0 <= k < |l| ensures l[k] == r[k] {
      if k > 0 {
        assert ([x] + rest)[k] == rest[k - 1];
      }
    }
  }

  lemma JoinCons(names: seq<string>)
    requires |names| > 1
    ensures Join(names, ", ") == names[0] + [','] + (" " + Join(names[1..], ", "))
  {
    var rest := Join(names[1..], ", ");
    assert Join(names, ", ") == names[0] + ", " + rest;
  }

  /** The pieces of a `", "`-joined list of at least two names: the first name, then the rest after a blank. */
  lemma SplitJoined(names: seq<string>)
    requires |names| > 1 && ',' !in names[0]
    ensures Split(Join(names, ", "), ',') == [names[0]] + Split(" " + Join(names[1..], ", "), ',')
  {
    JoinCons(names);
    SplitAtFirst(names[0], " " + Join(names[1..], ", "), ',');
  }

  /** Trimming the pieces of `a + ", " + rest`: the blank after the comma goes away. */
  lemma TrimAllAfterCommaSpace(a: string, rest: string)
    ensures TrimAll([a] + Split(" " + rest, ',')) == [Trim(a)] + TrimAll(Split(rest, ','))
  {
    var t := Split(rest, ',');
    SplitAfterPrefix(" ", rest, ',');
    assert Split(" " + rest, ',') == [" " + t[0]] + t[1..];
    TrimStartSkipsWhitespace(" ", t[0]);
    TrimAllCons(a, [" " + t[0]] + t[1..]);
    TrimAllCons(" " + t[0], t[1..]);
    TrimAllCons(t[0], t[1..]);
    assert [t[0]] + t[1..] == t;
  }

  /**
   * Splitting a `", "`-joined list on `","` and trimming every piece gives the
   * list back, when no name contains a comma or surrounding white space.
   */
  lemma {:induction false} SplitTrimInvertsJoin(names: seq<string>)
    requires |names| >= 1
    requires forall k :: 0 <= k < |names| ==> ',' !in names[k] && IsTrimmed(names[k])
    ensures TrimAll(Split(Join(names, ", "), ',')) == names
  {
    TrimOfTrimmed(names[0]);
    if |names| == 1 {
      SplitWithoutSeparator(names[0], ',');
    } else {
      SplitTrimInvertsJoin(names[1..]);
      SplitJoined(names);
      TrimAllAfterCommaSpace(names[0], Join(names[1..], ", "));
      assert names == [names[0]] + names[1..];
    }
  }

  // ------------------------------------------------------------- includes

  /** `hay.includes(needle)`. */
  predicate Contains(hay: string, needle: string) {
    exists i | 0 <= i <= |hay| - |needle| :: OccursAt(hay, needle, i)
  }

  predicate OccursAt(hay: string, needle: string, i: int)
    requires 0 <= i <= |hay| - |needle|
  {
    hay[i..i + |needle|] == needle
  }

  // ---------------------------------------------------- ordering of strings

  /** `a < b` on JavaScript strings: code-unit-wise lexicographic order. */
  predicate LexLess(a: string, b: string) {
    if a == [] then b != []
    else if b == [] then false
    else if a[0] != b[0] then a[0] < b[0]
    else LexLess(a[1..], b[1..])
  }

  /** Comparing two strings whose prefixes have the same length. */
  lemma {:induction false} LexLessConcat(p: string, x: string, q: string, y: string)
    requires |p| == |q|
    ensures LexLess(p + x, q + y) <==> LexLess(p, q) || (p == q && LexLess(x, y))
  {
    if p != [] {
      assert (p + x)[0] == p[0] && (q + y)[0] == q[0];
      assert (p + x)[1..] == p[1..] + x && (q + y)[1..] == q[1..] + y;
      if p[0] == q[0] {
        LexLessConcat(p[1..], x, q[1..], y);
        assert p == q <==> p[1..] == q[1..] by {
          if p[1..] == q[1..] { assert p == [p[0]] + p[1..] && q == [q[0]] + q[1..]; }
        }
      }
    } else {
      assert p + x == x && q + y == y;
    }
  }

  /** The value of a digit string, read from its most significant digit. */
  lemma {:induction false} DigitsValueFront(s: string)
    requires AllDigits(s) && |s| >= 1
    ensures DigitsValue(s) == DigitValue(s[0]) * Pow10(|s| - 1) + DigitsValue(s[1..])
  {
    if |s| > 1 {
      var p := s[..|s| - 1];
      DigitsValueFront(p);
      assert p[0] == s[0];
      assert p[1..] == s[1..][..|s| - 2];
      assert s[1..][|s| - 2] == s[|s| - 1];
      var a, b, c, d := DigitValue(s[0]), Pow10(|p| - 1), DigitsValue(p[1..]), DigitValue(s[|s| - 1]);
      assert DigitsValue(s) == DigitsValue(p) * 10 + d;
      var q := s[1..];
      assert q[..|q| - 1] == p[1..] && q[|q| - 1] == s[|s| - 1];
      assert DigitsValue(q) == c * 10 + d;
      assert Pow10(|s| - 1) == b * 10;
      Regroup(a, b, c, d);
    }
  }

  lemma Regroup(a: int, b: int, c: int, d: int)
    ensures (a * b + c) * 10 + d == a * (b * 10) + (c * 10 + d)
  {
  }

  lemma {:induction false} DigitsValueBound(s: string)
    requires AllDigits(s)
    ensures DigitsValue(s) < Pow10(|s|)
  {
    if s != [] {
      DigitsValueBound(s[..|s| - 1]);
    }
  }

  /** A smaller leading digit decides the order of two numbers of one length. */
  lemma LeadingDigitDecides(a: nat, b: nat, x: nat, y: nat, p: nat)
    requires a < b && x < p
    ensures a * p + x < b * p + y
  {
    assert b * p == (a + 1) * p + (b - a - 1) * p;
    assert (a + 1) * p == a * p + p;
  }

  /** On digit strings of one length, string order is numeric order. */
  lemma {:induction false} LexLessDigits(s: string, t: string)
    requires AllDigits(s) && AllDigits(t) && |s| == |t|
    ensures LexLess(s, t) <==> DigitsValue(s) < DigitsValue(t)
  {
    if s != [] {
      DigitsValueFront(s);
      DigitsValueFront(t);
      DigitsValueBound(s[1..]);
      DigitsValueBound(t[1..]);
      var p := Pow10(|s| - 1);
      var a, b := DigitValue(s[0]), DigitValue(t[0]);
      if a == b {
        LexLessDigits(s[1..], t[1..]);
      } else if a < b {
        LeadingDigitDecides(a, b, DigitsValue(s[1..]), DigitsValue(t[1..]), p);
      } else {
        LeadingDigitDecides(b, a, DigitsValue(t[1..]), DigitsValue(s[1..]), p);
      }
    }
  }
}
