/** Decimal rendering and byte-wise string order, as strconv.Itoa and Go's `<` give them. */
module Strings {

  const DIGITS: string := "0123456789"

  function Digits(n: nat): (s: string)
    ensures |s| > 0 && forall i :: 0 <= i < |s| ==> s[i] in DIGITS
  {
    if n < 10 then [DIGITS[n]] else Digits(n / 10) + [DIGITS[n % 10]]
  }

  function Itoa(n: int): (s: string)
    ensures ':' !in s
  {
    if n < 0 then "-" + Digits(-n) else Digits(n)
  }

  function DigitValue(c: char): int {
    c as int - '0' as int
  }

  function Value(s: string): int {
    if |s| == 0 then 0 else 10 * Value(s[..|s| - 1]) + DigitValue(s[|s| - 1])
  }

  lemma {:induction false} DigitsRoundTrip(n: nat)
    ensures Value(Digits(n)) == n
  {
    var s := Digits(n);
    if n < 10 {
      assert s[..0] == "";
    } else {
      DigitsRoundTrip(n / 10);
      assert s[..|s| - 1] == Digits(n / 10);
    }
  }

  function Atoi(s: string): int {
    if |s| > 0 && s[0] == '-' then -Value(s[1..]) else Value(s)
  }

  lemma DigitRange(c: char)
    requires c in DIGITS
    ensures '0' <= c <= '9'
  {
    var i :| 0 <= i < |DIGITS| && DIGITS[i] == c;
  }

  lemma AtoiOfDigits(s: string)
    requires |s| > 0 && forall i :: 0 <= i < |s| ==> s[i] in DIGITS
    ensures Atoi(s) == Value(s) && Atoi("-" + s) == -Value(s)
  {
    DigitRange(s[0]);
    assert ("-" + s)[1..] == s;
  }

  lemma ItoaRoundTrip(n: int)
    ensures Atoi(Itoa(n)) == n
  {
    var m := if n < 0 then -n else n;
    var s := Digits(m);
    AtoiOfDigits(s);
    DigitsRoundTrip(m);
  }

  lemma ItoaInjective(a: int, b: int)
    requires Itoa(a) == Itoa(b)
    ensures a == b
  {
    ItoaRoundTrip(a);
    ItoaRoundTrip(b);
  }

  // ---- fields ----

  /** The part of `s` before the first separator. */
  function UpTo(s: string, sep: char): string {
    if |s| == 0 || s[0] == sep then "" else [s[0]] + UpTo(s[1..], sep)
  }

  /** The part of `s` after the last separator. */
  function AfterLast(s: string, sep: char): string {
    if |s| == 0 || s[|s| - 1] == sep then "" else AfterLast(s[..|s| - 1], sep) + [s[|s| - 1]]
  }

  lemma {:induction false} UpToOf(a: string, sep: char, x: string)
    requires sep !in a
    ensures UpTo(a + [sep] + x, sep) == a
  {
    var s := a + [sep] + x;
    if |a| > 0 {
      assert s[1..] == a[1..] + [sep] + x;
      UpToOf(a[1..], sep, x);
    }
  }

  lemma {:induction false} UpToAll(a: string, sep: char)
    requires sep !in a
    ensures UpTo(a, sep) == a
  {
    if |a| > 0 {
      UpToAll(a[1..], sep);
    }
  }

  lemma {:induction false} AfterLastOf(x: string, sep: char, a: string)
    requires sep !in a
    ensures AfterLast(x + [sep] + a, sep) == a
  {
    var s := x + [sep] + a;
    if |a| > 0 {
      assert s[..|s| - 1] == x + [sep] + a[..|a| - 1];
      AfterLastOf(x, sep, a[..|a| - 1]);
    }
  }

  /** Two fields joined by a separator that the first one does not contain. */
  lemma JoinInjective(a: string, x: string, b: string, y: string, sep: char)
    requires sep !in a && sep !in b && a + [sep] + x == b + [sep] + y
    ensures a == b && x == y
  {
    UpToOf(a, sep, x);
    UpToOf(b, sep, y);
    assert (a + [sep] + x)[|a| + 1..] == x && (b + [sep] + y)[|b| + 1..] == y;
  }

  // ---- order ----

  predicate Less(a: string, b: string) {
    if |b| == 0 then false
    else if |a| == 0 then true
    else a[0] < b[0] || (a[0] == b[0] && Less(a[1..], b[1..]))
  }

  /** The order is the dictionary's: the first difference decides, and a prefix comes first. */
  lemma {:induction false} LessIsLexicographic(p: string, c: char, x: string, d: char, y: string)
    requires c < d
    ensures Less(p + [c] + x, p + [d] + y) && Less(p, p + [c] + x)
  {
    var a, b := p + [c] + x, p + [d] + y;
    if |p| > 0 {
      assert a[1..] == p[1..] + [c] + x && b[1..] == p[1..] + [d] + y;
      LessIsLexicographic(p[1..], c, x, d, y);
    }
  }

  lemma {:induction false} LessTotal(a: string, b: string)
    ensures Less(a, b) || Less(b, a) || a == b
    ensures !(Less(a, b) && Less(b, a))
    ensures a == b ==> !Less(a, b)
  {
    if |a| > 0 && |b| > 0 {
      LessTotal(a[1..], b[1..]);
      assert a == [a[0]] + a[1..] && b == [b[0]] + b[1..];
    }
  }

  lemma {:induction false} LessTransitive(a: string, b: string, c: string)
    requires Less(a, b) && Less(b, c)
    ensures Less(a, c)
  {
    if |a| > 0 && a[0] == b[0] == c[0] {
      LessTransitive(a[1..], b[1..], c[1..]);
    }
  }
}
