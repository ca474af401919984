/** Decimal text: Python's `str` of an integer, `int` of a string, and `str.split` on one character. */
module Decimal {
  import opened Common

  // ---------------------------------------------------------------- printing

  function Digit(d: nat): char
    requires d < 10
  {
    '0' + d as char
  }

  function OfNat(n: nat): string {
    if n < 10 then [Digit(n)] else OfNat(n / 10) + [Digit(n % 10)]
  }

  function OfInt(n: int): string {
    if n < 0 then "-" + OfNat(-n) else OfNat(n)
  }

  // ---------------------------------------------------------------- parsing

  predicate IsDigit(c: char) {
    '0' <= c <= '9'
  }

  function DigitValue(c: char): nat
    requires IsDigit(c)
  {
    c as int - '0' as int
  }

  /** What `int` strips from both ends. */
  predicate IsSpace(c: char) {
    || '\U{0009}' <= c <= '\U{000D}' || c == ' ' || c == '\U{0085}' || c == '\U{00A0}'
    || c == '\U{1680}' || '\U{2000}' <= c <= '\U{200A}' || c == '\U{2028}' || c == '\U{2029}'
    || c == '\U{202F}' || c == '\U{205F}' || c == '\U{3000}'
  }

  function Strip(s: string): string {
    if s == "" then ""
    else if IsSpace(s[0]) then Strip(s[1..])
    else if IsSpace(s[|s| - 1]) then Strip(s[..|s| - 1])
    else s
  }

  /** One or more digits, where single underscores may stand between digits. */
  function ParseDigits(s: string): Option<nat> {
    if s == "" || !IsDigit(s[|s| - 1]) then None
    else
      var last := DigitValue(s[|s| - 1]);
      var front := s[..|s| - 1];
      if front == "" then Some(last)
      else
        var higher := ParseDigits(if front[|front| - 1] == '_' then front[..|front| - 1] else front);
        if higher.None? then None else Some(10 * higher.value + last)
  }

  /** `int(s)`; None stands for the ValueError. */
  function ParseInt(s: string): Option<int> {
    var t := Strip(s);
    if t != "" && t[0] == '-' then
      var n: Option<int> := ParseDigits(t[1..]);
      if n.None? then None else Some(-n.value)
    else if t != "" && t[0] == '+' then ParseDigits(t[1..])
    else ParseDigits(t)
  }

  // ---------------------------------------------------------------- round trip

  ghost predicate AllDigits(s: string) {
    forall i :: 0 <= i < |s| ==> IsDigit(s[i])
  }

  lemma {:induction false} OfNatParses(n: nat)
    ensures OfNat(n) != "" && AllDigits(OfNat(n))
    ensures ParseDigits(OfNat(n)) == Some(n)
  {
    if n >= 10 {
      OfNatParses(n / 10);
      var s := OfNat(n);
      assert s[..|s| - 1] == OfNat(n / 10);
    }
  }

  function Pow10(k: nat): (r: nat)
    ensures r > 0
  {
    if k == 0 then 1 else 10 * Pow10(k - 1)
  }

  /** The k-th digit from the right stands for the k-th power of ten, and the first is not zero. */
  lemma {:induction false} DigitsArePositional(n: nat, k: nat)
    requires k < |OfNat(n)|
    ensures OfNat(n)[|OfNat(n)| - 1 - k] as int - '0' as int == n / Pow10(k) % 10
    ensures n > 0 ==> OfNat(n)[0] != '0'
  {
    if n >= 10 {
      DigitsArePositional(n / 10, if k == 0 then 0 else k - 1);
      if k > 0 {
        DividedTwice(n, Pow10(k - 1));
      }
    }
  }

  lemma DividedTwice(n: nat, p: nat)
    requires p > 0
    ensures n / 10 / p == n / (10 * p)
  {
    var q, r := n / 10 / p, n / 10 % p;
    assert n == 10 * (q * p + r) + n % 10;
    assert n == q * (10 * p) + (10 * r + n % 10);
    QuotientIs(n, 10 * p, q, 10 * r + n % 10);
  }

  lemma QuotientIs(n: nat, d: nat, q: nat, r: nat)
    requires n == q * d + r && r < d
    ensures n / d == q
  {
    var k := q - n / d;
    assert k * d == n % d - r;
    SmallMultiple(k, d);
  }

  lemma SmallMultiple(k: int, d: nat)
    requires -(d as int) < k * d < d
    ensures k == 0
  {
    assert k >= 1 ==> (k - 1) * d >= 0;
    assert k <= -1 ==> (-k - 1) * d >= 0;
  }

  lemma DigitsParse(digits: string, n: nat)
    requires digits != "" && AllDigits(digits) && ParseDigits(digits) == Some(n)
    ensures ParseInt(digits) == Some(n) && ParseInt("-" + digits) == Some(-(n as int))
  {
    assert IsDigit(digits[0]) && IsDigit(digits[|digits| - 1]);
    StripKeepsDigits(digits);
    StripKeepsDigits("-" + digits);
    assert ("-" + digits)[1..] == digits;
  }

  lemma DigitsOnly(digits: string, c: char)
    requires AllDigits(digits) && c in digits
    ensures IsDigit(c)
  {
  }

  lemma OfIntParses(n: int)
    ensures ParseInt(OfInt(n)) == Some(n)
    ensures ':' !in OfInt(n) && OfInt(n) != ""
    ensures forall c :: c in OfInt(n) ==> c == '-' || IsDigit(c)
  {
    var m := if n < 0 then -n else n;
    OfNatParses(m);
    DigitsParse(OfNat(m), m);
    forall c | c in OfInt(n)
      ensures c == '-' || IsDigit(c)
    {
      if c != '-' {
        DigitsOnly(OfNat(m), c);
      }
    }
  }

  lemma StripKeepsDigits(s: string)
    requires s != "" && !IsSpace(s[0]) && !IsSpace(s[|s| - 1])
    ensures Strip(s) == s
  {
  }

  ghost predicate AllSpace(s: string) {
    forall i :: 0 <= i < |s| ==> IsSpace(s[i])
  }

  lemma {:induction false} StripsPadding(before: string, s: string, after: string)
    requires AllSpace(before) && AllSpace(after)
    requires s != "" && !IsSpace(s[0]) && !IsSpace(s[|s| - 1])
    ensures Strip(before + s + after) == s
    decreases |before| + |after|
  {
    var text := before + s + after;
    if before != "" {
      assert text[1..] == before[1..] + s + after;
      StripsPadding(before[1..], s, after);
    } else if after != "" {
      var less := after[..|after| - 1];
      assert text == s + after && before + s + less == s + less;
      assert text[..|text| - 1] == s + less && text[|text| - 1] == after[|after| - 1];
      StripsPadding(before, s, less);
    } else {
      assert text == s;
      StripKeepsDigits(s);
    }
  }

  /** Blanks around a number and a plus sign before it do not matter. */
  lemma PaddedIntParses(before: string, n: int, after: string)
    requires AllSpace(before) && AllSpace(after)
    ensures ParseInt(before + OfInt(n) + after) == Some(n)
    ensures n >= 0 ==> ParseInt("+" + OfInt(n)) == Some(n)
  {
    var s := OfInt(n);
    OfIntParses(n);
    EndsAreVisible(n);
    StripsPadding(before, s, after);
    StripKeepsDigits(s);
    if n >= 0 {
      OfNatParses(n);
      StripKeepsDigits("+" + s);
      assert ("+" + s)[1..] == s;
    }
  }

  lemma EndsAreVisible(n: int)
    ensures var s := OfInt(n);
            s != "" && !IsSpace(s[0]) && !IsSpace(s[|s| - 1])
  {
    OfNatParses(if n < 0 then -n else n);
  }

  lemma OfIntIsInjective(m: int, n: int)
    requires OfInt(m) == OfInt(n)
    ensures m == n
  {
    OfIntParses(m);
    OfIntParses(n);
  }

  // ---------------------------------------------------------------- splitting

  function Split(s: string, sep: char): (parts: seq<string>)
    ensures |parts| >= 1
  {
    if s == "" then [""]
    else
      var rest := Split(s[1..], sep);
      if s[0] == sep then [""] + rest else [[s[0]] + rest[0]] + rest[1..]
  }

  lemma {:induction false} SplitLast(a: string, sep: char)
    requires sep !in a
    ensures Split(a, sep) == [a]
  {
    if a != "" {
      assert a == [a[0]] + a[1..];
      SplitLast(a[1..], sep);
    }
  }

  lemma {:induction false} SplitFirst(a: string, sep: char, rest: string)
    requires sep !in a
    ensures Split(a + [sep] + rest, sep) == [a] + Split(rest, sep)
  {
    var s := a + [sep] + rest;
    if a == "" {
      assert s[1..] == rest;
    } else {
      assert a == [a[0]] + a[1..];
      assert s[1..] == a[1..] + [sep] + rest;
      SplitFirst(a[1..], sep, rest);
    }
  }

  lemma {:induction false} PartsHaveNoSeparator(s: string, sep: char)
    ensures forall i :: 0 <= i < |Split(s, sep)| ==> sep !in Split(s, sep)[i]
  {
    if s != "" {
      PartsHaveNoSeparator(s[1..], sep);
    }
  }
}
