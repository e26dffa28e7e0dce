/** Character-level helpers shared by the forms, the views and the number formatting:
    digit filtering (`''.join(filter(str.isdigit, s))`), decimal rendering of naturals,
    zero padding, prefix/suffix/substring tests and Python's `s[:n]` truncation. */
module Text {

  predicate IsDigit(c: char) { '0' <= c <= '9' }

  predicate AllDigits(s: string) { forall i :: 0 <= i < |s| ==> IsDigit(s[i]) }

  function DigitChar(d: nat): (c: char)
    requires d < 10
    ensures IsDigit(c) && c as int - '0' as int == d
  {
    ('0' as int + d) as char
  }

  function CharValue(c: char): (d: nat)
    requires IsDigit(c)
    ensures d < 10 && DigitChar(d) == c
  {
    (c as int - '0' as int) as nat
  }

  /** Keeps only the ASCII digits of `s`, in order (`DigitsAppend`, `DigitsCounts`, `DigitsOrder`). */
  function Digits(s: string): (r: string)
    ensures AllDigits(r)
    ensures |r| <= |s|
    ensures AllDigits(s) ==> r == s
    decreases |s|
  {
    if s == [] then []
    else (if IsDigit(s[0]) then [s[0]] else []) + Digits(s[1..])
  }

  /** Every digit of `s` is kept as often as it occurs, and nothing else is. */
  lemma {:induction false} DigitsCounts(s: string)
    ensures forall c :: multiset(Digits(s))[c] == if IsDigit(c) then multiset(s)[c] else 0
    decreases |s|
  {
    if s != [] {
      assert s == [s[0]] + s[1..];
      DigitsCounts(s[1..]);
    }
  }

  lemma {:induction false} DigitsAppend(a: string, b: string)
    ensures Digits(a + b) == Digits(a) + Digits(b)
    decreases |a|
  {
    if a == [] {
      assert a + b == b;
    } else {
      assert (a + b)[1..] == a[1..] + b;
      DigitsAppend(a[1..], b);
    }
  }

  /** Filtering digits is idempotent. */
  lemma DigitsIdempotent(s: string)
    ensures Digits(Digits(s)) == Digits(s)
  {
  }

  /** A string without digits contributes nothing. */
  lemma {:induction false} DigitsOfNonDigits(s: string)
    requires forall i :: 0 <= i < |s| ==> !IsDigit(s[i])
    ensures Digits(s) == []
    decreases |s|
  {
    if s != [] {
      DigitsOfNonDigits(s[1..]);
    }
  }

  /** `xs` is `ys` with some elements left out, the rest kept in their order. */
  predicate Subsequence<T(==)>(xs: seq<T>, ys: seq<T>)
    decreases |ys|
  {
    if xs == [] then true
    else if ys == [] then false
    else if xs[|xs| - 1] == ys[|ys| - 1] then Subsequence(xs[..|xs| - 1], ys[..|ys| - 1])
    else Subsequence(xs, ys[..|ys| - 1])
  }

  /** Every list is a subsequence of itself. */
  lemma {:induction false} SubsequenceOfItself<T>(xs: seq<T>)
    ensures Subsequence(xs, xs)
    decreases |xs|
  {
    if xs != [] {
      SubsequenceOfItself(xs[..|xs| - 1]);
    }
  }

  /** The digits keep their order in `s`. */
  lemma {:induction false} DigitsOrder(s: string)
    ensures Subsequence(Digits(s), s)
    decreases |s|
  {
    if s != [] {
      var init, last := s[..|s| - 1], s[|s| - 1];
      assert s == init + [last];
      DigitsAppend(init, [last]);
      assert Digits([last]) == if IsDigit(last) then [last] else [] by {
        assert [last][1..] == [];
      }
      DigitsOrder(init);
      var d, r := Digits(init), Digits(s);
      assert s[..|s| - 1] == init;
      if IsDigit(last) {
        assert r[..|r| - 1] == d && r[|r| - 1] == last;
      } else if r != [] {
        assert r == d && IsDigit(r[|r| - 1]);
      }
    }
  }

  /** The numeric value of a digit string, most significant digit first. */
  function DigitValue(s: string): nat
    requires AllDigits(s)
    decreases |s|
  {
    if s == [] then 0 else DigitValue(s[..|s| - 1]) * 10 + CharValue(s[|s| - 1])
  }

  function Pow10(n: nat): (p: nat)
    ensures p >= 1
  {
    if n == 0 then 1 else 10 * Pow10(n - 1)
  }

  lemma AllDigitsAppend(a: string, b: string)
    requires AllDigits(a) && AllDigits(b)
    ensures AllDigits(a + b)
  {
    forall i | 0 <= i < |a + b| ensures IsDigit((a + b)[i]) {
      if i < |a| { assert (a + b)[i] == a[i]; } else { assert (a + b)[i] == b[i - |a|]; }
    }
  }

  lemma {:induction false} DigitValueAppend(a: string, b: string)
    requires AllDigits(a) && AllDigits(b)
    ensures AllDigits(a + b)
    ensures DigitValue(a + b) == DigitValue(a) * Pow10(|b|) + DigitValue(b)
    decreases |b|
  {
    AllDigitsAppend(a, b);
    if b == [] {
      assert a + b == a;
    } else {
      var b' := b[..|b| - 1];
      var last := CharValue(b[|b| - 1]);
      assert (a + b)[..|a + b| - 1] == a + b';
      assert (a + b)[|a + b| - 1] == b[|b| - 1];
      DigitValueAppend(a, b');
      var va, vb', p := DigitValue(a), DigitValue(b'), Pow10(|b'|);
      assert DigitValue(a + b) == (va * p + vb') * 10 + last;
      assert DigitValue(b) == vb' * 10 + last;
      assert Pow10(|b|) == 10 * p;
      MulAssoc(va, p);
    }
  }

  lemma MulAssoc(x: nat, p: nat)
    ensures (x * p) * 10 == x * (10 * p)
  {
  }

  /** Decimal rendering of a natural number, as Python's `str(n)`. */
  function NatToString(n: nat): (s: string)
    ensures |s| >= 1 && AllDigits(s)
    ensures DigitValue(s) == n
    ensures |s| > 1 ==> s[0] != '0'
    decreases n
  {
    if n < 10 then [DigitChar(n)]
    else
      var p := NatToString(n / 10);
      assert p + [DigitChar(n % 10)] == p + [DigitChar(n % 10)];
      var s := p + [DigitChar(n % 10)];
      assert s[..|s| - 1] == p;
      s
  }

  /** Distinct naturals render differently. */
  lemma NatToStringInjective(m: nat, n: nat)
    requires NatToString(m) == NatToString(n)
    ensures m == n
  {
  }

  /** A digit string without a leading zero is worth at least `10^(|s|-1)`. */
  lemma {:induction false} LeadingDigitBound(s: string)
    requires |s| >= 1 && AllDigits(s) && s[0] != '0'
    ensures DigitValue(s) >= Pow10(|s| - 1)
    decreases |s|
  {
    if |s| > 1 {
      var init := s[..|s| - 1];
      assert init[0] == s[0];
      LeadingDigitBound(init);
    }
  }

  lemma {:induction false} Pow10Monotone(m: nat, n: nat)
    requires m <= n
    ensures Pow10(m) <= Pow10(n)
    decreases n
  {
    if m < n {
      Pow10Monotone(m, n - 1);
    }
  }

  /** A number below `10^w` (with `w >= 1`) takes at most `w` decimal digits. */
  lemma NatToStringWidth(n: nat, w: nat)
    requires w >= 1 && n < Pow10(w)
    ensures |NatToString(n)| <= w
  {
    var s := NatToString(n);
    if |s| > w {
      LeadingDigitBound(s);
      Pow10Monotone(w, |s| - 1);
      assert false;
    }
  }

  function Repeat(c: char, n: nat): (r: string)
    ensures |r| == n && forall i :: 0 <= i < n ==> r[i] == c
  {
    if n == 0 then [] else [c] + Repeat(c, n - 1)
  }

  /** Left padding with '0' up to `width` characters, as the `0<width>d` format. */
  function ZeroPad(s: string, width: nat): (r: string)
    ensures |r| == if |s| >= width then |s| else width
    ensures |s| <= width ==> r[width - |s|..] == s
    ensures forall i :: 0 <= i < |r| - |s| ==> r[i] == '0'
  {
    if |s| >= width then s
    else
      var z := Repeat('0', width - |s|);
      assert (z + s)[|z|..] == s;
      z + s
  }

  /** Zero padding keeps a digit string's value. */
  lemma ZeroPadValue(s: string, width: nat)
    requires AllDigits(s)
    ensures AllDigits(ZeroPad(s, width)) && DigitValue(ZeroPad(s, width)) == DigitValue(s)
  {
    if |s| < width {
      var z := Repeat('0', width - |s|);
      assert ZeroPad(s, width) == z + s;
      ZerosValue(z);
      DigitValueAppend(z, s);
    }
  }

  lemma {:induction false} ZerosValue(z: string)
    requires forall i :: 0 <= i < |z| ==> z[i] == '0'
    ensures AllDigits(z) && DigitValue(z) == 0
    decreases |z|
  {
    if z != [] {
      ZerosValue(z[..|z| - 1]);
    }
  }

  predicate StartsWith(s: string, prefix: string)
  {
    |prefix| <= |s| && s[..|prefix|] == prefix
  }

  predicate EndsWith(s: string, suffix: string)
  {
    |suffix| <= |s| && s[|s| - |suffix|..] == suffix
  }

  /** Python's `needle in haystack` for strings. */
  predicate Contains(haystack: string, needle: string)
  {
    exists i :: 0 <= i <= |haystack| - |needle| && OccursAt(haystack, needle, i)
  }

  predicate OccursAt(haystack: string, needle: string, i: int)
  {
    0 <= i <= |haystack| - |needle| && haystack[i..i + |needle|] == needle
  }

  /** Python's `s[:n]` for n >= 0: at most the first n characters. */
  function Take(s: string, n: nat): (r: string)
    ensures |r| <= n && StartsWith(s, r)
    ensures |s| <= n ==> r == s
    ensures |s| > n ==> |r| == n
  {
    if |s| <= n then s else s[..n]
  }

  /** Python's `s[-n:]` for 0 < n <= |s|. */
  function LastN(s: string, n: nat): (r: string)
    requires n <= |s|
    ensures |r| == n && EndsWith(s, r)
  {
    s[|s| - n..]
  }

  /** Python's lower-casing of one character, for the ASCII letters and the Latin-1
      letters `À`..`Þ` (except `×`), each of which maps 32 code points up. */
  function LowerChar(c: char): (r: char)
    ensures 'A' <= c <= 'Z' ==> 'a' <= r <= 'z'
    ensures 'À' <= c <= 'Þ' && c != '×' ==> 'à' <= r <= 'þ' && r != '÷'
    ensures !('A' <= c <= 'Z' || ('À' <= c <= 'Þ' && c != '×')) ==> r == c
  {
    if 'A' <= c <= 'Z' || ('À' <= c <= 'Þ' && c != '×') then (c as int + 32) as char else c
  }

  function Lower(s: string): (r: string)
    ensures |r| == |s| && forall i :: 0 <= i < |s| ==> r[i] == LowerChar(s[i])
  {
    seq(|s|, i requires 0 <= i < |s| => LowerChar(s[i]))
  }

  /** Python's upper-casing of one character, for the ASCII letters and the Latin-1
      letters `à`..`þ` (except `÷`); lower-casing the result gives the letter back. */
  function UpperChar(c: char): (r: char)
    ensures 'a' <= c <= 'z' ==> 'A' <= r <= 'Z' && LowerChar(r) == c
    ensures 'à' <= c <= 'þ' && c != '÷' ==> 'À' <= r <= 'Þ' && r != '×' && LowerChar(r) == c
    ensures !('a' <= c <= 'z' || ('à' <= c <= 'þ' && c != '÷')) ==> r == c
  {
    if 'a' <= c <= 'z' || ('à' <= c <= 'þ' && c != '÷') then (c as int - 32) as char else c
  }

  function Upper(s: string): (r: string)
    ensures |r| == |s| && forall i :: 0 <= i < |s| ==> r[i] == UpperChar(s[i])
  {
    seq(|s|, i requires 0 <= i < |s| => UpperChar(s[i]))
  }

  /** `"três".upper()` is `"TRÊS"`. */
  lemma UpperAccented()
    ensures Upper("três") == "TRÊS"
  {
    assert UpperChar('t') == 'T' && UpperChar('r') == 'R';
    assert UpperChar('ê') == 'Ê' && UpperChar('s') == 'S';
  }
}
