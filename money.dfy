/** Brazilian money rendering (beneficios/utils.py, beneficios/views.py): the
    `f"{v:,.2f}"` format with ',' and '.' swapped through a placeholder 'X', and
    `valor_por_extenso`, which spells an amount out in Portuguese around an
    external number-to-words function. Amounts are integer cents. */
module Money {
  import opened Common
  import opened Text

  function Abs(x: int): nat { if x < 0 then -x else x }

  /** Python's ',' grouping option: a separator between groups of three digits,
      counted from the right. */
  function GroupThousands(ds: string, sep: char): string
    decreases |ds|
  {
    if |ds| <= 3 then ds else GroupThousands(ds[..|ds| - 3], sep) + [sep] + ds[|ds| - 3..]
  }

  /** Every fourth position counting back from the end holds `sep`, and only those. */
  predicate SepEveryFourth(g: string, sep: char)
  {
    forall j :: 0 <= j < |g| ==> (g[j] == sep <==> (|g| - j) % 4 == 0)
  }

  predicate DigitsOrSep(g: string, sep: char)
  {
    forall j :: 0 <= j < |g| && g[j] != sep ==> IsDigit(g[j])
  }

  lemma SepEveryFourthStep(gp: string, t: string, sep: char)
    requires SepEveryFourth(gp, sep) && DigitsOrSep(gp, sep)
    requires |t| == 3 && AllDigits(t) && !IsDigit(sep)
    ensures SepEveryFourth(gp + [sep] + t, sep) && DigitsOrSep(gp + [sep] + t, sep)
  {
    var g := gp + [sep] + t;
    forall j | 0 <= j < |g|
      ensures (g[j] == sep <==> (|g| - j) % 4 == 0)
      ensures g[j] != sep ==> IsDigit(g[j])
    {
      if j < |gp| {
        assert g[j] == gp[j];
        ModShift(|gp| - j);
      } else if j > |gp| {
        assert g[j] == t[j - |gp| - 1];
      }
    }
  }

  lemma ModShift(x: int)
    ensures (x + 4) % 4 == x % 4
  {
  }

  /** A grouped numeral holds a separator exactly every fourth position counting back
      from its end and digits everywhere else. */
  lemma {:induction false} GroupThousandsShape(ds: string, sep: char)
    requires AllDigits(ds) && |ds| >= 1 && !IsDigit(sep)
    ensures |GroupThousands(ds, sep)| >= 1
    ensures SepEveryFourth(GroupThousands(ds, sep), sep)
    ensures DigitsOrSep(GroupThousands(ds, sep), sep)
    decreases |ds|
  {
    if |ds| > 3 {
      var p, t := ds[..|ds| - 3], ds[|ds| - 3..];
      assert AllDigits(p) && AllDigits(t);
      GroupThousandsShape(p, sep);
      SepEveryFourthStep(GroupThousands(p, sep), t, sep);
    }
  }

  /** Dropping the separators of a grouped numeral gives back its digits in order. */
  lemma {:induction false} GroupThousandsDigits(ds: string, sep: char)
    requires AllDigits(ds) && !IsDigit(sep)
    ensures Digits(GroupThousands(ds, sep)) == ds
    decreases |ds|
  {
    if |ds| > 3 {
      var p, t := ds[..|ds| - 3], ds[|ds| - 3..];
      assert AllDigits(p) && AllDigits(t);
      GroupThousandsDigits(p, sep);
      DigitsAroundSep(GroupThousands(p, sep), t, sep);
      assert p + t == ds;
    }
  }

  lemma DigitsAroundSep(gp: string, t: string, sep: char)
    requires AllDigits(t) && !IsDigit(sep)
    ensures Digits(gp + [sep] + t) == Digits(gp) + t
  {
    var x := gp + [sep];
    DigitsAppend(x, t);
    DigitsAppend(gp, [sep]);
    DigitsOfNonDigits([sep]);
    assert Digits(x) == Digits(gp);
    assert Digits(t) == t;
  }

  /** The two decimal places of a cents remainder. */
  function TwoDigits(n: nat): (r: string)
    requires n < 100
    ensures |r| == 2 && AllDigits(r) && DigitValue(r) == n
  {
    var r := [DigitChar(n / 10), DigitChar(n % 10)];
    assert r[..1] == [DigitChar(n / 10)] && r[..1][..0] == [];
    assert DigitValue(r[..1]) == n / 10;
    r
  }

  /** `f"{valor:,.2f}"` of an amount of `cents` cents. */
  function FormatUS(cents: int): string
  {
    var a := Abs(cents);
    (if cents < 0 then "-" else "") + GroupThousands(NatToString(a / 100), ',') + "." + TwoDigits(a % 100)
  }

  /** `f"{valor:.2f}"`: the same, without thousands separators. */
  function FormatPlain(cents: int): string
  {
    var a := Abs(cents);
    (if cents < 0 then "-" else "") + NatToString(a / 100) + "." + TwoDigits(a % 100)
  }

  /** Python's `s.replace(a, b)` for single characters. */
  function ReplaceChar(s: string, a: char, b: char): (r: string)
    ensures |r| == |s|
    ensures forall i :: 0 <= i < |s| ==> r[i] == if s[i] == a then b else s[i]
  {
    seq(|s|, i requires 0 <= i < |s| => if s[i] == a then b else s[i])
  }

  /** `.replace(",", "X").replace(".", ",").replace("X", ".")`. */
  function SwapSeparators(s: string): string
  {
    ReplaceChar(ReplaceChar(ReplaceChar(s, ',', 'X'), '.', ','), 'X', '.')
  }

  /** On text without the placeholder, the three replacements exchange ',' and '.'
      and leave every other character alone. */
  lemma SwapSeparatorsExchanges(s: string)
    requires 'X' !in s
    ensures |SwapSeparators(s)| == |s|
    ensures forall i :: 0 <= i < |s| ==>
      SwapSeparators(s)[i] == (if s[i] == ',' then '.' else if s[i] == '.' then ',' else s[i])
  {
  }

  /** Amounts as shown on the memoranda, receipts and dashboards: "1.234,56". */
  function FormatBR(cents: int): string
  {
    SwapSeparators(FormatUS(cents))
  }

  /** The layout of a formatted amount with `s` sign characters (0 or 1): a '-' first
      exactly when `s` is 1, the decimal mark `dec` third from the end followed by the two
      decimals `two`, the group mark `sep` exactly every fourth position counting back from
      the decimal mark, and digits everywhere else. */
  predicate AmountLayout(r: string, s: nat, two: string, sep: char, dec: char)
  {
    && |r| >= 4 + s
    && (s == 1 <==> r[0] == '-')
    && r[|r| - 3] == dec && r[|r| - 2..] == two
    && (forall j :: s <= j < |r| - 3 ==> (r[j] == sep <==> (|r| - 3 - j) % 4 == 0))
    && (forall j :: s <= j < |r| && r[j] != sep && r[j] != dec ==> IsDigit(r[j]))
  }

  /** Layout of `sign + grouped + "." + two`, independent of the arithmetic. */
  lemma AmountTextShape(sign: string, g: string, two: string)
    requires sign == "" || sign == "-"
    requires |g| >= 1 && SepEveryFourth(g, ',') && DigitsOrSep(g, ',')
    requires |two| == 2 && AllDigits(two)
    ensures AmountLayout(sign + g + "." + two, |sign|, two, ',', '.')
    ensures 'X' !in sign + g + "." + two
  {
    var u := sign + g + "." + two;
    var s := |sign|;
    forall j | s <= j < |u| - 3
      ensures u[j] == ',' <==> (|u| - 3 - j) % 4 == 0
    {
      assert u[j] == g[j - s];
    }
    forall j | 0 <= j < |u| ensures u[j] != 'X' && (s <= j && u[j] != ',' && u[j] != '.' ==> IsDigit(u[j])) {
      if j < s { assert u[j] == '-'; }
      else if j < s + |g| { assert u[j] == g[j - s]; }
      else if j == s + |g| { assert u[j] == '.'; }
      else { assert u[j] == two[j - s - |g| - 1]; }
    }
    assert u[|u| - 2..] == two;
  }

  /** The digits of `sign + grouped + "." + two` are the grouped digits then `two`. */
  lemma AmountTextDigits(sign: string, g: string, n: string, two: string)
    requires sign == "" || sign == "-"
    requires Digits(g) == n && AllDigits(n) && AllDigits(two)
    ensures Digits(sign + g + "." + two) == n + two
  {
    var dot: string := ".";
    var sg := sign + g;
    DigitsAppend(sg + dot, two);
    DigitsAppend(sg, dot);
    DigitsAppend(sign, g);
    DigitsOfNonDigits(sign);
    DigitsOfNonDigits(dot);
    assert Digits(sg) == n;
    assert Digits(sg + dot) == n;
  }

  /** The text `f"{v:,.2f}"` produces, before the separators are swapped: ',' groups
      and a '.' decimal mark, with no placeholder 'X' in it. */
  lemma FormatUSShape(cents: int)
    ensures AmountLayout(FormatUS(cents), if cents < 0 then 1 else 0, TwoDigits(Abs(cents) % 100), ',', '.')
    ensures 'X' !in FormatUS(cents)
  {
    var a := Abs(cents);
    var n := NatToString(a / 100);
    GroupThousandsShape(n, ',');
    var sign: string := if cents < 0 then "-" else "";
    var g, two := GroupThousands(n, ','), TwoDigits(a % 100);
    AmountTextShape(sign, g, two);
    assert FormatUS(cents) == sign + g + "." + two;
  }

  /** The digits of `f"{v:,.2f}"` read back as the amount. */
  lemma FormatUSDigits(cents: int)
    ensures AllDigits(Digits(FormatUS(cents))) && DigitValue(Digits(FormatUS(cents))) == Abs(cents)
  {
    var a := Abs(cents);
    var n := NatToString(a / 100);
    GroupThousandsDigits(n, ',');
    var two := TwoDigits(a % 100);
    AmountTextDigits(if cents < 0 then "-" else "", GroupThousands(n, ','), n, two);
    WholeAndCentsValue(a, n, two);
  }

  /** The whole part's digits followed by the two decimals read back as the cents amount. */
  lemma WholeAndCentsValue(a: nat, n: string, two: string)
    requires AllDigits(n) && DigitValue(n) == a / 100
    requires |two| == 2 && AllDigits(two) && DigitValue(two) == a % 100
    ensures AllDigits(n + two) && DigitValue(n + two) == a
  {
    DigitValueAppend(n, two);
    assert Pow10(2) == 100;
  }

  /** Swapping the separators never touches a digit. */
  lemma SwapSeparatorsDigits(s: string)
    ensures Digits(SwapSeparators(s)) == Digits(s)
  {
    var s1 := ReplaceChar(s, ',', 'X');
    var s2 := ReplaceChar(s1, '.', ',');
    DigitsSeparatorInvariant(s, s1, ',', 'X');
    DigitsSeparatorInvariant(s1, s2, '.', ',');
    DigitsSeparatorInvariant(s2, SwapSeparators(s), 'X', '.');
  }

  /** Shape of a Brazilian-formatted amount: an optional '-' for negative amounts,
      a '.' exactly every fourth position counting back from the ',' that sits
      third from the end, digits everywhere else, two decimals holding the cents,
      and the digits read back as the amount. */
  lemma FormatBRShape(cents: int)
    ensures AmountLayout(FormatBR(cents), if cents < 0 then 1 else 0, TwoDigits(Abs(cents) % 100), '.', ',')
    ensures AllDigits(Digits(FormatBR(cents))) && DigitValue(Digits(FormatBR(cents))) == Abs(cents)
  {
    var u := FormatUS(cents);
    FormatUSShape(cents);
    FormatUSDigits(cents);
    SwappedShape(u, if cents < 0 then 1 else 0, TwoDigits(Abs(cents) % 100));
  }

  /** Swapping the separators of a US-style amount text gives the Brazilian layout with
      the same digits. */
  lemma SwappedShape(u: string, s: nat, two: string)
    requires 'X' !in u && AmountLayout(u, s, two, ',', '.') && |two| == 2 && AllDigits(two)
    ensures AmountLayout(SwapSeparators(u), s, two, '.', ',')
    ensures Digits(SwapSeparators(u)) == Digits(u)
  {
    SwapSeparatorsExchanges(u);
    SwapSeparatorsDigits(u);
    var r := SwapSeparators(u);
    forall j | s <= j < |r| - 3
      ensures r[j] == '.' <==> (|r| - 3 - j) % 4 == 0
    {
      assert u[j] == ',' <==> (|u| - 3 - j) % 4 == 0;
    }
    forall j | s <= j < |r| && r[j] != '.' && r[j] != ','
      ensures IsDigit(r[j])
    {
      assert r[j] == u[j];
    }
    assert u[|u| - 2] == two[0] && u[|u| - 1] == two[1];
    assert r[|r| - 2..] == two;
  }

  /** Replacing one non-digit by another does not change the digits kept. */
  lemma {:induction false} DigitsSeparatorInvariant(u: string, v: string, a: char, b: char)
    requires !IsDigit(a) && !IsDigit(b) && |u| == |v|
    requires forall j :: 0 <= j < |u| ==> v[j] == (if u[j] == a then b else u[j])
    ensures Digits(v) == Digits(u)
    decreases |u|
  {
    if u != [] {
      DigitsSeparatorInvariant(u[1..], v[1..], a, b);
    }
  }

  /** `reais = int(valor)` and `centavos = int((valor - reais) * 100)` on a two-place
      decimal: both parts are truncated toward zero and carry the amount's sign. */
  function SplitAmount(cents: int): (parts: (int, int))
    ensures parts.0 * 100 + parts.1 == cents
    ensures -100 < parts.1 < 100
    ensures cents >= 0 ==> parts.0 >= 0 && parts.1 >= 0
    ensures cents < 0 ==> parts.0 <= 0 && parts.1 <= 0
  {
    if cents >= 0 then (cents / 100, cents % 100) else (-((-cents) / 100), -((-cents) % 100))
  }

  /** The unit word after the spelled-out whole part. */
  function UnitWord(reais: int): string
  {
    if reais == 1 then "real" else "reais"
  }

  /** `valor_por_extenso`: the whole part spelled out by `words` (num2words with
      lang='pt_BR'), "real" or "reais", and " e <cents> centavos" only when the
      cents part is positive. When `words` fails (the bare `except`), the amount
      is written as digits with two decimals followed by " reais". */
  function ValorPorExtenso(cents: int, words: int -> Option<string>): (r: string)
    ensures var (reais, centavos) := SplitAmount(cents);
      var spelled := words(reais).Some? && (centavos > 0 ==> words(centavos).Some?);
      && (!spelled ==> r == FormatPlain(cents) + " reais")
      && (spelled ==> StartsWith(r, words(reais).value + " " + UnitWord(reais)))
      && (spelled && centavos > 0 ==> EndsWith(r, " e " + words(centavos).value + " centavos"))
      && (spelled && centavos > 0 ==>
            |r| == |words(reais).value + " " + UnitWord(reais)| + |" e " + words(centavos).value + " centavos"|)
      && (spelled && centavos <= 0 ==> r == words(reais).value + " " + UnitWord(reais))
  {
    var (reais, centavos) := SplitAmount(cents);
    match words(reais)
    case None => FormatPlain(cents) + " reais"
    case Some(extensoReais) =>
      if centavos > 0 then
        match words(centavos)
        case None => FormatPlain(cents) + " reais"
        case Some(extensoCentavos) =>
          extensoReais + " " + UnitWord(reais) + " e " + extensoCentavos + " centavos"
      else
        extensoReais + " " + UnitWord(reais)
  }

  /** Exactly one whole real is "real"; every other whole part is "reais". */
  lemma ExtensoUnitAgreement(cents: int, words: int -> Option<string>)
    requires words(SplitAmount(cents).0).Some? && words(SplitAmount(cents).1).Some?
    ensures var w := words(SplitAmount(cents).0).value;
      var r := ValorPorExtenso(cents, words);
      && (100 <= cents < 200 ==> StartsWith(r, w + " real") && !StartsWith(r, w + " reais"))
      && (!(100 <= cents < 200) ==> StartsWith(r, w + " reais"))
  {
    var w := words(SplitAmount(cents).0).value;
    var r := ValorPorExtenso(cents, words);
    if 100 <= cents < 200 {
      assert SplitAmount(cents).0 == 1;
      var k := |w| + 5;
      assert r[..k] == w + " real";
      if |r| >= |w| + 6 {
        assert r[k] != 's' by {
          if SplitAmount(cents).1 > 0 { assert r[k] == ' '; }
        }
      }
    } else {
      assert SplitAmount(cents).0 != 1;
    }
  }

  /** Negative amounts never get a cents clause: their cents part is not positive. */
  lemma ExtensoNegativeDropsCents(cents: int, words: int -> Option<string>)
    requires cents < 0 && words(SplitAmount(cents).0).Some?
    ensures ValorPorExtenso(cents, words) == words(SplitAmount(cents).0).value + " reais"
  {
  }

  /** One cent is still written in the plural "centavos". */
  lemma ExtensoOneCentPlural(reais: nat, words: int -> Option<string>)
    requires words(reais).Some? && words(1).Some?
    ensures EndsWith(ValorPorExtenso(reais * 100 + 1, words), " e " + words(1).value + " centavos")
  {
    assert SplitAmount(reais * 100 + 1) == (reais, 1);
  }

  /** render(1.00) == "um real" and render(2.00) == "dois reais". */
  lemma ExtensoExamples(words: int -> Option<string>)
    requires words(1) == Some("um") && words(2) == Some("dois")
    ensures ValorPorExtenso(100, words) == "um real"
    ensures ValorPorExtenso(200, words) == "dois reais"
  {
    assert SplitAmount(100) == (1, 0);
    assert SplitAmount(200) == (2, 0);
  }

  /** The digits of `f"{v:.2f}"` read back as the amount. */
  lemma FormatPlainDigits(cents: int)
    ensures AllDigits(Digits(FormatPlain(cents))) && DigitValue(Digits(FormatPlain(cents))) == Abs(cents)
  {
    var a := Abs(cents);
    var n := NatToString(a / 100);
    var two := TwoDigits(a % 100);
    AmountTextDigits(if cents < 0 then "-" else "", n, n, two);
    WholeAndCentsValue(a, n, two);
  }

  /** When the number-to-words call fails, the digits still carry the amount. */
  lemma ExtensoFallbackKeepsAmount(cents: int, words: int -> Option<string>)
    requires words(SplitAmount(cents).0).None?
    ensures var r := ValorPorExtenso(cents, words);
      EndsWith(r, " reais") && DigitValue(Digits(r)) == Abs(cents)
  {
    var r := ValorPorExtenso(cents, words);
    var plain := FormatPlain(cents);
    assert r == plain + " reais";
    FormatPlainDigits(cents);
    DigitsBeforeTail(plain, " reais");
  }

  /** A digit-free tail adds nothing to the digits of what it follows. */
  lemma DigitsBeforeTail(plain: string, tail: string)
    requires forall i :: 0 <= i < |tail| ==> !IsDigit(tail[i])
    ensures Digits(plain + tail) == Digits(plain)
  {
    DigitsAppend(plain, tail);
    DigitsOfNonDigits(tail);
  }
}
