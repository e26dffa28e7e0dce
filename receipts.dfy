/** Payment receipts (`desenhar_conteudo_recibo`, `gerar_recibo_paginas_separadas`,
    `gerar_recibos_massa_pdf`): each receipt is printed on two identical pages. */
module Receipts {
  import opened Common
  import opened Text
  import opened Money
  import opened Entities

  /** Month names used on the receipt, January first. */
  const MonthNames: seq<string> := [
    "JANEIRO", "FEVEREIRO", "MARÇO", "ABRIL", "MAIO", "JUNHO",
    "JULHO", "AGOSTO", "SETEMBRO", "OUTUBRO", "NOVEMBRO", "DEZEMBRO"]

  /** The receipt's variable content; the fixed wording around it is not modelled. */
  datatype Receipt = Receipt(
    amount: string,        // "R$ " and the amount in Brazilian format
    amountWords: string,   // the amount spelled out, upper-cased
    benefit: string,
    month: string,
    year: int,
    signer: string,        // the beneficiary's name, upper-cased
    cpfLine: string,
    address: Option<string>,
    locality: Option<string>)

  /** The "bairro - cidade" line: both names joined when both are present, the one
      present otherwise, and no line when both are empty. */
  function LocalityLine(bairro: string, cidade: string): (r: Option<string>)
    ensures r.None? <==> bairro == [] && cidade == []
    ensures r.Some? && bairro != [] ==> StartsWith(r.value, bairro)
    ensures r.Some? && cidade != [] ==> EndsWith(r.value, cidade)
    ensures r.Some? && bairro != [] && cidade != [] ==>
      |r.value| == |bairro| + 3 + |cidade| && r.value[|bairro|..|bairro| + 3] == " - "
    ensures r.Some? && (bairro == [] || cidade == []) ==> r.value == bairro + cidade
  {
    if bairro != [] && cidade != [] then Some(bairro + " - " + cidade)
    else if bairro != [] then Some(bairro)
    else if cidade != [] then Some(cidade)
    else None
  }

  /** The receipt for `p`, issued in `month` (1 to 12) of `year`; `words` is the
      number-to-words function. `benefitName` is `pessoa.beneficio.nome`, the name of the
      benefit whose id is `p.beneficioId`, which the caller looks up: the foreign key is
      required, so the `'Auxílio'` fallback behind `hasattr` does not arise for a stored
      person. In a mass run every person belongs to the run's benefit, so one name
      serves them all. */
  function ReceiptFor(p: Pessoa, benefitName: string, month: int, year: int,
                      words: int -> Option<string>): (r: Receipt)
    requires 1 <= month <= 12
    ensures r.month == MonthNames[month - 1]
    ensures r.amount == "R$ " + FormatBR(p.valorBeneficio)
    ensures r.amountWords == Upper(ValorPorExtenso(p.valorBeneficio, words))
    ensures r.address.Some? <==> p.endereco != []
    ensures r.locality == LocalityLine(p.bairro, p.cidade)
    ensures r.address.Some? ==> r.address.value == p.endereco
    ensures r.signer == Upper(p.nomeCompleto) && |r.signer| == |p.nomeCompleto|
    ensures r.cpfLine == "CPF: " + p.cpf
    ensures r.benefit == benefitName && r.year == year
  {
    Receipt(
      "R$ " + FormatBR(p.valorBeneficio),
      Upper(ValorPorExtenso(p.valorBeneficio, words)),
      benefitName,
      MonthNames[month - 1],
      year,
      Upper(p.nomeCompleto),
      "CPF: " + p.cpf,
      if p.endereco != [] then Some(p.endereco) else None,
      LocalityLine(p.bairro, p.cidade))
  }

  /** The amount printed on a receipt reads back, digit for digit, as the person's amount. */
  lemma ReceiptAmountReadsBack(p: Pessoa, benefitName: string, month: int, year: int,
                               words: int -> Option<string>)
    requires 1 <= month <= 12
    ensures var a := ReceiptFor(p, benefitName, month, year, words).amount;
      DigitValue(Digits(a)) == Abs(p.valorBeneficio)
  {
    var prefix: string := "R$ ";
    FormatBRShape(p.valorBeneficio);
    DigitsAppend(prefix, FormatBR(p.valorBeneficio));
    DigitsOfNonDigits(prefix);
    assert Digits(prefix + FormatBR(p.valorBeneficio)) == Digits(FormatBR(p.valorBeneficio));
  }

  /** `gerar_recibo_paginas_separadas`: the same receipt on two pages. */
  function SeparatePages(p: Pessoa, benefitName: string, month: int, year: int,
                         words: int -> Option<string>): (pages: seq<Receipt>)
    requires 1 <= month <= 12
    ensures |pages| == 2 && pages[0] == pages[1]
    ensures pages[0] == ReceiptFor(p, benefitName, month, year, words)
  {
    var r := ReceiptFor(p, benefitName, month, year, words);
    [r, r]
  }

  /** Every element twice in a row: a two-copy print of `xs`. */
  function Twice<T>(xs: seq<T>): seq<T>
  {
    if |xs| == 0 then [] else Twice(xs[..|xs| - 1]) + [xs[|xs| - 1], xs[|xs| - 1]]
  }

  /** Copy `j` of a two-copy print is element `j / 2`, so element `k` sits at `2k` and `2k + 1`. */
  lemma {:induction false} TwiceShape<T>(xs: seq<T>)
    ensures |Twice(xs)| == 2 * |xs|
    ensures forall j :: 0 <= j < |Twice(xs)| ==> Twice(xs)[j] == xs[j / 2]
  {
    if |xs| > 0 {
      var init := xs[..|xs| - 1];
      TwiceShape(init);
      forall j | 0 <= j < |Twice(xs)| ensures Twice(xs)[j] == xs[j / 2] {
        if j < 2 * |init| {
          assert Twice(xs)[j] == Twice(init)[j];
        }
      }
    }
  }

  lemma TwicePrefix<T>(xs: seq<T>, i: nat)
    requires i < |xs|
    ensures Twice(xs[..i + 1]) == Twice(xs[..i]) + [xs[i], xs[i]]
  {
    assert xs[..i + 1][..i] == xs[..i];
  }

  lemma {:induction false} TwiceAppend<T>(xs: seq<T>, ys: seq<T>)
    ensures Twice(xs + ys) == Twice(xs) + Twice(ys)
  {
    if |ys| > 0 {
      var init := ys[..|ys| - 1];
      assert (xs + ys)[..|xs + ys| - 1] == xs + init;
      TwiceAppend(xs, init);
    } else {
      assert xs + ys == xs;
    }
  }

  /** One receipt per person, in input order. */
  function ReceiptsFor(people: seq<Pessoa>, benefitName: string, month: int, year: int,
                       words: int -> Option<string>): (rs: seq<Receipt>)
    requires 1 <= month <= 12
    ensures |rs| == |people|
    ensures forall k :: 0 <= k < |people| ==> rs[k] == ReceiptFor(people[k], benefitName, month, year, words)
  {
    seq(|people|, k requires 0 <= k < |people| => ReceiptFor(people[k], benefitName, month, year, words))
  }

  /** The pages of the mass receipt document: each person's receipt twice. */
  function ReceiptPages(people: seq<Pessoa>, benefitName: string, month: int, year: int,
                        words: int -> Option<string>): seq<Receipt>
    requires 1 <= month <= 12
  {
    Twice(ReceiptsFor(people, benefitName, month, year, words))
  }

  /** Two pages per person, in input order: page j is the receipt of person j / 2. */
  lemma ReceiptPagesShape(people: seq<Pessoa>, benefitName: string, month: int,
                          year: int, words: int -> Option<string>)
    requires 1 <= month <= 12
    ensures var pages := ReceiptPages(people, benefitName, month, year, words);
      && |pages| == 2 * |people|
      && forall j :: 0 <= j < |pages| ==> pages[j] == ReceiptFor(people[j / 2], benefitName, month, year, words)
  {
    TwiceShape(ReceiptsFor(people, benefitName, month, year, words));
  }

  /** A one-person batch prints exactly what the single-person receipt prints. */
  lemma SinglePersonBatch(p: Pessoa, benefitName: string, month: int, year: int,
                          words: int -> Option<string>)
    requires 1 <= month <= 12
    ensures ReceiptPages([p], benefitName, month, year, words) == SeparatePages(p, benefitName, month, year, words)
  {
    var rs := ReceiptsFor([p], benefitName, month, year, words);
    assert rs[..0] == [];
    assert Twice(rs) == [rs[0], rs[0]];
  }

  /** Printing two batches one after the other gives the batch of both. */
  lemma ReceiptPagesAppend(xs: seq<Pessoa>, ys: seq<Pessoa>, benefitName: string,
                           month: int, year: int, words: int -> Option<string>)
    requires 1 <= month <= 12
    ensures ReceiptPages(xs + ys, benefitName, month, year, words)
         == ReceiptPages(xs, benefitName, month, year, words) + ReceiptPages(ys, benefitName, month, year, words)
  {
    var rx, ry := ReceiptsFor(xs, benefitName, month, year, words), ReceiptsFor(ys, benefitName, month, year, words);
    assert ReceiptsFor(xs + ys, benefitName, month, year, words) == rx + ry;
    TwiceAppend(rx, ry);
  }

  /** `gerar_recibos_massa_pdf`: for each person, the receipt twice. */
  method MassReceipts(people: seq<Pessoa>, benefitName: string, month: int, year: int,
                      words: int -> Option<string>) returns (pages: seq<Receipt>)
    requires 1 <= month <= 12
    ensures pages == ReceiptPages(people, benefitName, month, year, words)
    ensures |pages| == 2 * |people|
    ensures forall j :: 0 <= j < |pages| ==> pages[j] == ReceiptFor(people[j / 2], benefitName, month, year, words)
  {
    ghost var rs := ReceiptsFor(people, benefitName, month, year, words);
    pages := [];
    var i := 0;
    while i < |people|
      invariant 0 <= i <= |people|
      invariant pages == Twice(rs[..i])
    {
      var r := ReceiptFor(people[i], benefitName, month, year, words);
      assert r == rs[i];
      pages := pages + [r, r];
      TwicePrefix(rs, i);
      i := i + 1;
    }
    assert rs[..i] == rs;
    ReceiptPagesShape(people, benefitName, month, year, words);
  }
}
