/** Input cleaning of the person and document forms (`PessoaForm`, `DocumentoForm`):
    the CPF (Brazilian taxpayer number) with its two mod-11 check digits, the mobile
    number, and the PDF upload checks. Digits are ASCII digits. */
module Forms {
  import opened Common
  import opened Text
  import opened Entities

  const CpfLength: nat := 11
  const MsgCpfLength: string := "CPF deve conter 11 dígitos"
  const MsgCpfInvalid: string := "CPF inválido"
  const MsgCpfTaken: string := "CPF já cadastrado no sistema!"

  /** `sum(int(ds[i]) * (top - i) for i in range(len(ds)))`. */
  function WeightedSum(ds: string, top: int): int
    requires AllDigits(ds)
  {
    if |ds| == 0 then 0 else CharValue(ds[0]) * top + WeightedSum(ds[1..], top - 1)
  }

  /** The check digit over `ds` with weights from `|ds| + 1` down to 2: eleven minus the
      sum's remainder mod 11, and 0 where that exceeds 9. */
  function CheckDigit(ds: string): (d: nat)
    requires AllDigits(ds)
    ensures d <= 9
    ensures d == 0 <==> WeightedSum(ds, |ds| + 1) % 11 <= 1
    ensures d != 0 ==> (WeightedSum(ds, |ds| + 1) + d) % 11 == 0
  {
    var digito := 11 - WeightedSum(ds, |ds| + 1) % 11;
    if digito > 9 then 0 else digito
  }

  /** `f'{cpf[:3]}.{cpf[3:6]}.{cpf[6:9]}-{cpf[9:]}'`. */
  function FormatCpf(ds: string): (r: string)
    requires |ds| == CpfLength
  {
    ds[..3] + "." + ds[3..6] + "." + ds[6..9] + "-" + ds[9..]
  }

  /** The canonical CPF text: 14 characters with separators at 3, 7 and 11. */
  lemma FormatCpfShape(ds: string)
    requires |ds| == CpfLength && AllDigits(ds)
    ensures var r := FormatCpf(ds);
      && |r| == 14 && r[3] == '.' && r[7] == '.' && r[11] == '-'
      && (forall i :: 0 <= i < 14 && i != 3 && i != 7 && i != 11 ==> IsDigit(r[i]))
  {
    var r := FormatCpf(ds);
    forall i | 0 <= i < 14 && i != 3 && i != 7 && i != 11 ensures IsDigit(r[i]) {
      if i < 3 { assert r[i] == ds[i]; }
      else if i < 7 { assert r[i] == ds[i - 1]; }
      else if i < 11 { assert r[i] == ds[i - 2]; }
      else { assert r[i] == ds[i - 3]; }
    }
  }

  lemma DigitsAroundSeparator(x: string, sep: char, y: string)
    requires !IsDigit(sep)
    ensures Digits(x + [sep] + y) == Digits(x) + Digits(y)
  {
    var xs := x + [sep];
    DigitsAppend(x, [sep]);
    DigitsOfNonDigits([sep]);
    assert Digits(xs) == Digits(x);
    DigitsAppend(xs, y);
  }

  /** Removing the separators of the canonical text gives back the eleven digits. */
  lemma FormatCpfDigits(ds: string)
    requires |ds| == CpfLength && AllDigits(ds)
    ensures Digits(FormatCpf(ds)) == ds
  {
    var a, b, c, d := ds[..3], ds[3..6], ds[6..9], ds[9..];
    assert ds == a + b + c + d;
    var p2 := a + ['.'] + b;
    DigitsAroundSeparator(a, '.', b);
    var p4 := p2 + ['.'] + c;
    DigitsAroundSeparator(p2, '.', c);
    DigitsAroundSeparator(p4, '-', d);
    assert FormatCpf(ds) == p4 + ['-'] + d;
  }

  predicate AllSame(ds: string)
    requires |ds| >= 1
  {
    ds == Repeat(ds[0], |ds|)
  }

  /** Both check digits of an 11-digit string match. */
  predicate CheckDigitsMatch(ds: string)
    requires |ds| == CpfLength && AllDigits(ds)
  {
    CharValue(ds[9]) == CheckDigit(ds[..9]) && CharValue(ds[10]) == CheckDigit(ds[..10])
  }

  /** The format and checksum part of `clean_cpf`. */
  function ValidateCpf(input: string): (r: Result<string, string>)
    ensures r.Err? ==> r.error == MsgCpfLength || r.error == MsgCpfInvalid
    ensures r.Err? && r.error == MsgCpfLength <==> |Digits(input)| != CpfLength
    ensures r.Ok? <==> |Digits(input)| == CpfLength && !AllSame(Digits(input)) && CheckDigitsMatch(Digits(input))
  {
    var cpf := Digits(input);
    if |cpf| != CpfLength then Err(MsgCpfLength)
    else if cpf == Repeat(cpf[0], CpfLength) then Err(MsgCpfInvalid)
    else
      var digito1 := CheckDigit(cpf[..9]);
      var digito2 := CheckDigit(cpf[..10]);
      if !(CharValue(cpf[9]) == digito1 && CharValue(cpf[10]) == digito2) then Err(MsgCpfInvalid)
      else Ok(FormatCpf(cpf))
  }

  /** An accepted CPF comes out canonical, and removing its separators gives back
      exactly the eleven digits that were typed. */
  lemma AcceptedCpfReadsBack(input: string)
    requires ValidateCpf(input).Ok?
    ensures var r := ValidateCpf(input).value;
      |r| == 14 && Digits(r) == Digits(input)
  {
    FormatCpfShape(Digits(input));
    FormatCpfDigits(Digits(input));
  }

  /** Cleaning an accepted CPF again gives the same text. */
  lemma ValidateCpfIdempotent(input: string)
    requires ValidateCpf(input).Ok?
    ensures ValidateCpf(ValidateCpf(input).value) == ValidateCpf(input)
  {
    FormatCpfDigits(Digits(input));
  }

  lemma {:induction false} ZeroWeightedSum(ds: string, top: int)
    requires forall i :: 0 <= i < |ds| ==> ds[i] == '0'
    ensures AllDigits(ds) && WeightedSum(ds, top) == 0
  {
    if |ds| > 0 {
      ZeroWeightedSum(ds[1..], top - 1);
      assert CharValue(ds[0]) == 0;
    }
  }

  /** "00000000000" passes both check digits, so only the repeated-digit rule rejects it. */
  lemma ZerosPassChecksumButAreRejected()
    ensures CheckDigitsMatch("00000000000")
    ensures ValidateCpf("00000000000") == Err(MsgCpfInvalid)
  {
    var z := Repeat('0', CpfLength);
    assert z == "00000000000";
    ZeroWeightedSum(z[..9], 10);
    ZeroWeightedSum(z[..10], 11);
  }

  /** Completing any nine digits with their two computed check digits gives a CPF that
      is accepted (unless all eleven digits are equal) and printed canonically. */
  lemma CompletedCpfAccepted(base: string)
    requires |base| == 9 && AllDigits(base)
    ensures var ten := base + [DigitChar(CheckDigit(base))];
      var full := ten + [DigitChar(CheckDigit(ten))];
      !AllSame(full) ==> ValidateCpf(full) == Ok(FormatCpf(full))
  {
    var c1 := DigitChar(CheckDigit(base));
    var ten := base + [c1];
    assert AllDigits(ten);
    var c2 := DigitChar(CheckDigit(ten));
    var full := ten + [c2];
    assert AllDigits(full);
    assert full[..9] == base && full[..10] == ten;
    assert CharValue(full[9]) == CheckDigit(base) by { assert full[9] == c1; }
    assert CharValue(full[10]) == CheckDigit(ten) by { assert full[10] == c2; }
  }

  /** Someone other than the instance being edited already holds `formatted`. */
  predicate Taken(people: seq<Pessoa>, instancePk: Option<nat>, formatted: string)
  {
    exists i :: 0 <= i < |people| && people[i].cpf == formatted && (instancePk.Some? ==> people[i].id != instancePk.value)
  }

  /** `clean_cpf`: validation, then the search for another person with the same CPF,
      leaving out the person being edited. */
  method CleanCpf(input: string, people: seq<Pessoa>, instancePk: Option<nat>) returns (r: Result<string, string>)
    ensures ValidateCpf(input).Err? ==> r == ValidateCpf(input)
    ensures ValidateCpf(input).Ok? && Taken(people, instancePk, ValidateCpf(input).value) ==> r == Err(MsgCpfTaken)
    ensures ValidateCpf(input).Ok? && !Taken(people, instancePk, ValidateCpf(input).value) ==> r == ValidateCpf(input)
  {
    r := ValidateCpf(input);
    if r.Err? {
      return;
    }
    var formatted := r.value;
    var i := 0;
    while i < |people|
      invariant 0 <= i <= |people|
      invariant forall j :: 0 <= j < i ==>
        !(people[j].cpf == formatted && (instancePk.Some? ==> people[j].id != instancePk.value))
    {
      if (instancePk.None? || people[i].id != instancePk.value) && people[i].cpf == formatted {
        return Err(MsgCpfTaken);
      }
      i := i + 1;
    }
  }

  /** `clean_celular`: a non-empty value keeps only its digits, each as often as it
      occurs and in its order. */
  function CleanCelular(celular: string): (r: string)
    ensures AllDigits(r)
    ensures r == Digits(celular)
    ensures forall c :: multiset(r)[c] == if IsDigit(c) then multiset(celular)[c] else 0
    ensures Subsequence(r, celular)
  {
    DigitsCounts(celular);
    DigitsOrder(celular);
    if celular != [] then Digits(celular) else celular
  }

  /** Cleaning a phone number twice gives the same as cleaning it once. */
  lemma CleanCelularIdempotent(celular: string)
    ensures CleanCelular(CleanCelular(celular)) == CleanCelular(celular)
  {
    DigitsIdempotent(celular);
  }

  /** An uploaded file: its name and size in bytes. A file object with an empty name is
      falsy, so `if arquivo:` treats it like no upload. */
  datatype Upload = Upload(name: string, size: nat)

  predicate Present(arquivo: Option<Upload>)
  {
    arquivo.Some? && arquivo.value.name != ""
  }

  /** 10 MB. */
  const MaxUploadBytes: nat := 10 * 1024 * 1024
  const PdfSuffix: string := ".pdf"

  /** `PessoaForm.clean_arquivo`: the optional upload must end in ".pdf" in any letter
      case and be at most 10 MB; the extension is checked first. */
  function CleanPessoaArquivo(arquivo: Option<Upload>): (r: Result<Option<Upload>, string>)
    ensures r.Ok? ==> r.value == arquivo
    ensures r.Ok? <==> !Present(arquivo) || (EndsWith(Lower(arquivo.value.name), PdfSuffix) && arquivo.value.size <= MaxUploadBytes)
  {
    match arquivo
    case None => Ok(None)
    case Some(f) =>
      if f.name == "" then Ok(arquivo)
      else if !EndsWith(Lower(f.name), PdfSuffix) then Err("Apenas arquivos PDF são permitidos.")
      else if f.size > MaxUploadBytes then Err("Arquivo muito grande. Tamanho máximo: 10MB.")
      else Ok(arquivo)
  }

  /** `DocumentoForm.clean_arquivo`: the same limits, but the ".pdf" suffix is matched
      with its letter case as typed. */
  function CleanDocumentoArquivo(arquivo: Option<Upload>): (r: Result<Option<Upload>, string>)
    ensures r.Ok? ==> r.value == arquivo
    ensures r.Ok? <==> !Present(arquivo) || (EndsWith(arquivo.value.name, PdfSuffix) && arquivo.value.size <= MaxUploadBytes)
  {
    match arquivo
    case None => Ok(None)
    case Some(f) =>
      if f.name == "" then Ok(arquivo)
      else if !EndsWith(f.name, PdfSuffix) then Err("Apenas arquivos PDF são permitidos")
      else if f.size > MaxUploadBytes then Err("Arquivo muito grande. Tamanho máximo: 10MB")
      else Ok(arquivo)
  }

  /** Whatever the document form accepts, the person form accepts too. */
  lemma DocumentFormStricter(arquivo: Option<Upload>)
    ensures CleanDocumentoArquivo(arquivo).Ok? ==> CleanPessoaArquivo(arquivo).Ok?
  {
    if Present(arquivo) && EndsWith(arquivo.value.name, PdfSuffix) {
      var n := arquivo.value.name;
      var l := Lower(n);
      assert l[|l| - 4..] == PdfSuffix by {
        forall i | 0 <= i < 4 ensures l[|l| - 4 + i] == PdfSuffix[i] {
          assert n[|n| - 4 + i] == PdfSuffix[i];
        }
      }
    }
  }

  /** "scan.PDF" passes the person form and is refused by the document form. */
  lemma UpperCaseExtensionSplitsForms()
    ensures CleanPessoaArquivo(Some(Upload("scan.PDF", 1))).Ok?
    ensures CleanDocumentoArquivo(Some(Upload("scan.PDF", 1))) == Err("Apenas arquivos PDF são permitidos")
  {
    assert Lower("scan.PDF") == "scan.pdf";
    assert "scan.PDF"[4..] != PdfSuffix;
  }
}
