/** Memorandum numbering and issuance (`gerar_numero_memorando`, `registrar_memorando`)
    and the memorandum tables they write (`Memorando`, `MemorandoPessoa`). */
module Memoranda {
  import opened Common
  import opened Text
  import opened Entities
  import opened Models

  /** An issued memorandum (`Memorando`), with the configuration copied at issuance. */
  datatype Memorando = Memorando(
    numero: string,
    ano: nat,
    sequencia: nat,
    beneficioId: nat,
    contaPagadora: string,
    valorTotal: int,
    quantidadePessoas: nat,
    usuarioId: nat,
    config: ConfigData)

  /** One entry handed to issuance: the person (if still linked) and the values to freeze. */
  datatype PessoaDados = PessoaDados(pessoa: Option<nat>, nomeCompleto: string, cpf: string,
                                     valorBeneficio: int, ordem: nat)

  /** A frozen line of a memorandum (`MemorandoPessoa`); `memorando` is the memorandum's
      position in the store. */
  datatype SnapshotRow = SnapshotRow(memorando: nat, pessoa: Option<nat>, nomeCompleto: string,
                                     valorBeneficio: int, ordem: nat)

  /** Width the sequence is zero-padded to. */
  const SequenceWidth: nat := 5

  /** The highest sequence issued in `year`, if any (the first row of the year's
      memoranda ordered by descending sequence). */
  function LatestSequence(memos: seq<Memorando>, year: nat): (r: Option<nat>)
    ensures r.None? <==> forall i :: 0 <= i < |memos| ==> memos[i].ano != year
    ensures r.Some? ==> exists i :: 0 <= i < |memos| && memos[i].ano == year && memos[i].sequencia == r.value
    ensures r.Some? ==> forall i :: 0 <= i < |memos| && memos[i].ano == year ==> memos[i].sequencia <= r.value
  {
    if |memos| == 0 then None
    else
      var last := memos[|memos| - 1];
      var rest := LatestSequence(memos[..|memos| - 1], year);
      if last.ano != year then rest
      else if rest.Some? && rest.value >= last.sequencia then rest
      else Some(last.sequencia)
  }

  /** `proxima_sequencia`: one past the year's highest sequence, or 1 for a new year. */
  function NextSequence(memos: seq<Memorando>, year: nat): (s: nat)
    ensures s >= 1
    ensures forall i :: 0 <= i < |memos| && memos[i].ano == year ==> memos[i].sequencia < s
    ensures (forall i :: 0 <= i < |memos| ==> memos[i].ano != year) ==> s == 1
    ensures s > 1 ==> exists i :: 0 <= i < |memos| && memos[i].ano == year && memos[i].sequencia == s - 1
  {
    match LatestSequence(memos, year)
    case None => 1
    case Some(latest) => latest + 1
  }

  /** `f"{sequencia:05d}/{ano}"`. */
  function FormatNumber(sequencia: nat, ano: nat): (s: string)
    ensures '/' in s
  {
    ZeroPad(NatToString(sequencia), SequenceWidth) + "/" + NatToString(ano)
  }

  /** The number is the sequence as digits, at least five of them and exactly five below
      100000, then "/", then the year. */
  lemma FormatNumberLayout(sequencia: nat, ano: nat)
    ensures var s := FormatNumber(sequencia, ano);
      var i := |s| - |NatToString(ano)| - 1;
      && SequenceWidth <= i && s[i] == '/' && s[i + 1..] == NatToString(ano)
      && AllDigits(s[..i]) && DigitValue(s[..i]) == sequencia
      && (sequencia < Pow10(SequenceWidth) ==> i == SequenceWidth)
  {
    var digits := NatToString(sequencia);
    ZeroPadValue(digits, SequenceWidth);
    SlashJoin(ZeroPad(digits, SequenceWidth), NatToString(ano));
    if sequencia < Pow10(SequenceWidth) {
      NatToStringWidth(sequencia, SequenceWidth);
    }
  }

  lemma SlashJoin(left: string, right: string)
    ensures var s := left + "/" + right;
      var i := |s| - |right| - 1;
      i == |left| && s[i] == '/' && s[..i] == left && s[i + 1..] == right
  {
    var s := left + "/" + right;
    assert s[..|left|] == left;
    assert s[|left| + 1..] == right;
  }

  /** Index of the first `c` in `s`, if any. */
  function IndexOf(s: string, c: char): (r: Option<nat>)
    ensures r.None? <==> c !in s
    ensures r.Some? ==> r.value < |s| && s[r.value] == c && c !in s[..r.value]
  {
    if |s| == 0 then None
    else if s[0] == c then Some(0)
    else
      match IndexOf(s[1..], c)
      case None => None
      case Some(k) =>
        assert s[..k + 1] == [s[0]] + s[1..][..k];
        Some(k + 1)
  }

  lemma {:induction false} IndexOfAt(s: string, c: char, k: nat)
    requires k < |s| && s[k] == c && c !in s[..k]
    ensures IndexOf(s, c) == Some(k)
  {
    if k > 0 {
      assert s[0] == s[..k][0];
      assert s[1..][..k - 1] == s[1..k];
      assert forall j :: 0 <= j < k - 1 ==> s[1..k][j] == s[..k][j + 1];
      IndexOfAt(s[1..], c, k - 1);
    }
  }

  /** Reads a memorandum number back into (sequence, year). */
  function ParseNumber(s: string): Option<(nat, nat)>
  {
    match IndexOf(s, '/')
    case None => None
    case Some(k) =>
      var left, right := s[..k], s[k + 1..];
      if |left| >= 1 && AllDigits(left) && |right| >= 1 && AllDigits(right)
      then Some((DigitValue(left), DigitValue(right)))
      else None
  }

  /** Reading a formatted number back gives the sequence and the year. */
  lemma ParseFormatNumber(sequencia: nat, ano: nat)
    ensures ParseNumber(FormatNumber(sequencia, ano)) == Some((sequencia, ano))
  {
    var padded := ZeroPad(NatToString(sequencia), SequenceWidth);
    var year := NatToString(ano);
    var s := FormatNumber(sequencia, ano);
    ZeroPadValue(NatToString(sequencia), SequenceWidth);
    assert '/' !in padded;
    assert s == padded + "/" + year;
    assert s[..|padded|] == padded;
    IndexOfAt(s, '/', |padded|);
    assert s[..|padded|] == padded;
    assert s[|padded| + 1..] == year;
  }

  /** Distinct (sequence, year) pairs give distinct numbers. */
  lemma FormatNumberInjective(s1: nat, y1: nat, s2: nat, y2: nat)
    requires FormatNumber(s1, y1) == FormatNumber(s2, y2)
    ensures s1 == s2 && y1 == y2
  {
    ParseFormatNumber(s1, y1);
    ParseFormatNumber(s2, y2);
  }

  /** `gerar_numero_memorando` for the current `year`: the number, the year and the sequence. */
  function NextNumber(memos: seq<Memorando>, year: nat): (r: (string, nat, nat))
    ensures r.1 == year && r.2 == NextSequence(memos, year)
    ensures r.0 == FormatNumber(r.2, r.1) && ParseNumber(r.0) == Some((r.2, r.1))
  {
    var s := NextSequence(memos, year);
    ParseFormatNumber(s, year);
    (FormatNumber(s, year), year, s)
  }

  function Amounts(dados: seq<PessoaDados>): (r: seq<int>)
    ensures |r| == |dados| && forall k :: 0 <= k < |dados| ==> r[k] == dados[k].valorBeneficio
  {
    seq(|dados|, k requires 0 <= k < |dados| => dados[k].valorBeneficio)
  }

  /** The frozen copy of one entry, linked to memorandum `m`. */
  function Snapshot(m: nat, d: PessoaDados): (r: SnapshotRow)
    ensures r.memorando == m && r.pessoa == d.pessoa && r.nomeCompleto == d.nomeCompleto
    ensures r.valorBeneficio == d.valorBeneficio && r.ordem == d.ordem
  {
    SnapshotRow(m, d.pessoa, d.nomeCompleto, d.valorBeneficio, d.ordem)
  }

  function Snapshots(m: nat, dados: seq<PessoaDados>): (r: seq<SnapshotRow>)
    ensures |r| == |dados| && forall k :: 0 <= k < |dados| ==> r[k] == Snapshot(m, dados[k])
  {
    seq(|dados|, k requires 0 <= k < |dados| => Snapshot(m, dados[k]))
  }

  /** Same year and sequence: the pair `(ano, sequencia)` is unique across memoranda. */
  predicate SameSlot(a: Memorando, b: Memorando)
  {
    a.ano == b.ano && a.sequencia == b.sequencia
  }

  /** The memorandum tables. */
  class MemorandoStore {
    var memos: seq<Memorando>
    var rows: seq<SnapshotRow>

    /** Every number is its formatted (sequence, year); no two memoranda share a
        (year, sequence); every snapshot row belongs to an existing memorandum. */
    predicate Valid()
      reads this
    {
      && (forall i :: 0 <= i < |memos| ==>
            memos[i].sequencia >= 1 && memos[i].numero == FormatNumber(memos[i].sequencia, memos[i].ano))
      && (forall i, j :: 0 <= i < j < |memos| ==> !SameSlot(memos[i], memos[j]))
      && (forall k :: 0 <= k < |rows| ==> rows[k].memorando < |memos|)
    }

    constructor ()
      ensures Valid() && memos == [] && rows == []
    {
      memos := [];
      rows := [];
    }

    /** `registrar_memorando`: takes the next number of `year`, reads the configuration,
        records the header with the total and head count, then one snapshot row per entry
        in the given order. */
    method Registrar(b: Beneficio, dados: seq<PessoaDados>, usuarioId: nat, year: nat, configs: ConfigStore)
      returns (memo: Memorando)
      requires Valid() && configs.Valid()
      modifies this, configs
      ensures Valid() && configs.Valid()
      ensures memos == old(memos) + [memo]
      ensures rows == old(rows) + Snapshots(|old(memos)|, dados)
      ensures memo.ano == year && memo.sequencia == NextSequence(old(memos), year)
      ensures memo.numero == FormatNumber(memo.sequencia, year)
      ensures memo.valorTotal == Sum(Amounts(dados)) && memo.quantidadePessoas == |dados|
      ensures memo.beneficioId == b.id && memo.contaPagadora == b.contaPagadora && memo.usuarioId == usuarioId
      ensures configs.rows == map[ConfigPk := memo.config]
      ensures ConfigPk in old(configs.rows) ==> memo.config == old(configs.rows)[ConfigPk]
      ensures ConfigPk !in old(configs.rows) ==> memo.config == DefaultConfig
    {
      var numbered := NextNumber(memos, year);
      var config := configs.GetConfig();
      memo := Memorando(numbered.0, year, numbered.2, b.id, b.contaPagadora, Sum(Amounts(dados)),
                        |dados|, usuarioId, config);
      Issue(memo, dados);
    }

    /** Records the header row, then the snapshot rows that point at it. */
    method Issue(memo: Memorando, dados: seq<PessoaDados>)
      requires Valid()
      requires memo.sequencia == NextSequence(memos, memo.ano) && memo.numero == FormatNumber(memo.sequencia, memo.ano)
      modifies this
      ensures Valid() && memos == old(memos) + [memo] && rows == old(rows) + Snapshots(|old(memos)|, dados)
    {
      AddMemo(memo);
      AddSnapshots(|memos| - 1, dados);
    }

    /** Creates the header row of a memorandum numbered with its year's next sequence. */
    method AddMemo(memo: Memorando)
      requires Valid()
      requires memo.sequencia == NextSequence(memos, memo.ano) && memo.numero == FormatNumber(memo.sequencia, memo.ano)
      modifies this
      ensures Valid() && memos == old(memos) + [memo] && rows == old(rows)
    {
      ghost var m := |memos|;
      memos := memos + [memo];
      forall i, j | 0 <= i < j < |memos| ensures !SameSlot(memos[i], memos[j]) {
        if j == m { assert memos[i] == old(memos)[i]; }
      }
    }

    /** Creates one snapshot row per entry, in order, under memorandum `m`. */
    method AddSnapshots(m: nat, dados: seq<PessoaDados>)
      requires Valid() && m < |memos|
      modifies this
      ensures Valid() && memos == old(memos) && rows == old(rows) + Snapshots(m, dados)
    {
      for k := 0 to |dados|
        invariant Valid() && memos == old(memos)
        invariant rows == old(rows) + Snapshots(m, dados[..k])
      {
        rows := rows + [Snapshot(m, dados[k])];
        assert Snapshots(m, dados[..k + 1]) == Snapshots(m, dados[..k]) + [Snapshot(m, dados[k])];
      }
      assert dados[..|dados|] == dados;
    }

    /** Deleting a live person only clears the link of their snapshot rows
        (`on_delete=SET_NULL`); the frozen names and amounts stay. */
    method OnPessoaDeleted(pessoaId: nat)
      requires Valid()
      modifies this
      ensures Valid()
      ensures memos == old(memos) && |rows| == |old(rows)|
      ensures forall k :: 0 <= k < |rows| ==>
        rows[k] == if old(rows)[k].pessoa == Some(pessoaId) then old(rows)[k].(pessoa := None) else old(rows)[k]
    {
      var k := 0;
      while k < |rows|
        invariant 0 <= k <= |rows| && |rows| == |old(rows)| && memos == old(memos)
        invariant forall j :: 0 <= j < k ==>
          rows[j] == if old(rows)[j].pessoa == Some(pessoaId) then old(rows)[j].(pessoa := None) else old(rows)[j]
        invariant forall j :: k <= j < |rows| ==> rows[j] == old(rows)[j]
      {
        if rows[k].pessoa == Some(pessoaId) {
          rows := rows[k := rows[k].(pessoa := None)];
        }
        k := k + 1;
      }
    }
  }

  /** In a valid store no two memoranda carry the same number. */
  lemma NumbersUnique(memos: seq<Memorando>, i: nat, j: nat)
    requires forall k :: 0 <= k < |memos| ==> memos[k].numero == FormatNumber(memos[k].sequencia, memos[k].ano)
    requires forall a, b :: 0 <= a < b < |memos| ==> !SameSlot(memos[a], memos[b])
    requires i < j < |memos|
    ensures memos[i].numero != memos[j].numero
  {
    if memos[i].numero == memos[j].numero {
      FormatNumberInjective(memos[i].sequencia, memos[i].ano, memos[j].sequencia, memos[j].ano);
    }
  }

  /** The next number of a year is not yet taken by any memorandum. */
  lemma NextNumberFresh(memos: seq<Memorando>, year: nat)
    requires forall k :: 0 <= k < |memos| ==> memos[k].numero == FormatNumber(memos[k].sequencia, memos[k].ano)
    ensures forall k :: 0 <= k < |memos| ==> memos[k].numero != NextNumber(memos, year).0
  {
    var s := NextSequence(memos, year);
    forall k | 0 <= k < |memos| ensures memos[k].numero != NextNumber(memos, year).0 {
      if memos[k].numero == FormatNumber(s, year) {
        FormatNumberInjective(memos[k].sequencia, memos[k].ano, s, year);
      }
    }
  }

  lemma YearText()
    ensures NatToString(2026) == "2026"
  {
    assert NatToString(2) == "2";
    assert NatToString(20) == "20";
    assert NatToString(202) == "202";
  }

  lemma PaddedOne()
    ensures ZeroPad(NatToString(1), SequenceWidth) == "00001"
  {
    assert NatToString(1) == "1";
    assert Repeat('0', 4) == "0000";
  }

  /** The first memorandum of a year is "00001/<year>", e.g. "00001/2026". */
  lemma FirstNumberOfYear(memos: seq<Memorando>)
    requires forall k :: 0 <= k < |memos| ==> memos[k].ano != 2026
    ensures NextNumber(memos, 2026).0 == "00001/2026"
  {
    assert NextSequence(memos, 2026) == 1;
    YearText();
    PaddedOne();
    assert FormatNumber(1, 2026) == "00001" + "/" + "2026";
  }
}
