/** The beneficiary list of one benefit (`pessoas_por_beneficio`) and the selection the
    mass documents are generated from (`gerar_memorando_massa`, `gerar_recibos_massa`):
    the query-string filters, the CPF search with its last-four prefilter, the 1-based
    position slice, the page-size clamp and the display ordinals. The rows arrive as the
    benefit's people ordered by name, as the base query returns them. */
module Listing {
  import opened Common
  import opened Text
  import opened Entities
  import opened Query

  /** A query-string number after `.strip()` and `int()`: nothing to parse, text `int()`
      rejects, or a parsed integer. For `valor`, `id_de` and `id_ate`, read with a default
      of `''` and tested for truth first, a missing key and an empty value are both
      `Absent`. For `por_pagina`, read with a default of 15 and passed straight to `int()`,
      only a missing key is `Absent`: an empty value reaches `int('')` and is `Malformed`. */
  datatype IntParam = Absent | Malformed | Given(n: int)

  /** The filters of the query string. `valor` is `float(f_valor)` expressed in cents. */
  datatype Filters = Filters(nome: string, cpf: string, status: string, valor: IntParam,
                             posDe: IntParam, posAte: IntParam)

  /** `nome_completo__icontains`, with ASCII and Latin-1 case folding. */
  predicate NameMatches(p: Pessoa, nome: string)
  {
    Contains(Lower(p.nomeCompleto), Lower(nome))
  }

  predicate HasAmount(p: Pessoa, cents: int) { p.valorBeneficio == cents }

  function NameKeep(nome: string): Pessoa -> bool
  {
    (p: Pessoa) => NameMatches(p, nome)
  }

  /** The name filter, applied only to a non-empty name. */
  function ByName(people: seq<Pessoa>, nome: string): (r: seq<Pessoa>)
    ensures forall p :: p in r <==> p in people && (nome != "" ==> NameMatches(p, nome))
    ensures Subsequence(r, people)
  {
    SubsequenceOfItself(people);
    WhereOrder(people, NameKeep(nome));
    if nome == "" then people else Where(people, NameKeep(nome))
  }

  function AmountKeep(cents: int): Pessoa -> bool
  {
    (p: Pessoa) => HasAmount(p, cents)
  }

  /** The amount filter, applied only to a positive amount; an unparsable amount is ignored. */
  function ByValue(people: seq<Pessoa>, valor: IntParam): (r: seq<Pessoa>)
    ensures forall p :: p in r <==> p in people && (valor.Given? && valor.n > 0 ==> HasAmount(p, valor.n))
    ensures Subsequence(r, people)
  {
    SubsequenceOfItself(people);
    WhereOrder(people, AmountKeep(if valor.Given? then valor.n else 0));
    if valor.Given? && valor.n > 0 then Where(people, AmountKeep(valor.n)) else people
  }

  /** The list's status filter: "ativo" and "desativado" select, anything else keeps all. */
  function ByStatus(people: seq<Pessoa>, status: string): (r: seq<Pessoa>)
    ensures forall p :: p in r <==>
      p in people && (status == "ativo" ==> p.ativo) && (status == "desativado" ==> !p.ativo)
    ensures Subsequence(r, people)
  {
    SubsequenceOfItself(people);
    WhereOrder(people, IsActive);
    WhereOrder(people, IsInactive);
    if status == "ativo" then Where(people, IsActive)
    else if status == "desativado" then Where(people, IsInactive)
    else people
  }

  /** The CPF search for the query's digits `q`: with four or more digits, the stored
      last four must equal the query's last four and the CPF's digits must contain `q`;
      with fewer, containment alone decides. */
  predicate CpfMatches(p: Pessoa, q: string)
  {
    if |q| >= 4 then p.cpfUltimos4 == LastN(q, 4) && Contains(Digits(p.cpf), q)
    else Contains(Digits(p.cpf), q)
  }

  function CpfKeep(q: string): Pessoa -> bool
  {
    (p: Pessoa) => CpfMatches(p, q)
  }

  function ByCpf(people: seq<Pessoa>, cpf: string): (r: seq<Pessoa>)
    ensures cpf != "" ==> forall p :: p in r <==> p in people && CpfMatches(p, Digits(cpf))
    ensures cpf != "" ==> forall p :: multiset(r)[p] == if CpfMatches(p, Digits(cpf)) then multiset(people)[p] else 0
    ensures cpf != "" ==> Subsequence(r, people)
    ensures cpf == "" ==> r == people
  {
    if cpf == "" then people
    else
      WhereCounts(people, CpfKeep(Digits(cpf)));
      WhereOrder(people, CpfKeep(Digits(cpf)));
      Where(people, CpfKeep(Digits(cpf)))
  }

  /** Every row the CPF search keeps has the query's digits inside its CPF. */
  lemma CpfSearchSound(people: seq<Pessoa>, cpf: string, p: Pessoa)
    requires p in ByCpf(people, cpf)
    ensures Contains(Digits(p.cpf), Digits(cpf))
  {
    if cpf == "" {
      assert OccursAt(Digits(p.cpf), Digits(cpf), 0);
    }
  }

  /** A row whose derived column is up to date is found by any query of four or more
      digits that ends its CPF, in particular by the full CPF. */
  lemma CpfSuffixQueryFinds(p: Pessoa, q: string)
    requires |Digits(p.cpf)| >= 4 && p.cpfUltimos4 == LastN(Digits(p.cpf), 4)
    requires |q| >= 4 && EndsWith(Digits(p.cpf), q)
    ensures CpfMatches(p, q)
  {
    var d := Digits(p.cpf);
    var k := |d| - |q|;
    assert d[k..] == q;
    assert OccursAt(d, q, k);
    assert LastN(q, 4) == q[|q| - 4..] == d[|d| - 4..];
  }

  /** A query of four or more digits found in the middle of a CPF is not found: the
      prefilter compares the query's last four with the CPF's last four. */
  lemma CpfMiddleDigitsNotFound(p: Pessoa)
    requires p.cpf == "12345678909" && p.cpfUltimos4 == "8909"
    ensures Contains(Digits(p.cpf), "2345")
    ensures !CpfMatches(p, "2345")
  {
    assert Digits(p.cpf) == p.cpf;
    assert OccursAt(p.cpf, "2345", 1);
    assert LastN("2345", 4) == "2345";
  }

  /** The rows the list filters select before positions are applied (name, status,
      amount, CPF, in the view's order). */
  function Filtered(people: seq<Pessoa>, f: Filters): (r: seq<Pessoa>)
    ensures forall p :: p in r <==>
      && p in people
      && (f.nome != "" ==> NameMatches(p, f.nome))
      && (f.status == "ativo" ==> p.ativo) && (f.status == "desativado" ==> !p.ativo)
      && (f.valor.Given? && f.valor.n > 0 ==> HasAmount(p, f.valor.n))
      && (f.cpf != "" ==> CpfMatches(p, Digits(f.cpf)))
  {
    ByCpf(ByValue(ByStatus(ByName(people, f.nome), f.status), f.valor), f.cpf)
  }

  /** The message the list shows about the position filter. */
  datatype Notice = NoNotice | StartBelowOne | EndBeforeStart | NotANumber

  /** The outcome of the list's position filter: the rows, whether a slice was applied,
      the first ordinal, and the notice shown. */
  datatype Positioned = Positioned(rows: seq<Pessoa>, sliced: bool, first: int, notice: Notice)

  /** The position ranges that slice: a start of at least 1 with an end not before it,
      a start of at least 1 alone, or a non-negative end alone. */
  predicate SliceAccepted(posDe: IntParam, posAte: IntParam)
  {
    || (posDe.Given? && posAte.Given? && 1 <= posDe.n <= posAte.n)
    || (posDe.Given? && posAte.Absent? && posDe.n >= 1)
    || (posDe.Absent? && posAte.Given? && posAte.n >= 0)
  }

  /** The 1-based position a slice starts at: `int(f_pos_de) if f_pos_de else 1`. */
  function SliceStart(posDe: IntParam): int
  {
    if posDe.Given? then posDe.n else 1
  }

  /** The list's position filter over the filtered rows. A negative end alone is refused
      by the queryset (`ValueError`) and reported like unparsable input. */
  function PositionFilter(rows: seq<Pessoa>, posDe: IntParam, posAte: IntParam): (r: Positioned)
    ensures r.sliced <==> SliceAccepted(posDe, posAte)
    ensures r.sliced ==> r.notice == NoNotice && r.first == SliceStart(posDe) >= 1
    ensures r.sliced && posAte.Given? ==> r.rows == Slice(rows, r.first - 1, posAte.n)
    ensures r.sliced && posAte.Absent? ==> r.rows == SliceFrom(rows, r.first - 1)
    ensures !r.sliced ==> r.rows == rows
    ensures r.notice == StartBelowOne <==> posDe.Given? && posAte.Given? && posDe.n < 1
    ensures r.notice == EndBeforeStart <==> posDe.Given? && posAte.Given? && 1 <= posDe.n && posAte.n < posDe.n
    ensures r.notice == NotANumber <==>
      posDe.Malformed? || posAte.Malformed? || (posDe.Absent? && posAte.Given? && posAte.n < 0)
  {
    if !posDe.Absent? && !posAte.Absent? then
      if posDe.Malformed? || posAte.Malformed? then Positioned(rows, false, 1, NotANumber)
      else if posDe.n < 1 then Positioned(rows, false, 1, StartBelowOne)
      else if posAte.n < posDe.n then Positioned(rows, false, 1, EndBeforeStart)
      else Positioned(Slice(rows, posDe.n - 1, posAte.n), true, posDe.n, NoNotice)
    else if !posDe.Absent? then
      if posDe.Malformed? then Positioned(rows, false, 1, NotANumber)
      else if posDe.n >= 1 then Positioned(SliceFrom(rows, posDe.n - 1), true, posDe.n, NoNotice)
      else Positioned(rows, false, 1, NoNotice)
    else if !posAte.Absent? then
      if posAte.Malformed? || posAte.n < 0 then Positioned(rows, false, 1, NotANumber)
      else Positioned(Slice(rows, 0, posAte.n), true, 1, NoNotice)
    else Positioned(rows, false, 1, NoNotice)
  }

  /** A slice keeps the rows from position `first` on: row j of the slice is the row at
      1-based position `first + j` of the filtered list, and no row lies past `posAte`. */
  lemma SliceKeepsPositions(rows: seq<Pessoa>, posDe: IntParam, posAte: IntParam)
    ensures var r := PositionFilter(rows, posDe, posAte);
      r.sliced ==>
        && (forall j :: 0 <= j < |r.rows| ==> 1 <= r.first + j <= |rows| && rows[r.first + j - 1] == r.rows[j])
        && (posAte.Given? ==> r.first - 1 + |r.rows| <= posAte.n)
        && (posAte.Given? && r.first - 1 <= posAte.n <= |rows| ==> r.first - 1 + |r.rows| == posAte.n)
        && (posAte.Absent? ==> r.first - 1 + |r.rows| == |rows| || |r.rows| == 0)
        && (r.first - 1 <= |rows| ==>
              r.first - 1 + |r.rows| == if posAte.Given? && posAte.n < |rows| then posAte.n else |rows|)
        && (r.first - 1 > |rows| ==> r.rows == [])
  {
  }

  /** A displayed row with its ordinal (`pessoa.ordem`). */
  datatype Numbered = Numbered(ordem: int, pessoa: Pessoa)

  /** `for idx, pessoa in enumerate(rows, start): pessoa.ordem = idx`. */
  method NumberRows(rows: seq<Pessoa>, start: int) returns (numbered: seq<Numbered>)
    ensures |numbered| == |rows|
    ensures forall j :: 0 <= j < |rows| ==> numbered[j] == Numbered(start + j, rows[j])
  {
    numbered := [];
    var j := 0;
    while j < |rows|
      invariant 0 <= j <= |rows|
      invariant |numbered| == j
      invariant forall k :: 0 <= k < j ==> numbered[k] == Numbered(start + k, rows[k])
    {
      numbered := numbered + [Numbered(start + j, rows[j])];
      j := j + 1;
    }
  }

  /** Rows numbered from `first` that sit at positions `first`, `first + 1`, ... of `all`
      carry their position as their ordinal. */
  lemma OrdinalsArePositions(all: seq<Pessoa>, rows: seq<Pessoa>, first: int, shown: seq<Numbered>)
    requires forall j :: 0 <= j < |rows| ==> 1 <= first + j <= |all| && all[first + j - 1] == rows[j]
    requires |shown| == |rows| && forall j :: 0 <= j < |rows| ==> shown[j] == Numbered(first + j, rows[j])
    ensures forall j :: 0 <= j < |shown| ==> 1 <= shown[j].ordem <= |all| && all[shown[j].ordem - 1] == shown[j].pessoa
  {
  }

  /** A sliced list shows every row of the filtered rows `all` with its position there. */
  method ShowSlice(all: seq<Pessoa>, posDe: IntParam, posAte: IntParam) returns (shown: seq<Numbered>)
    requires PositionFilter(all, posDe, posAte).sliced
    ensures |shown| == |PositionFilter(all, posDe, posAte).rows|
    ensures forall j :: 0 <= j < |shown| ==> 1 <= shown[j].ordem <= |all| && all[shown[j].ordem - 1] == shown[j].pessoa
  {
    var r := PositionFilter(all, posDe, posAte);
    SliceKeepsPositions(all, posDe, posAte);
    shown := NumberRows(r.rows, r.first);
    OrdinalsArePositions(all, r.rows, r.first, shown);
  }

  /** The page sizes offered. */
  predicate Offered(k: int) { k == 15 || k == 25 || k == 50 }

  const DefaultPageSize: nat := 15

  /** `int(request.GET.get('por_pagina', 15))` outside any `try`: unparsable text raises
      instead of falling back (`None` stands for the uncaught `ValueError`). */
  function PageSizeAsWritten(param: IntParam): (r: Option<nat>)
    ensures r.Some? ==> Offered(r.value)
    ensures r.None? <==> param.Malformed?
  {
    match param
    case Absent => Some(DefaultPageSize)
    case Malformed => None
    case Given(k) => if Offered(k) then Some(k) else Some(DefaultPageSize)
  }

  /** Unparsable `por_pagina` makes the list fail instead of showing 15 rows. */
  lemma PageSizeCrashes()
    ensures PageSizeAsWritten(Malformed).None?
    ensures PageSizeAsWritten(Given(7)) == Some(DefaultPageSize)
  {
  }

  /** The page size with unparsable text treated like any other unoffered value. */
  function PageSize(param: IntParam): (k: nat)
    ensures Offered(k)
    ensures param.Given? && Offered(param.n) ==> k == param.n
    ensures !(param.Given? && Offered(param.n)) ==> k == DefaultPageSize
  {
    if param.Given? && Offered(param.n) then param.n else DefaultPageSize
  }

  /** Wherever the view as written answers, the corrected page size agrees with it. */
  lemma PageSizeAgrees(param: IntParam)
    ensures PageSizeAsWritten(param).Some? ==> PageSizeAsWritten(param).value == PageSize(param)
    ensures PageSizeAsWritten(param).None? ==> PageSize(param) == DefaultPageSize
  {
  }

  /** Page `number` (1-based, as the paginator resolved it) of `rows`, `perPage` at a time. */
  function PageOf(rows: seq<Pessoa>, perPage: nat, number: nat): (r: seq<Pessoa>)
    requires perPage >= 1 && number >= 1
    ensures |r| <= perPage
    ensures |r| == if (number - 1) * perPage >= |rows| then 0
                   else if |rows| - (number - 1) * perPage < perPage then |rows| - (number - 1) * perPage
                   else perPage
    ensures forall j :: 0 <= j < |r| ==> (number - 1) * perPage + j < |rows| && r[j] == rows[(number - 1) * perPage + j]
  {
    Slice(rows, (number - 1) * perPage, number * perPage)
  }

  /** The paginated list of the filtered rows `all`: the page's rows numbered from
      `(number - 1) * perPage + 1`, so each ordinal is the row's position in `all`. */
  method ShowPage(all: seq<Pessoa>, porPagina: IntParam, number: nat)
    returns (shown: seq<Numbered>, perPage: nat)
    requires number >= 1
    ensures Offered(perPage) && perPage == PageSize(porPagina)
    ensures |shown| == |PageOf(all, perPage, number)| <= perPage
    ensures forall j :: 0 <= j < |shown| ==>
      && shown[j].ordem == (number - 1) * perPage + j + 1
      && 1 <= shown[j].ordem <= |all| && all[shown[j].ordem - 1] == shown[j].pessoa
  {
    perPage := PageSize(porPagina);
    var page := PageOf(all, perPage, number);
    shown := NumberRows(page, (number - 1) * perPage + 1);
    OrdinalsArePositions(all, page, (number - 1) * perPage + 1, shown);
  }

  /** The mass documents' position filter: the same slices as the list, but every
      refusal silently keeps all rows. */
  function MassPosition(rows: seq<Pessoa>, posDe: IntParam, posAte: IntParam): (r: seq<Pessoa>)
    ensures !SliceAccepted(posDe, posAte) ==> r == rows
    ensures SliceAccepted(posDe, posAte) ==>
      var lo := SliceStart(posDe) - 1;
      var hi := if posAte.Given? && posAte.n < |rows| then posAte.n else |rows|;
      && |r| == (if lo < hi then hi - lo else 0)
      && forall j :: 0 <= j < |r| ==> r[j] == rows[lo + j]
    ensures forall p :: p in r ==> p in rows
  {
    if !posDe.Absent? && !posAte.Absent? then
      if posDe.Given? && posAte.Given? && posDe.n >= 1 && posAte.n >= posDe.n
      then Slice(rows, posDe.n - 1, posAte.n) else rows
    else if !posDe.Absent? then
      if posDe.Given? && posDe.n >= 1 then SliceFrom(rows, posDe.n - 1) else rows
    else if !posAte.Absent? then
      if posAte.Given? && posAte.n >= 0 then Slice(rows, 0, posAte.n) else rows
    else rows
  }

  /** The mass documents' status filter, on a base that is already active-only: an empty
      status selects the active people, "desativado" the deactivated ones, anything else
      keeps all. */
  function MassStatus(people: seq<Pessoa>, status: string): (r: seq<Pessoa>)
    ensures forall p :: p in r <==>
      p in people && (status == "" ==> p.ativo) && (status == "desativado" ==> !p.ativo)
    ensures Subsequence(r, people)
  {
    SubsequenceOfItself(people);
    WhereOrder(people, IsActive);
    WhereOrder(people, IsInactive);
    if status == "desativado" then Where(people, IsInactive)
    else if status == "" then Where(people, IsActive)
    else people
  }

  /** The people a mass memorandum or mass receipt run is generated for. */
  function MassSelection(people: seq<Pessoa>, f: Filters): (r: seq<Pessoa>)
    ensures forall p :: p in r ==> p in people && p.ativo
  {
    var base := Where(people, IsActive);
    var rows := ByCpf(ByValue(MassStatus(ByName(base, f.nome), f.status), f.valor), f.cpf);
    MassPosition(rows, f.posDe, f.posAte)
  }

  datatype MassError = NoPersonFound

  /** An empty selection is refused before any document is generated. */
  function MassOutcome(people: seq<Pessoa>, f: Filters): (r: Result<seq<Pessoa>, MassError>)
    ensures r.Ok? ==> r.value == MassSelection(people, f) && |r.value| >= 1
    ensures r.Err? <==> MassSelection(people, f) == []
  {
    var s := MassSelection(people, f);
    if s == [] then Err(NoPersonFound) else Ok(s)
  }

  /** Asking for deactivated people can never produce a mass document: the base query
      already dropped them. */
  lemma DeactivatedSelectsNobody(people: seq<Pessoa>, f: Filters)
    requires f.status == "desativado"
    ensures MassOutcome(people, f) == Err(NoPersonFound)
  {
    var named := ByName(Where(people, IsActive), f.nome);
    var st := Where(named, IsInactive);
    WhereNone(named, IsInactive);
    assert ByCpf(ByValue(st, f.valor), f.cpf) == [];
  }

  /** The position slices of the mass documents are those of the list; only the
      notices differ. */
  lemma MassPositionAgrees(rows: seq<Pessoa>, posDe: IntParam, posAte: IntParam)
    ensures MassPosition(rows, posDe, posAte) == PositionFilter(rows, posDe, posAte).rows
  {
  }

  /** With status "ativo", a mass document covers exactly the rows the list shows for
      the same query string when positions are given, and all filtered rows otherwise. */
  lemma MassSelectionMatchesList(people: seq<Pessoa>, f: Filters)
    requires f.status == "ativo"
    ensures MassSelection(people, f) == PositionFilter(Filtered(people, f), f.posDe, f.posAte).rows
  {
    if f.nome != "" {
      WhereCommutes(people, IsActive, NameKeep(f.nome));
    }
    assert ByName(Where(people, IsActive), f.nome) == ByStatus(ByName(people, f.nome), f.status);
    MassPositionAgrees(Filtered(people, f), f.posDe, f.posAte);
  }
}
