/** The dashboard (`dashboard`): one card per active benefit with its head counts and
    monthly amount, the overall monthly total, and the distribution of active
    beneficiaries over six amount ranges (also shown per benefit on its list page).
    Amounts are integer cents, so the range bounds R$ 100, 150, 200, 250 and 300 are
    10000, 15000, 20000, 25000 and 30000. */
module Dashboard {
  import opened Common
  import opened Entities
  import opened Query
  import opened Money

  /** The card colours and the fallback icons, cycled by the card's index. */
  const CardClasses: seq<string> :=
    ["benefit-card-azul", "benefit-card-verde", "benefit-card-turquesa", "benefit-card-roxo"]
  const DefaultIcons: seq<string> := ["bi-bus-front", "bi-cash-coin", "bi-wallet2", "bi-piggy-bank"]

  /** One benefit's card. */
  datatype Card = Card(id: nat, nome: string, icone: string, corClasse: string,
                       total: nat, ativos: nat, desativados: nat,
                       valorMensal: int, valorMensalFormatado: string)

  predicate IsActiveBenefit(b: Beneficio) { b.ativo }

  /** `Beneficio.objects.filter(ativo=True)`, the table given in id order. */
  function ActiveBenefits(beneficios: seq<Beneficio>): seq<Beneficio>
  {
    Where(beneficios, IsActiveBenefit)
  }

  function EnrolledIn(id: nat): Pessoa -> bool
  {
    (p: Pessoa) => p.beneficioId == id
  }

  /** The total of the amounts of the rows `keep` accepts (`Sum('valor_beneficio', filter=...)`,
      where an empty sum, `None or 0`, is 0). */
  function SumWhere(rows: seq<Pessoa>, keep: Pessoa -> bool): int
  {
    if rows == [] then 0
    else
      var last := rows[|rows| - 1];
      SumWhere(rows[..|rows| - 1], keep) + (if keep(last) then last.valorBeneficio else 0)
  }

  /** The card of the `idx`-th active benefit. */
  function CardFor(b: Beneficio, idx: nat, people: seq<Pessoa>): (c: Card)
    ensures c.id == b.id && c.nome == b.nome
    ensures c.ativos + c.desativados == c.total
    ensures c.corClasse == CardClasses[idx % 4]
    ensures c.icone != ""
    ensures c.valorMensal == SumWhere(Where(people, EnrolledIn(b.id)), IsActive)
    ensures c.valorMensalFormatado == FormatBR(c.valorMensal)
  {
    var enrolled := Where(people, EnrolledIn(b.id));
    WhereSplits(enrolled, IsActive, IsInactive);
    var valor := SumWhere(enrolled, IsActive);
    Card(b.id, b.nome, if b.icone != "" then b.icone else DefaultIcons[idx % 4], CardClasses[idx % 4],
         |enrolled|, |Where(enrolled, IsActive)|, |Where(enrolled, IsInactive)|,
         valor, FormatBR(valor))
  }

  /** The card shows the benefit's own icon when it has one, and otherwise the fallback
      icon for its index. */
  lemma CardIcon(b: Beneficio, idx: nat, people: seq<Pessoa>)
    ensures var c := CardFor(b, idx, people);
      && (b.icone != "" ==> c.icone == b.icone)
      && (b.icone == "" ==> c.icone == DefaultIcons[idx % 4])
  {
  }

  /** A card's head counts are the benefit's enrolment, its active members and its
      deactivated members. */
  lemma CardCounts(b: Beneficio, idx: nat, people: seq<Pessoa>)
    ensures var c := CardFor(b, idx, people);
      var enrolled := Where(people, EnrolledIn(b.id));
      && c.total == |enrolled|
      && c.ativos == |Where(enrolled, IsActive)|
      && c.desativados == |Where(enrolled, IsInactive)|
  {
  }

  /** The monthly totals of the benefits in `bs`, added up one benefit at a time. */
  function TotalOver(bs: seq<Beneficio>, people: seq<Pessoa>): int
  {
    if bs == [] then 0
    else TotalOver(bs[..|bs| - 1], people) + SumWhere(Where(people, EnrolledIn(bs[|bs| - 1].id)), IsActive)
  }

  /** The cards of the first `n` active benefits. */
  function CardsUpTo(active: seq<Beneficio>, n: nat, people: seq<Pessoa>): (cards: seq<Card>)
    requires n <= |active|
    ensures |cards| == n
  {
    if n == 0 then [] else CardsUpTo(active, n - 1, people) + [CardFor(active[n - 1], n - 1, people)]
  }

  lemma {:induction false} CardsUpToIndex(active: seq<Beneficio>, n: nat, people: seq<Pessoa>, i: nat)
    requires i < n <= |active|
    ensures CardsUpTo(active, n, people)[i] == CardFor(active[i], i, people)
    decreases n
  {
    if i < n - 1 {
      CardsUpToIndex(active, n - 1, people, i);
    }
  }

  /** The cards and the overall monthly total, built by the view's loop. */
  method BuildCards(beneficios: seq<Beneficio>, people: seq<Pessoa>)
    returns (cards: seq<Card>, total: int, totalFormatado: string)
    ensures var active := ActiveBenefits(beneficios);
      && |cards| == |active|
      && (forall i :: 0 <= i < |active| ==> cards[i] == CardFor(active[i], i, people))
      && total == TotalOver(active, people)
    ensures totalFormatado == FormatBR(total)
  {
    var active := ActiveBenefits(beneficios);
    cards := [];
    total := 0;
    for idx := 0 to |active|
      invariant cards == CardsUpTo(active, idx, people)
      invariant total == TotalOver(active[..idx], people)
    {
      var card := CardFor(active[idx], idx, people);
      cards := cards + [card];
      assert active[..idx + 1][..idx] == active[..idx];
      total := total + card.valorMensal;
    }
    assert active[..|active|] == active;
    forall i | 0 <= i < |active| ensures cards[i] == CardFor(active[i], i, people) {
      CardsUpToIndex(active, |active|, people, i);
    }
    totalFormatado := FormatBR(total);
  }

  /** Enrolled in one of `bs` and active: the people the overall total covers. */
  function ActiveInAny(bs: seq<Beneficio>): Pessoa -> bool
  {
    (p: Pessoa) => p.ativo && exists i :: 0 <= i < |bs| && bs[i].id == p.beneficioId
  }

  predicate DistinctIds(bs: seq<Beneficio>)
  {
    forall i, j :: 0 <= i < j < |bs| ==> bs[i].id != bs[j].id
  }

  /** Summing over filtered rows is summing over the rows under both conditions. */
  lemma {:induction false} SumWhereOfWhere(rows: seq<Pessoa>, p: Pessoa -> bool, q: Pessoa -> bool, both: Pessoa -> bool)
    requires forall x :: both(x) <==> p(x) && q(x)
    ensures SumWhere(Where(rows, p), q) == SumWhere(rows, both)
    decreases |rows|
  {
    if rows != [] {
      var rest := rows[..|rows| - 1];
      var last := rows[|rows| - 1];
      SumWhereOfWhere(rest, p, q, both);
      var w := Where(rows, p);
      if p(last) {
        assert w == Where(rest, p) + [last];
        assert w[..|w| - 1] == Where(rest, p) && w[|w| - 1] == last;
        assert both(last) == q(last);
      } else {
        assert w == Where(rest, p);
        assert !both(last);
      }
    }
  }

  /** Sums over two disjoint conditions add up to the sum over either. */
  lemma {:induction false} SumWhereDisjoint(rows: seq<Pessoa>, p: Pessoa -> bool, q: Pessoa -> bool, either: Pessoa -> bool)
    requires forall x :: either(x) <==> p(x) || q(x)
    requires forall x :: !(p(x) && q(x))
    ensures SumWhere(rows, either) == SumWhere(rows, p) + SumWhere(rows, q)
    decreases |rows|
  {
    if rows != [] {
      SumWhereDisjoint(rows[..|rows| - 1], p, q, either);
    }
  }

  /** The overall monthly total is the sum of the amounts of the active people enrolled
      in an active benefit, each counted once (benefit ids are primary keys). */
  lemma {:induction false} TotalCoversActiveEnrolment(bs: seq<Beneficio>, people: seq<Pessoa>)
    requires DistinctIds(bs)
    ensures TotalOver(bs, people) == SumWhere(people, ActiveInAny(bs))
    decreases |bs|
  {
    if bs == [] {
      SumWhereNone(people, ActiveInAny(bs));
    } else {
      var init := bs[..|bs| - 1];
      var b := bs[|bs| - 1];
      TotalCoversActiveEnrolment(init, people);
      var mine := (x: Pessoa) => x.beneficioId == b.id && x.ativo;
      SumWhereOfWhere(people, EnrolledIn(b.id), IsActive, mine);
      forall x: Pessoa ensures ActiveInAny(bs)(x) <==> ActiveInAny(init)(x) || mine(x) {
        if ActiveInAny(bs)(x) && !mine(x) {
          var i :| 0 <= i < |bs| && bs[i].id == x.beneficioId;
          assert i < |init| && init[i].id == x.beneficioId;
        }
        if ActiveInAny(init)(x) {
          var i :| 0 <= i < |init| && init[i].id == x.beneficioId;
          assert bs[i].id == x.beneficioId;
        }
      }
      forall x: Pessoa ensures !(ActiveInAny(init)(x) && mine(x)) {
        if ActiveInAny(init)(x) {
          var i :| 0 <= i < |init| && init[i].id == x.beneficioId;
          assert bs[i].id != bs[|bs| - 1].id;
        }
      }
      SumWhereDisjoint(people, ActiveInAny(init), mine, ActiveInAny(bs));
    }
  }

  /** A condition no row meets sums to 0. */
  lemma {:induction false} SumWhereNone(rows: seq<Pessoa>, keep: Pessoa -> bool)
    requires forall x :: !keep(x)
    ensures SumWhere(rows, keep) == 0
    decreases |rows|
  {
    if rows != [] {
      SumWhereNone(rows[..|rows| - 1], keep);
    }
  }

  /** The six amount ranges of the distribution. */
  datatype Range = UpTo100 | From101To150 | From151To200 | From201To250 | From251To300 | Above300

  /** The range's filter, as written in the aggregate (`__lte`, `__gt`). */
  predicate InRange(cents: int, r: Range)
  {
    match r
    case UpTo100 => cents <= 10000
    case From101To150 => 10000 < cents <= 15000
    case From151To200 => 15000 < cents <= 20000
    case From201To250 => 20000 < cents <= 25000
    case From251To300 => 25000 < cents <= 30000
    case Above300 => cents > 30000
  }

  function RangeOf(cents: int): (r: Range)
    ensures InRange(cents, r)
  {
    if cents <= 10000 then UpTo100
    else if cents <= 15000 then From101To150
    else if cents <= 20000 then From151To200
    else if cents <= 25000 then From201To250
    else if cents <= 30000 then From251To300
    else Above300
  }

  /** Every amount lies in exactly one range. */
  lemma RangesPartition(cents: int, r: Range)
    ensures InRange(cents, r) <==> r == RangeOf(cents)
  {
  }

  function InRangeKeep(r: Range): Pessoa -> bool
  {
    (p: Pessoa) => InRange(p.valorBeneficio, r)
  }

  /** `distribuicao_valor`: the head count of each range. */
  datatype Distribution = Distribution(ate100: nat, de101a150: nat, de151a200: nat,
                                       de201a250: nat, de251a300: nat, acima300: nat)

  function Distribute(rows: seq<Pessoa>): Distribution
  {
    Distribution(|Where(rows, InRangeKeep(UpTo100))|, |Where(rows, InRangeKeep(From101To150))|,
                 |Where(rows, InRangeKeep(From151To200))|, |Where(rows, InRangeKeep(From201To250))|,
                 |Where(rows, InRangeKeep(From251To300))|, |Where(rows, InRangeKeep(Above300))|)
  }

  function DistributionTotal(d: Distribution): nat
  {
    d.ate100 + d.de101a150 + d.de151a200 + d.de201a250 + d.de251a300 + d.acima300
  }

  /** The six counts add up to the number of rows: nobody is counted twice or missed. */
  lemma {:induction false} DistributionCountsEveryone(rows: seq<Pessoa>)
    ensures DistributionTotal(Distribute(rows)) == |rows|
    decreases |rows|
  {
    if rows != [] {
      var rest := rows[..|rows| - 1];
      DistributionCountsEveryone(rest);
      var v := rows[|rows| - 1].valorBeneficio;
      RangesPartition(v, UpTo100);
      RangesPartition(v, From101To150);
      RangesPartition(v, From151To200);
      RangesPartition(v, From201To250);
      RangesPartition(v, From251To300);
      RangesPartition(v, Above300);
    }
  }

  /** The people the dashboard's distribution and head counts cover: enrolled in an
      active benefit (`beneficio__ativo=True`). */
  function InActiveBenefit(bs: seq<Beneficio>): Pessoa -> bool
  {
    (p: Pessoa) => exists i :: 0 <= i < |bs| && bs[i].id == p.beneficioId && bs[i].ativo
  }

  /** The dashboard's overall figures: people in active benefits, how many of them are
      active and deactivated, and the active ones' distribution over the ranges. */
  datatype Overview = Overview(totalGeral: nat, totalAtivos: nat, totalDesativados: nat,
                               distribuicao: Distribution)

  function OverviewOf(beneficios: seq<Beneficio>, people: seq<Pessoa>): (o: Overview)
    ensures var all := Where(people, InActiveBenefit(beneficios));
      && o.totalGeral == |all|
      && o.totalAtivos == |Where(all, IsActive)|
      && o.totalDesativados == |Where(all, IsInactive)|
      && o.distribuicao == Distribute(Where(all, IsActive))
    ensures o.totalAtivos + o.totalDesativados == o.totalGeral
    ensures DistributionTotal(o.distribuicao) == o.totalAtivos
  {
    var all := Where(people, InActiveBenefit(beneficios));
    var ativos := Where(all, IsActive);
    WhereSplits(all, IsActive, IsInactive);
    DistributionCountsEveryone(ativos);
    Overview(|all|, |ativos|, |Where(all, IsInactive)|, Distribute(ativos))
  }

  /** Enrolled in one of `bs`. */
  function InAny(bs: seq<Beneficio>): Pessoa -> bool
  {
    (p: Pessoa) => exists i :: 0 <= i < |bs| && bs[i].id == p.beneficioId
  }

  /** The head counts of the benefits in `bs` among `rows`, added up one benefit at a time. */
  function CountOver(bs: seq<Beneficio>, rows: seq<Pessoa>): nat
  {
    if bs == [] then 0
    else CountOver(bs[..|bs| - 1], rows) + |Where(rows, EnrolledIn(bs[|bs| - 1].id))|
  }

  /** Adding up per-benefit head counts counts each row enrolled in one of `bs` once. */
  lemma {:induction false} CountCoversEnrolment(bs: seq<Beneficio>, rows: seq<Pessoa>)
    requires DistinctIds(bs)
    ensures CountOver(bs, rows) == |Where(rows, InAny(bs))|
    decreases |bs|
  {
    if bs == [] {
      WhereNone(rows, InAny(bs));
    } else {
      var init := bs[..|bs| - 1];
      var b := bs[|bs| - 1];
      CountCoversEnrolment(init, rows);
      forall x: Pessoa ensures InAny(bs)(x) <==> InAny(init)(x) || EnrolledIn(b.id)(x) {
        if InAny(bs)(x) && !EnrolledIn(b.id)(x) {
          var i :| 0 <= i < |bs| && bs[i].id == x.beneficioId;
          assert i < |init| && init[i].id == x.beneficioId;
        }
        if InAny(init)(x) {
          var i :| 0 <= i < |init| && init[i].id == x.beneficioId;
          assert bs[i].id == x.beneficioId;
        }
      }
      forall x: Pessoa ensures !(InAny(init)(x) && EnrolledIn(b.id)(x)) {
        if InAny(init)(x) {
          var i :| 0 <= i < |init| && init[i].id == x.beneficioId;
          assert bs[i].id != bs[|bs| - 1].id;
        }
      }
      WhereDisjointCount(rows, InAny(init), EnrolledIn(b.id), InAny(bs));
    }
  }

  /** Filtering benefits keeps their ids distinct. */
  lemma {:induction false} ActiveBenefitsDistinct(bs: seq<Beneficio>)
    requires DistinctIds(bs)
    ensures DistinctIds(ActiveBenefits(bs))
    decreases |bs|
  {
    if bs != [] {
      var init, last := bs[..|bs| - 1], bs[|bs| - 1];
      ActiveBenefitsDistinct(init);
      var w := ActiveBenefits(init);
      forall k | 0 <= k < |w| ensures w[k].id != last.id {
        assert w[k] in init;
        var j :| 0 <= j < |init| && init[j] == w[k];
        assert bs[j] == w[k];
      }
    }
  }

  /** Being enrolled in an active benefit is being enrolled in one of the active benefits. */
  lemma InActiveBenefitIsInAny(beneficios: seq<Beneficio>)
    ensures forall x :: InActiveBenefit(beneficios)(x) <==> InAny(ActiveBenefits(beneficios))(x)
  {
    var active := ActiveBenefits(beneficios);
    forall x ensures InActiveBenefit(beneficios)(x) <==> InAny(active)(x) {
      if InActiveBenefit(beneficios)(x) {
        var i :| 0 <= i < |beneficios| && beneficios[i].id == x.beneficioId && beneficios[i].ativo;
        assert beneficios[i] in active;
        var j :| 0 <= j < |active| && active[j] == beneficios[i];
      }
      if InAny(active)(x) {
        var j :| 0 <= j < |active| && active[j].id == x.beneficioId;
        assert active[j] in beneficios && active[j].ativo;
        var i :| 0 <= i < |beneficios| && beneficios[i] == active[j];
      }
    }
  }

  function CardTotal(c: Card): nat { c.total }
  function CardAtivos(c: Card): nat { c.ativos }
  function CardDesativados(c: Card): nat { c.desativados }

  /** The sum of a head count over the cards. */
  function CardSum(cards: seq<Card>, field: Card -> nat): nat
  {
    if cards == [] then 0 else CardSum(cards[..|cards| - 1], field) + field(cards[|cards| - 1])
  }

  /** Adding up the cards' head counts adds up the benefits' counts among all people,
      the active ones and the deactivated ones. */
  lemma {:induction false} CardSumsAreCounts(bs: seq<Beneficio>, people: seq<Pessoa>, cards: seq<Card>)
    requires |cards| == |bs| && forall i :: 0 <= i < |bs| ==> cards[i] == CardFor(bs[i], i, people)
    ensures CardSum(cards, CardTotal) == CountOver(bs, people)
    ensures CardSum(cards, CardAtivos) == CountOver(bs, Where(people, IsActive))
    ensures CardSum(cards, CardDesativados) == CountOver(bs, Where(people, IsInactive))
    decreases |bs|
  {
    if bs != [] {
      var n := |bs| - 1;
      CardSumsAreCounts(bs[..n], people, cards[..n]);
      CardCounts(bs[n], n, people);
      WhereCommutes(people, EnrolledIn(bs[n].id), IsActive);
      WhereCommutes(people, EnrolledIn(bs[n].id), IsInactive);
    }
  }

  /** The cards agree with the overall figures: their totals, active and deactivated
      counts add up to the dashboard's `total_geral`, `total_ativos_geral` and
      `total_desativados_geral` (benefit ids are primary keys). */
  lemma CardsAddUpToOverview(beneficios: seq<Beneficio>, people: seq<Pessoa>, cards: seq<Card>)
    requires DistinctIds(beneficios)
    requires var active := ActiveBenefits(beneficios);
      |cards| == |active| && forall i :: 0 <= i < |active| ==> cards[i] == CardFor(active[i], i, people)
    ensures var o := OverviewOf(beneficios, people);
      && CardSum(cards, CardTotal) == o.totalGeral
      && CardSum(cards, CardAtivos) == o.totalAtivos
      && CardSum(cards, CardDesativados) == o.totalDesativados
  {
    var active := ActiveBenefits(beneficios);
    var ativos := Where(people, IsActive);
    var desativados := Where(people, IsInactive);
    CardSumsAreCounts(active, people, cards);
    ActiveBenefitsDistinct(beneficios);
    CountCoversEnrolment(active, people);
    CountCoversEnrolment(active, ativos);
    CountCoversEnrolment(active, desativados);
    WhereCommutes(people, InAny(active), IsActive);
    WhereCommutes(people, InAny(active), IsInactive);
    InActiveBenefitIsInAny(beneficios);
    WhereSameFilter(people, InActiveBenefit(beneficios), InAny(active));
  }
}
