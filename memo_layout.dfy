/** Page layout of the mass payment memorandum (`gerar_memorando_massa_pdf`).
    Heights are whole millimetres measured upwards from the bottom of an A4 page
    (297 mm high); the drawing itself is reduced to the blocks placed on each page. */
module MemoLayout {
  import opened Text
  import opened Money
  import opened Entities

  const PageHeight: int := 297
  /** `altura_linha`: one table row. */
  const RowHeight: int := 7
  /** `margem_inferior_tabela`: no row may reach below this line. */
  const BottomMargin: int := 20
  /** `espaco_fechamento`: room the closing text and signature need. */
  const ClosingSpace: int := 55
  /** Height of the repeated table header. */
  const HeaderHeight: int := 7
  /** Cursor at the top of a continuation page (`height - 1.5 cm`). */
  const ContinuationTop: int := 282
  /** Cursor at the top of a page holding only the closing (`height - 3 cm`). */
  const ClosingPageTop: int := 267
  /** The closing block starts this far below the cursor. */
  const ClosingOffset: int := 15
  /** Rows that fit under a continuation page's table header. */
  const RowsPerContinuationPage: nat := 36
  /** The letterhead's memorandum number: `Beneficio` has no `numero_memorando`
      attribute, so the `getattr` default is always used. */
  const LetterheadNumber: string := "4092/2025"
  /** Text widths of the name, benefit and account columns. */
  const NameWidth: nat := 38
  const AccountWidth: nat := 12

  /** Cursor below the first-page letterhead: 15 mm top margin, 25 mm coat of arms,
      4 + 4 mm title lines, 12 mm to the memorandum title, 8 mm to the routing box,
      the 32 mm box, 10 mm gap, the introduction paragraph, and 10 mm below it. */
  function LetterheadBottom(introHeight: int): (y: int)
    ensures y == PageHeight - 15 - 25 - 4 - 4 - 12 - 8 - 32 - 10 - introHeight - 10
  {
    177 - introHeight
  }

  /** The five cells of one table row. */
  datatype RowCells = RowCells(ordinal: string, name: string, benefit: string, amount: string, account: string)

  /** What is placed on a page, with the cursor height at its top. */
  datatype Block =
    | Letterhead(number: string, bottom: int)
    | TableHeader(top: int)
    | Row(top: int, cells: RowCells)
    | Closing(top: int)

  type Page = seq<Block>

  /** The cursor below a block that something else may follow. */
  function Bottom(b: Block): int
    requires !b.Closing?
  {
    match b
    case Letterhead(_, bottom) => bottom
    case TableHeader(top) => top - HeaderHeight
    case Row(top, _) => top - RowHeight
  }

  /** `b` is drawn right under `a`; only the closing keeps a gap, and nothing follows it. */
  predicate Follows(a: Block, b: Block)
  {
    !a.Closing? &&
    match b
    case Letterhead(_, _) => false
    case TableHeader(top) => top == Bottom(a)
    case Row(top, _) => top == Bottom(a)
    case Closing(top) => top == Bottom(a) - ClosingOffset
  }

  predicate Stacked(p: Page)
  {
    forall k :: 0 < k < |p| ==> Follows(p[k - 1], p[k])
  }

  /** Every row ends at or above the bottom margin. */
  predicate RowsFit(p: Page)
  {
    forall k :: 0 <= k < |p| && p[k].Row? ==> p[k].top - RowHeight >= BottomMargin
  }

  /** The first page opens with the letterhead and the table header; every other
      page opens with the table header alone, or is the page holding only the closing. */
  predicate WellFormedPage(p: Page, first: bool)
  {
    && |p| >= 1
    && Stacked(p)
    && RowsFit(p)
    && (first ==> p[0].Letterhead? && |p| >= 2 && p[1].TableHeader?)
    && (!first ==> p[0] == TableHeader(ContinuationTop) || p == [Closing(ClosingPageTop - ClosingOffset)])
  }

  predicate WellFormedDocument(pages: seq<Page>)
  {
    && |pages| >= 1
    && (forall i :: 0 <= i < |pages| ==> WellFormedPage(pages[i], i == 0))
    && pages[|pages| - 1][|pages[|pages| - 1]| - 1].Closing?
    && (forall i :: 0 <= i < |pages| - 1 ==> !pages[i][|pages[i]| - 1].Closing?)
  }

  /** The rows of a page, top to bottom. */
  function RowsOfPage(p: Page): seq<RowCells>
  {
    if |p| == 0 then []
    else RowsOfPage(p[..|p| - 1]) + (if p[|p| - 1].Row? then [p[|p| - 1].cells] else [])
  }

  /** The rows of a document, page after page. */
  function RowsOf(pages: seq<Page>): seq<RowCells>
  {
    if |pages| == 0 then [] else RowsOf(pages[..|pages| - 1]) + RowsOfPage(pages[|pages| - 1])
  }

  /** The row drawn for the `ordinal`-th person: ordinal, name and benefit cut to 38
      characters, the amount in Brazilian format, the account cut to 12 characters. */
  function CellsFor(b: Beneficio, p: Pessoa, ordinal: nat): (r: RowCells)
    ensures StartsWith(p.nomeCompleto, r.name)
    ensures |r.name| == if |p.nomeCompleto| <= NameWidth then |p.nomeCompleto| else NameWidth
    ensures StartsWith(b.nome, r.benefit)
    ensures |r.benefit| == if |b.nome| <= NameWidth then |b.nome| else NameWidth
    ensures StartsWith(b.contaPagadora, r.account)
    ensures |r.account| == if |b.contaPagadora| <= AccountWidth then |b.contaPagadora| else AccountWidth
    ensures r.amount == "R$ " + FormatBR(p.valorBeneficio)
    ensures AllDigits(r.ordinal) && DigitValue(r.ordinal) == ordinal
    ensures |r.ordinal| > 1 ==> r.ordinal[0] != '0'
  {
    RowCells(NatToString(ordinal), Take(p.nomeCompleto, NameWidth), Take(b.nome, NameWidth),
             "R$ " + FormatBR(p.valorBeneficio), Take(b.contaPagadora, AccountWidth))
  }

  /** One row per person, numbered from 1 in input order. */
  function NumberedRows(b: Beneficio, people: seq<Pessoa>): (r: seq<RowCells>)
    ensures |r| == |people|
    ensures forall k :: 0 <= k < |people| ==> r[k] == CellsFor(b, people[k], k + 1)
  {
    seq(|people|, k requires 0 <= k < |people| => CellsFor(b, people[k], k + 1))
  }

  /** The cursor before drawing a row from cursor `y`: a new page with a table
      header when the row would cross the bottom margin. */
  function RowTop(y: int): int
  {
    if y - RowHeight < BottomMargin then ContinuationTop - HeaderHeight else y
  }

  /** The cursor after `n` rows, starting from cursor `y0`. */
  function CursorAfter(n: nat, y0: int): int
  {
    if n == 0 then y0 else RowTop(CursorAfter(n - 1, y0)) - RowHeight
  }

  /** Page breaks taken while drawing `n` rows from cursor `y0`. */
  function BreaksAfter(n: nat, y0: int): nat
  {
    if n == 0 then 0
    else BreaksAfter(n - 1, y0) + (if CursorAfter(n - 1, y0) - RowHeight < BottomMargin then 1 else 0)
  }

  lemma CursorStep(n: nat, y0: int)
    ensures CursorAfter(n + 1, y0) == RowTop(CursorAfter(n, y0)) - RowHeight
    ensures BreaksAfter(n + 1, y0)
         == BreaksAfter(n, y0) + (if CursorAfter(n, y0) - RowHeight < BottomMargin then 1 else 0)
  {
  }

  /** Whether the closing goes on a page of its own. */
  predicate ClosingBreak(y: int)
  {
    y - ClosingSpace < BottomMargin
  }

  /** The page being filled: well formed, and something may still follow its last block. */
  predicate OpenPage(p: Page, first: bool)
  {
    WellFormedPage(p, first) && !p[|p| - 1].Closing?
  }

  /** Finished pages: well formed, none ending in the closing. */
  predicate FinishedPages(done: seq<Page>)
  {
    forall j :: 0 <= j < |done| ==> WellFormedPage(done[j], j == 0) && !done[j][|done[j]| - 1].Closing?
  }

  lemma AppendBlock(p: Page, first: bool, blk: Block)
    requires WellFormedPage(p, first) && Follows(p[|p| - 1], blk)
    requires blk.Row? ==> blk.top - RowHeight >= BottomMargin
    ensures WellFormedPage(p + [blk], first)
    ensures RowsOfPage(p + [blk]) == RowsOfPage(p) + (if blk.Row? then [blk.cells] else [])
  {
    var q := p + [blk];
    assert q[..|q| - 1] == p;
    forall k | 0 < k < |q| ensures Follows(q[k - 1], q[k]) {
      if k < |p| { assert q[k - 1] == p[k - 1] && q[k] == p[k]; }
    }
  }

  lemma FinishPage(done: seq<Page>, cur: Page)
    requires FinishedPages(done) && OpenPage(cur, |done| == 0)
    ensures FinishedPages(done + [cur])
    ensures RowsOf(done + [cur]) == RowsOf(done) + RowsOfPage(cur)
  {
    FinishedPagesAppend(done, cur);
    RowsOfAppend(done, cur);
  }

  lemma FinishedPagesAppend(done: seq<Page>, cur: Page)
    requires FinishedPages(done) && OpenPage(cur, |done| == 0)
    ensures FinishedPages(done + [cur])
  {
    var d := done + [cur];
    forall j | 0 <= j < |d| ensures WellFormedPage(d[j], j == 0) && !d[j][|d[j]| - 1].Closing? {
      if j < |done| { assert d[j] == done[j]; } else { assert d[j] == cur; }
    }
  }

  lemma RowsOfAppend(done: seq<Page>, cur: Page)
    ensures RowsOf(done + [cur]) == RowsOf(done) + RowsOfPage(cur)
  {
    assert (done + [cur])[..|done|] == done;
  }

  /** A continuation page opens with the table header alone. */
  lemma ContinuationOpens()
    ensures OpenPage([TableHeader(ContinuationTop)], false)
    ensures RowsOfPage([TableHeader(ContinuationTop)]) == []
  {
    var p := [TableHeader(ContinuationTop)];
    assert RowsOfPage(p[..0]) == [];
  }

  /** The first page's letterhead, wherever the first page now is. */
  function FirstBlock(done: seq<Page>, cur: Page): Block
    requires |cur| >= 1 && forall j :: 0 <= j < |done| ==> |done[j]| >= 1
  {
    if |done| == 0 then cur[0] else done[0][0]
  }

  /** One pass of the row loop: start a continuation page when the row would cross
      the bottom margin, then draw the row under the cursor. */
  method PlaceRow(done: seq<Page>, cur: Page, y: int, cells: RowCells)
    returns (done': seq<Page>, cur': Page, y': int)
    requires FinishedPages(done) && OpenPage(cur, |done| == 0) && y == Bottom(cur[|cur| - 1])
    ensures FinishedPages(done') && OpenPage(cur', |done'| == 0) && y' == Bottom(cur'[|cur'| - 1])
    ensures FirstBlock(done', cur') == FirstBlock(done, cur)
    ensures RowsOf(done') + RowsOfPage(cur') == RowsOf(done) + RowsOfPage(cur) + [cells]
    ensures |done'| == |done| + (if y - RowHeight < BottomMargin then 1 else 0)
    ensures y' == RowTop(y) - RowHeight
  {
    done', cur', y' := done, cur, y;
    if y - RowHeight < BottomMargin {
      FinishPage(done, cur);
      ContinuationOpens();
      done' := done + [cur];
      cur' := [TableHeader(ContinuationTop)];
      y' := ContinuationTop - HeaderHeight;
    }
    var row := Row(y', cells);
    AppendBlock(cur', |done'| == 0, row);
    cur' := cur' + [row];
    y' := y' - RowHeight;
  }

  lemma NumberedRowsPrefix(b: Beneficio, people: seq<Pessoa>, i: nat)
    requires i < |people|
    ensures NumberedRows(b, people)[..i + 1] == NumberedRows(b, people)[..i] + [CellsFor(b, people[i], i + 1)]
  {
  }

  /** Closing the last page completes the document. */
  lemma FinishDocument(done: seq<Page>, cur: Page)
    requires FinishedPages(done) && WellFormedPage(cur, |done| == 0) && cur[|cur| - 1].Closing?
    ensures WellFormedDocument(done + [cur])
    ensures RowsOf(done + [cur]) == RowsOf(done) + RowsOfPage(cur)
    ensures (done + [cur])[0][0] == (if |done| == 0 then cur[0] else done[0][0])
  {
    var pages := done + [cur];
    assert pages[..|done|] == done;
    forall i | 0 <= i < |pages| ensures WellFormedPage(pages[i], i == 0) {
      if i < |done| { assert pages[i] == done[i]; }
    }
  }

  lemma FirstPageOpens(top: int)
    ensures OpenPage([Letterhead(LetterheadNumber, top), TableHeader(top)], true)
    ensures RowsOfPage([Letterhead(LetterheadNumber, top), TableHeader(top)]) == []
  {
    var p := [Letterhead(LetterheadNumber, top), TableHeader(top)];
    assert RowsOfPage(p[..1]) == RowsOfPage(p[..0]) == [];
  }

  /** The row loop: returns the finished pages, the page being filled and the cursor. */
  method LayRows(b: Beneficio, people: seq<Pessoa>, top: int) returns (done: seq<Page>, cur: Page, y: int)
    ensures FinishedPages(done) && OpenPage(cur, |done| == 0)
    ensures FirstBlock(done, cur) == Letterhead(LetterheadNumber, top)
    ensures RowsOf(done) + RowsOfPage(cur) == NumberedRows(b, people)
    ensures y == Bottom(cur[|cur| - 1])
    ensures y == CursorAfter(|people|, top - HeaderHeight) && |done| == BreaksAfter(|people|, top - HeaderHeight)
  {
    var y0 := top - HeaderHeight;
    cur := [Letterhead(LetterheadNumber, top), TableHeader(top)];
    FirstPageOpens(top);
    y := y0;
    done := [];
    var i := 0;
    while i < |people|
      invariant 0 <= i <= |people|
      invariant FinishedPages(done) && OpenPage(cur, |done| == 0)
      invariant FirstBlock(done, cur) == Letterhead(LetterheadNumber, top)
      invariant RowsOf(done) + RowsOfPage(cur) == NumberedRows(b, people)[..i]
      invariant y == Bottom(cur[|cur| - 1])
      invariant y == CursorAfter(i, y0) && |done| == BreaksAfter(i, y0)
    {
      CursorStep(i, y0);
      done, cur, y := PlaceRow(done, cur, y, CellsFor(b, people[i], i + 1));
      NumberedRowsPrefix(b, people, i);
      i := i + 1;
    }
    assert NumberedRows(b, people)[..i] == NumberedRows(b, people);
  }

  /** After the last row: the closing goes under the cursor, or on a page of its own
      when less than its height remains above the bottom margin. */
  method PlaceClosing(done: seq<Page>, cur: Page, y: int) returns (pages: seq<Page>)
    requires FinishedPages(done) && OpenPage(cur, |done| == 0) && y == Bottom(cur[|cur| - 1])
    ensures WellFormedDocument(pages)
    ensures pages[0][0] == FirstBlock(done, cur)
    ensures RowsOf(pages) == RowsOf(done) + RowsOfPage(cur)
    ensures |pages| == |done| + 1 + (if ClosingBreak(y) then 1 else 0)
    ensures ClosingBreak(y) ==> pages[|pages| - 1] == [Closing(ClosingPageTop - ClosingOffset)]
    ensures !ClosingBreak(y) ==>
      |pages[|pages| - 1]| >= 2 && pages[|pages| - 1][|pages[|pages| - 1]| - 1] == Closing(y - ClosingOffset)
  {
    if ClosingBreak(y) {
      FinishPage(done, cur);
      var last := [Closing(ClosingPageTop - ClosingOffset)];
      assert RowsOfPage(last) == RowsOfPage(last[..0]) == [];
      FinishDocument(done + [cur], last);
      pages := done + [cur] + [last];
    } else {
      AppendBlock(cur, |done| == 0, Closing(y - ClosingOffset));
      var last := cur + [Closing(y - ClosingOffset)];
      FinishDocument(done, last);
      pages := done + [last];
    }
  }

  /** Lays out the memorandum for `people` under benefit `b`. `introHeight` is the
      height of the wrapped introduction paragraph. */
  method MassMemorandum(b: Beneficio, people: seq<Pessoa>, introHeight: int) returns (pages: seq<Page>)
    ensures WellFormedDocument(pages)
    ensures pages[0][0] == Letterhead(LetterheadNumber, LetterheadBottom(introHeight))
    ensures RowsOf(pages) == NumberedRows(b, people)
    ensures var y := CursorAfter(|people|, LetterheadBottom(introHeight) - HeaderHeight);
      && |pages| == PageCount(|people|, LetterheadBottom(introHeight) - HeaderHeight)
      && (ClosingBreak(y) ==> pages[|pages| - 1] == [Closing(ClosingPageTop - ClosingOffset)])
      && (!ClosingBreak(y) ==>
            |pages[|pages| - 1]| >= 2 && pages[|pages| - 1][|pages[|pages| - 1]| - 1] == Closing(y - ClosingOffset))
  {
    var done, cur, y := LayRows(b, people, LetterheadBottom(introHeight));
    pages := PlaceClosing(done, cur, y);
  }

  /** Rows that fit under the first page's table header when it ends at cursor `y0`. */
  function FirstPageRows(y0: int): nat
  {
    if y0 >= BottomMargin then (y0 - BottomMargin) / RowHeight else 0
  }

  /** Closed form of the row loop: the first page takes `FirstPageRows(y0)` rows,
      then every continuation page takes 36. */
  lemma {:induction false} CursorClosedForm(n: nat, y0: int)
    ensures n <= FirstPageRows(y0) ==> BreaksAfter(n, y0) == 0 && CursorAfter(n, y0) == y0 - RowHeight * n
    ensures n > FirstPageRows(y0) ==>
      var m := n - FirstPageRows(y0);
      && BreaksAfter(n, y0) == (m - 1) / RowsPerContinuationPage + 1
      && CursorAfter(n, y0)
         == ContinuationTop - HeaderHeight - RowHeight * ((m - 1) % RowsPerContinuationPage + 1)
  {
    if n > 0 {
      CursorClosedForm(n - 1, y0);
      CursorStep(n - 1, y0);
      var f := FirstPageRows(y0);
      if n - 1 < f {
        assert CursorAfter(n - 1, y0) - RowHeight >= BottomMargin;
      } else if n - 1 == f {
        assert CursorAfter(n - 1, y0) - RowHeight < BottomMargin;
      } else {
        var m := n - f;
        QuotientStep(m - 1);
      }
    }
  }

  lemma QuotientStep(k: nat)
    requires k >= 1
    ensures (k - 1) % 36 == 35 ==> k % 36 == 0 && k / 36 == (k - 1) / 36 + 1
    ensures (k - 1) % 36 != 35 ==> k % 36 == (k - 1) % 36 + 1 && k / 36 == (k - 1) / 36
  {
  }

  /** Pages of the memorandum for `n` rows under a table header ending at `y0`. */
  function PageCount(n: nat, y0: int): nat
  {
    1 + BreaksAfter(n, y0) + (if ClosingBreak(CursorAfter(n, y0)) then 1 else 0)
  }

  /** Up to the first page's capacity everything stays on page one, plus a page for
      the closing when fewer than 55 mm remain; beyond it, one page per 36 rows. */
  lemma PageCountClosedForm(n: nat, y0: int)
    ensures n <= FirstPageRows(y0) ==>
      PageCount(n, y0) == if y0 - RowHeight * n - ClosingSpace < BottomMargin then 2 else 1
    ensures n > FirstPageRows(y0) ==>
      var m := n - FirstPageRows(y0);
      var r := (m - 1) % RowsPerContinuationPage + 1;
      PageCount(n, y0) == 2 + (m - 1) / RowsPerContinuationPage + (if r > 28 then 1 else 0)
  {
    CursorClosedForm(n, y0);
  }

  /** A continuation page holds at most 36 rows: the blocks under its header are
      stacked 7 mm apart from 282 mm and no row may end below 20 mm. */
  lemma {:induction false} ContinuationCapacity(p: Page)
    requires |p| >= 1 && p[0] == TableHeader(ContinuationTop) && Stacked(p) && RowsFit(p)
    ensures |RowsOfPage(p)| <= RowsPerContinuationPage
    ensures !p[|p| - 1].Closing? ==>
      Bottom(p[|p| - 1]) == ContinuationTop - RowHeight * |p| && |RowsOfPage(p)| <= |p| - 1
  {
    if |p| == 1 {
      assert RowsOfPage(p) == RowsOfPage(p[..0]) + [];
    } else {
      var q := p[..|p| - 1];
      assert Stacked(q) by {
        forall k | 0 < k < |q| ensures Follows(q[k - 1], q[k]) { assert Follows(p[k - 1], p[k]); }
      }
      assert RowsFit(q) by {
        forall k | 0 <= k < |q| && q[k].Row? ensures q[k].top - RowHeight >= BottomMargin { assert p[k] == q[k]; }
      }
      ContinuationCapacity(q);
      assert Follows(q[|q| - 1], p[|p| - 1]);
    }
  }

  /** Every page after the first of a laid-out memorandum holds at most 36 rows. */
  lemma LaterPagesHoldAtMost36Rows(pages: seq<Page>, i: nat)
    requires WellFormedDocument(pages) && 1 <= i < |pages|
    ensures |RowsOfPage(pages[i])| <= RowsPerContinuationPage
  {
    var p := pages[i];
    if p[0] == TableHeader(ContinuationTop) {
      ContinuationCapacity(p);
    } else {
      assert RowsOfPage(p) == RowsOfPage(p[..0]) + [];
    }
  }
}
