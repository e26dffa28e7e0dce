/** The attachment bundle (`gerar_documentos_massa_pdf`): the first pages of each
    person's uploaded PDF, capped at four, appended twice in a row, person after person.
    Pages are referred to by person index and page index. */
module DocumentMerge {
  import opened Common

  /** At most this many pages of each document are copied. */
  const MaxPagesPerDocument: nat := 4

  /** What opening a person's attachment yields. */
  datatype DocSource =
    | NoDocument            // the person has no `documento`
    | Unreadable            // opening or parsing the file raises
    | Readable(pageCount: nat)

  datatype Attachment = Attachment(nome: string, source: DocSource)

  datatype PageRef = PageRef(person: nat, page: nat)

  datatype MergeError =
    | MissingDocument(person: nat)   // raised outside the per-file handler, not rewrapped
    | Corrupt(message: string)

  function CorruptMessage(nome: string): string
  {
    "Erro ao processar documento de " + nome + ". Arquivo pode estar corrompido."
  }

  /** Pages copied from one source: `min(len(reader.pages), 4)`. */
  function PagesTaken(d: DocSource): (n: nat)
    ensures n <= MaxPagesPerDocument
    ensures d.Readable? ==> n <= d.pageCount && (n < MaxPagesPerDocument ==> n == d.pageCount)
    ensures !d.Readable? ==> n == 0
  {
    if d.Readable? then (if d.pageCount < MaxPagesPerDocument then d.pageCount else MaxPagesPerDocument) else 0
  }

  /** One copy of the first `n` pages of person `k`'s document. */
  function Copy(k: nat, n: nat): (r: seq<PageRef>)
    ensures |r| == n && forall j :: 0 <= j < n ==> r[j] == PageRef(k, j)
  {
    seq(n, j requires 0 <= j < n => PageRef(k, j))
  }

  /** The bundle when every document is readable: copy 1 then copy 2 of each. */
  function MergedPages(docs: seq<Attachment>): seq<PageRef>
  {
    if |docs| == 0 then []
    else
      var k := |docs| - 1;
      var n := PagesTaken(docs[k].source);
      MergedPages(docs[..k]) + Copy(k, n) + Copy(k, n)
  }

  predicate AllReadable(docs: seq<Attachment>)
  {
    forall k :: 0 <= k < |docs| ==> docs[k].source.Readable?
  }

  /** The first person whose document cannot be used, if any. */
  function FirstFailure(docs: seq<Attachment>): (r: Option<nat>)
    ensures r.None? <==> AllReadable(docs)
    ensures r.Some? ==> r.value < |docs| && !docs[r.value].source.Readable? && AllReadable(docs[..r.value])
  {
    if |docs| == 0 then None
    else if !docs[0].source.Readable? then Some(0)
    else
      match FirstFailure(docs[1..])
      case None => None
      case Some(k) =>
        assert forall j :: 0 <= j < k + 1 ==> docs[..k + 1][j] == docs[j];
        assert forall j :: 0 < j < k + 1 ==> docs[j] == docs[1..][..k][j - 1];
        Some(k + 1)
  }

  function ErrorFor(k: nat, a: Attachment): MergeError
  {
    if a.source.NoDocument? then MissingDocument(k) else Corrupt(CorruptMessage(a.nome))
  }

  /** The outcome of the merge: the whole bundle, or the error of the first failing person. */
  function Merge(docs: seq<Attachment>): Result<seq<PageRef>, MergeError>
  {
    match FirstFailure(docs)
    case None => Ok(MergedPages(docs))
    case Some(k) => Err(ErrorFor(k, docs[k]))
  }

  /** The merge fails exactly when some person's document is missing or unreadable. */
  lemma MergeFailsIff(docs: seq<Attachment>)
    ensures Merge(docs).Err? <==> exists k :: 0 <= k < |docs| && !docs[k].source.Readable?
  {
  }

  /** Pages taken per person. */
  function TakenCounts(docs: seq<Attachment>): (r: seq<int>)
    ensures |r| == |docs| && forall k :: 0 <= k < |docs| ==> r[k] == PagesTaken(docs[k].source)
  {
    seq(|docs|, k requires 0 <= k < |docs| => PagesTaken(docs[k].source) as int)
  }

  /** The bundle has `2 * sum(min(pages, 4))` pages. */
  lemma {:induction false} MergedLength(docs: seq<Attachment>)
    ensures |MergedPages(docs)| == 2 * Sum(TakenCounts(docs))
  {
    if |docs| > 0 {
      var k := |docs| - 1;
      MergedLength(docs[..k]);
      assert TakenCounts(docs)[..k] == TakenCounts(docs[..k]);
    }
  }

  /** Every bundled page is one of the first four pages of an existing person's document. */
  lemma {:induction false} MergedPagesInRange(docs: seq<Attachment>)
    ensures forall r :: r in MergedPages(docs) ==>
      r.person < |docs| && r.page < PagesTaken(docs[r.person].source)
  {
    if |docs| > 0 {
      var k := |docs| - 1;
      MergedPagesInRange(docs[..k]);
      forall r | r in MergedPages(docs)
        ensures r.person < |docs| && r.page < PagesTaken(docs[r.person].source)
      {
        if r in MergedPages(docs[..k]) {
          assert docs[..k][r.person] == docs[r.person];
        }
      }
    }
  }

  /** Bundling a longer list only appends: earlier people's pages are unchanged. */
  lemma {:induction false} MergedPagesPrefix(docs: seq<Attachment>, i: nat)
    requires i <= |docs|
    ensures MergedPages(docs[..i]) <= MergedPages(docs)
  {
    if i < |docs| {
      var k := |docs| - 1;
      assert docs[..k][..i] == docs[..i];
      MergedPagesPrefix(docs[..k], i);
    } else {
      assert docs[..i] == docs;
    }
  }

  /** `gerar_documentos_massa_pdf`: for each person, the capped pages once and then again. */
  method MergeDocuments(docs: seq<Attachment>) returns (r: Result<seq<PageRef>, MergeError>)
    ensures r == Merge(docs)
  {
    var writer: seq<PageRef> := [];
    var i := 0;
    while i < |docs|
      invariant 0 <= i <= |docs|
      invariant AllReadable(docs[..i])
      invariant writer == MergedPages(docs[..i])
    {
      var source := docs[i].source;
      if source.NoDocument? {
        assert FirstFailure(docs) == Some(i) by { FirstFailureUnique(docs, i); }
        return Err(MissingDocument(i));
      }
      if source.Unreadable? {
        assert FirstFailure(docs) == Some(i) by { FirstFailureUnique(docs, i); }
        return Err(Corrupt(CorruptMessage(docs[i].nome)));
      }
      var total := PagesTaken(source);
      ghost var before := writer;
      for j := 0 to total
        invariant writer == before + Copy(i, j)
      {
        CopyStep(i, j);
        writer := writer + [PageRef(i, j)];
      }
      ghost var once := writer;
      for j := 0 to total
        invariant writer == once + Copy(i, j)
      {
        CopyStep(i, j);
        writer := writer + [PageRef(i, j)];
      }
      MergedPagesStep(docs, i);
      i := i + 1;
    }
    assert docs[..i] == docs;
    r := Ok(writer);
  }

  lemma CopyStep(k: nat, j: nat)
    ensures Copy(k, j + 1) == Copy(k, j) + [PageRef(k, j)]
  {
  }

  lemma MergedPagesStep(docs: seq<Attachment>, i: nat)
    requires i < |docs|
    ensures var n := PagesTaken(docs[i].source);
      MergedPages(docs[..i + 1]) == MergedPages(docs[..i]) + Copy(i, n) + Copy(i, n)
  {
    assert docs[..i + 1][..i] == docs[..i];
  }

  /** The first failure is the first unusable index after a readable prefix. */
  lemma {:induction false} FirstFailureUnique(docs: seq<Attachment>, i: nat)
    requires i < |docs| && AllReadable(docs[..i]) && !docs[i].source.Readable?
    ensures FirstFailure(docs) == Some(i)
    decreases i
  {
    if i > 0 {
      assert docs[..i][0] == docs[0];
      var tail := docs[1..];
      var pre, before := tail[..i - 1], docs[..i];
      forall j | 0 <= j < |pre| ensures pre[j].source.Readable? {
        assert pre[j] == before[j + 1];
      }
      FirstFailureUnique(tail, i - 1);
    }
  }
}
