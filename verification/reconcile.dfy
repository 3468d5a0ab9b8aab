/** The two reconciliation procedures: claim one pending change (or one updated document) in
    a transaction, find similar documents through the vector search, ask the model about every
    candidate at once, and answer with the diffs of the candidates it rewrote. */
module Reconcile {
  import opened Wrappers
  import opened Graph
  import opened Docs
  import opened Llm
  import Query

  /** A row of the change log: `processed` is false until one reconciliation claims it. */
  datatype ChangeRow = ChangeRow(processed: bool, newContent: string, oldContent: Option<string>, fileId: string)

  /** The tables a reconciliation reads: the change log by id, the mirrored files and the
      uploaded documents in table order. */
  datatype Tables = Tables(changes: map<string, ChangeRow>, files: seq<SharepointFile>, documents: seq<Document>)

  /** The payload filter of a similarity search. */
  datatype SearchFilter = DestinationOnly | NotSource

  datatype SearchQuery = SearchQuery(vector: Vector, limit: nat, filter: SearchFilter)

  const TopK: nat := 10

  /** The external services: the vector search returns point ids, best match first. */
  datatype Oracles = Oracles(
    search: SearchQuery -> seq<string>,
    ask: Chat,
    generate: seq<Message> -> seq<Chunk>,
    htmlDiff: (string, string) -> string)

  /** What a call leaves behind: the committed tables, the evaluations that ran, the answer. */
  datatype Outcome<D, E> = Outcome(tables: Tables, runs: seq<Run<D, E>>, answer: Result<seq<DocumentUpdate<D>>>)

  /** The refusal of a missing file. A refused claim calls `trx.rollback()`, which throws
      `TransactionRollback` before the tRPC error on the next line is reached. */
  const DocumentNotFound: Error := TrpcError("NOT_FOUND", "Document not found")

  /** `searchSimilarEmbeddingsInQdrant`: the flag is read for its truthiness. */
  function SearchFor(vector: Vector, includeOnlyDestination: bool): (q: SearchQuery)
    ensures q.vector == vector && q.limit == 10
    ensures q.filter == DestinationOnly <==> includeOnlyDestination
  {
    SearchQuery(vector, TopK, if includeOnlyDestination then DestinationOnly else NotSource)
  }

  /** The first file row with the given id. */
  function FindFile(files: seq<SharepointFile>, id: string): (r: Option<SharepointFile>)
    ensures r.Some? ==> r.value in files && r.value.id == id
    ensures r.None? ==> forall f :: f in files ==> f.id != id
  {
    if |files| == 0 then None
    else if files[0].id == id then Some(files[0])
    else FindFile(files[1..], id)
  }

  /** `Promise.all` over the evaluations, then keep the rewritten candidates with the diff of
      their content against the rewrite. Any failed evaluation fails the whole call. */
  function Collect<D, E>(runs: seq<Run<D, E>>, content: D -> string, htmlDiff: (string, string) -> string): (r: Result<seq<DocumentUpdate<D>>>)
    ensures r.Err? ==> exists i :: 0 <= i < |runs| && runs[i].result == Err(r.error)
  {
    if |runs| == 0 then Ok([])
    else if runs[0].result.Err? then Err(runs[0].result.error)
    else
      var rest :- Collect(runs[1..], content, htmlDiff);
      var head := runs[0].result.value;
      Ok((if head.Updated? then [DocumentUpdate(head.document, htmlDiff(content(head.document), head.newContent))] else [])
         + rest)
  }

  /** The answer entry an evaluation contributes: one that rewrote its candidate. */
  predicate Yields<D(==), E>(run: Run<D, E>, u: DocumentUpdate<D>, content: D -> string, htmlDiff: (string, string) -> string) {
    && run.result.Ok?
    && run.result.value.Updated?
    && u == DocumentUpdate(run.result.value.document, htmlDiff(content(run.result.value.document), run.result.value.newContent))
  }

  /** The collection succeeds exactly when every evaluation did, and then lists exactly the
      rewritten candidates, each with the diff of its content against its rewrite. */
  lemma {:induction false} CollectAllOrNothing<D(!new), E>(runs: seq<Run<D, E>>, content: D -> string, htmlDiff: (string, string) -> string)
    ensures Collect(runs, content, htmlDiff).Ok? <==> forall i :: 0 <= i < |runs| ==> runs[i].result.Ok?
    ensures Collect(runs, content, htmlDiff).Ok? ==>
              && |Collect(runs, content, htmlDiff).value| <= |runs|
              && forall u :: u in Collect(runs, content, htmlDiff).value <==>
                   exists i :: 0 <= i < |runs| && Yields(runs[i], u, content, htmlDiff)
  {
    if |runs| > 0 {
      CollectAllOrNothing(runs[1..], content, htmlDiff);
      assert forall i :: 1 <= i < |runs| ==> runs[1..][i - 1] == runs[i];
      if Collect(runs, content, htmlDiff).Ok? {
        var all := Collect(runs, content, htmlDiff).value;
        var rest := Collect(runs[1..], content, htmlDiff).value;
        forall u ensures u in all <==> exists i :: 0 <= i < |runs| && Yields(runs[i], u, content, htmlDiff) {
          if u in rest {
            var j :| 0 <= j < |runs[1..]| && Yields(runs[1..][j], u, content, htmlDiff);
            assert Yields(runs[j + 1], u, content, htmlDiff);
          }
          if i :| 0 <= i < |runs| && Yields(runs[i], u, content, htmlDiff) {
            if i > 0 {
              assert Yields(runs[1..][i - 1], u, content, htmlDiff);
            }
          }
        }
      }
    }
  }

  // ---------------------------------------------------------------------------
  // runUpdateForChanges

  /** `update changes set processed = true where id = ? and processed = false returning *`. */
  function ClaimChange(t: Tables, changeId: string): (r: Option<(ChangeRow, Tables)>)
    ensures r.Some? <==> changeId in t.changes && !t.changes[changeId].processed
    ensures r.Some? ==> r.value.0 == t.changes[changeId].(processed := true)
                        && r.value.1 == t.(changes := t.changes[changeId := r.value.0])
  {
    if changeId in t.changes && !t.changes[changeId].processed then
      var claimed := t.changes[changeId].(processed := true);
      Some((claimed, t.(changes := t.changes[changeId := claimed])))
    else None
  }

  /** The files the lookup selects for the search's points, in table order. */
  function ChangeCandidates(v: Variant, files: seq<SharepointFile>, ids: seq<string>): (r: seq<SharepointFile>)
    ensures v.Corrected? || |ids| > 0 ==> forall f :: f in r <==> f in files && f.id in ids
    ensures v.AsWritten? && ids == [] ==> r == files
  {
    Query.Select(v, files, (f: SharepointFile) => f.id, ids)
  }

  /** `runUpdateForChanges`: a failed call leaves the tables as they were, and a successful one
      commits exactly the claim. */
  function RunUpdateForChanges(v: Variant, t: Tables, changeId: string, o: Oracles): (out: Outcome<SharepointFile, TokenEventV2>)
    ensures out.answer.Err? ==> out.tables == t
    ensures out.answer.Ok? ==> ClaimChange(t, changeId).Some? && out.tables == ClaimChange(t, changeId).value.1
  {
    match ClaimChange(t, changeId)
    case None => Outcome(t, [], Err(TransactionRollback))
    case Some((change, claimed)) =>
      var diff := o.htmlDiff(change.newContent, change.oldContent.GetOr(""));
      match FindFile(claimed.files, change.fileId)
      case None => Outcome(t, [], Err(DocumentNotFound))
      case Some(base) =>
        // the file id stands where the destination-only flag belongs
        var ids := o.search(SearchFor(base.embedding, base.id != ""));
        var candidates := ChangeCandidates(v, claimed.files, ids);
        var runs := seq(|candidates|, i requires 0 <= i < |candidates| =>
                      CheckIfDocumentNeedsUpdate(base, candidates[i], changeId, diff, o.ask, o.generate, o.htmlDiff));
        var answer := Collect(runs, (f: SharepointFile) => f.content, o.htmlDiff);
        Outcome(if answer.Ok? then claimed else t, runs, answer)
  }

  /** A change is claimed at most once: the claim is refused, by the rollback's error, exactly
      when the change is missing or already processed, and a successful call marks it processed
      and changes nothing else. */
  lemma ChangeClaimedOnce(v: Variant, t: Tables, changeId: string, o: Oracles)
    ensures RunUpdateForChanges(v, t, changeId, o).answer == Err(TransactionRollback) <==>
              changeId !in t.changes || t.changes[changeId].processed
    ensures var out := RunUpdateForChanges(v, t, changeId, o);
            out.answer.Ok? ==>
              && changeId in t.changes && !t.changes[changeId].processed
              && out.tables == t.(changes := t.changes[changeId := t.changes[changeId].(processed := true)])
  {
    var out := RunUpdateForChanges(v, t, changeId, o);
    var claim := ClaimChange(t, changeId);
    if claim.Some? && FindFile(claim.value.1.files, claim.value.0.fileId).Some? && out.answer.Err? {
      var (change, claimed) := claim.value;
      var base := FindFile(claimed.files, change.fileId).value;
      var diff := o.htmlDiff(change.newContent, change.oldContent.GetOr(""));
      var candidates := ChangeCandidates(v, claimed.files, o.search(SearchFor(base.embedding, base.id != "")));
      assert |out.runs| == |candidates|;
      assert forall k :: 0 <= k < |out.runs| ==>
        out.runs[k] == CheckIfDocumentNeedsUpdate(base, candidates[k], changeId, diff, o.ask, o.generate, o.htmlDiff);
      var i :| 0 <= i < |out.runs| && out.runs[i].result == Err(out.answer.error);
      assert out.answer.error == Thrown(EmptyResponseMessage);
    }
  }

  /** Running the same change twice: the second call is refused and leaves the tables alone. */
  lemma SecondRunRefused(v: Variant, t: Tables, changeId: string, o: Oracles)
    requires RunUpdateForChanges(v, t, changeId, o).answer.Ok?
    ensures var t1 := RunUpdateForChanges(v, t, changeId, o).tables;
            RunUpdateForChanges(v, t1, changeId, o) == Outcome(t1, [], Err(TransactionRollback))
  {
    ChangeClaimedOnce(v, t, changeId, o);
  }

  /** A call that fails after its claim succeeded leaves the change claimable again: it is still
      stored and still unprocessed, so a later call can retry it. */
  lemma FailureRollsBack(v: Variant, t: Tables, changeId: string, o: Oracles)
    ensures var out := RunUpdateForChanges(v, t, changeId, o);
            out.answer.Err? && out.answer != Err(TransactionRollback) ==>
              changeId in out.tables.changes && !out.tables.changes[changeId].processed
  {
    ChangeClaimedOnce(v, t, changeId, o);
  }

  /** A claimed change whose file row is gone is refused as a missing document. */
  lemma MissingFileIsNotFound(v: Variant, t: Tables, changeId: string, o: Oracles)
    requires changeId in t.changes && !t.changes[changeId].processed
    requires forall f :: f in t.files ==> f.id != t.changes[changeId].fileId
    ensures RunUpdateForChanges(v, t, changeId, o) == Outcome(t, [], Err(DocumentNotFound))
  {
  }

  /** The search is for the changed file's embedding, ten points, and restricted to
      destination documents whenever the file id is non-empty; the candidates, which
      `ChangeCandidates` characterises, are each evaluated against the change's diff, and the answer succeeds exactly when every evaluation does, listing
      exactly the candidates rewritten. */
  lemma ChangesPipeline(v: Variant, t: Tables, changeId: string, o: Oracles, base: SharepointFile)
    requires changeId in t.changes && !t.changes[changeId].processed
    requires FindFile(t.files, t.changes[changeId].fileId) == Some(base)
    ensures var change := t.changes[changeId];
            var q := SearchFor(base.embedding, base.id != "");
            var diff := o.htmlDiff(change.newContent, change.oldContent.GetOr(""));
            var out := RunUpdateForChanges(v, t, changeId, o);
            var candidates := ChangeCandidates(v, t.files, o.search(q));
            && q.limit == 10 && (q.filter == DestinationOnly <==> base.id != "")
            && |out.runs| == |candidates|
            && (forall i :: 0 <= i < |out.runs| ==>
                  out.runs[i] == CheckIfDocumentNeedsUpdate(base, candidates[i], changeId, diff, o.ask, o.generate, o.htmlDiff))
            && (out.answer.Ok? <==> forall i :: 0 <= i < |out.runs| ==> out.runs[i].result.Ok?)
            && (out.answer.Ok? ==> forall u :: u in out.answer.value <==>
                  exists i :: 0 <= i < |out.runs| && Yields(out.runs[i], u, (f: SharepointFile) => f.content, o.htmlDiff))
  {
    var out := RunUpdateForChanges(v, t, changeId, o);
    CollectAllOrNothing(out.runs, (f: SharepointFile) => f.content, o.htmlDiff);
  }

  /** With the intended lookup a search that finds nothing yields an empty answer, evaluates
      nothing and commits the claim. */
  lemma EmptySearchAnswersNothing(t: Tables, changeId: string, o: Oracles, base: SharepointFile)
    requires changeId in t.changes && !t.changes[changeId].processed
    requires FindFile(t.files, t.changes[changeId].fileId) == Some(base)
    requires o.search(SearchFor(base.embedding, base.id != "")) == []
    ensures RunUpdateForChanges(Corrected, t, changeId, o).answer == Ok([])
    ensures RunUpdateForChanges(Corrected, t, changeId, o).runs == []
  {
    var claimed := ClaimChange(t, changeId).value.1;
    assert claimed.files == t.files;
    assert |ChangeCandidates(Corrected, t.files, [])| == 0;
    var runs := RunUpdateForChanges(Corrected, t, changeId, o).runs;
    assert |runs| == 0;
  }

  /** As written, a search that finds nothing makes every stored file a candidate: each one,
      in table order, is put to the model against the change's diff. */
  lemma EmptySearchEvaluatesEveryFileAsWritten(t: Tables, changeId: string, o: Oracles, base: SharepointFile)
    requires changeId in t.changes && !t.changes[changeId].processed
    requires FindFile(t.files, t.changes[changeId].fileId) == Some(base)
    requires o.search(SearchFor(base.embedding, base.id != "")) == []
    ensures var change := t.changes[changeId];
            var diff := o.htmlDiff(change.newContent, change.oldContent.GetOr(""));
            var out := RunUpdateForChanges(AsWritten, t, changeId, o);
            && |out.runs| == |t.files|
            && forall i :: 0 <= i < |t.files| ==>
                 out.runs[i] == CheckIfDocumentNeedsUpdate(base, t.files[i], changeId, diff, o.ask, o.generate, o.htmlDiff)
  {
    var claimed := ClaimChange(t, changeId).value.1;
    assert claimed.files == t.files;
    assert ChangeCandidates(AsWritten, t.files, []) == t.files;
  }

  // ---------------------------------------------------------------------------
  // runUpdateForDocuments

  /** `update documents set updated = false where id = ? and updated = true returning *`: every
      matching row is cleared and the first of them is returned. */
  function ClaimDocument(docs: seq<Document>, id: string): (r: (Option<Document>, seq<Document>))
    ensures |r.1| == |docs|
    ensures forall i :: 0 <= i < |docs| ==>
              r.1[i] == (if docs[i].id == id && docs[i].updated then docs[i].(updated := false) else docs[i])
    ensures r.0.Some? <==> exists i :: 0 <= i < |docs| && docs[i].id == id && docs[i].updated
    ensures r.0.Some? ==> r.0.value.id == id && r.0.value.updated && r.0.value in docs
  {
    if |docs| == 0 then (None, [])
    else
      var rest := ClaimDocument(docs[1..], id);
      assert forall i :: 1 <= i < |docs| ==> docs[1..][i - 1] == docs[i];
      if docs[0].id == id && docs[0].updated then (Some(docs[0]), [docs[0].(updated := false)] + rest.1)
      else (rest.0, [docs[0]] + rest.1)
  }

  /** The documents the lookup selects for the search's points, in table order. */
  function DocumentCandidates(v: Variant, docs: seq<Document>, ids: seq<string>): (r: seq<Document>)
    ensures v.Corrected? || |ids| > 0 ==> forall d :: d in r <==> d in docs && d.id in ids
    ensures v.AsWritten? && ids == [] ==> r == docs
  {
    Query.Select(v, docs, (d: Document) => d.id, ids)
  }

  /** `runUpdateForDocuments`: a failed call leaves the tables as they were, and a successful
      one commits exactly the cleared flags. */
  function RunUpdateForDocuments(v: Variant, t: Tables, id: string, o: Oracles): (out: Outcome<Document, TokenEvent>)
    ensures out.answer.Err? ==> out.tables == t
    ensures out.answer.Ok? ==> ClaimDocument(t.documents, id).0.Some? && out.tables == t.(documents := ClaimDocument(t.documents, id).1)
  {
    var (claimed, docs) := ClaimDocument(t.documents, id);
    if claimed.None? then Outcome(t, [], Err(TransactionRollback))
    else
      var ids := o.search(SearchFor(claimed.value.embedding, true));
      // candidates are read after the flag was cleared, in the same transaction
      var candidates := DocumentCandidates(v, docs, ids);
      var base := BaseText(claimed.value.text);
      var runs := seq(|candidates|, i requires 0 <= i < |candidates| =>
                    CheckIfDocumentNeedsUpdateLegacy(base, candidates[i], o.ask, o.generate, o.htmlDiff));
      var answer := Collect(runs, (d: Document) => d.text, o.htmlDiff);
      Outcome(if answer.Ok? then t.(documents := docs) else t, runs, answer)
  }

  /** A document is reconciled at most once per update: it is refused exactly when no row with
      that id is marked updated, a successful call only clears that mark, a failure rolls it
      back, and a second call right after a success is refused. */
  lemma DocumentClaimedOnce(v: Variant, t: Tables, id: string, o: Oracles)
    ensures RunUpdateForDocuments(v, t, id, o).answer == Err(TransactionRollback) <==>
              forall i :: 0 <= i < |t.documents| ==> !(t.documents[i].id == id && t.documents[i].updated)
    ensures var out := RunUpdateForDocuments(v, t, id, o);
            && (out.answer.Err? ==> out.tables == t)
            && (out.answer.Ok? ==>
                  && out.tables.changes == t.changes && out.tables.files == t.files
                  && |out.tables.documents| == |t.documents|
                  && forall i :: 0 <= i < |t.documents| ==>
                       out.tables.documents[i] == (if t.documents[i].id == id then t.documents[i].(updated := false) else t.documents[i]))
    ensures var t1 := RunUpdateForDocuments(v, t, id, o).tables;
            RunUpdateForDocuments(v, t, id, o).answer.Ok? ==> RunUpdateForDocuments(v, t1, id, o).answer == Err(TransactionRollback)
  {
    var out := RunUpdateForDocuments(v, t, id, o);
    var r := ClaimDocument(t.documents, id);
    if r.0.Some? {
      DocumentRunFailsOnlyInModel(v, t, id, o);
      if out.answer.Ok? {
        assert out.tables.documents == r.1;
        assert ClaimDocument(r.1, id).0.None?;
      }
    }
  }

  /** Once a document is claimed, the only error left is the model's empty response. */
  lemma DocumentRunFailsOnlyInModel(v: Variant, t: Tables, id: string, o: Oracles)
    requires ClaimDocument(t.documents, id).0.Some?
    ensures var out := RunUpdateForDocuments(v, t, id, o);
            && (out.answer.Err? ==> out.answer.error == Thrown(EmptyResponseMessage) && out.tables == t)
            && (out.answer.Ok? ==> out.tables == t.(documents := ClaimDocument(t.documents, id).1))
  {
    var out := RunUpdateForDocuments(v, t, id, o);
    if out.answer.Err? {
      var i :| 0 <= i < |out.runs| && out.runs[i].result == Err(out.answer.error);
    }
  }

  /** The documents flow always searches destination documents only, ten points, and gives the
      model the updated document's text in place of a base document; the candidates are those
      `DocumentCandidates` characterises. */
  lemma DocumentsPipeline(v: Variant, t: Tables, id: string, o: Oracles, claimed: Document)
    requires ClaimDocument(t.documents, id).0 == Some(claimed)
    ensures var q := SearchFor(claimed.embedding, true);
            var docs := ClaimDocument(t.documents, id).1;
            var candidates := DocumentCandidates(v, docs, o.search(q));
            var out := RunUpdateForDocuments(v, t, id, o);
            && q.filter == DestinationOnly && q.limit == 10
            && |out.runs| == |candidates|
            && (forall i :: 0 <= i < |out.runs| ==>
                  out.runs[i] == CheckIfDocumentNeedsUpdateLegacy(BaseText(claimed.text), candidates[i], o.ask, o.generate, o.htmlDiff))
            && (out.answer.Ok? <==> forall i :: 0 <= i < |out.runs| ==> out.runs[i].result.Ok?)
            && (out.answer.Ok? ==> forall u :: u in out.answer.value <==>
                  exists i :: 0 <= i < |out.runs| && Yields(out.runs[i], u, (d: Document) => d.text, o.htmlDiff))
  {
    var out := RunUpdateForDocuments(v, t, id, o);
    CollectAllOrNothing(out.runs, (d: Document) => d.text, o.htmlDiff);
  }

  /** As written, a search that finds nothing makes every document a candidate, the claimed
      one included; with the intended lookup nothing is evaluated and the answer is empty. */
  lemma EmptySearchEvaluatesEveryDocumentAsWritten(t: Tables, id: string, o: Oracles, claimed: Document)
    requires ClaimDocument(t.documents, id).0 == Some(claimed)
    requires o.search(SearchFor(claimed.embedding, true)) == []
    ensures var docs := ClaimDocument(t.documents, id).1;
            var out := RunUpdateForDocuments(AsWritten, t, id, o);
            && |out.runs| == |t.documents|
            && forall i :: 0 <= i < |docs| ==>
                 out.runs[i] == CheckIfDocumentNeedsUpdateLegacy(BaseText(claimed.text), docs[i], o.ask, o.generate, o.htmlDiff)
    ensures RunUpdateForDocuments(Corrected, t, id, o).runs == []
    ensures RunUpdateForDocuments(Corrected, t, id, o).answer == Ok([])
  {
    var docs := ClaimDocument(t.documents, id).1;
    assert DocumentCandidates(AsWritten, docs, []) == docs;
    assert |DocumentCandidates(Corrected, docs, [])| == 0;
  }

  /** Since the base is a bare string, the prompts show its title and text as `undefined`. */
  lemma DocumentsPromptShowsUndefined(claimed: Document, doc: Document)
    ensures BaseTitle(BaseText(claimed.text)) == "undefined" && BaseBody(BaseText(claimed.text)) == "undefined"
    ensures LegacyPlanningMessages(BaseText(claimed.text), doc)[2] == User("Document1 with title \"" + "undefined" + "\":  " + "undefined")
    ensures LegacyActionMessages(BaseText(claimed.text), doc)[1] == User("DocumentB: " + "undefined")
  {
  }
}
