/** ElasticsearchPersistenceService: index one document, delete one, index a
    list in bulk. The Elasticsearch index is a map from document id to
    document held by the service object; what the cluster answers is an
    input to each call. */
module Persistence {
  import opened Wrappers
  import opened JavaStrings
  import opened Documents

  /** The Result enum of the Elasticsearch Java client. */
  datatype EsResult = Created | Updated | Deleted | NotFound | NoOp

  /** How one client call ends: the cluster answers as it should, answers
      with a result the code does not expect, or the call throws. A call
      that throws (a timeout, say) may or may not have reached the cluster. */
  datatype ClientCall = Answered | AnsweredUnexpected | Threw(applied: bool)

  /** How a bulk call ends: the cluster answers with the positions of the
      operations that failed, or the call throws after the operations at
      `appliedItems` were carried out. */
  datatype BulkCall = BulkAnswered(failedItems: set<nat>) | BulkThrew(appliedItems: set<nat>)

  type Index = map<string, EsDocument>

  /** The result the cluster's index API reports for indexing `doc` under
      `id`: created for a new id, updated (with a new version) for an
      existing one, even when the stored document is identical. The index
      API never answers noop; only the update API's noop detection does. */
  function IndexResult(index: Index, id: string, doc: EsDocument): (r: EsResult)
    ensures r == Created <==> id !in index
    ensures r == Updated <==> id in index
    ensures r != NoOp
  {
    if id !in index then Created else Updated
  }

  /** The result the cluster reports for deleting `id`. */
  function DeleteResult(index: Index, id: string): (r: EsResult)
    ensures r == Deleted <==> id in index
    ensures r == Deleted || r == NotFound
  {
    if id in index then Deleted else NotFound
  }

  /** The document's id, when the document and its fileId are non-null. */
  predicate Indexable(document: Option<EsDocument>) {
    document.Some? && document.value.fileId.Some?
  }

  /** indexDocument's outcome: a null document or fileId is refused, a
      thrown client call becomes an IndexingException, and any answer
      (Created, Updated, or another) returns normally; the NoOp branch of
      the source is only logged and the index API does not reach it. */
  function IndexDocumentResult(document: Option<EsDocument>, call: ClientCall): Result<(), IndexingException> {
    if !Indexable(document) then Err(MissingDocumentId)
    else if call.Threw? then Err(ClientFailure)
    else Ok(())
  }

  /** The index after indexDocument: the whole document under its id,
      replacing what was there, whenever the request reached the cluster. */
  function IndexDocumentAfter(index: Index, document: Option<EsDocument>, call: ClientCall): Index {
    if !Indexable(document) || (call.Threw? && !call.applied) then index
    else index[document.value.fileId.value := document.value]
  }

  /** deleteDocument's precondition: `documentId == null ||
      documentId.trim().isEmpty()` is refused. */
  predicate DeletableId(documentId: Option<string>) {
    documentId.Some? && Trim(documentId.value) != ""
  }

  /** deleteDocument's outcome: true for Deleted and NotFound, false for any
      other answer. */
  function DeleteDocumentResult(documentId: Option<string>, call: ClientCall): Result<bool, IndexingException> {
    if !DeletableId(documentId) then Err(MissingDocumentId)
    else if call.Threw? then Err(ClientFailure)
    else Ok(call.Answered?)
  }

  /** The index after deleteDocument. */
  function DeleteDocumentAfter(index: Index, documentId: Option<string>, call: ClientCall): Index {
    if !DeletableId(documentId) || call.AnsweredUnexpected? || (call.Threw? && !call.applied) then index
    else index - {documentId.value}
  }

  /** The bulk request's operations: one (id, document) pair per non-null
      document with a non-null fileId, in list order. */
  function Operations(documents: seq<Option<EsDocument>>): (ops: seq<(string, EsDocument)>)
    ensures |ops| <= |documents|
  {
    if documents == [] then []
    else
      var last := documents[|documents| - 1];
      Operations(documents[..|documents| - 1]) + (if Indexable(last) then [(last.value.fileId.value, last.value)] else [])
  }

  /** The index after the cluster has carried out the operations in order,
      except those at the `failed` positions. */
  function ApplyOperations(index: Index, ops: seq<(string, EsDocument)>, failed: set<nat>): Index {
    if ops == [] then index
    else
      var prev := ApplyOperations(index, ops[..|ops| - 1], failed);
      if |ops| - 1 in failed then prev else prev[ops[|ops| - 1].0 := ops[|ops| - 1].1]
  }

  /** `result.errors()`: some operation of the request failed. */
  predicate HasErrors(ops: seq<(string, EsDocument)>, failed: set<nat>) {
    exists i :: 0 <= i < |ops| && i in failed
  }

  /** The positions of a request that a thrown bulk call did not carry out. */
  function NotApplied(ops: seq<(string, EsDocument)>, applied: set<nat>): set<nat> {
    set i | 0 <= i < |ops| && i !in applied
  }

  /** bulkIndexDocuments' outcome: true for a null or empty list or when no
      operation remains, otherwise false exactly when the response reports
      errors; a thrown call becomes an IndexingException. */
  function BulkResult(documents: Option<seq<Option<EsDocument>>>, call: BulkCall): Result<bool, IndexingException> {
    if documents.None? || documents.value == [] || Operations(documents.value) == [] then Ok(true)
    else match call
      case BulkAnswered(failed) => Ok(!HasErrors(Operations(documents.value), failed))
      case BulkThrew(_) => Err(ClientFailure)
  }

  /** The index after bulkIndexDocuments: operations that succeeded stay
      applied whatever happened to the others. */
  function BulkAfter(index: Index, documents: Option<seq<Option<EsDocument>>>, call: BulkCall): Index {
    if documents.None? || documents.value == [] then index
    else
      var ops := Operations(documents.value);
      if ops == [] then index
      else match call
        case BulkAnswered(failed) => ApplyOperations(index, ops, failed)
        case BulkThrew(applied) => ApplyOperations(index, ops, NotApplied(ops, applied))
  }

  /** A document reaches the request exactly when it is non-null with a
      non-null fileId, and then under that id. */
  lemma {:induction false} OperationsMembership(documents: seq<Option<EsDocument>>, id: string, doc: EsDocument)
    ensures (id, doc) in Operations(documents) <==> Some(doc) in documents && doc.fileId == Some(id)
  {
    if documents != [] {
      var init := documents[..|documents| - 1];
      OperationsMembership(init, id, doc);
      assert documents == init + [documents[|documents| - 1]];
    }
  }

  /** The request keeps list order: filtering a concatenation is the
      concatenation of the filtered parts. */
  lemma {:induction false} OperationsAppend(d1: seq<Option<EsDocument>>, d2: seq<Option<EsDocument>>)
    ensures Operations(d1 + d2) == Operations(d1) + Operations(d2)
  {
    if d2 != [] {
      var init := d2[..|d2| - 1];
      assert (d1 + d2)[..|d1 + d2| - 1] == d1 + init;
      assert (d1 + d2)[|d1 + d2| - 1] == d2[|d2| - 1];
      OperationsAppend(d1, init);
    } else {
      assert d1 + d2 == d1;
    }
  }

  /** After a bulk request the ids present are the previous ones plus the ids
      of the operations that succeeded: failed operations add nothing and
      successful ones are never undone. */
  lemma {:induction false} ApplyOperationsKeys(index: Index, ops: seq<(string, EsDocument)>, failed: set<nat>)
    ensures ApplyOperations(index, ops, failed).Keys ==
              index.Keys + set i | 0 <= i < |ops| && i !in failed :: ops[i].0
  {
    if ops != [] {
      var init := ops[..|ops| - 1];
      ApplyOperationsKeys(index, init, failed);
      var s := set i | 0 <= i < |ops| && i !in failed :: ops[i].0;
      var s0 := set i | 0 <= i < |init| && i !in failed :: init[i].0;
      forall x | x in s ensures x in s0 || (|ops| - 1 !in failed && x == ops[|ops| - 1].0) {
        var i :| 0 <= i < |ops| && i !in failed && ops[i].0 == x;
        if i < |init| {
          assert init[i] == ops[i];
        }
      }
      forall x | x in s0 ensures x in s {
        var i :| 0 <= i < |init| && i !in failed && init[i].0 == x;
        assert ops[i] == init[i];
      }
      if |ops| - 1 !in failed {
        assert ops[|ops| - 1].0 in s;
      }
    }
  }

  /** An id that no operation of the request carries keeps its document. */
  lemma {:induction false} ApplyOperationsElsewhere(index: Index, ops: seq<(string, EsDocument)>, failed: set<nat>, id: string)
    requires forall i :: 0 <= i < |ops| ==> ops[i].0 != id
    ensures id in ApplyOperations(index, ops, failed) <==> id in index
    ensures id in index ==> ApplyOperations(index, ops, failed)[id] == index[id]
  {
    if ops != [] {
      var init := ops[..|ops| - 1];
      forall i | 0 <= i < |init| ensures init[i].0 != id {
        assert init[i] == ops[i];
      }
      ApplyOperationsElsewhere(index, init, failed, id);
    }
  }

  /** Without errors and with distinct ids, every document of the request is
      stored under its id. */
  lemma {:induction false} ApplyOperationsStores(index: Index, ops: seq<(string, EsDocument)>, failed: set<nat>)
    requires !HasErrors(ops, failed)
    requires forall i, j :: 0 <= i < j < |ops| ==> ops[i].0 != ops[j].0
    ensures forall i :: 0 <= i < |ops| ==>
              ops[i].0 in ApplyOperations(index, ops, failed) && ApplyOperations(index, ops, failed)[ops[i].0] == ops[i].1
  {
    if ops != [] {
      var n := |ops| - 1;
      var init := ops[..n];
      assert !HasErrors(init, failed) by {
        forall i | 0 <= i < |init| ensures i !in failed {
          assert 0 <= i < |ops|;
        }
      }
      ApplyOperationsStores(index, init, failed);
      assert n !in failed;
      forall i | 0 <= i < |ops|
        ensures ops[i].0 in ApplyOperations(index, ops, failed) && ApplyOperations(index, ops, failed)[ops[i].0] == ops[i].1
      {
        if i < n {
          assert init[i] == ops[i];
          assert ops[i].0 != ops[n].0;
        }
      }
    }
  }

  /** bulkIndexDocuments returns false exactly when the cluster answered and
      reported a failed operation; an empty or fully filtered list returns
      true and leaves the index alone. */
  lemma BulkResultMeaning(index: Index, documents: Option<seq<Option<EsDocument>>>, call: BulkCall)
    ensures BulkResult(documents, call) == Ok(false) <==>
              documents.Some? && call.BulkAnswered? && HasErrors(Operations(documents.value), call.failedItems)
    ensures documents.None? || Operations(documents.value) == [] ==>
              BulkResult(documents, call) == Ok(true) && BulkAfter(index, documents, call) == index
  {
    if documents.Some? && call.BulkAnswered? && HasErrors(Operations(documents.value), call.failedItems) {
      assert Operations(documents.value) != [];
      assert documents.value != [];
    }
  }

  /** How bulkIndexDocuments as written fails: an IndexingException from
      its catch blocks, or an exception that escapes unwrapped because it is
      raised before the try block. */
  datatype BulkFailure =
    | Wrapped(cause: IndexingException)
    | UnwrappedBuildFailure  // build() of a request with no operation: a required property is missing

  /** bulkIndexDocuments as written. The request builder is built at line
      179 for the emptiness check, before the try block, and built again at
      line 185 for the bulk call. A builder with no operation cannot be
      built (`operations` is a required property), so a non-empty list
      without a single id fails unwrapped at the first build. A client's
      builders are single-use, so with an operation the second build throws
      IllegalStateException, which the generic catch turns into an
      IndexingException. Either way the bulk API is never called. */
  function BulkResultAsWritten(documents: Option<seq<Option<EsDocument>>>): (r: Result<bool, BulkFailure>)
    ensures r.Err? <==> documents.Some? && documents.value != []
    ensures r.Ok? ==> r.value
    ensures r.Err? ==> (r.error == UnwrappedBuildFailure <==> Operations(documents.value) == [])
    ensures r.Err? && Operations(documents.value) != [] ==> r.error == Wrapped(ClientFailure)
  {
    if documents.None? || documents.value == [] then Ok(true)
    else if Operations(documents.value) == [] then Err(UnwrappedBuildFailure)
    else Err(Wrapped(ClientFailure))
  }

  /** Operations that all failed leave the index as it was. */
  lemma {:induction false} ApplyNothing(index: Index, ops: seq<(string, EsDocument)>, failed: set<nat>)
    requires forall i :: 0 <= i < |ops| ==> i in failed
    ensures ApplyOperations(index, ops, failed) == index
  {
    if ops != [] {
      ApplyNothing(index, ops[..|ops| - 1], failed);
    }
  }

  /** As written, bulkIndexDocuments fails on every non-empty list, whatever
      the cluster would have answered, and the cluster is never reached.
      With an operation it fails exactly like the corrected call when the
      client throws before carrying out any operation: an IndexingException,
      and the index left alone. Without one the corrected call answers true,
      and the code as written throws unwrapped. */
  lemma BulkAsWrittenNeverSends(index: Index, documents: Option<seq<Option<EsDocument>>>)
    ensures BulkResultAsWritten(documents).Err? <==> documents.Some? && documents.value != []
    ensures documents.Some? && Operations(documents.value) != [] ==>
              && BulkResultAsWritten(documents) == Err(Wrapped(ClientFailure))
              && BulkResult(documents, BulkThrew({})) == Err(ClientFailure)
    ensures documents.Some? && documents.value != [] && Operations(documents.value) == [] ==>
              && BulkResultAsWritten(documents) == Err(UnwrappedBuildFailure)
              && forall call :: BulkResult(documents, call) == Ok(true)
    ensures BulkAfter(index, documents, BulkThrew({})) == index
  {
    if documents.Some? && documents.value != [] {
      var ops := Operations(documents.value);
      ApplyNothing(index, ops, NotApplied(ops, {}));
    }
  }

  /** A single document with an id, which the cluster would index without
      error, makes the call as written fail with a wrapped exception. */
  lemma SecondBuildFailsOneDocument(doc: EsDocument)
    requires doc.fileId.Some?
    ensures BulkResult(Some([Some(doc)]), BulkAnswered({})) == Ok(true)
    ensures BulkResultAsWritten(Some([Some(doc)])) == Err(Wrapped(ClientFailure))
  {
    assert [Some(doc)][..0] == [];
    assert Operations([Some(doc)]) == [(doc.fileId.value, doc)];
  }

  /** A list whose only document has no id: the corrected call answers true
      without calling the cluster, and the code as written fails at the
      first build, outside the try block. */
  lemma FirstBuildFailsWithoutIds(doc: Option<EsDocument>)
    requires doc.None? || doc.value.fileId.None?
    ensures BulkResult(Some([doc]), BulkAnswered({})) == Ok(true)
    ensures BulkResultAsWritten(Some([doc])) == Err(UnwrappedBuildFailure)
  {
    assert [doc][..0] == [];
    assert Operations([doc]) == [];
  }

  /** Indexing the same document twice leaves the index as indexing it once;
      the second call is reported as an update, not a no-op. */
  lemma IndexIdempotent(index: Index, doc: EsDocument, call: ClientCall)
    requires call.Answered?
    ensures var once := IndexDocumentAfter(index, Some(doc), call);
            IndexDocumentAfter(once, Some(doc), call) == once
            && (doc.fileId.Some? ==> IndexResult(once, doc.fileId.value, doc) == Updated)
  {
  }

  /** A delete that returns true leaves the id absent, whether the document
      was there (Deleted) or not (NotFound); deleting again changes nothing. */
  lemma DeleteIdempotent(index: Index, id: string, call: ClientCall)
    requires DeleteDocumentResult(Some(id), call) == Ok(true)
    ensures var after := DeleteDocumentAfter(index, Some(id), call);
            && id !in after
            && DeleteDocumentAfter(after, Some(id), call) == after
            && DeleteResult(after, id) == NotFound
  {
  }

  class PersistenceService {
    /** The documents of the configured index, by _id. */
    var index: Index

    constructor(initial: Index)
      ensures index == initial
    {
      index := initial;
    }

    /** indexDocument. */
    method IndexDocument(document: Option<EsDocument>, call: ClientCall) returns (r: Result<(), IndexingException>)
      modifies this
      ensures r == IndexDocumentResult(document, call)
      ensures index == IndexDocumentAfter(old(index), document, call)
    {
      if document.None? || document.value.fileId.None? {
        return Err(MissingDocumentId);
      }
      var id := document.value.fileId.value;
      match call {
        case Threw(applied) =>
          if applied {
            index := index[id := document.value];
          }
          return Err(ClientFailure);
        case _ =>
          index := index[id := document.value];
          // the response's result (created, updated or anything else) is only logged
          return Ok(());
      }
    }

    /** deleteDocument. */
    method DeleteDocument(documentId: Option<string>, call: ClientCall) returns (r: Result<bool, IndexingException>)
      modifies this
      ensures r == DeleteDocumentResult(documentId, call)
      ensures index == DeleteDocumentAfter(old(index), documentId, call)
    {
      if documentId.None? || Trim(documentId.value) == "" {
        return Err(MissingDocumentId);
      }
      var id := documentId.value;
      match call {
        case Threw(applied) =>
          if applied {
            index := index - {id};
          }
          return Err(ClientFailure);
        case AnsweredUnexpected =>
          return Ok(false);
        case Answered =>
          var result := DeleteResult(index, id);
          index := index - {id};
          return Ok(result == Deleted || result == NotFound);
      }
    }

    /** bulkIndexDocuments, corrected: the emptiness check looks at the
        collected operations instead of building the request, and the
        request is built once, for the bulk call. The filtering loop collects
        the operations and the cluster then carries them out.
        BulkResultAsWritten gives the code as written. */
    method BulkIndexDocuments(documents: Option<seq<Option<EsDocument>>>, call: BulkCall) returns (r: Result<bool, IndexingException>)
      modifies this
      ensures r == BulkResult(documents, call)
      ensures index == BulkAfter(old(index), documents, call)
    {
      if documents.None? || documents.value == [] {
        return Ok(true);
      }
      var docs := documents.value;
      var ops: seq<(string, EsDocument)> := [];
      for i := 0 to |docs|
        invariant ops == Operations(docs[..i])
      {
        assert docs[..i + 1][..i] == docs[..i];
        if docs[i].Some? && docs[i].value.fileId.Some? {
          ops := ops + [(docs[i].value.fileId.value, docs[i].value)];
        }
      }
      assert docs[..|docs|] == docs;
      if ops == [] {
        return Ok(true);
      }
      match call {
        case BulkThrew(applied) =>
          index := ApplyOperations(index, ops, NotApplied(ops, applied));
          return Err(ClientFailure);
        case BulkAnswered(failed) =>
          index := ApplyOperations(index, ops, failed);
          var allSucceeded := true;
          if HasErrors(ops, failed) {
            allSucceeded := false;
          }
          return Ok(allSucceeded);
      }
    }
  }
}
