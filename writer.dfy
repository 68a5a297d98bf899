/** ElasticsearchBulkItemWriter.write: each chunk of documents goes to the
    gateway's bulk operation. */
module Writer {
  import opened Wrappers
  import opened Documents
  import opened Persistence

  /** The chunk's items as the list bulkIndexDocuments receives. */
  function AsList(chunk: seq<EsDocument>): (l: seq<Option<EsDocument>>)
    ensures |l| == |chunk|
    ensures forall i :: 0 <= i < |chunk| ==> l[i] == Some(chunk[i])
  {
    seq(|chunk|, i requires 0 <= i < |chunk| => Some(chunk[i]))
  }

  /** What write does with a chunk: an empty one is ignored, a partial
      failure (false) is only logged, an exception is passed on unchanged. */
  function WriteResult(chunk: seq<EsDocument>, call: BulkCall): Result<(), IndexingException> {
    if chunk == [] then Ok(())
    else match BulkResult(Some(AsList(chunk)), call)
      case Ok(_) => Ok(())
      case Err(e) => Err(e)
  }

  /** The chunk is written as a whole, in order: its request is the chunk's
      documents with a non-null fileId, and it fails only when the client
      throws, not when items fail. */
  lemma WriteMeaning(chunk: seq<EsDocument>, call: BulkCall)
    ensures WriteResult(chunk, call).Err? <==>
              Operations(AsList(chunk)) != [] && call.BulkThrew?
    ensures forall id, doc :: (id, doc) in Operations(AsList(chunk)) <==> doc in chunk && doc.fileId == Some(id)
  {
    forall id, doc ensures (id, doc) in Operations(AsList(chunk)) <==> doc in chunk && doc.fileId == Some(id) {
      OperationsMembership(AsList(chunk), id, doc);
      if doc in chunk {
        var i :| 0 <= i < |chunk| && chunk[i] == doc;
        assert AsList(chunk)[i] == Some(doc);
      }
    }
    if Operations(AsList(chunk)) != [] {
      assert AsList(chunk) != [];
    }
  }

  class BulkItemWriter {
    const gateway: PersistenceService

    constructor(gateway: PersistenceService)
      ensures this.gateway == gateway
    {
      this.gateway := gateway;
    }

    /** write(chunk). */
    method Write(chunk: seq<EsDocument>, call: BulkCall) returns (r: Result<(), IndexingException>)
      modifies gateway
      ensures r == WriteResult(chunk, call)
      ensures chunk == [] ==> gateway.index == old(gateway.index)
      ensures chunk != [] ==> gateway.index == BulkAfter(old(gateway.index), Some(AsList(chunk)), call)
    {
      if chunk == [] {
        return Ok(());
      }
      var success := gateway.BulkIndexDocuments(Some(AsList(chunk)), call);
      if success.Err? {
        return Err(success.error);
      }
      // a false result is logged and the chunk still counts as written
      return Ok(());
    }
  }
}
