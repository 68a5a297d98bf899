/** FileEventListener: the upsert and delete handlers of the Kafka events.
    Each handler is modelled in two parts, as the source is written: the
    body of its try block, which reports how it ended, and the handler
    itself, which catches every failure of that body and returns normally. */
module Listener {
  import opened Wrappers
  import opened JavaStrings
  import opened Paths
  import opened Timestamps
  import opened Documents
  import opened FileParser
  import opened Persistence
  import opened KafkaConsumerConfig

  /** Why a handler's try block ends early. */
  datatype HandlerFailure =
    | Malformed                      // JsonProcessingException from readValue
    | Indexing(e: IndexingException) // IndexingException
    | Unexpected                     // any other exception: a null path component, an invalid path

  /** Instant.parse: the instant an ISO-8601 string denotes, or None for a
      DateTimeParseException. */
  type InstantParser = string -> Option<Instant>

  /** The file the upsert event points at:
      Paths.get(baseDir, targetRelativePath, targetFilename).normalize(). */
  function TargetPath(baseDir: string, event: FileUpsertEvent): Result<Path, PathError> {
    match Paths.Get(Some(baseDir), [event.targetRelativePath, event.targetFilename])
    case Err(e) => Err(e)
    case Ok(p) => Ok(Normalize(p))
  }

  /** The event time the document gets: set only when the event's string
      has text and parses. */
  function EventTime(eventTimestamp: Option<string>, parse: InstantParser): Option<Instant> {
    if eventTimestamp.Some? && HasText(eventTimestamp.value) && parse(eventTimestamp.value).Some? then
      parse(eventTimestamp.value)
    else None
  }

  /** The document the upsert handler builds, or why it stops before
      indexing. `event` is None when the message is not valid JSON for the
      event type. */
  function UpsertDocument(targetBaseDir: Option<string>, event: Option<FileUpsertEvent>, access: FileAccess,
                          tika: TikaOutcome, parse: InstantParser): Result<EsDocument, HandlerFailure>
  {
    if event.None? then Err(Malformed)
    else if targetBaseDir.None? || IsBlank(targetBaseDir.value) then Err(Indexing(BaseDirNotConfigured))
    else
      var ev := event.value;
      match TargetPath(targetBaseDir.value, ev)
      case Err(_) => Err(Unexpected)
      case Ok(target) =>
        match ParseFile(Some(target), access, tika)
        case Err(e) => Err(Indexing(e))
        case Ok(parsed) =>
          match Paths.Get(ev.sourceRelativePath, [ev.sourceFilename])
          case Err(_) => Err(Unexpected)
          case Ok(source) =>
            Ok(EsDocument(
              fileId := ev.elasticsearchDocumentId,
              content := parsed.content,
              filename := ev.sourceFilename,
              sourcePath := Some(ToString(source)),
              lastModified := Some(ev.targetFileLastModifiedEpochSeconds),
              title := parsed.title,
              author := parsed.author,
              fileSizeBytes := Some(ev.targetFileSizeBytes),
              eventTimestamp := EventTime(ev.eventTimestamp, parse)))
  }

  /** How the upsert try block ends. */
  function UpsertEventResult(targetBaseDir: Option<string>, event: Option<FileUpsertEvent>, access: FileAccess,
                        tika: TikaOutcome, parse: InstantParser, call: ClientCall): Result<(), HandlerFailure>
  {
    match UpsertDocument(targetBaseDir, event, access, tika, parse)
    case Err(f) => Err(f)
    case Ok(doc) =>
      match IndexDocumentResult(Some(doc), call)
      case Err(e) => Err(Indexing(e))
      case Ok(_) => Ok(())
  }

  /** The index after the upsert try block. */
  function UpsertIndexAfter(index: Index, targetBaseDir: Option<string>, event: Option<FileUpsertEvent>,
                            access: FileAccess, tika: TikaOutcome, parse: InstantParser, call: ClientCall): Index
  {
    match UpsertDocument(targetBaseDir, event, access, tika, parse)
    case Err(_) => index
    case Ok(doc) => IndexDocumentAfter(index, Some(doc), call)
  }

  /** How the delete try block ends: a null or blank id is acknowledged
      without touching the index; otherwise the outcome of deleteDocument,
      true or false alike, is acknowledged and its exceptions are not. */
  function DeleteEventResult(event: Option<FileDeleteEvent>, call: ClientCall): Result<(), HandlerFailure> {
    if event.None? then Err(Malformed)
    else
      var id := event.value.elasticsearchDocumentId;
      if id.None? || IsBlank(id.value) then Ok(())
      else match DeleteDocumentResult(id, call)
        case Err(e) => Err(Indexing(e))
        case Ok(_) => Ok(())
  }

  /** The index after the delete try block. */
  function DeleteIndexAfter(index: Index, event: Option<FileDeleteEvent>, call: ClientCall): Index {
    if event.None? then index
    else
      var id := event.value.elasticsearchDocumentId;
      if id.None? || IsBlank(id.value) then index
      else DeleteDocumentAfter(index, id, call)
  }

  /** The upsert target is the normalised join of the base dir and the
      event's relative path and name; a null component is an unexpected
      failure, caught like the others. */
  lemma TargetPathMeaning(baseDir: string, event: FileUpsertEvent)
    ensures event.targetRelativePath.None? || event.targetFilename.None? ==> TargetPath(baseDir, event).Err?
    ensures TargetPath(baseDir, event).Ok? ==>
              && Paths.Get(Some(baseDir), [event.targetRelativePath, event.targetFilename]).Ok?
              && TargetPath(baseDir, event).value == Normalize(Paths.Get(Some(baseDir), [event.targetRelativePath, event.targetFilename]).value)
              && "." !in TargetPath(baseDir, event).value.names
              && Normalize(TargetPath(baseDir, event).value) == TargetPath(baseDir, event).value
  {
    var more := [event.targetRelativePath, event.targetFilename];
    assert more[0] == event.targetRelativePath && more[1] == event.targetFilename;
    var g := Paths.Get(Some(baseDir), more);
    if g.Ok? {
      NormalizeProperties(g.value);
    }
  }

  /** The upsert document takes the event's id as it is (never a derived
      one), the source file's name, the source path joined from the event,
      the event's size and time, the parsed content, title and author; the
      event time is kept only when it has text and parses. */
  lemma UpsertDocumentFields(targetBaseDir: Option<string>, event: Option<FileUpsertEvent>, access: FileAccess,
                             tika: TikaOutcome, parse: InstantParser)
    requires UpsertDocument(targetBaseDir, event, access, tika, parse).Ok?
    ensures var doc := UpsertDocument(targetBaseDir, event, access, tika, parse).value;
            var ev := event.value;
            && targetBaseDir.Some? && HasText(targetBaseDir.value)
            && TargetPath(targetBaseDir.value, ev).Ok?
            && var parsed := ParseFile(Some(TargetPath(targetBaseDir.value, ev).value), access, tika);
            && parsed.Ok?
            && doc.fileId == ev.elasticsearchDocumentId
            && doc.content == parsed.value.content && doc.title == parsed.value.title && doc.author == parsed.value.author
            && doc.filename == ev.sourceFilename && ev.sourceFilename.Some?
            && doc.sourcePath == Some(ToString(Paths.Get(ev.sourceRelativePath, [ev.sourceFilename]).value))
            && doc.lastModified == Some(ev.targetFileLastModifiedEpochSeconds)
            && doc.fileSizeBytes == Some(ev.targetFileSizeBytes)
            && (doc.eventTimestamp.Some? <==>
                  ev.eventTimestamp.Some? && HasText(ev.eventTimestamp.value) && parse(ev.eventTimestamp.value).Some?)
            && (doc.eventTimestamp.Some? ==> doc.eventTimestamp == parse(ev.eventTimestamp.value))
  {
    var ev := event.value;
    assert !IsBlank(targetBaseDir.value);
    var i :| 0 <= i < |targetBaseDir.value| && !IsWhitespace(targetBaseDir.value[i]);
    var more := [ev.sourceFilename];
    assert more[0] == ev.sourceFilename;
  }

  /** The upsert try block succeeds only when the document it built has been
      stored under the event's id: acknowledgement follows the index write. */
  lemma UpsertAckAfterIndex(index: Index, targetBaseDir: Option<string>, event: Option<FileUpsertEvent>,
                            access: FileAccess, tika: TikaOutcome, parse: InstantParser, call: ClientCall)
    requires UpsertEventResult(targetBaseDir, event, access, tika, parse, call).Ok?
    ensures var doc := UpsertDocument(targetBaseDir, event, access, tika, parse).value;
            var after := UpsertIndexAfter(index, targetBaseDir, event, access, tika, parse, call);
            && call != ClientCall.Threw(false) && call != ClientCall.Threw(true)
            && event.value.elasticsearchDocumentId.Some?
            && after == index[event.value.elasticsearchDocumentId.value := doc]
  {
  }

  /** A failed upsert try block leaves the index as it was unless the client
      call itself failed after reaching the cluster. */
  lemma UpsertFailureLeavesIndex(index: Index, targetBaseDir: Option<string>, event: Option<FileUpsertEvent>,
                                 access: FileAccess, tika: TikaOutcome, parse: InstantParser, call: ClientCall)
    requires UpsertEventResult(targetBaseDir, event, access, tika, parse, call).Err?
    requires call != ClientCall.Threw(true)
    ensures UpsertIndexAfter(index, targetBaseDir, event, access, tika, parse, call) == index
  {
  }

  /** A delete with a null or blank id is acknowledged and changes nothing;
      otherwise it is acknowledged exactly when deleteDocument returns,
      whether it returned true or false. */
  lemma DeleteMeaning(index: Index, event: FileDeleteEvent, call: ClientCall)
    ensures var id := event.elasticsearchDocumentId;
            && (id.None? || IsBlank(id.value) ==>
                  DeleteEventResult(Some(event), call).Ok? && DeleteIndexAfter(index, Some(event), call) == index)
            && (id.Some? && !IsBlank(id.value) ==>
                  (DeleteEventResult(Some(event), call).Ok? <==> DeleteDocumentResult(id, call).Ok?))
            && (DeleteEventResult(Some(event), call).Ok? && call == Answered && id.Some? && !IsBlank(id.value) ==>
                  id.value !in DeleteIndexAfter(index, Some(event), call))
  {
  }

  /** The handler's blank check (Character.isWhitespace) and deleteDocument's
      (trim) disagree on control characters: an id made of U+0001 passes the
      first and is refused by the second, so the event is neither applied
      nor acknowledged. */
  lemma DeleteIdChecksDisagree(index: Index, id: string, call: ClientCall)
    requires id == "\U{0001}"
    ensures !IsBlank(id) && Trim(id) == ""
    ensures DeleteEventResult(Some(FileDeleteEvent(Some(id), None)), call) == Err(Indexing(MissingDocumentId))
    ensures DeleteIndexAfter(index, Some(FileDeleteEvent(Some(id), None)), call) == index
  {
    assert !IsWhitespace(id[0]);
    assert TrimStart(id) == TrimStart(id[1..]);
    assert id[1..] == [];
  }

  /** How the as-written handler's delivery ends for the container: it never
      throws, and it acknowledges exactly when its try block succeeded. */
  function SwallowingOutcome(r: Result<(), HandlerFailure>): ListenerOutcome {
    if r.Ok? then Acknowledged else ReturnedWithoutAck
  }

  /** How a handler that lets its try block's failure escape ends. */
  function ThrowingOutcome(r: Result<(), HandlerFailure>): ListenerOutcome {
    if r.Ok? then Acknowledged else ListenerOutcome.Threw
  }

  /** As written, a message whose first delivery fails (for an upsert: its
      target file is missing) is caught inside the handler: the container's
      retries and dead-letter publishing never run, and the record is
      neither acknowledged nor dead-lettered. */
  lemma SwallowedFailureIsAbandoned(names: TopicNames, b: FixedBackOff, record: ConsumerRecord,
                                    results: nat -> Result<(), HandlerFailure>)
    requires results(0).Err?
    ensures Dispose(names, b, record, (k: nat) => SwallowingOutcome(results(k)), 0) == Abandoned(1)
  {
  }

  /** The concrete case: an upsert for a file that is not there. */
  lemma MissingTargetFileIsAbandoned(names: TopicNames, b: FixedBackOff, record: ConsumerRecord,
                                     targetBaseDir: string, event: FileUpsertEvent, access: FileAccess,
                                     tika: TikaOutcome, parse: InstantParser, call: ClientCall)
    requires HasText(targetBaseDir)
    requires event.targetRelativePath.Some? && event.targetFilename.Some? && '\0' !in targetBaseDir
    requires '\0' !in event.targetRelativePath.value && '\0' !in event.targetFilename.value
    requires !access.present
    ensures UpsertEventResult(Some(targetBaseDir), Some(event), access, tika, parse, call) == Err(Indexing(FileNotReadable))
    ensures Dispose(names, b, record,
                    (k: nat) => SwallowingOutcome(UpsertEventResult(Some(targetBaseDir), Some(event), access, tika, parse, call)), 0)
            == Abandoned(1)
  {
    var i :| 0 <= i < |targetBaseDir| && !IsWhitespace(targetBaseDir[i]);
    var more := [event.targetRelativePath, event.targetFilename];
    var s := Concat(targetBaseDir, more);
    ConcatNoNul(targetBaseDir, more);
    assert Paths.Get(Some(targetBaseDir), more).Ok?;
  }

  /** A NUL-free base and NUL-free components give a NUL-free path string. */
  lemma {:induction false} ConcatNoNul(acc: string, more: seq<Option<string>>)
    requires '\0' !in acc
    requires forall i :: 0 <= i < |more| ==> more[i].Some? && '\0' !in more[i].value
    ensures Concat(acc, more).Some? && '\0' !in Concat(acc, more).value
    decreases |more|
  {
    if more != [] {
      var seg := more[0].value;
      var next := if seg == "" then acc else if acc == "" then seg else acc + "/" + seg;
      assert '\0' !in next;
      forall i | 0 <= i < |more[1..]| ensures more[1..][i].Some? && '\0' !in more[1..][i].value {
        assert more[1..][i] == more[i + 1];
      }
      ConcatNoNul(next, more[1..]);
    }
  }

  /** Corrected: when the handler lets its try block's failures escape,
      every record ends acknowledged after a successful delivery or, once
      every delivery failed, dead-lettered to its resolved destination, the
      headers function contributing its original headers. */
  lemma ThrowingHandlerNeverAbandons(names: TopicNames, b: FixedBackOff, record: ConsumerRecord,
                                     results: nat -> Result<(), HandlerFailure>)
    ensures var d := Dispose(names, b, record, (k: nat) => ThrowingOutcome(results(k)), 0);
            && !d.Abandoned?
            && (d.Committed? ==> results(d.deliveries - 1).Ok?)
            && (d.DeadLettered? <==> forall k :: 0 <= k < Deliveries(b) ==> results(k).Err?)
            && (d.DeadLettered? ==> d.destination == ResolveDestination(names, record) && d.addedHeaders == record.headers)
  {
    var outcome := (k: nat) => ThrowingOutcome(results(k));
    forall k: nat ensures outcome(k) != ReturnedWithoutAck && (outcome(k) == ListenerOutcome.Threw <==> results(k).Err?) {
      assert outcome(k) == ThrowingOutcome(results(k));
    }
    ThrowingListenerNeverAbandons(names, b, record, outcome, 0);
  }

  class FileEventListener {
    const gateway: PersistenceService
    /** dms.common.target-base-dir. */
    const targetBaseDir: Option<string>
    /** The records acknowledged so far, in order. */
    var acknowledged: seq<ConsumerRecord>

    constructor(gateway: PersistenceService, targetBaseDir: Option<string>)
      ensures this.gateway == gateway && this.targetBaseDir == targetBaseDir
      ensures acknowledged == []
    {
      this.gateway := gateway;
      this.targetBaseDir := targetBaseDir;
      acknowledged := [];
    }

    /** The upsert try block up to the index call: resolves the target
        file, parses it and builds the document to index. */
    method BuildDocument(event: Option<FileUpsertEvent>, access: FileAccess, tika: TikaOutcome,
                         parse: InstantParser) returns (r: Result<EsDocument, HandlerFailure>)
      ensures r == UpsertDocument(targetBaseDir, event, access, tika, parse)
    {
      if event.None? {
        return Err(Malformed);
      }
      var ev := event.value;
      if targetBaseDir.None? || IsBlank(targetBaseDir.value) {
        return Err(Indexing(BaseDirNotConfigured));
      }
      var target := TargetPath(targetBaseDir.value, ev);
      if target.Err? {
        return Err(Unexpected);
      }
      var parsed := ParseFile(Some(target.value), access, tika);
      if parsed.Err? {
        return Err(Indexing(parsed.error));
      }
      var source := Paths.Get(ev.sourceRelativePath, [ev.sourceFilename]);
      if source.Err? {
        return Err(Unexpected);
      }
      var esDoc := EsDocument(
        fileId := ev.elasticsearchDocumentId,
        content := parsed.value.content,
        filename := ev.sourceFilename,
        sourcePath := Some(ToString(source.value)),
        lastModified := Some(ev.targetFileLastModifiedEpochSeconds),
        title := parsed.value.title,
        author := parsed.value.author,
        fileSizeBytes := Some(ev.targetFileSizeBytes),
        eventTimestamp := None);
      if ev.eventTimestamp.Some? && HasText(ev.eventTimestamp.value) {
        var timestamp := parse(ev.eventTimestamp.value);
        if timestamp.Some? {
          esDoc := esDoc.(eventTimestamp := timestamp);
        }
      }
      return Ok(esDoc);
    }

    /** The try block of handleFileUpsertEvent, reporting how it ended. A
        listener built on it is the corrected handler: its failures reach
        the container's error handler. */
    method UpsertOrThrow(record: ConsumerRecord, event: Option<FileUpsertEvent>, access: FileAccess,
                         tika: TikaOutcome, parse: InstantParser, call: ClientCall)
      returns (r: Result<(), HandlerFailure>)
      modifies this, gateway
      ensures r == UpsertEventResult(targetBaseDir, event, access, tika, parse, call)
      ensures gateway.index == UpsertIndexAfter(old(gateway.index), targetBaseDir, event, access, tika, parse, call)
      ensures acknowledged == old(acknowledged) + (if r.Ok? then [record] else [])
    {
      var built := BuildDocument(event, access, tika, parse);
      if built.Err? {
        return Err(built.error);
      }
      var esDoc := built.value;
      var indexed := gateway.IndexDocument(Some(esDoc), call);
      if indexed.Err? {
        return Err(Indexing(indexed.error));
      }
      acknowledged := acknowledged + [record];
      return Ok(());
    }

    /** handleFileUpsertEvent as written: every failure of the try block is
        caught and logged; the handler always returns normally. */
    method HandleFileUpsertEvent(record: ConsumerRecord, event: Option<FileUpsertEvent>, access: FileAccess,
                                 tika: TikaOutcome, parse: InstantParser, call: ClientCall)
      modifies this, gateway
      ensures gateway.index == UpsertIndexAfter(old(gateway.index), targetBaseDir, event, access, tika, parse, call)
      ensures acknowledged == old(acknowledged) +
                (if UpsertEventResult(targetBaseDir, event, access, tika, parse, call).Ok? then [record] else [])
    {
      var r := UpsertOrThrow(record, event, access, tika, parse, call);
    }

    /** The try block of handleFileDeleteEvent, reporting how it ended. */
    method DeleteOrThrow(record: ConsumerRecord, event: Option<FileDeleteEvent>, call: ClientCall)
      returns (r: Result<(), HandlerFailure>)
      modifies this, gateway
      ensures r == DeleteEventResult(event, call)
      ensures gateway.index == DeleteIndexAfter(old(gateway.index), event, call)
      ensures acknowledged == old(acknowledged) + (if r.Ok? then [record] else [])
    {
      if event.None? {
        return Err(Malformed);
      }
      var id := event.value.elasticsearchDocumentId;
      if id.None? || IsBlank(id.value) {
        acknowledged := acknowledged + [record];
        return Ok(());
      }
      var deleted := gateway.DeleteDocument(id, call);
      if deleted.Err? {
        return Err(Indexing(deleted.error));
      }
      // true and false are both only logged
      acknowledged := acknowledged + [record];
      return Ok(());
    }

    /** handleFileDeleteEvent as written: every failure is caught and
        logged. */
    method HandleFileDeleteEvent(record: ConsumerRecord, event: Option<FileDeleteEvent>, call: ClientCall)
      modifies this, gateway
      ensures gateway.index == DeleteIndexAfter(old(gateway.index), event, call)
      ensures acknowledged == old(acknowledged) + (if DeleteEventResult(event, call).Ok? then [record] else [])
    {
      var r := DeleteOrThrow(record, event, call);
    }
  }
}
