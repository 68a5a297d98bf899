# EIS indexer: the document-synchronisation pipeline in Dafny

This project models the part of the EIS indexer (a Spring Boot service) that
keeps an Elasticsearch index in step with a directory of files. It has two
paths.

- **Streaming.** Kafka upsert and delete events are handled by
  `FileEventListener`. Each event is decoded and validated, the target file
  is resolved and parsed, and the index is written. The record is
  acknowledged only after that write. `KafkaConsumerConfig` decides where a
  failed record is dead-lettered and how often it is redelivered.
- **Batch backfill.** `DirectoryScanningItemReader` scans the base directory
  into a resumable cursor. `FileToEsDocumentProcessor` turns each path into
  a document or skips it. `ElasticsearchBulkItemWriter` hands each chunk to
  the gateway's bulk method, and the reader's checkpoint lets a restarted
  job resume. As written, the bulk method fails before the request reaches
  the cluster whenever the chunk holds a document, so every such chunk
  fails (see Findings). The model proves this and models the intended
  single submission.

Both paths share these pieces:

- the id generator (SHA-256 of the absolute path, rendered as lower-case
  hex, or a random UUID as fallback);
- the parser's result shaping (trimmed content, title and author fallback
  chains, the empty result);
- the document record and its null-omitting JSON mapping;
- the persistence gateway.

Everything outside the code is a parameter of the model:

- SHA-256 and the random UUID bytes;
- what Tika extracts;
- file existence, readability and attributes;
- the directory walk;
- the Elasticsearch client's replies;
- `Instant.parse`, `Instant.now()` and the working directory.

Classes whose fields the source updates are Dafny classes:

- the gateway, holding the index as a `map` from id to document;
- the reader, holding `filePaths` and `currentIndex`;
- the execution context;
- the listener, holding an acknowledgement log;
- the writer.

Each method is specified by a pure function of the old state. The
properties are proved about those functions.

Java library behaviour the code depends on is written out in helper modules:

- `JavaStrings`: `String.trim` (cuts characters `<= ' '`), `isBlank` and
  `StringUtils.hasText` (`Character.isWhitespace`), `toLowerCase`, and
  `split` (which drops trailing empty strings).
- `Paths`: `Paths.get`, `normalize`, `toAbsolutePath` and `getFileName` on
  Unix paths.
- `Utf8`: UTF-8 encoding over signed Java bytes.
- `Timestamps`: the `yyyy-MM-dd'T'HH:mm:ss.SSS'Z'` rendering.

## Where the code and the design disagree

The model follows the code in each of these cases.

- **Handler failures.** The design dead-letters undecodable messages
  directly, and retries then dead-letters resolution, extraction and
  persistence failures. In the code, both listener handlers catch every
  exception and return normally without acknowledging. The container's
  retry and dead-letter machinery therefore never runs (see Findings).
- **Partial bulk failures.** The design treats a partially failed bulk
  write as a failure the caller may retry. In the intended bulk method, the
  writer only logs it, and the chunk counts as written. As written, a bulk
  request never reaches the cluster, so this case does not arise (see
  Findings).
- **Unknown topics.** A record from an unknown topic is routed to the fixed
  topic `unknown-source-topic-dlq`, as the code does.

## Model

| member | source | states |
|---|---|---|
| IdGenerator.HexString | src/main/java/org/ls/indexer/util/ElasticsearchIdGenerator.java:44-54 | the StringBuilder loop over the digest bytes builds exactly the two-characters-per-byte rendering |
| IdGenerator.PaddedByteHex | src/main/java/org/ls/indexer/util/ElasticsearchIdGenerator.java:47-51 | `toHexString(0xff & b)`, zero-padded when it is one character, is the two-digit lower-case rendering of the byte |
| IdGenerator.HexEncodeShape | src/main/java/org/ls/indexer/util/ElasticsearchIdGenerator.java:45-52 | the rendering is `2 * digest.length` characters, all in `[0-9a-f]`, byte k giving characters 2k and 2k+1 |
| IdGenerator.HexRoundTrip | src/main/java/org/ls/indexer/util/ElasticsearchIdGenerator.java:45-52 | decoding the hex string gives back the digest bytes |
| IdGenerator.HexEncodeInjective | src/main/java/org/ls/indexer/util/ElasticsearchIdGenerator.java:45-52 | distinct digests give distinct ids |
| IdGenerator.GenerateIdFromFilePath | src/main/java/org/ls/indexer/util/ElasticsearchIdGenerator.java:33-60 | the id is the hex SHA-256 of the UTF-8 absolute path string; a null path or a missing algorithm falls back to the generic id |
| IdGenerator.DerivedIdShape | src/main/java/org/ls/indexer/util/ElasticsearchIdGenerator.java:40-54 | a path-derived id is 64 hex characters and depends only on the absolute path |
| IdGenerator.GenericIdShape | src/main/java/org/ls/indexer/util/ElasticsearchIdGenerator.java:68-72 | a generic id has the random UUID layout: 36 characters, dashes at 8, 13, 18 and 23, version 4, variant 8..b |
| IdGenerator.FallbackNeverCollides | src/main/java/org/ls/indexer/util/ElasticsearchIdGenerator.java:34-37 | a fallback id (null path or missing algorithm) never equals a path-derived id |
| IdGenerator.SameIdMeansSamePathOrCollision | src/main/java/org/ls/indexer/util/ElasticsearchIdGenerator.java:40-42 | two paths get the same id only if their absolute paths are equal or their UTF-8 encodings collide under SHA-256 |
| Utf8.DecodeEncode | src/main/java/org/ls/indexer/util/ElasticsearchIdGenerator.java:42 | `getBytes(UTF_8)` decodes back to the string's code points |
| Utf8.EncodeInjective | src/main/java/org/ls/indexer/util/ElasticsearchIdGenerator.java:42 | distinct path strings have distinct UTF-8 encodings |
| IndexerProperties.CollectExtensionsIff | src/main/java/org/ls/indexer/config/properties/IndexerProperties.java:41-45 | a string is collected exactly when some token, trimmed and lower-cased, equals it and it is non-empty and starts with "." |
| IndexerProperties.SupportedExtensionsMembership | src/main/java/org/ls/indexer/config/properties/IndexerProperties.java:37-46 | a null or blank property gives the empty set; otherwise membership is as above over the comma-split tokens |
| IndexerProperties.SupportedExtensionsWellFormed | src/main/java/org/ls/indexer/config/properties/IndexerProperties.java:42-44 | every element is trimmed, lower-case, non-empty and starts with "." |
| IndexerProperties.CollectExtensionsIgnoresOrderAndDuplicates | src/main/java/org/ls/indexer/config/properties/IndexerProperties.java:45 | the result is a set: token order and repetition do not matter |
| IndexerProperties.DefaultSupportedExtensionsSet | src/main/java/org/ls/indexer/config/properties/IndexerProperties.java:29-46 | the default ".txt,.pdf,.docx" gives {".txt", ".pdf", ".docx"} |
| JavaStrings.Split | src/main/java/org/ls/indexer/config/properties/IndexerProperties.java:41 | `split(",")` gives the separator-free fields with the trailing empty ones dropped, or the whole string when it has no separator |
| JavaStrings.FieldsJoin | src/main/java/org/ls/indexer/config/properties/IndexerProperties.java:41 | the fields contain no separator and joining them gives back the string |
| JavaStrings.TrimSlice | src/main/java/org/ls/indexer/service/FileParserService.java:73 | `trim()` is a contiguous slice with no character `<= ' '` at either end, and everything cut off is `<= ' '` |
| JavaStrings.TrimEmptyIff | src/main/java/org/ls/indexer/service/ElasticsearchPersistenceService.java:112 | `trim().isEmpty()` holds exactly when every character is `<= ' '` |
| JavaStrings.LowerCaseProperties | src/main/java/org/ls/indexer/config/properties/IndexerProperties.java:43 | `toLowerCase` gives a lower-case string, is idempotent and keeps a trimmed string trimmed |
| Paths.Get | src/main/java/org/ls/indexer/kafka/FileEventListener.java:97-100 | `Paths.get` with a null component is a NullPointerException |
| Paths.Parse | src/main/java/org/ls/indexer/batch/DirectoryScanningItemReader.java:72 | parsing a path string fails exactly on a NUL character, and the path is absolute exactly when the string starts with "/" |
| Paths.NormalizeProperties | src/main/java/org/ls/indexer/kafka/FileEventListener.java:97-101 | `normalize()` keeps absoluteness, removes every ".", leaves no ".." in an absolute path, and is idempotent |
| Paths.ParseToString | src/main/java/org/ls/indexer/batch/FileToEsDocumentProcessor.java:105 | a path's string form parses back to the same path |
| Paths.ToStringInjective | src/main/java/org/ls/indexer/batch/FileToEsDocumentProcessor.java:105 | distinct paths have distinct string forms |
| Paths.FileName | src/main/java/org/ls/indexer/batch/FileToEsDocumentProcessor.java:104 | `getFileName()` is the last name, and null exactly for the root |
| Paths.ToAbsolute | src/main/java/org/ls/indexer/util/ElasticsearchIdGenerator.java:40 | `toAbsolutePath()` is absolute, leaves an absolute path alone and prefixes a relative one with the working directory |
| Documents.SerializeOmitsNulls | src/main/java/org/ls/indexer/dto/EsDocumentDto.java:31-103 | the JSON object uses only the nine fixed keys, a key is present exactly when its field is non-null, and no two members share a key |
| Documents.LookupSerialize | src/main/java/org/ls/indexer/dto/EsDocumentDto.java:38-101 | each key maps to its own field's value (file_id, content, filename, source_path, last_modified, title, author, file_size_bytes, event_timestamp) |
| Documents.SerializeRoundTrip | src/main/java/org/ls/indexer/dto/EsDocumentDto.java:31-103 | reading the JSON back gives the document, with the event time truncated to milliseconds |
| Documents.OmitNullsMembers | src/main/java/org/ls/indexer/dto/EsDocumentDto.java:31 | every emitted member comes from a non-null field |
| Timestamps.FormatRoundTrip | src/main/java/org/ls/indexer/dto/EsDocumentDto.java:101-103 | the `yyyy-MM-dd'T'HH:mm:ss.SSS'Z'` UTC rendering parses back to the instant's calendar fields, which denote the instant truncated to milliseconds |
| Timestamps.FormatDateTimeRoundTrip | src/main/java/org/ls/indexer/dto/EsDocumentDto.java:101-103 | for years 1..9999 the rendering of calendar fields parses back to the same fields |
| Timestamps.ToDateTimeSound | src/main/java/org/ls/indexer/dto/EsDocumentDto.java:101-103 | the UTC calendar fields of an instant denote its epoch milliseconds |
| Timestamps.YearOfEraAmbiguity | src/main/java/org/ls/indexer/dto/EsDocumentDto.java:102 | the pattern's `yyyy` is the year of era, so a year <= 0 renders like year 1 - y |
| FileParser.TrimmedOrNull | src/main/java/org/ls/indexer/service/FileParserService.java:110 | `v != null ? v.trim() : null` |
| FileParser.TitleIsTikaTitle | src/main/java/org/ls/indexer/service/FileParserService.java:100-111 | the title is the trimmed `dc:title` value, and null when that key is absent (TITLE and the fallback are the same key) |
| FileParser.AuthorIsFirstNonEmpty | src/main/java/org/ls/indexer/service/FileParserService.java:113-127 | the author is the first non-empty value among CREATOR, "author", Office.AUTHOR and "dc:creator", trimmed; with none, it is "" if CREATOR is present and empty, else null |
| FileParser.FirstNonEmpty | src/main/java/org/ls/indexer/service/FileParserService.java:113-124 | the reference fallback chain yields only non-empty values |
| FileParser.ParseFileRejects | src/main/java/org/ls/indexer/service/FileParserService.java:59-62 | a null, missing or unreadable path is rejected before Tika runs; every Tika failure is an IndexingException |
| FileParser.ParseFileResult | src/main/java/org/ls/indexer/service/FileParserService.java:73-86 | the content is the trimmed text; the result is emptyResult exactly when the content is empty and title and author are null |
| Processor.ProcessSkips | src/main/java/org/ls/indexer/batch/FileToEsDocumentProcessor.java:66-130 | a path is skipped exactly when it is null, parsing fails, the content is null or empty, or the attributes cannot be read; nothing escapes |
| Processor.ProcessEmits | src/main/java/org/ls/indexer/batch/FileToEsDocumentProcessor.java:85-111 | the document has the path-derived id, the file name, the absolute path, the attributes, the parsed fields and the clock value |
| Processor.ProcessIdIsPathDerived | src/main/java/org/ls/indexer/batch/FileToEsDocumentProcessor.java:85 | paths with the same absolute path get the same 64-hex-character id |
| Persistence.PersistenceService.IndexDocument | src/main/java/org/ls/indexer/service/ElasticsearchPersistenceService.java:51-102 | a null document or fileId is refused; otherwise the whole document is stored under its id; a client exception becomes an IndexingException |
| Persistence.PersistenceService.DeleteDocument | src/main/java/org/ls/indexer/service/ElasticsearchPersistenceService.java:111-145 | a null or trim-empty id is refused; Deleted and NotFound give true, other answers false; a client exception becomes an IndexingException |
| Persistence.PersistenceService.BulkIndexDocuments | src/main/java/org/ls/indexer/service/ElasticsearchPersistenceService.java:154-222 | corrected (the emptiness check looks at the collected operations and the request is built once, for the call): the loop collects one operation per document with a non-null id, in order; the index and the result are as the bulk reply says |
| Persistence.BulkResultAsWritten | src/main/java/org/ls/indexer/service/ElasticsearchPersistenceService.java:154-185 | as written, every non-empty list fails and only a null or empty list gives true: without an id the first build fails unwrapped, before the try block; with one the second build fails and is wrapped into an IndexingException |
| Persistence.BulkAsWrittenNeverSends | src/main/java/org/ls/indexer/service/ElasticsearchPersistenceService.java:179-185 | as written, the call fails exactly on a non-empty list; with an operation it fails like a client exception raised before anything was sent (an IndexingException, the index unchanged); without one the corrected call answers true where the code throws unwrapped |
| Persistence.SecondBuildFailsOneDocument | src/main/java/org/ls/indexer/service/ElasticsearchPersistenceService.java:179-185 | one document with an id, which the cluster would index without error, fails as written with a wrapped exception and succeeds in the corrected call |
| Persistence.FirstBuildFailsWithoutIds | src/main/java/org/ls/indexer/service/ElasticsearchPersistenceService.java:165-179 | a list whose only document is null or has no id fails as written at the first build, outside the try block, where the corrected call answers true |
| Persistence.IndexIdempotent | src/main/java/org/ls/indexer/service/ElasticsearchPersistenceService.java:61-79 | repeating an index call changes nothing, and the second call is reported as an update of the existing id, not as a no-op |
| Persistence.DeleteIdempotent | src/main/java/org/ls/indexer/service/ElasticsearchPersistenceService.java:126-133 | after a true delete the id is absent, and deleting it again changes nothing and answers NotFound |
| Persistence.OperationsMembership | src/main/java/org/ls/indexer/service/ElasticsearchPersistenceService.java:165-177 | an (id, document) pair is submitted exactly when the document is in the list with that non-null fileId |
| Persistence.OperationsAppend | src/main/java/org/ls/indexer/service/ElasticsearchPersistenceService.java:165-177 | the operations keep the list order |
| Persistence.ApplyOperationsKeys | src/main/java/org/ls/indexer/service/ElasticsearchPersistenceService.java:184-213 | after a bulk call the index holds the old keys plus the ids of the items that did not fail |
| Persistence.ApplyOperationsElsewhere | src/main/java/org/ls/indexer/service/ElasticsearchPersistenceService.java:184-213 | ids outside the request are untouched |
| Persistence.ApplyOperationsStores | src/main/java/org/ls/indexer/service/ElasticsearchPersistenceService.java:184-213 | with no item errors and distinct ids, every document is stored under its id |
| Persistence.BulkResultMeaning | src/main/java/org/ls/indexer/service/ElasticsearchPersistenceService.java:154-213 | in the corrected call, the result is false exactly when the reply reports item errors; a null list, an empty list or one with no ids gives true and leaves the index alone (as written, only the first two do) |
| Writer.BulkItemWriter.Write | src/main/java/org/ls/indexer/batch/ElasticsearchBulkItemWriter.java:39-78 | an empty chunk leaves the index alone; otherwise the chunk goes whole to the bulk call and only its exceptions are passed on |
| Writer.AsList | src/main/java/org/ls/indexer/batch/ElasticsearchBulkItemWriter.java:60 | the list handed to the gateway is the chunk's items, in order |
| BatchStep.AsWrittenChunkFails | src/main/java/org/ls/indexer/batch/ElasticsearchBulkItemWriter.java:61-77 | as written, every chunk in which the processor emits a document fails in the writer with the index unchanged, so its checkpoint is never written |
| Writer.WriteMeaning | src/main/java/org/ls/indexer/batch/ElasticsearchBulkItemWriter.java:45-77 | write fails exactly when the bulk call throws on a request with operations; the request holds exactly the chunk's documents with a non-null id |
| Reader.ExecutionContext.PutInt | src/main/java/org/ls/indexer/batch/DirectoryScanningItemReader.java:136 | putInt stores the value under the key and changes nothing else |
| Reader.DirectoryScanningItemReader.Open | src/main/java/org/ls/indexer/batch/DirectoryScanningItemReader.java:60-107 | open clears the list and index, then scans and restores the stored index as the open specification says |
| Reader.DirectoryScanningItemReader.Read | src/main/java/org/ls/indexer/batch/DirectoryScanningItemReader.java:116-125 | read returns `filePaths[index]` and increments the index, or returns null at the end and changes nothing |
| Reader.DirectoryScanningItemReader.Update | src/main/java/org/ls/indexer/batch/DirectoryScanningItemReader.java:134-138 | update writes the current index under `directory.scan.current.index` and leaves the reader as it is |
| Reader.DirectoryScanningItemReader.Close | src/main/java/org/ls/indexer/batch/DirectoryScanningItemReader.java:146-150 | close empties the list and resets the index to 0 |
| Reader.OpenMeaning | src/main/java/org/ls/indexer/batch/DirectoryScanningItemReader.java:60-107 | an unconfigured, missing or non-directory base dir, or an empty extension set, leaves an empty list at 0 and read returns null; a successful scan keeps the supported regular files and restores the stored index; open fails only on an invalid base dir or a failing walk |
| Reader.ScannedMembership | src/main/java/org/ls/indexer/batch/DirectoryScanningItemReader.java:86-93 | a path is listed exactly when the walk produced it as a regular file whose lower-cased name ends with a supported extension |
| Reader.ScannedAppend | src/main/java/org/ls/indexer/batch/DirectoryScanningItemReader.java:86-93 | the list keeps the walk order |
| Reader.ReadManyConsecutive | src/main/java/org/ls/indexer/batch/DirectoryScanningItemReader.java:117-118 | successive reads from inside the list return consecutive positions in list order, advancing the index by one each |
| Reader.ReadManyBounded | src/main/java/org/ls/indexer/batch/DirectoryScanningItemReader.java:117-124 | an index at or below the list size never passes it and never decreases, and the list never changes |
| Reader.ResumeAfterUpdate | src/main/java/org/ls/indexer/batch/DirectoryScanningItemReader.java:98-101 | reopening over the same walk after update restores exactly the checkpointed state |
| BatchStep.RunChunk | src/main/java/org/ls/indexer/config/BatchConfig.java:142-157 | one chunk reads up to chunk-size items, processes, writes, and only on success checkpoints the cursor |
| BatchStep.ProcessAllMeaning | src/main/java/org/ls/indexer/batch/FileToEsDocumentProcessor.java:66-130 | the chunk reaches the writer exactly when process throws on no item, and carries exactly the documents process emits |
| BatchStep.ProcessAllNeverFails | src/main/java/org/ls/indexer/batch/FileToEsDocumentProcessor.java:117-129 | no item makes process throw, so every chunk read reaches the writer, with at most one document per item |
| BatchStep.ChunkWindow | src/main/java/org/ls/indexer/batch/DirectoryScanningItemReader.java:116-125 | a chunk from a cursor inside the list reads the next chunk-size paths, or the rest of the list, and the cursor moves past them |
| BatchStep.CheckpointResumesAfterChunk | src/main/java/org/ls/indexer/batch/DirectoryScanningItemReader.java:98-101 | after a chunk from a freshly opened reader, reopening with its checkpoint resumes right after the chunk's last item |
| KafkaConsumerConfig.ResolveDestinationCases | src/main/java/org/ls/indexer/config/KafkaConsumerConfig.java:111-123 | upsert topic to the upsert DLQ (checked first), delete topic to the delete DLQ, anything else to `unknown-source-topic-dlq`, always in the same partition |
| KafkaConsumerConfig.DefaultDestinationsAreNotSources | src/main/java/org/ls/indexer/config/KafkaConsumerConfig.java:111-123 | with the default topic names no record is dead-lettered into a consumed topic |
| KafkaConsumerConfig.WrapInt32 | src/main/java/org/ls/indexer/config/KafkaConsumerConfig.java:144 | Java int arithmetic, exact inside the int range |
| KafkaConsumerConfig.DeliveriesMatchMaxAttempts | src/main/java/org/ls/indexer/config/KafkaConsumerConfig.java:144-145 | `FixedBackOff(interval, maxRetryAttempts - 1)` gives maxRetryAttempts deliveries for a positive value, one for zero or negative, and 2^31 for Integer.MIN_VALUE, whose decrement wraps |
| KafkaConsumerConfig.DefaultDeliveries | src/main/java/org/ls/indexer/config/KafkaConsumerConfig.java:45-49 | the defaults give three deliveries 5000 ms apart |
| KafkaConsumerConfig.Dispose | src/main/java/org/ls/indexer/config/KafkaConsumerConfig.java:144-145 | a record is committed or abandoned within the allowed deliveries, or dead-lettered after all of them |
| KafkaConsumerConfig.NonThrowingListenerIsNeverRetried | src/main/java/org/ls/indexer/config/KafkaConsumerConfig.java:105-146 | a listener that never throws gets one delivery per record, never a dead-letter, and abandons the record when it does not acknowledge |
| KafkaConsumerConfig.ThrowingListenerNeverAbandons | src/main/java/org/ls/indexer/config/KafkaConsumerConfig.java:105-146 | a listener that acknowledges or throws gets every record committed, or, after every delivery threw, dead-lettered to the resolved topic in its own partition, with the headers function contributing the original headers |
| Listener.TargetPathMeaning | src/main/java/org/ls/indexer/kafka/FileEventListener.java:97-101 | the target is the normalised join of base dir, relative path and file name; a null component fails |
| Listener.UpsertDocumentFields | src/main/java/org/ls/indexer/kafka/FileEventListener.java:110-174 | the document takes the event's id as given, the source file name, the joined source path, the event's size and time, and the parsed fields; the event time is set exactly when it has text and parses |
| Listener.UpsertAckAfterIndex | src/main/java/org/ls/indexer/kafka/FileEventListener.java:180-188 | the upsert succeeds only after the built document is stored under the event's id |
| Listener.UpsertFailureLeavesIndex | src/main/java/org/ls/indexer/kafka/FileEventListener.java:87-201 | a failed upsert changes the index only when the client call itself failed after reaching the cluster |
| Listener.DeleteMeaning | src/main/java/org/ls/indexer/kafka/FileEventListener.java:226-265 | a null or blank id is acknowledged without touching the index; otherwise the record is acknowledged exactly when deleteDocument returns, true or false |
| Listener.DeleteIdChecksDisagree | src/main/java/org/ls/indexer/kafka/FileEventListener.java:230-240 | an id made of U+0001 passes the handler's isBlank check but fails deleteDocument's trim check, so it is neither deleted nor acknowledged |
| Listener.FileEventListener.BuildDocument | src/main/java/org/ls/indexer/kafka/FileEventListener.java:87-178 | the steps before the index call end as the upsert specification says: the built document, or the failure at the first step that fails |
| Listener.FileEventListener.UpsertOrThrow | src/main/java/org/ls/indexer/kafka/FileEventListener.java:87-188 | the try block of the upsert handler: the index is written as the upsert specification says, and the record is acknowledged exactly when it succeeds |
| Listener.FileEventListener.HandleFileUpsertEvent | src/main/java/org/ls/indexer/kafka/FileEventListener.java:87-202 | the handler as written: the same effects, every failure caught |
| Listener.FileEventListener.DeleteOrThrow | src/main/java/org/ls/indexer/kafka/FileEventListener.java:226-252 | the try block of the delete handler, with its acknowledgement rule |
| Listener.FileEventListener.HandleFileDeleteEvent | src/main/java/org/ls/indexer/kafka/FileEventListener.java:226-265 | the delete handler as written: the same effects, every failure caught |
| Listener.SwallowedFailureIsAbandoned | src/main/java/org/ls/indexer/kafka/FileEventListener.java:190-201 | a record whose first delivery fails is neither retried, acknowledged nor dead-lettered (the delete handler's catch blocks, lines 254-264, end the same way) |
| Listener.MissingTargetFileIsAbandoned | src/main/java/org/ls/indexer/kafka/FileEventListener.java:107-201 | concretely: an upsert whose target file is missing fails with IndexingException and the record is abandoned after one delivery |
| Listener.ThrowingHandlerNeverAbandons | src/main/java/org/ls/indexer/config/KafkaConsumerConfig.java:105-146 | with failures let through, every record is committed after a successful delivery or, after every delivery failed, dead-lettered to the resolved topic, with the headers function contributing the original headers |

## Left out

- Logging throughout, and the log-only `successCount` loop in bulkIndexDocuments.
- Concurrency: consumer concurrency, the reader's `AtomicInteger` and
  `CopyOnWriteArrayList`, and the task executor. The model is single-threaded.
- SHA-256, the random UUID source, Tika's parsing, `Files.walk` order,
  file attributes and the Elasticsearch client are parameters, not models.
  A client exception carries an `applied` flag, because a timed-out write
  may or may not have landed.
- `Instant.parse` is a parameter returning an optional instant. `Instant.now()`
  and the working directory are parameters too.
- Reader.DirectoryScanningItemReader.Read: `currentIndex` is an unbounded
  integer, so the wrap-around of the int after 2^31 reads is not modelled.
  A negative restored index is modelled: it gives IndexOutOfBounds after the
  increment.
- Listener.FileEventListener.HandleFileUpsertEvent: the `ack != null` guards
  assume the manual acknowledgement mode, where the container always passes
  an Acknowledgment. The null case is not modelled.
- Listener.UpsertDocument: a message whose JSON is the literal `null`
  decodes to a null event. The code then fails with a NullPointerException.
  The model treats it as a decoding failure, and both are caught without ack.
- Listener.DeleteEventResult: likewise, a delete message whose JSON is the
  literal `null` gives a null event, and the code then fails with a
  NullPointerException at the id check, caught as an unexpected failure.
  The model reports it as `Malformed`. Either way the record is neither
  acknowledged nor the index touched.
- JavaStrings.ToLowerCase: only ASCII letters are lowered. Locale-specific
  and non-ASCII case mappings of `String.toLowerCase` are not modelled.
- Utf8.Encode: strings are sequences of Unicode scalar values. Java's
  UTF-16 strings with unpaired surrogates, which `getBytes` replaces by
  '?', are not modelled.
- Exception messages and causes are not modelled; only the kind of failure is.
- `customMetadata` and `extractedMetadata` of the document are commented
  out in the source and not modelled.
- Reader.Supported: a walked regular file always has a file name, so the
  null `getFileName()` case is treated as not matching.
- KafkaConsumerConfig.Dispose: a dead-letter record's `addedHeaders` are
  only what the headers function contributes (the original headers). The
  headers DeadLetterPublishingRecoverer copies by itself and its kafka_dlt-*
  failure headers (original topic, partition, offset, exception) are not
  modelled, nor is the record's key and value.
- Persistence.IndexResult: the `NoOp` branch after the index call
  (ElasticsearchPersistenceService.java:86-87) is only logged, and the index
  API never answers noop, so the model's index result is never NoOp.
- Kafka redelivery after a consumer restart is not modelled: an abandoned
  record stays abandoned.
- The broker's partition assignment and offset commit are not modelled. The
  model of the container is the per-record outcome only.
- The monitoring UI, the status and batch controllers, the job service and
  topic provisioning are outside this model.

## Findings

| source | as written | input that shows it | evidently intended | confidence | as-written member | corrected member |
|---|---|---|---|---|---|---|
| src/main/java/org/ls/indexer/kafka/FileEventListener.java:190-201, 254-264 | every exception of either handler is caught and logged, and the handler returns normally without acknowledging, so the DefaultErrorHandler configured in KafkaConsumerConfig never sees a failure: the record is not retried and not dead-lettered, and later acknowledgements on the partition move past it | an upsert event whose target file does not exist (parseFile throws IndexingException) | failures reach the error handler (the catch blocks say "send to DLQ"), so the record is retried and then dead-lettered, the headers function contributing its original headers | not executed | Listener.MissingTargetFileIsAbandoned | Listener.ThrowingHandlerNeverAbandons |
| src/main/java/org/ls/indexer/service/ElasticsearchPersistenceService.java:179-185 | `br.build()` is called for the emptiness check, before the try block, and again for the bulk call. With no operation the first build throws (a required property is missing) and the exception escapes unwrapped; with one, the builder being single-use, the second build throws IllegalStateException, which the generic catch turns into an IndexingException. Every non-empty list fails, the bulk API is never called, the writer rethrows, and every backfill chunk holding a document fails, again on restart | a chunk with one document whose fileId is non-null; a list whose only document has no id | the emptiness check looks at the collected operations, the request is built once and submitted, and its per-item errors are reported as false | not executed | Persistence.BulkAsWrittenNeverSends | Persistence.PersistenceService.BulkIndexDocuments |
