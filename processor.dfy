/** FileToEsDocumentProcessor.process: a scanned path becomes a document or
    is skipped. The parser's inputs, the file attributes, the clock and the
    id generator's inputs are parameters. */
module Processor {
  import opened Wrappers
  import opened JavaStrings
  import opened Paths
  import opened Timestamps
  import opened Documents
  import opened FileParser
  import opened IdGenerator

  /** Files.size and the last-modified time in epoch seconds. */
  datatype FileAttributes = FileAttributes(size: Long, lastModifiedEpochSecond: Long)

  /** What process does: hands a document on, returns null (the item is
      filtered out), or lets an exception other than IndexingException
      escape. */
  datatype ProcessOutcome = Emit(doc: EsDocument) | Skip | Rethrow

  /** Everything outside the code that process consults for one path. */
  datatype Environment = Environment(
    access: FileAccess,                 // what parseFile's checks see
    tika: TikaOutcome,                  // what Tika extracts
    workingDir: seq<string>,            // the current directory, for toAbsolutePath
    sha256: Option<Sha256>,             // None when the algorithm is unavailable
    random: RandomBytes,                // for the UUID fallback
    attributes: Option<FileAttributes>, // None when reading them throws IOException
    now: Instant)                       // Instant.now()

  /** process(filePath). */
  function Process(filePath: Option<Path>, env: Environment): ProcessOutcome {
    if filePath.None? then Skip
    else match ParseFile(filePath, env.access, env.tika)
      case Err(_) => Skip
      case Ok(parsed) =>
        if parsed.content.None? || parsed.content.value == "" then Skip
        else
          var documentId := IdFromFilePath(filePath, env.workingDir, env.sha256, env.random);
          match env.attributes
          case None => Skip
          case Some(attrs) =>
            match FileName(filePath.value)
            case None => Rethrow  // getFileName() is null: a NullPointerException
            case Some(name) =>
              Emit(EsDocument(
                fileId := Some(documentId),
                content := parsed.content,
                filename := Some(name),
                sourcePath := Some(ToString(ToAbsolute(filePath.value, env.workingDir))),
                lastModified := Some(attrs.lastModifiedEpochSecond),
                title := parsed.title,
                author := parsed.author,
                fileSizeBytes := Some(attrs.size),
                eventTimestamp := Some(env.now)))
  }

  /** A path is skipped exactly when it is null, parsing fails, the parsed
      content is null or empty (whatever the title and author), or its
      attributes cannot be read; no other exception ever escapes. */
  lemma ProcessSkips(filePath: Option<Path>, env: Environment)
    ensures Process(filePath, env) == Skip <==>
              || filePath.None?
              || ParseFile(filePath, env.access, env.tika).Err?
              || ParseFile(filePath, env.access, env.tika).value.content.None?
              || ParseFile(filePath, env.access, env.tika).value.content.value == ""
              || env.attributes.None?
    ensures Process(filePath, env) != Rethrow
  {
    if filePath.Some? {
      ParseFileRejects(filePath, env.access, env.tika);
    }
  }

  /** An emitted document carries the derived id, the trimmed non-empty text
      with the parsed title and author, the last path component, the
      absolute path string, the attributes and the processing time. */
  lemma ProcessEmits(p: Path, env: Environment)
    requires Process(Some(p), env).Emit?
    ensures var doc := Process(Some(p), env).doc;
            var parsed := ParseFile(Some(p), env.access, env.tika).value;
            && doc.fileId == Some(IdFromFilePath(Some(p), env.workingDir, env.sha256, env.random))
            && doc.content == parsed.content && doc.title == parsed.title && doc.author == parsed.author
            && doc.content.Some? && doc.content.value != "" && IsTrimmed(doc.content.value)
            && doc.filename == FileName(p)
            && doc.sourcePath == Some(ToString(ToAbsolute(p, env.workingDir)))
            && doc.lastModified == Some(env.attributes.value.lastModifiedEpochSecond)
            && doc.fileSizeBytes == Some(env.attributes.value.size)
            && doc.eventTimestamp == Some(env.now)
  {
    ParseFileRejects(Some(p), env.access, env.tika);
    ParseFileResult(Some(p), env.access, env.tika.text, env.tika.metadata);
  }

  /** With SHA-256 available the id of an emitted document is 64 lowercase
      hex characters, and two paths with the same absolute path get the same
      id, so re-processing a file overwrites its document. */
  lemma ProcessIdIsPathDerived(p: Path, q: Path, env: Environment)
    requires env.sha256.Some?
    requires Process(Some(p), env).Emit? && Process(Some(q), env).Emit?
    requires ToAbsolute(p, env.workingDir) == ToAbsolute(q, env.workingDir)
    ensures var id := Process(Some(p), env).doc.fileId.value;
            && |id| == 64 && (forall i :: 0 <= i < 64 ==> IsHexChar(id[i]))
            && Process(Some(q), env).doc.fileId == Some(id)
  {
    DerivedIdShape(p, env.workingDir, env.sha256.value, env.random);
  }
}
