/** One chunk of the historical indexing step: up to chunk-size reads, the
    processor on each item, one write, then the reader's checkpoint. The
    step is not fault tolerant, so any exception fails the chunk before its
    checkpoint is written. */
module BatchStep {
  import opened Wrappers
  import opened Paths
  import opened Documents
  import opened Persistence
  import opened Reader
  import opened Processor
  import opened Writer

  /** dms.indexer.batch.historical.chunk-size's default. */
  const DefaultChunkSize: nat := 100

  /** Why a chunk fails. */
  datatype StepFailure =
    | ReaderFailure(readError: ReadError)
    | ProcessorFailure              // process let an exception escape
    | WriterFailure(writeError: IndexingException)

  /** The documents the processor hands on for the chunk's items, in order,
      or None when it throws on one of them. `env` gives what process sees
      for each path. */
  function ProcessAll(items: seq<Path>, env: Path -> Environment): Option<seq<EsDocument>>
    decreases |items|
  {
    if items == [] then Some([])
    else match Process(Some(items[0]), env(items[0]))
      case Rethrow => None
      case Skip => ProcessAll(items[1..], env)
      case Emit(doc) =>
        match ProcessAll(items[1..], env)
        case None => None
        case Some(docs) => Some([doc] + docs)
  }

  /** How a chunk read from cursor state `s` ends: the number of items it
      read, or the failure. */
  function ChunkResult(s: ReaderState, chunkSize: nat, env: Path -> Environment, call: BulkCall): Result<nat, StepFailure> {
    if chunkSize > 0 && s.currentIndex < 0 then Err(ReaderFailure(IndexOutOfBounds))
    else
      var items := ReadMany(s, chunkSize).0;
      match ProcessAll(items, env)
      case None => Err(ProcessorFailure)
      case Some(docs) =>
        match WriteResult(docs, call)
        case Err(e) => Err(WriterFailure(e))
        case Ok(_) => Ok(|items|)
  }

  /** The index after a chunk read from cursor state `s`. */
  function ChunkIndexAfter(index: Index, s: ReaderState, chunkSize: nat, env: Path -> Environment, call: BulkCall): Index {
    if chunkSize > 0 && s.currentIndex < 0 then index
    else match ProcessAll(ReadMany(s, chunkSize).0, env)
      case None => index
      case Some(docs) => if docs == [] then index else BulkAfter(index, Some(AsList(docs)), call)
  }

  /** The processor throwing on no item is exactly what lets a chunk reach
      the writer, and the documents handed on are exactly the ones process
      emits for the chunk's items. */
  lemma {:induction false} ProcessAllMeaning(items: seq<Path>, env: Path -> Environment)
    ensures ProcessAll(items, env).Some? <==>
              forall i :: 0 <= i < |items| ==> !Process(Some(items[i]), env(items[i])).Rethrow?
    ensures ProcessAll(items, env).Some? ==>
              forall d :: d in ProcessAll(items, env).value <==>
                exists i :: 0 <= i < |items| && Process(Some(items[i]), env(items[i])) == Emit(d)
    decreases |items|
  {
    if items != [] {
      var rest := items[1..];
      ProcessAllMeaning(rest, env);
      assert forall i :: 1 <= i < |items| ==> items[i] == rest[i - 1];
      if ProcessAll(items, env).Some? {
        forall d ensures d in ProcessAll(items, env).value <==>
                         exists i :: 0 <= i < |items| && Process(Some(items[i]), env(items[i])) == Emit(d) {
          if exists i :: 0 <= i < |items| && Process(Some(items[i]), env(items[i])) == Emit(d) {
            var i :| 0 <= i < |items| && Process(Some(items[i]), env(items[i])) == Emit(d);
            if i > 0 {
              assert Process(Some(rest[i - 1]), env(rest[i - 1])) == Emit(d);
            }
          }
          if d in ProcessAll(items, env).value && Process(Some(items[0]), env(items[0])) != Emit(d) {
            var j :| 0 <= j < |rest| && Process(Some(rest[j]), env(rest[j])) == Emit(d);
            assert items[j + 1] == rest[j];
          }
        }
      }
    }
  }

  /** Since process turns every failure it knows into a skip, a chunk never
      fails in the processor: every chunk that is read reaches the writer. */
  lemma ProcessAllNeverFails(items: seq<Path>, env: Path -> Environment)
    ensures ProcessAll(items, env).Some?
    ensures |ProcessAll(items, env).value| <= |items|
  {
    forall i | 0 <= i < |items| ensures !Process(Some(items[i]), env(items[i])).Rethrow? {
      ProcessSkips(Some(items[i]), env(items[i]));
    }
    ProcessAllMeaning(items, env);
    ProcessAllLength(items, env);
  }

  lemma {:induction false} ProcessAllLength(items: seq<Path>, env: Path -> Environment)
    ensures ProcessAll(items, env).Some? ==> |ProcessAll(items, env).value| <= |items|
    decreases |items|
  {
    if items != [] {
      ProcessAllLength(items[1..], env);
    }
  }

  /** From a cursor inside the list a chunk reads the next chunk-size paths,
      or the rest of the list when fewer remain, in list order, and the
      cursor moves past them. */
  lemma {:induction false} ChunkWindow(s: ReaderState, n: nat)
    requires 0 <= s.currentIndex <= |s.filePaths|
    ensures var k := if s.currentIndex + n <= |s.filePaths| then n else |s.filePaths| - s.currentIndex;
            ReadMany(s, n) == (s.filePaths[s.currentIndex..s.currentIndex + k], s.(currentIndex := s.currentIndex + k))
    decreases n
  {
    if s.currentIndex + n <= |s.filePaths| {
      ReadManyConsecutive(s, n);
    } else if s.currentIndex == |s.filePaths| {
      assert s.(currentIndex := s.currentIndex + 0) == s;
    } else {
      var s1 := s.(currentIndex := s.currentIndex + 1);
      assert ReadStep(s) == (Ok(Some(s.filePaths[s.currentIndex])), s1);
      ChunkWindow(s1, n - 1);
      var k1 := |s.filePaths| - s1.currentIndex;
      assert ReadMany(s, n) == ([s.filePaths[s.currentIndex]] + ReadMany(s1, n - 1).0, ReadMany(s1, n - 1).1);
      assert s1.(currentIndex := s1.currentIndex + k1) == s.(currentIndex := |s.filePaths|);
      assert s.filePaths[s.currentIndex..|s.filePaths|]
          == [s.filePaths[s.currentIndex]] + s.filePaths[s1.currentIndex..s1.currentIndex + k1];
    }
  }

  /** The restart property: after a chunk that succeeded from a freshly
      opened reader, its checkpoint lets a reopen over the same walk resume
      right after the chunk's last item. */
  lemma CheckpointResumesAfterChunk(targetBaseDir: Option<string>, supportedExtensions: Option<string>, dir: BaseDir,
                                    context: map<string, int>, chunkSize: nat)
    requires ScanSucceeds(targetBaseDir, supportedExtensions, dir)
    requires var s := OpenState(targetBaseDir, supportedExtensions, dir, context).1;
             0 <= s.currentIndex <= |s.filePaths|
    ensures var s := OpenState(targetBaseDir, supportedExtensions, dir, context).1;
            var (items, s1) := ReadMany(s, chunkSize);
            && s1.currentIndex == s.currentIndex + |items| <= |s.filePaths|
            && items == s.filePaths[s.currentIndex..s1.currentIndex]
            && OpenState(targetBaseDir, supportedExtensions, dir, context[CurrentIndexKey := s1.currentIndex]) == (Ok(()), s1)
  {
    var s := OpenState(targetBaseDir, supportedExtensions, dir, context).1;
    ChunkWindow(s, chunkSize);
    var s1 := ReadMany(s, chunkSize).1;
    ResumeAfterUpdate(targetBaseDir, supportedExtensions, dir, context, s1);
  }

  /** As written, the gateway's bulk call fails before reaching the cluster
      whenever the request holds an operation (see
      Persistence.BulkAsWrittenNeverSends). So every chunk in which the
      processor emits a document fails in the writer, with the index left
      alone and, by RunChunk, no checkpoint written: a restarted job fails on
      the same chunk. */
  lemma AsWrittenChunkFails(index: Index, s: ReaderState, n: nat, env: Path -> Environment)
    requires s.currentIndex >= 0
    requires ProcessAll(ReadMany(s, n).0, env) != Some([])
    ensures ChunkResult(s, n, env, BulkThrew({})) == Err(WriterFailure(ClientFailure))
    ensures ChunkIndexAfter(index, s, n, env, BulkThrew({})) == index
  {
    var items := ReadMany(s, n).0;
    ProcessAllNeverFails(items, env);
    ProcessAllMeaning(items, env);
    var docs := ProcessAll(items, env).value;
    var doc := docs[0];
    assert doc in docs;
    var i :| 0 <= i < |items| && Process(Some(items[i]), env(items[i])) == Emit(doc);
    ProcessEmits(items[i], env(items[i]));
    WriteMeaning(docs, BulkThrew({}));
    assert (doc.fileId.value, doc) in Operations(AsList(docs));
    BulkAsWrittenNeverSends(index, Some(AsList(docs)));
  }

  /** Runs one chunk: reads, processes, writes, and on success checkpoints
      the cursor into the execution context. */
  method RunChunk(reader: DirectoryScanningItemReader, writer: BulkItemWriter, context: ExecutionContext,
                  chunkSize: nat, env: Path -> Environment, call: BulkCall) returns (r: Result<nat, StepFailure>)
    modifies reader, writer.gateway, context
    ensures r == ChunkResult(old(reader.State()), chunkSize, env, call)
    ensures reader.State() == ReadMany(old(reader.State()), chunkSize).1
    ensures writer.gateway.index == ChunkIndexAfter(old(writer.gateway.index), old(reader.State()), chunkSize, env, call)
    ensures context.entries == if r.Ok? then old(context.entries)[CurrentIndexKey := reader.currentIndex]
                               else old(context.entries)
  {
    ghost var s0 := reader.State();
    var items: seq<Path> := [];
    var stop, failed := false, false;
    assert items + ReadMany(s0, chunkSize).0 == ReadMany(s0, chunkSize).0;
    while !stop && |items| < chunkSize
      invariant |items| <= chunkSize
      invariant !stop ==> ReadMany(s0, chunkSize) == (items + ReadMany(reader.State(), chunkSize - |items|).0,
                                                     ReadMany(reader.State(), chunkSize - |items|).1)
      invariant stop ==> ReadMany(s0, chunkSize) == (items, reader.State())
      invariant !stop && s0.currentIndex < 0 ==> items == [] && reader.State() == s0
      invariant s0.currentIndex >= 0 ==> reader.currentIndex >= 0
      invariant failed <==> stop && s0.currentIndex < 0
      invariant failed ==> chunkSize > 0
      modifies reader
      decreases chunkSize - |items|, if stop then 0 else 1
    {
      ghost var before := reader.State();
      var next := reader.Read();
      if next.Err? || next.value.None? {
        assert ReadMany(before, chunkSize - |items|) == ([], reader.State());
        assert items + [] == items;
        stop, failed := true, next.Err?;
      } else {
        ghost var m := chunkSize - |items|;
        assert ReadMany(before, m) == ([next.value.value] + ReadMany(reader.State(), m - 1).0, ReadMany(reader.State(), m - 1).1);
        assert items + ([next.value.value] + ReadMany(reader.State(), m - 1).0)
            == (items + [next.value.value]) + ReadMany(reader.State(), m - 1).0;
        items := items + [next.value.value];
      }
    }
    if !stop {
      assert ReadMany(reader.State(), 0) == ([], reader.State());
      assert items + [] == items;
    }
    assert ReadMany(s0, chunkSize) == (items, reader.State());
    if failed {
      return Err(ReaderFailure(IndexOutOfBounds));
    }
    var docs := ProcessAll(items, env);
    if docs.None? {
      return Err(ProcessorFailure);
    }
    var written := writer.Write(docs.value, call);
    if written.Err? {
      return Err(WriterFailure(written.error));
    }
    reader.Update(context);
    return Ok(|items|);
  }
}
