/** DirectoryScanningItemReader: open scans the target base directory into
    a list of supported files, read hands them out one by one through a
    cursor, update checkpoints the cursor into the step's ExecutionContext
    and open restores it, close clears everything. The file system is an
    input: the facts about the base directory and the order of the walk. */
module Reader {
  import opened Wrappers
  import opened JavaStrings
  import opened Paths
  import opened IndexerProperties

  /** The ExecutionContext key under which the cursor is checkpointed. */
  const CurrentIndexKey: string := "directory.scan.current.index"

  /** Spring Batch's ExecutionContext, restricted to the int entries this
      reader writes and reads. */
  class ExecutionContext {
    var entries: map<string, int>

    constructor(initial: map<string, int>)
      ensures entries == initial
    {
      entries := initial;
    }

    /** putInt. */
    method PutInt(key: string, value: int)
      modifies this
      ensures entries == old(entries)[key := value]
    {
      entries := entries[key := value];
    }
  }

  /** One path produced by Files.walk and whether Files.isRegularFile holds. */
  datatype WalkEntry = WalkEntry(path: Path, regularFile: bool)

  /** The base directory as the file system reports it: Files.exists,
      Files.isDirectory, and the walk in its order (None when it throws). */
  datatype BaseDir = BaseDir(present: bool, isDirectory: bool, walk: Option<seq<WalkEntry>>)

  /** Why open fails: Paths.get rejects the configured string
      (InvalidPathException), or the walk throws (ItemStreamException). */
  datatype OpenError = InvalidBaseDir | ScanFailed

  /** read on a negative cursor: List.get throws IndexOutOfBoundsException. */
  datatype ReadError = IndexOutOfBounds

  /** The reader's fields. */
  datatype ReaderState = ReaderState(filePaths: seq<Path>, currentIndex: int)

  const Cleared := ReaderState([], 0)

  /** The two filters of the walk: a regular file whose lower-cased name
      ends with some supported extension. */
  predicate Supported(e: WalkEntry, extensions: set<string>) {
    && e.regularFile
    && FileName(e.path).Some?
    && exists x :: x in extensions && EndsWith(ToLowerCase(FileName(e.path).value), x)
  }

  /** The collected list: the supported entries' paths, in walk order. */
  function Scanned(walk: seq<WalkEntry>, extensions: set<string>): (r: seq<Path>)
    ensures |r| <= |walk|
  {
    if walk == [] then []
    else
      var last := walk[|walk| - 1];
      Scanned(walk[..|walk| - 1], extensions) + (if Supported(last, extensions) then [last.path] else [])
  }

  /** Whether open gets as far as a successful walk. */
  predicate ScanSucceeds(targetBaseDir: Option<string>, supportedExtensions: Option<string>, dir: BaseDir) {
    && targetBaseDir.Some? && !IsBlank(targetBaseDir.value)
    && Parse(targetBaseDir.value).Ok?
    && dir.present && dir.isDirectory
    && GetSupportedExtensionsSet(supportedExtensions) != {}
    && dir.walk.Some?
  }

  /** open's outcome and the fields it leaves. */
  function OpenState(targetBaseDir: Option<string>, supportedExtensions: Option<string>, dir: BaseDir,
                     context: map<string, int>): (Result<(), OpenError>, ReaderState)
  {
    if targetBaseDir.None? || IsBlank(targetBaseDir.value) then (Ok(()), Cleared)
    else if Parse(targetBaseDir.value).Err? then (Err(InvalidBaseDir), Cleared)
    else if !dir.present || !dir.isDirectory then (Ok(()), Cleared)
    else
      var extensions := GetSupportedExtensionsSet(supportedExtensions);
      if extensions == {} then (Ok(()), Cleared)
      else if dir.walk.None? then (Err(ScanFailed), Cleared)
      else (Ok(()), ReaderState(Scanned(dir.walk.value, extensions),
                                if CurrentIndexKey in context then context[CurrentIndexKey] else 0))
  }

  /** read's outcome and the fields it leaves: the cursor is incremented
      before the element is fetched. */
  function ReadStep(s: ReaderState): (Result<Option<Path>, ReadError>, ReaderState) {
    if s.currentIndex < |s.filePaths| then
      var next := s.(currentIndex := s.currentIndex + 1);
      if s.currentIndex < 0 then (Err(IndexOutOfBounds), next) else (Ok(Some(s.filePaths[s.currentIndex])), next)
    else (Ok(None), s)
  }

  /** The items of n successive reads, stopping at the first that is not a
      path, and the state they leave. */
  function ReadMany(s: ReaderState, n: nat): (seq<Path>, ReaderState)
    decreases n
  {
    if n == 0 then ([], s)
    else
      var (r, s1) := ReadStep(s);
      if r.Ok? && r.value.Some? then
        var (items, s2) := ReadMany(s1, n - 1);
        ([r.value.value] + items, s2)
      else ([], s1)
  }

  /** A path is collected exactly when the walk produced it as a supported
      regular file; nothing else is collected. */
  lemma {:induction false} ScannedMembership(walk: seq<WalkEntry>, extensions: set<string>, p: Path)
    ensures p in Scanned(walk, extensions) <==> exists e :: e in walk && e.path == p && Supported(e, extensions)
  {
    if walk != [] {
      var init := walk[..|walk| - 1];
      ScannedMembership(init, extensions, p);
      assert walk == init + [walk[|walk| - 1]];
    }
  }

  /** The list keeps the walk's order. */
  lemma {:induction false} ScannedAppend(w1: seq<WalkEntry>, w2: seq<WalkEntry>, extensions: set<string>)
    ensures Scanned(w1 + w2, extensions) == Scanned(w1, extensions) + Scanned(w2, extensions)
  {
    if w2 != [] {
      var init := w2[..|w2| - 1];
      assert (w1 + w2)[..|w1 + w2| - 1] == w1 + init;
      assert (w1 + w2)[|w1 + w2| - 1] == w2[|w2| - 1];
      ScannedAppend(w1, init, extensions);
    } else {
      assert w1 + w2 == w1;
    }
  }

  /** A base dir that is unset or blank, not a directory, or an empty
      extension set leaves the reader cleared, without restoring; the first
      read then returns null. Otherwise the list is the scan, and the cursor
      is the checkpoint when there is one and 0 when there is not. */
  lemma OpenMeaning(targetBaseDir: Option<string>, supportedExtensions: Option<string>, dir: BaseDir,
                    context: map<string, int>)
    ensures var (r, s) := OpenState(targetBaseDir, supportedExtensions, dir, context);
            && (!ScanSucceeds(targetBaseDir, supportedExtensions, dir) ==>
                  s == Cleared && ReadStep(s) == (Ok(None), Cleared))
            && (ScanSucceeds(targetBaseDir, supportedExtensions, dir) ==>
                  && r.Ok?
                  && s.filePaths == Scanned(dir.walk.value, GetSupportedExtensionsSet(supportedExtensions))
                  && s.currentIndex == (if CurrentIndexKey in context then context[CurrentIndexKey] else 0))
            && (r.Err? <==>
                  targetBaseDir.Some? && !IsBlank(targetBaseDir.value)
                  && (|| Parse(targetBaseDir.value).Err?
                      || (dir.present && dir.isDirectory && GetSupportedExtensionsSet(supportedExtensions) != {} && dir.walk.None?)))
  {
  }

  /** Reads from a cursor inside the list hand out consecutive positions in
      list order and advance the cursor by one each. */
  lemma {:induction false} ReadManyConsecutive(s: ReaderState, n: nat)
    requires 0 <= s.currentIndex && s.currentIndex + n <= |s.filePaths|
    ensures ReadMany(s, n) == (s.filePaths[s.currentIndex..s.currentIndex + n],
                               s.(currentIndex := s.currentIndex + n))
    decreases n
  {
    if n > 0 {
      var s1 := s.(currentIndex := s.currentIndex + 1);
      assert ReadStep(s) == (Ok(Some(s.filePaths[s.currentIndex])), s1);
      ReadManyConsecutive(s1, n - 1);
      var (items, s2) := ReadMany(s1, n - 1);
      assert ReadMany(s, n) == ([s.filePaths[s.currentIndex]] + items, s2);
      assert [s.filePaths[s.currentIndex]] + s.filePaths[s.currentIndex + 1..s.currentIndex + n]
          == s.filePaths[s.currentIndex..s.currentIndex + n];
    } else {
      assert s.(currentIndex := s.currentIndex + 0) == s;
      assert s.filePaths[s.currentIndex..s.currentIndex + 0] == [];
    }
  }

  /** A cursor at or below the end never passes it, and the list itself
      never changes under read. */
  lemma {:induction false} ReadManyBounded(s: ReaderState, n: nat)
    requires s.currentIndex <= |s.filePaths|
    ensures ReadMany(s, n).1.currentIndex <= |s.filePaths|
    ensures ReadMany(s, n).1.filePaths == s.filePaths
    ensures ReadMany(s, n).1.currentIndex >= s.currentIndex
    decreases n
  {
    if n > 0 {
      var (r, s1) := ReadStep(s);
      if r.Ok? && r.value.Some? {
        ReadManyBounded(s1, n - 1);
      }
    }
  }

  /** Checkpointing the cursor with update and opening again over the same
      walk restores exactly the state that was checkpointed. */
  lemma ResumeAfterUpdate(targetBaseDir: Option<string>, supportedExtensions: Option<string>, dir: BaseDir,
                          context: map<string, int>, s: ReaderState)
    requires ScanSucceeds(targetBaseDir, supportedExtensions, dir)
    requires s.filePaths == OpenState(targetBaseDir, supportedExtensions, dir, context).1.filePaths
    ensures OpenState(targetBaseDir, supportedExtensions, dir, context[CurrentIndexKey := s.currentIndex]) == (Ok(()), s)
  {
  }

  class DirectoryScanningItemReader {
    /** dms.common.target-base-dir and dms.indexer.supported-extensions. */
    const targetBaseDir: Option<string>
    const supportedExtensions: Option<string>

    var filePaths: seq<Path>
    var currentIndex: int

    function State(): ReaderState
      reads this
    {
      ReaderState(filePaths, currentIndex)
    }

    constructor(targetBaseDir: Option<string>, supportedExtensions: Option<string>)
      ensures this.targetBaseDir == targetBaseDir && this.supportedExtensions == supportedExtensions
      ensures State() == Cleared
    {
      this.targetBaseDir := targetBaseDir;
      this.supportedExtensions := supportedExtensions;
      filePaths := [];
      currentIndex := 0;
    }

    /** open(executionContext). */
    method Open(context: ExecutionContext, dir: BaseDir) returns (r: Result<(), OpenError>)
      modifies this
      ensures (r, State()) == OpenState(targetBaseDir, supportedExtensions, dir, context.entries)
    {
      filePaths := [];
      currentIndex := 0;
      if targetBaseDir.None? || IsBlank(targetBaseDir.value) {
        return Ok(());
      }
      var baseDir := Parse(targetBaseDir.value);
      if baseDir.Err? {
        return Err(InvalidBaseDir);
      }
      if !dir.present || !dir.isDirectory {
        return Ok(());
      }
      var extensions := GetSupportedExtensionsSet(supportedExtensions);
      if extensions == {} {
        return Ok(());
      }
      if dir.walk.None? {
        return Err(ScanFailed);
      }
      filePaths := Scanned(dir.walk.value, extensions);  // addAll into the emptied list
      if CurrentIndexKey in context.entries {
        currentIndex := context.entries[CurrentIndexKey];
      }
      return Ok(());
    }

    /** read(). */
    method Read() returns (r: Result<Option<Path>, ReadError>)
      modifies this
      ensures (r, State()) == ReadStep(old(State()))
    {
      if currentIndex < |filePaths| {
        var i := currentIndex;
        currentIndex := currentIndex + 1;
        if i < 0 {
          return Err(IndexOutOfBounds);
        }
        return Ok(Some(filePaths[i]));
      }
      return Ok(None);
    }

    /** update(executionContext): the reader itself is left as it is. */
    method Update(context: ExecutionContext)
      modifies context
      ensures context.entries == old(context.entries)[CurrentIndexKey := currentIndex]
    {
      context.PutInt(CurrentIndexKey, currentIndex);
    }

    /** close(). */
    method Close()
      modifies this
      ensures State() == Cleared
    {
      filePaths := [];
      currentIndex := 0;
    }
  }
}
