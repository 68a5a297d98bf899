/** FileParserService.parseFile: Apache Tika is an input (what it extracts,
    or which exception it raises); the checks before parsing, the metadata
    fallback chains and the shaping of the FileParseResult are modelled. */
module FileParser {
  import opened Wrappers
  import opened JavaStrings
  import opened Paths
  import opened Documents

  /** Tika's Metadata, by the first value stored under each name (which is
      what Metadata.get returns). */
  type Metadata = map<string, string>

  /** TikaCoreProperties.TITLE, TikaCoreProperties.CREATOR and Office.AUTHOR
      under the names Tika 2 gives them. */
  const TitleKey: string := "dc:title"
  const CreatorKey: string := "dc:creator"
  const OfficeAuthorKey: string := "meta:author"

  /** The keys extractAuthor tries, in order. */
  const AuthorKeys: seq<string> := [CreatorKey, "author", OfficeAuthorKey, "dc:creator"]

  /** What the file system reports about the path: Files.exists,
      Files.isReadable, and whether Files.newInputStream opens it. */
  datatype FileAccess = FileAccess(present: bool, readable: bool, opens: bool)

  /** What AutoDetectParser.parse does with the stream: fills the content
      handler and the metadata, or throws. */
  datatype TikaOutcome =
    | Extracted(text: string, metadata: Metadata)
    | IoFailure          // IOException
    | ExtractionFailure  // SAXException or TikaException
    | OtherFailure       // any other exception

  function Get(md: Metadata, key: string): Option<string> {
    if key in md then Some(md[key]) else None
  }

  /** `v == null || v.isEmpty()`. */
  predicate Missing(v: Option<string>) {
    v.None? || v.value == ""
  }

  /** `v != null ? v.trim() : null`. */
  function TrimmedOrNull(v: Option<string>): (r: Option<string>)
    ensures r.Some? <==> v.Some?
    ensures r.Some? ==> r.value == Trim(v.value) && IsTrimmed(r.value)
  {
    TrimSlice(if v.Some? then v.value else "");
    if v.Some? then Some(Trim(v.value)) else None
  }

  /** extractTitle: TITLE, and "dc:title" when that is null or empty. */
  function ExtractTitle(md: Metadata): Option<string> {
    var t0 := Get(md, TitleKey);
    var t1 := if Missing(t0) then Get(md, "dc:title") else t0;
    TrimmedOrNull(t1)
  }

  /** extractAuthor: CREATOR, then "author", then Office.AUTHOR, then
      "dc:creator", each tried while the previous one is null or empty. */
  function ExtractAuthor(md: Metadata): Option<string> {
    var a0 := Get(md, CreatorKey);
    var a1 := if Missing(a0) then Get(md, "author") else a0;
    var a2 := if Missing(a1) then Get(md, OfficeAuthorKey) else a1;
    var a3 := if Missing(a2) then Get(md, "dc:creator") else a2;
    TrimmedOrNull(a3)
  }

  /** The reference reading of a fallback chain: the first non-empty value
      among the keys. */
  function FirstNonEmpty(md: Metadata, keys: seq<string>): (r: Option<string>)
    ensures r.Some? ==> r.value != ""
  {
    if keys == [] then None
    else if !Missing(Get(md, keys[0])) then Get(md, keys[0])
    else FirstNonEmpty(md, keys[1..])
  }

  /** Since TITLE is "dc:title", the fallback re-reads the same entry: the
      title is that entry trimmed, and null exactly when it is absent. */
  lemma TitleIsTikaTitle(md: Metadata)
    ensures ExtractTitle(md).Some? <==> TitleKey in md
    ensures ExtractTitle(md).Some? ==> ExtractTitle(md).value == Trim(md[TitleKey])
  {
  }

  /** The author is the first non-empty value among the four keys, trimmed;
      when none is non-empty it is the (empty) last key's value, or null. */
  lemma AuthorIsFirstNonEmpty(md: Metadata)
    ensures FirstNonEmpty(md, AuthorKeys).Some? ==>
              ExtractAuthor(md) == Some(Trim(FirstNonEmpty(md, AuthorKeys).value))
    ensures FirstNonEmpty(md, AuthorKeys).None? ==>
              ExtractAuthor(md) == (if CreatorKey in md then Some("") else None)
  {
    var ks := AuthorKeys;
    var k1, k2, k3 := ks[1..], ks[1..][1..], ks[1..][1..][1..];
    assert k1 == ["author", OfficeAuthorKey, "dc:creator"] && k1[0] == "author";
    assert k2 == [OfficeAuthorKey, "dc:creator"] && k2[0] == OfficeAuthorKey;
    assert k3 == ["dc:creator"] && k3[0] == CreatorKey && k3[1..] == [];
    var a0, a1, a2 := Get(md, CreatorKey), Get(md, "author"), Get(md, OfficeAuthorKey);
    if !Missing(a0) {
      assert FirstNonEmpty(md, ks) == a0;
    } else if !Missing(a1) {
      assert FirstNonEmpty(md, ks) == FirstNonEmpty(md, k1) == a1;
    } else if !Missing(a2) {
      assert FirstNonEmpty(md, ks) == FirstNonEmpty(md, k1) == FirstNonEmpty(md, k2) == a2;
    } else {
      assert FirstNonEmpty(md, k3) == None;
      assert FirstNonEmpty(md, ks) == FirstNonEmpty(md, k1) == FirstNonEmpty(md, k2) == None;
      if CreatorKey in md {
        assert md[CreatorKey] == "";
      }
    }
  }

  /** parseFile: the checks before parsing, then the result Tika's output
      gives, every failure being reported as an IndexingException. */
  function ParseFile(filePath: Option<Path>, access: FileAccess, tika: TikaOutcome): Result<FileParseResult, IndexingException> {
    if filePath.None? || !access.present || !access.readable then Err(FileNotReadable)
    else if !access.opens then Err(ReadFailed)
    // getFileName() of the root is null: the NullPointerException lands in the generic catch
    else if FileName(filePath.value).None? then Err(UnexpectedParseFailure)
    else match tika
      case IoFailure => Err(ReadFailed)
      case ExtractionFailure => Err(ExtractionFailed)
      case OtherFailure => Err(UnexpectedParseFailure)
      case Extracted(text, md) =>
        var content := Trim(text);
        var title := ExtractTitle(md);
        var author := ExtractAuthor(md);
        if content == "" && title.None? && author.None? then Ok(EmptyResult)
        else Ok(FileParseResult(Some(content), title, author))
  }

  /** A null, missing or unreadable path is rejected before Tika runs; the
      root path, which has no file name, is rejected as well. */
  lemma ParseFileRejects(filePath: Option<Path>, access: FileAccess, tika: TikaOutcome)
    ensures filePath.None? || !access.present || !access.readable ==>
              ParseFile(filePath, access, tika) == Err(FileNotReadable)
    ensures ParseFile(filePath, access, tika).Ok? ==>
              && filePath.Some? && access.present && access.readable && access.opens
              && FileName(filePath.value).Some? && tika.Extracted?
    ensures !tika.Extracted? ==> ParseFile(filePath, access, tika).Err?
  {
  }

  /** A successful parse is either emptyResult() (all fields null), which
      happens exactly when the trimmed text is empty and there is neither a
      title nor an author, or carries the trimmed text with the extracted
      title and author. */
  lemma ParseFileResult(filePath: Option<Path>, access: FileAccess, text: string, md: Metadata)
    requires ParseFile(filePath, access, Extracted(text, md)).Ok?
    ensures var r := ParseFile(filePath, access, Extracted(text, md)).value;
            && (r == EmptyResult <==> Trim(text) == "" && ExtractTitle(md).None? && ExtractAuthor(md).None?)
            && (r != EmptyResult ==> r == FileParseResult(Some(Trim(text)), ExtractTitle(md), ExtractAuthor(md)))
            && (r.content.Some? ==> IsTrimmed(r.content.value))
  {
    TrimSlice(text);
  }
}
