/** The data carried through the pipeline: EsDocumentDto and its JSON form,
    FileParseResult, the two Kafka event payloads and IndexingException. */
module Documents {
  import opened Wrappers
  import opened Timestamps

  /** A Java long. */
  type Long = x: int | -0x8000_0000_0000_0000 <= x < 0x8000_0000_0000_0000

  /** EsDocumentDto; None is a null field. */
  datatype EsDocument = EsDocument(
    fileId: Option<string>,
    content: Option<string>,
    filename: Option<string>,
    sourcePath: Option<string>,
    lastModified: Option<Long>,      // epoch seconds
    title: Option<string>,
    author: Option<string>,
    fileSizeBytes: Option<Long>,
    eventTimestamp: Option<Instant>)

  /** FileParseResult: extracted text, title and author. */
  datatype FileParseResult = FileParseResult(content: Option<string>, title: Option<string>, author: Option<string>)

  /** FileParseResult.emptyResult(): every field null. */
  const EmptyResult: FileParseResult := FileParseResult(None, None, None)

  /** FileUpsertEventDto, without customMetadata, which no handler reads. The
      two long fields are primitives and default to 0 when absent. */
  datatype FileUpsertEvent = FileUpsertEvent(
    elasticsearchDocumentId: Option<string>,
    targetRelativePath: Option<string>,
    targetFilename: Option<string>,
    sourceFilename: Option<string>,
    sourceRelativePath: Option<string>,
    targetFileLastModifiedEpochSeconds: Long,
    targetFileSizeBytes: Long,
    eventTimestamp: Option<string>)

  /** FileDeleteEventDto. */
  datatype FileDeleteEvent = FileDeleteEvent(elasticsearchDocumentId: Option<string>, eventTimestamp: Option<string>)

  /** The condition behind an IndexingException. */
  datatype IndexingException =
    | BaseDirNotConfigured     // dms.common.target-base-dir null or blank
    | FileNotReadable          // null, missing or unreadable file
    | ReadFailed               // IOException while reading
    | ExtractionFailed         // SAXException or TikaException
    | UnexpectedParseFailure   // any other exception inside parseFile
    | MissingDocumentId        // null document or null/blank id
    | ClientFailure            // the Elasticsearch client threw

  /** A JSON value as Jackson writes the fields of an EsDocumentDto. */
  datatype JsonValue = JString(s: string) | JNumber(n: int)

  /** A JSON object as the ordered list of its members. */
  type JsonObject = seq<(string, JsonValue)>

  /** The JSON keys, in declaration order. */
  const Keys: seq<string> := ["file_id", "content", "filename", "source_path", "last_modified",
                              "title", "author", "file_size_bytes", "event_timestamp"]

  function Str(v: Option<string>): Option<JsonValue> {
    if v.Some? then Some(JString(v.value)) else None
  }

  function Num(v: Option<Long>): Option<JsonValue> {
    if v.Some? then Some(JNumber(v.value)) else None
  }

  function Stamp(v: Option<Instant>): Option<JsonValue> {
    if v.Some? then Some(JString(Format(v.value))) else None
  }

  /** Every property of the document under its key, null or not. */
  function Entries(d: EsDocument): (es: seq<(string, Option<JsonValue>)>)
    ensures |es| == |Keys|
    ensures forall i :: 0 <= i < |es| ==> es[i].0 == Keys[i]
  {
    [("file_id", Str(d.fileId)), ("content", Str(d.content)), ("filename", Str(d.filename)),
     ("source_path", Str(d.sourcePath)), ("last_modified", Num(d.lastModified)), ("title", Str(d.title)),
     ("author", Str(d.author)), ("file_size_bytes", Num(d.fileSizeBytes)),
     ("event_timestamp", Stamp(d.eventTimestamp))]
  }

  /** JsonInclude.NON_NULL: members whose value is null are left out. */
  function OmitNulls(es: seq<(string, Option<JsonValue>)>): (o: JsonObject)
    ensures |o| <= |es|
  {
    if es == [] then []
    else (if es[0].1.Some? then [(es[0].0, es[0].1.value)] else []) + OmitNulls(es[1..])
  }

  /** The JSON object Jackson writes for the document. */
  function Serialize(d: EsDocument): JsonObject {
    OmitNulls(Entries(d))
  }

  /** The value of the first member with this key. */
  function Lookup(o: JsonObject, key: string): Option<JsonValue> {
    if o == [] then None else if o[0].0 == key then Some(o[0].1) else Lookup(o[1..], key)
  }

  predicate DistinctKeys(es: seq<(string, Option<JsonValue>)>) {
    forall i, j :: 0 <= i < j < |es| ==> es[i].0 != es[j].0
  }

  /** One step of OmitNulls seen through Lookup. */
  lemma OmitNullsStep(es: seq<(string, Option<JsonValue>)>)
    requires es != []
    ensures es[0].1.None? ==> OmitNulls(es) == OmitNulls(es[1..])
    ensures es[0].1.Some? ==>
              forall key :: Lookup(OmitNulls(es), key) == if es[0].0 == key then es[0].1 else Lookup(OmitNulls(es[1..]), key)
  {
    var rest := OmitNulls(es[1..]);
    if es[0].1.Some? {
      var o := [(es[0].0, es[0].1.value)] + rest;
      assert OmitNulls(es) == o;
      assert o[1..] == rest;
    } else {
      assert OmitNulls(es) == [] + rest;
    }
  }

  /** After dropping nulls, looking a key up gives back exactly the property
      stored under it: its value, or absent when it was null. */
  lemma {:induction false} LookupOmitNulls(es: seq<(string, Option<JsonValue>)>, i: nat)
    requires DistinctKeys(es) && i < |es|
    ensures Lookup(OmitNulls(es), es[i].0) == es[i].1
  {
    var rest := OmitNulls(es[1..]);
    assert DistinctKeys(es[1..]) by {
      forall a, b | 0 <= a < b < |es[1..]| ensures es[1..][a].0 != es[1..][b].0 {
        assert es[1..][a] == es[a + 1] && es[1..][b] == es[b + 1];
      }
    }
    OmitNullsStep(es);
    if i == 0 {
      if es[0].1.None? {
        forall j | 0 <= j < |es[1..]| ensures es[1..][j].0 != es[0].0 {
          assert es[1..][j] == es[j + 1];
        }
        LookupAbsent(es[1..], es[0].0);
      }
    } else {
      LookupOmitNulls(es[1..], i - 1);
      assert es[1..][i - 1] == es[i];
      assert es[0].0 != es[i].0;
    }
  }

  /** A key held by no entry is absent from the object. */
  lemma {:induction false} LookupAbsent(es: seq<(string, Option<JsonValue>)>, key: string)
    requires forall j :: 0 <= j < |es| ==> es[j].0 != key
    ensures Lookup(OmitNulls(es), key) == None
  {
    if es != [] {
      forall j | 0 <= j < |es[1..]| ensures es[1..][j].0 != key {
        assert es[1..][j] == es[j + 1];
      }
      LookupAbsent(es[1..], key);
      OmitNullsStep(es);
    }
  }

  /** Every member of the object carries one of the nine keys, and each
      member is a non-null property: nulls never appear. */
  lemma {:induction false} OmitNullsMembers(es: seq<(string, Option<JsonValue>)>)
    ensures forall m :: m in OmitNulls(es) ==> (m.0, Some(m.1)) in es
  {
    if es != [] {
      OmitNullsMembers(es[1..]);
    }
  }

  /** No two members of the object share a key. */
  predicate UniqueKeys(o: JsonObject) {
    forall i, j :: 0 <= i < j < |o| ==> o[i].0 != o[j].0
  }

  /** Dropping nulls from entries with distinct keys leaves an object whose
      members have distinct keys. */
  lemma {:induction false} OmitNullsUniqueKeys(es: seq<(string, Option<JsonValue>)>)
    requires DistinctKeys(es)
    ensures UniqueKeys(OmitNulls(es))
  {
    if es != [] {
      var tail := es[1..];
      assert DistinctKeys(tail) by {
        forall a, b | 0 <= a < b < |tail| ensures tail[a].0 != tail[b].0 {
          assert tail[a] == es[a + 1] && tail[b] == es[b + 1];
        }
      }
      OmitNullsUniqueKeys(tail);
      var rest := OmitNulls(tail);
      if es[0].1.Some? {
        OmitNullsMembers(tail);
        forall j | 0 <= j < |rest| ensures rest[j].0 != es[0].0 {
          assert rest[j] in rest;
          var k :| 0 <= k < |tail| && tail[k] == (rest[j].0, Some(rest[j].1));
          assert tail[k] == es[k + 1];
        }
        var o := [(es[0].0, es[0].1.value)] + rest;
        assert OmitNulls(es) == o;
        forall a, b | 0 <= a < b < |o| ensures o[a].0 != o[b].0 {
          assert o[b] == rest[b - 1];
          if a > 0 {
            assert o[a] == rest[a - 1];
          }
        }
      } else {
        assert OmitNulls(es) == [] + rest;
      }
    }
  }

  function AsString(v: Option<JsonValue>): Option<string> {
    if v.Some? && v.value.JString? then Some(v.value.s) else None
  }

  function AsLong(v: Option<JsonValue>): Option<Long> {
    if v.Some? && v.value.JNumber? && -0x8000_0000_0000_0000 <= v.value.n < 0x8000_0000_0000_0000
    then Some(v.value.n as Long) else None
  }

  function AsInstant(v: Option<JsonValue>): Option<Instant> {
    match AsString(v)
    case None => None
    case Some(s) =>
      match ParseTimestamp(s)
      case None => None
      case Some(dt) => if 1 <= dt.month <= 12 then Some(OfEpochMilli(EpochMilli(dt))) else None
  }

  /** Reads a document back from its JSON object: the reference reading of the
      key mapping. */
  function Deserialize(o: JsonObject): EsDocument {
    EsDocument(AsString(Lookup(o, Keys[0])), AsString(Lookup(o, Keys[1])), AsString(Lookup(o, Keys[2])),
               AsString(Lookup(o, Keys[3])), AsLong(Lookup(o, Keys[4])),
               AsString(Lookup(o, Keys[5])), AsString(Lookup(o, Keys[6])),
               AsLong(Lookup(o, Keys[7])), AsInstant(Lookup(o, Keys[8])))
  }

  /** The instant as it survives the millisecond rendering. */
  function TruncatedStamp(v: Option<Instant>): Option<Instant> {
    if v.Some? then Some(TruncateToMillis(v.value)) else None
  }

  /** A timestamp whose calendar year lies in 1..9999, the range in which the
      four-digit year-of-era field is unambiguous. */
  predicate RenderableStamp(v: Option<Instant>) {
    v.Some? ==> 1 <= ToDateTime(v.value).year <= 9999
  }

  /** The nine entries are written under nine different keys. */
  lemma EntriesDistinct(d: EsDocument)
    ensures DistinctKeys(Entries(d))
  {
  }

  /** Looking up any of the nine keys in the JSON gives the property stored
      under it. */
  lemma LookupSerialize(d: EsDocument)
    ensures forall i :: 0 <= i < |Keys| ==> Lookup(Serialize(d), Keys[i]) == Entries(d)[i].1
  {
    var es := Entries(d);
    EntriesDistinct(d);
    forall i | 0 <= i < |Keys| ensures Lookup(Serialize(d), Keys[i]) == Entries(d)[i].1 {
      LookupOmitNulls(es, i);
    }
  }

  lemma StampRoundTrip(v: Option<Instant>)
    requires RenderableStamp(v)
    ensures AsInstant(Stamp(v)) == TruncatedStamp(v)
  {
    if v.Some? {
      FormatRoundTrip(v.value);
    }
  }

  /** Each property is written under its own key and nowhere else: reading the
      JSON back gives the same document, except that the timestamp keeps only
      its milliseconds. */
  lemma SerializeRoundTrip(d: EsDocument)
    requires RenderableStamp(d.eventTimestamp)
    ensures Deserialize(Serialize(d)) == d.(eventTimestamp := TruncatedStamp(d.eventTimestamp))
  {
    LookupSerialize(d);
    StampRoundTrip(d.eventTimestamp);
  }

  /** A member is written exactly for the non-null properties, under the
      property's key, and the object never has two members with one key. */
  lemma SerializeOmitsNulls(d: EsDocument)
    ensures forall m :: m in Serialize(d) ==> m.0 in Keys
    ensures forall i :: 0 <= i < |Keys| ==> (Lookup(Serialize(d), Keys[i]).Some? <==> Entries(d)[i].1.Some?)
    ensures Lookup(Serialize(d), "title").Some? <==> d.title.Some?
    ensures Lookup(Serialize(d), "event_timestamp").Some? <==> d.eventTimestamp.Some?
    ensures UniqueKeys(Serialize(d))
  {
    var es := Entries(d);
    EntriesDistinct(d);
    OmitNullsUniqueKeys(es);
    OmitNullsMembers(es);
    forall m | m in Serialize(d) ensures m.0 in Keys {
      var j :| 0 <= j < |es| && es[j] == (m.0, Some(m.1));
    }
    forall i | 0 <= i < |Keys| ensures Lookup(Serialize(d), Keys[i]).Some? <==> Entries(d)[i].1.Some? {
      LookupOmitNulls(es, i);
    }
    LookupOmitNulls(es, 5);
    LookupOmitNulls(es, 8);
  }
}
