/**
 * The archive queries of `CHMFile` (Sources/CHMKit/CHMFile.swift) above the
 * CHMLib calls: resolving and extracting entries, finding the `.hhc` file,
 * reading the default topic from the `#SYSTEM` records, and the default-page
 * fallback. CHMLib itself is not part of this model: an opened archive is
 * the value `Archive`, which says what CHMLib would list and return.
 */
module ChmFile {

  import opened Common
  import opened Strings
  import opened Entries
  import Paths

  /**
   * What CHMLib reports about an opened archive: every entry
   * (`enumerateEntries()`), the normal files (`enumerateEntries(flags:
   * CHM_ENUMERATE_NORMAL | CHM_ENUMERATE_FILES)`), and for each path that
   * resolves, the bytes retrieving it yields, or None when retrieval reads
   * nothing.
   */
  datatype Archive = Archive(
    allEntries: seq<Entry>,
    files: seq<Entry>,
    objects: map<string, Option<Bytes>>)

  /** `resolveEntry(path:)`. */
  function ResolveEntry(a: Archive, path: string): (r: Option<Entry>)
    ensures r.Some? <==> path in a.objects
    ensures r.Some? ==> r.value.path == path
  {
    if path in a.objects then Some(Entry(path)) else None
  }

  /** `extractData(for:)`: not found, extraction failed, or the entry's bytes. */
  function ExtractData(a: Archive, entry: Entry): (r: Result<Bytes, ChmError>)
    ensures r.Err? ==> r.error == EntryNotFound(entry.path) || r.error == ExtractionFailed(entry.path)
    ensures r.Ok? <==> entry.path in a.objects && a.objects[entry.path].Some?
    ensures r.Ok? ==> r.value == a.objects[entry.path].value
  {
    if entry.path !in a.objects then Err(EntryNotFound(entry.path))
    else
      match a.objects[entry.path]
      case None => Err(ExtractionFailed(entry.path))
      case Some(bytes) => Ok(bytes)
  }

  /** `extractData(path:)`: resolves the path first. */
  function ExtractDataAt(a: Archive, path: string): (r: Result<Bytes, ChmError>)
  {
    match ResolveEntry(a, path)
    case None => Err(EntryNotFound(path))
    case Some(entry) => ExtractData(a, entry)
  }

  /** Extracting by path is extracting the entry with that path; a missing path is reported as not found. */
  lemma ExtractDataAtIsExtractData(a: Archive, path: string)
    ensures ExtractDataAt(a, path) == ExtractData(a, Entry(path))
    ensures path !in a.objects ==> ExtractDataAt(a, path) == Err(EntryNotFound(path))
  {
  }

  // ---------------------------------------------------------------------
  // findHHCPath
  // ---------------------------------------------------------------------

  predicate IsHHC(e: Entry) {
    HasSuffix(Lower(e.path), ".hhc")
  }

  /** `findHHCPath`: the path of the first normal file whose lower-cased path ends with ".hhc". */
  function FindHHCPath(a: Archive): (r: Option<string>)
    ensures r.Some? ==> exists i :: 0 <= i < |a.files| && a.files[i].path == r.value && IsHHC(a.files[i]) &&
                          forall j :: 0 <= j < i ==> !IsHHC(a.files[j])
    ensures r.None? <==> forall e :: e in a.files ==> !IsHHC(e)
  {
    match FirstIndex(a.files, IsHHC)
    case None => None
    case Some(i) => Some(a.files[i].path)
  }

  // ---------------------------------------------------------------------
  // The #SYSTEM records
  // ---------------------------------------------------------------------

  /** A little-endian unsigned 16-bit value at `i`. */
  function LE16(data: Bytes, i: nat): (v: nat)
    requires i + 2 <= |data|
    ensures v < 0x1_0000
  {
    data[i] as nat + data[i + 1] as nat * 0x100
  }

  /** One complete record: its code and its payload. */
  datatype Record = Record(code: nat, payload: Bytes)

  /**
   * The complete records from `offset` on: a 4-byte header (code, length)
   * and `length` payload bytes each, until no header fits or a length runs
   * past the end.
   */
  function Records(data: Bytes, offset: nat): (rs: seq<Record>)
    requires offset <= |data|
    ensures forall r :: r in rs ==> r.code < 0x1_0000 && |r.payload| < 0x1_0000
    decreases |data| - offset
  {
    if offset + 4 > |data| then []
    else
      var code := LE16(data, offset);
      var length := LE16(data, offset + 2);
      var start := offset + 4;
      if start + length > |data| then []
      else [Record(code, data[start..start + length])] + Records(data, start + length)
  }

  predicate IsNul(c: char) {
    c == '\0'
  }

  /** A default-topic payload as a path: decoded, NULs trimmed from both ends, rooted. */
  function TopicPath(payload: Bytes, utf8: Bytes -> Option<string>): (r: Option<string>)
    ensures r.Some? ==> HasPrefix(r.value, "/")
  {
    match utf8(payload)
    case None => None
    case Some(str) => Some(Paths.Rooted(Trim(str, IsNul)))
  }

  /** A record that names a default topic: code 2 and a payload that decodes. */
  predicate IsTopicRecord(r: Record, utf8: Bytes -> Option<string>) {
    r.code == 2 && utf8(r.payload).Some?
  }

  /** The first record that names a default topic. */
  function FirstTopicRecord(records: seq<Record>, utf8: Bytes -> Option<string>): (r: Option<Record>)
    decreases |records|
  {
    if records == [] then None
    else if IsTopicRecord(records[0], utf8) then Some(records[0])
    else FirstTopicRecord(records[1..], utf8)
  }

  /** The first code-2 record whose payload decodes, as a path; the path is always absolute. */
  function FirstTopic(records: seq<Record>, utf8: Bytes -> Option<string>): (r: Option<string>)
    ensures r.Some? ==> HasPrefix(r.value, "/")
  {
    match FirstTopicRecord(records, utf8)
    case None => None
    case Some(rec) => TopicPath(rec.payload, utf8)
  }

  /** `parseSystemDefaultTopic`: nothing for 4 bytes or fewer, else the first default topic after the version word. */
  function SystemDefaultTopic(data: Bytes, utf8: Bytes -> Option<string>): Option<string> {
    if |data| <= 4 then None else FirstTopic(Records(data, 4), utf8)
  }

  /** `parseSystemDefaultTopic` as the source writes it: an offset walking the records. */
  method ParseSystemDefaultTopic(data: Bytes, utf8: Bytes -> Option<string>) returns (topic: Option<string>)
    ensures topic == SystemDefaultTopic(data, utf8)
  {
    if |data| <= 4 {
      return None;
    }
    ghost var target := FirstTopicRecord(Records(data, 4), utf8);
    var offset := 4; // skip the version word
    while offset + 4 <= |data|
      invariant 4 <= offset <= |data|
      invariant FirstTopicRecord(Records(data, offset), utf8) == target
      decreases |data| - offset
    {
      var code := LE16(data, offset);
      var length := LE16(data, offset + 2);
      TopicRecordFromHeader(data, offset, utf8);
      offset := offset + 4;
      if offset + length > |data| {
        assert target == None;
        return None;
      }
      ghost var rec := Record(code, data[offset..offset + length]);
      if code == 2 {
        var str := utf8(data[offset..offset + length]);
        if str.Some? {
          assert target == Some(rec);
          topic := Some(Paths.Rooted(Trim(str.value, IsNul)));
          assert topic == TopicPath(rec.payload, utf8);
          return topic;
        }
      }
      assert !IsTopicRecord(rec, utf8);
      offset := offset + length;
    }
    assert target == None;
    return None;
  }

  /**
   * The first topic record from a header at `offset`: none when the
   * payload runs past the end, the header's own record when it names a
   * topic, or else the first among the records after it.
   */
  lemma TopicRecordFromHeader(data: Bytes, offset: nat, utf8: Bytes -> Option<string>)
    requires offset + 4 <= |data|
    ensures var start := offset + 4;
            var length := LE16(data, offset + 2);
            var r := Record(LE16(data, offset), if start + length <= |data| then data[start..start + length] else []);
            (start + length > |data| ==> FirstTopicRecord(Records(data, offset), utf8) == None) &&
            (start + length <= |data| && IsTopicRecord(r, utf8) ==> FirstTopicRecord(Records(data, offset), utf8) == Some(r)) &&
            (start + length <= |data| && !IsTopicRecord(r, utf8) ==>
               FirstTopicRecord(Records(data, offset), utf8) == FirstTopicRecord(Records(data, start + length), utf8))
  {
    var start := offset + 4;
    var length := LE16(data, offset + 2);
    if start + length <= |data| {
      var r := Record(LE16(data, offset), data[start..start + length]);
      var rest := Records(data, start + length);
      assert Records(data, offset) == [r] + rest;
      assert ([r] + rest)[0] == r && ([r] + rest)[1..] == rest;
    }
  }

  /**
   * The topic comes from the first code-2 record whose payload decodes;
   * with no such record there is none.
   */
  lemma {:induction false} TopicIsFirstDecodable(records: seq<Record>, utf8: Bytes -> Option<string>)
    ensures FirstTopicRecord(records, utf8) ==
              match FirstIndex(records, (r: Record) => IsTopicRecord(r, utf8))
              case None => None
              case Some(i) => Some(records[i])
    decreases |records|
  {
    if records != [] {
      TopicIsFirstDecodable(records[1..], utf8);
    }
  }

  /** Each record takes 4 + length bytes: the records never reach past the data. */
  lemma {:induction false} RecordsFit(data: Bytes, offset: nat)
    requires offset <= |data|
    ensures RecordsSize(Records(data, offset)) <= |data| - offset
    decreases |data| - offset
  {
    if offset + 4 <= |data| {
      var length := LE16(data, offset + 2);
      if offset + 4 + length <= |data| {
        RecordsFit(data, offset + 4 + length);
        var rs := Records(data, offset);
        assert rs[1..] == Records(data, offset + 4 + length);
      }
    }
  }

  /** Bytes taken by a list of records, headers included. */
  function RecordsSize(rs: seq<Record>): nat
    decreases |rs|
  {
    if rs == [] then 0 else 4 + |rs[0].payload| + RecordsSize(rs[1..])
  }

  // ---------------------------------------------------------------------
  // findDefaultPage
  // ---------------------------------------------------------------------

  /** The conventional default pages, in the order they are tried. */
  const DefaultCandidates: seq<string> := ["/index.htm", "/index.html", "/default.htm", "/default.html"]

  /** The default topic of the `#SYSTEM` entry, when it resolves, extracts and names one. */
  function SystemTopicOf(a: Archive, utf8: Bytes -> Option<string>): Option<string> {
    match ResolveEntry(a, "/#SYSTEM")
    case None => None
    case Some(entry) =>
      match ExtractData(a, entry)
      case Err(_) => None
      case Ok(data) => SystemDefaultTopic(data, utf8)
  }

  /** `findDefaultPage`: the `#SYSTEM` topic, else the first conventional page that resolves. */
  function FindDefaultPage(a: Archive, utf8: Bytes -> Option<string>): (r: Option<string>)
    ensures SystemTopicOf(a, utf8).Some? ==> r == SystemTopicOf(a, utf8)
    ensures SystemTopicOf(a, utf8).None? ==>
              (r.Some? <==> exists c :: c in DefaultCandidates && c in a.objects)
    ensures SystemTopicOf(a, utf8).None? && r.Some? ==>
              exists i :: 0 <= i < |DefaultCandidates| && r.value == DefaultCandidates[i] && r.value in a.objects &&
                forall j :: 0 <= j < i ==> DefaultCandidates[j] !in a.objects
  {
    if SystemTopicOf(a, utf8).Some? then SystemTopicOf(a, utf8)
    else
      match FirstIndex(DefaultCandidates, (c: string) => c in a.objects)
      case None => None
      case Some(i) => Some(DefaultCandidates[i])
  }
}
