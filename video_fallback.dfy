/** getAllVideoMetadataFallback: when the still-image reader does not know the
    format, the full dump is rebuilt from MediaMetadataRetriever, one field per
    entry of the key table, into a single directory named "". */
module VideoFallback {
  import opened JavaLang
  import opened HashMaps
  import opened MediaModel
  import opened Channel

  // MediaMetadataRetriever key constants.
  const METADATA_KEY_BITRATE: int := 20
  const METADATA_KEY_VIDEO_ROTATION: int := 24

  const FALLBACK_OPERATION: string := "getAllVideoMetadataFallback"
  const FALLBACK_ERROR: string := ErrorCode(FALLBACK_OPERATION, "exception")

  /** What the handler takes from the Android platform: the entries of
      Constants.MEDIA_METADATA_KEYS in iteration order (retriever key, field
      name), and Formatter.formatFileSize with the handler's context. */
  datatype Platform = Platform(keyTable: seq<(int, string)>, formatFileSize: int -> string)

  /** The text put for a key: a bitrate as a size per second, a rotation with a
      degree sign, anything else unchanged. None: Long.parseLong threw. */
  function FormatValue(key: int, raw: string, formatFileSize: int -> string): Option<string> {
    if key == METADATA_KEY_BITRATE then
      match ParseLong(raw)
      case None => None
      case Some(n) => Some(formatFileSize(n) + "/sec")
    else if key == METADATA_KEY_VIDEO_ROTATION then Some(raw + "\U{00B0}")
    else Some(raw)
  }

  /** Formatting the value of this table entry throws. */
  predicate EntryThrows(entry: (int, string), values: map<int, string>, formatFileSize: int -> string) {
    entry.0 in values && FormatValue(entry.0, values[entry.0], formatFileSize).None?
  }

  /** Some table entry throws, which ends the whole fallback. */
  predicate FallbackThrows(table: seq<(int, string)>, values: map<int, string>, formatFileSize: int -> string) {
    exists i :: 0 <= i < |table| && EntryThrows(table[i], values, formatFileSize)
  }

  /** The put one table entry makes: none when the retriever has no value. */
  function EntryPut(entry: (int, string), values: map<int, string>, formatFileSize: int -> string): Option<(string, Option<string>)> {
    if entry.0 !in values then None
    else
      match FormatValue(entry.0, values[entry.0], formatFileSize)
      case None => None
      case Some(v) => Some((entry.1, Some(v)))
  }

  function FallbackPuts(table: seq<(int, string)>, values: map<int, string>, formatFileSize: int -> string): seq<Option<(string, Option<string>)>> {
    seq(|table|, i requires 0 <= i < |table| => EntryPut(table[i], values, formatFileSize))
  }

  /** The unnamed directory the fallback fills. */
  function FallbackDirectory(table: seq<(int, string)>, values: map<int, string>, formatFileSize: int -> string): DirMap {
    PutAll(map[], FallbackPuts(table, values, formatFileSize))
  }

  /** What the fallback answers for a path. */
  function FallbackReply(path: Option<string>, source: VideoSource, platform: Platform): (r: Reply)
    ensures r.Success? || r == Error(FALLBACK_ERROR, FailureMessage(path))
    ensures r.Success? ==> r.payload.AllMetadata? && r.payload.directories.Keys == {""}
    ensures r.Success? ==>
      && source.Opened?
      && r.payload.directories[""] == FallbackDirectory(platform.keyTable, source.values, platform.formatFileSize)
    ensures r.Error? <==>
      (|| source.Rejected?
       || exists i :: 0 <= i < |platform.keyTable| && platform.keyTable[i].0 == METADATA_KEY_BITRATE &&
            METADATA_KEY_BITRATE in source.values && ParseLong(source.values[METADATA_KEY_BITRATE]).None?)
  {
    match source
    case Rejected => Error(FALLBACK_ERROR, FailureMessage(path))
    case Opened(values) =>
      if FallbackThrows(platform.keyTable, values, platform.formatFileSize) then
        Error(FALLBACK_ERROR, FailureMessage(path))
      else
        Success(AllMetadata(map["" := FallbackDirectory(platform.keyTable, values, platform.formatFileSize)]))
  }

  method GetAllVideoMetadataFallback(path: Option<string>, source: VideoSource, platform: Platform) returns (r: Reply)
    ensures r == FallbackReply(path, source, platform)
  {
    if source.Rejected? {
      return Error(FALLBACK_ERROR, FailureMessage(path));
    }
    var values := source.values;
    var table := platform.keyTable;
    ghost var puts := FallbackPuts(table, values, platform.formatFileSize);
    var dirMap: DirMap := map[];
    for i := 0 to |table|
      invariant dirMap == PutAll(map[], puts[..i])
      invariant forall j :: 0 <= j < i ==> !EntryThrows(table[j], values, platform.formatFileSize)
    {
      var key := table[i].0;
      if key in values {
        var value := values[key];
        if key == METADATA_KEY_BITRATE {
          var bitrate := ParseLong(value);
          if bitrate.None? {
            assert EntryThrows(table[i], values, platform.formatFileSize);
            return Error(FALLBACK_ERROR, FailureMessage(path));
          }
          value := platform.formatFileSize(bitrate.value) + "/sec";
        } else if key == METADATA_KEY_VIDEO_ROTATION {
          value := value + "\U{00B0}";
        }
        dirMap := dirMap[table[i].1 := Some(value)];
      }
      PutAllStep(map[], puts, i);
    }
    assert puts[..|table|] == puts;
    r := Success(AllMetadata(map["" := dirMap]));
  }

  /** The fallback directory holds exactly the field names of the table entries
      the retriever has a value for. */
  lemma FallbackFields(table: seq<(int, string)>, values: map<int, string>, formatFileSize: int -> string, field: string)
    requires !FallbackThrows(table, values, formatFileSize)
    ensures field in FallbackDirectory(table, values, formatFileSize) <==>
            exists i :: 0 <= i < |table| && table[i].1 == field && table[i].0 in values
  {
    var puts := FallbackPuts(table, values, formatFileSize);
    PutAllKeys(map[], puts, field);
    forall i | 0 <= i < |table|
      ensures PutsInto(puts, i, field) <==> table[i].1 == field && table[i].0 in values
    {
      assert !EntryThrows(table[i], values, formatFileSize);
    }
  }

  /** The value of a field is its last entry's value, formatted per key. */
  lemma FallbackFieldValue(table: seq<(int, string)>, values: map<int, string>, formatFileSize: int -> string, i: nat)
    requires !FallbackThrows(table, values, formatFileSize)
    requires i < |table| && table[i].0 in values
    requires forall j :: i < j < |table| && table[j].0 in values ==> table[j].1 != table[i].1
    ensures table[i].1 in FallbackDirectory(table, values, formatFileSize)
    ensures var key, raw, put := table[i].0, values[table[i].0], FallbackDirectory(table, values, formatFileSize)[table[i].1];
      && (key == METADATA_KEY_BITRATE ==> ParseLong(raw).Some? && put == Some(formatFileSize(ParseLong(raw).value) + "/sec"))
      && (key == METADATA_KEY_VIDEO_ROTATION ==> put == Some(raw + "\U{00B0}"))
      && (key != METADATA_KEY_BITRATE && key != METADATA_KEY_VIDEO_ROTATION ==> put == Some(raw))
  {
    var puts := FallbackPuts(table, values, formatFileSize);
    assert !EntryThrows(table[i], values, formatFileSize);
    forall j | i < j < |puts| ensures !PutsInto(puts, j, table[i].1) {
      assert !EntryThrows(table[j], values, formatFileSize);
    }
    PutAllLastWins(map[], puts, i);
  }
}
