/** getAllMetadata: every directory that has tags, as a map of its tag names
    to their descriptions, with the usable XMP properties laid over the tags of
    an XMP directory; an unrecognised format goes to the video fallback. */
module FullDump {
  import opened JavaLang
  import opened HashMaps
  import opened MediaModel
  import opened Channel
  import opened VideoFallback

  // ---------------------------------------------------------------------------
  // Tags of one directory

  function TagPuts(tags: seq<Tag>): seq<Option<(string, Option<string>)>> {
    seq(|tags|, i requires 0 <= i < |tags| => Some((tags[i].tagName, tags[i].description)))
  }

  /** The directory map after its tags: name to description. */
  function TagMap(tags: seq<Tag>): DirMap {
    PutAll(map[], TagPuts(tags))
  }

  /** The loop over getTags(). */
  method ReadTags(tags: seq<Tag>) returns (dirMap: DirMap)
    ensures dirMap == TagMap(tags)
  {
    ghost var puts := TagPuts(tags);
    dirMap := map[];
    for i := 0 to |tags|
      invariant dirMap == PutAll(map[], puts[..i])
    {
      dirMap := dirMap[tags[i].tagName := tags[i].description];
      PutAllStep(map[], puts, i);
    }
    assert puts[..|tags|] == puts;
  }

  /** Every tag name is a key, and nothing else is. */
  lemma TagMapKeys(tags: seq<Tag>, name: string)
    ensures name in TagMap(tags) <==> exists i :: 0 <= i < |tags| && tags[i].tagName == name
  {
    PutAllKeys(map[], TagPuts(tags), name);
    assert forall i :: 0 <= i < |tags| ==> (PutsInto(TagPuts(tags), i, name) <==> tags[i].tagName == name);
  }

  /** A name maps to the description of its last tag: a later tag of the same
      name overwrites an earlier one. */
  lemma TagMapLastWins(tags: seq<Tag>, i: nat)
    requires i < |tags|
    requires forall j :: i < j < |tags| ==> tags[j].tagName != tags[i].tagName
    ensures tags[i].tagName in TagMap(tags) && TagMap(tags)[tags[i].tagName] == tags[i].description
  {
    var puts := TagPuts(tags);
    assert forall j :: i < j < |tags| ==> !PutsInto(puts, j, tags[i].tagName);
    PutAllLastWins(map[], puts, i);
  }

  // ---------------------------------------------------------------------------
  // XMP properties of one directory

  /** A property is put only when its path and value are both non-null and non-empty. */
  predicate IsUsable(e: XmpEvent) {
    e.Property? && e.path.Some? && e.path.value != "" && e.value.Some? && e.value.value != ""
  }

  /** The number of properties the iterator delivers before it throws, if it does. */
  function Delivered(walk: seq<XmpEvent>): (n: nat)
    ensures n <= |walk|
    ensures forall j :: 0 <= j < n ==> walk[j].Property?
    ensures n < |walk| ==> walk[n].XmpFailure?
    decreases |walk|
  {
    if walk == [] || walk[0].XmpFailure? then 0 else 1 + Delivered(walk[1..])
  }

  function XmpPut(e: XmpEvent): Option<(string, Option<string>)> {
    if IsUsable(e) then Some((e.path.value, e.value)) else None
  }

  function XmpPuts(walk: seq<XmpEvent>): seq<Option<(string, Option<string>)>> {
    var n := Delivered(walk);
    seq(n, i requires 0 <= i < n => XmpPut(walk[i]))
  }

  /** The while loop over the XMP iterator; an XMPException ends it, is caught
      and logged, and leaves what was put so far. */
  method MergeXmp(dirMap: DirMap, walk: seq<XmpEvent>) returns (merged: DirMap)
    ensures merged == PutAll(dirMap, XmpPuts(walk))
  {
    ghost var puts := XmpPuts(walk);
    merged := dirMap;
    var i := 0;
    while i < |walk| && walk[i].Property?
      invariant 0 <= i <= Delivered(walk)
      invariant merged == PutAll(dirMap, puts[..i])
    {
      var path, value := walk[i].path, walk[i].value;
      if path.Some? && path.value != "" && value.Some? && value.value != "" {
        merged := merged[path.value := value];
      }
      PutAllStep(dirMap, puts, i);
      i := i + 1;
    }
    assert puts[..i] == puts;
  }

  /** The map a directory contributes: its tags, then its usable XMP properties. */
  function DirContents(d: Directory): DirMap {
    var tagMap := TagMap(d.tags);
    if d.kind.Xmp? then PutAll(tagMap, XmpPuts(d.kind.walk)) else tagMap
  }

  /** An XMP directory's keys: its tag names and the paths of the usable
      properties delivered before any failure; no other key. */
  lemma XmpKeys(d: Directory, k: string)
    requires d.kind.Xmp?
    ensures k in DirContents(d) <==>
      || k in TagMap(d.tags)
      || exists i :: 0 <= i < Delivered(d.kind.walk) && IsUsable(d.kind.walk[i]) && d.kind.walk[i].path.value == k
  {
    var puts := XmpPuts(d.kind.walk);
    PutAllKeys(TagMap(d.tags), puts, k);
    assert forall i :: 0 <= i < |puts| ==>
      (PutsInto(puts, i, k) <==> IsUsable(d.kind.walk[i]) && d.kind.walk[i].path.value == k);
  }

  /** A usable property overwrites a tag of the same key; the last one delivered wins. */
  lemma XmpOverridesTags(d: Directory, i: nat)
    requires d.kind.Xmp? && i < Delivered(d.kind.walk) && IsUsable(d.kind.walk[i])
    requires forall j :: i < j < Delivered(d.kind.walk) && IsUsable(d.kind.walk[j]) ==>
      d.kind.walk[j].path.value != d.kind.walk[i].path.value
    ensures d.kind.walk[i].path.value in DirContents(d)
    ensures DirContents(d)[d.kind.walk[i].path.value] == d.kind.walk[i].value
  {
    var puts := XmpPuts(d.kind.walk);
    assert forall j :: i < j < |puts| ==> !PutsInto(puts, j, d.kind.walk[i].path.value);
    PutAllLastWins(TagMap(d.tags), puts, i);
  }

  /** Tags that no usable property names keep their descriptions. */
  lemma XmpLeavesOtherTags(d: Directory, k: string)
    requires d.kind.Xmp? && k in TagMap(d.tags)
    requires forall j :: 0 <= j < Delivered(d.kind.walk) && IsUsable(d.kind.walk[j]) ==> d.kind.walk[j].path.value != k
    ensures k in DirContents(d) && DirContents(d)[k] == TagMap(d.tags)[k]
  {
    var puts := XmpPuts(d.kind.walk);
    assert forall j :: 0 <= j < |puts| ==> !PutsInto(puts, j, k);
    PutAllUntouched(TagMap(d.tags), puts, k);
  }

  /** A failure part way through the XMP walk keeps the tags and every property
      put before it, as if the walk had ended there. */
  lemma XmpFailureKeepsEarlierEntries(name: string, tags: seq<Tag>, before: seq<XmpEvent>, after: seq<XmpEvent>, subject: SubjectLookup)
    requires forall j :: 0 <= j < |before| ==> before[j].Property?
    ensures DirContents(Directory(name, tags, Xmp(before + [XmpFailure] + after, subject))) ==
            DirContents(Directory(name, tags, Xmp(before, subject)))
  {
    var walk := before + [XmpFailure] + after;
    DeliveredPrefix(walk, before);
    DeliveredPrefix(before, before);
    assert XmpPuts(walk) == XmpPuts(before);
  }

  lemma DeliveredPrefix(walk: seq<XmpEvent>, before: seq<XmpEvent>)
    requires before <= walk
    requires forall j :: 0 <= j < |before| ==> before[j].Property?
    requires |before| < |walk| ==> walk[|before|].XmpFailure?
    ensures Delivered(walk) == |before|
  {
  }

  /** Walking the same XMP properties a second time leaves the map as it is. */
  lemma XmpMergeIdempotent(d: Directory)
    requires d.kind.Xmp?
    ensures PutAll(DirContents(d), XmpPuts(d.kind.walk)) == DirContents(d)
  {
    PutAllTwice(TagMap(d.tags), XmpPuts(d.kind.walk));
  }

  // ---------------------------------------------------------------------------
  // All directories

  function DumpPut(d: Directory): Option<(string, DirMap)> {
    if |d.tags| > 0 then Some((d.name, DirContents(d))) else None
  }

  function DumpPuts(dirs: seq<Directory>): seq<Option<(string, DirMap)>> {
    seq(|dirs|, i requires 0 <= i < |dirs| => DumpPut(dirs[i]))
  }

  /** The full dump of a parsed still image. */
  function Dump(dirs: seq<Directory>): MetadataMap {
    PutAll(map[], DumpPuts(dirs))
  }

  /** The loop over getDirectories(), with the tag and XMP loops inside it. */
  method ReadDirectories(dirs: seq<Directory>) returns (metadataMap: MetadataMap)
    ensures metadataMap == Dump(dirs)
  {
    ghost var puts := DumpPuts(dirs);
    metadataMap := map[];
    for i := 0 to |dirs|
      invariant metadataMap == PutAll(map[], puts[..i])
    {
      var dir := dirs[i];
      if |dir.tags| > 0 {
        var dirMap := ReadTags(dir.tags);
        if dir.kind.Xmp? {
          dirMap := MergeXmp(dirMap, dir.kind.walk);
        }
        metadataMap := metadataMap[dir.name := dirMap];
      }
      PutAllStep(map[], puts, i);
    }
    assert puts[..|dirs|] == puts;
  }

  /** A name is a key of the dump exactly when some directory of that name has tags. */
  lemma DumpKeys(dirs: seq<Directory>, name: string)
    ensures name in Dump(dirs) <==> exists i :: 0 <= i < |dirs| && dirs[i].name == name && |dirs[i].tags| > 0
  {
    PutAllKeys(map[], DumpPuts(dirs), name);
    assert forall i :: 0 <= i < |dirs| ==>
      (PutsInto(DumpPuts(dirs), i, name) <==> dirs[i].name == name && |dirs[i].tags| > 0);
  }

  /** Of several directories with tags and one name, the last replaces the
      earlier ones entirely. */
  lemma DumpLastNamesakeWins(dirs: seq<Directory>, i: nat)
    requires i < |dirs| && |dirs[i].tags| > 0
    requires forall j :: i < j < |dirs| && |dirs[j].tags| > 0 ==> dirs[j].name != dirs[i].name
    ensures dirs[i].name in Dump(dirs) && Dump(dirs)[dirs[i].name] == DirContents(dirs[i])
  {
    var puts := DumpPuts(dirs);
    assert forall j :: i < j < |dirs| ==> !PutsInto(puts, j, dirs[i].name);
    PutAllLastWins(map[], puts, i);
  }

  /** With distinct names, every directory with tags appears with all it holds. */
  lemma DumpKeepsDistinctDirectories(dirs: seq<Directory>)
    requires forall i, j :: 0 <= i < j < |dirs| && |dirs[i].tags| > 0 && |dirs[j].tags| > 0 ==> dirs[i].name != dirs[j].name
    ensures forall i :: 0 <= i < |dirs| && |dirs[i].tags| > 0 ==>
      dirs[i].name in Dump(dirs) && Dump(dirs)[dirs[i].name] == DirContents(dirs[i])
  {
    forall i | 0 <= i < |dirs| && |dirs[i].tags| > 0
      ensures dirs[i].name in Dump(dirs) && Dump(dirs)[dirs[i].name] == DirContents(dirs[i])
    {
      DumpLastNamesakeWins(dirs, i);
    }
  }

  // ---------------------------------------------------------------------------
  // The operation and its error routing

  const OPERATION: string := "getAllMetadata"

  /** What getAllMetadata answers. */
  function AllMetadataReply(path: Option<string>, media: MediaFile, platform: Platform): (r: Reply)
    ensures r.Error? ==> FailureMessage(path) <= r.message
    ensures media.image.Parsed? ==> r == Success(AllMetadata(Dump(media.image.directories)))
    ensures media.image == ReadFailed(OtherException) ==> r == Error(ErrorCode(OPERATION, "exception"), FailureMessage(path))
    ensures media.image.ReadFailed? && media.image.failure.FileNotFound? ==>
      r == Error(ErrorCode(OPERATION, "filenotfound"), FailureMessageWith(path, media.image.failure.message))
    ensures media.image.ReadFailed? && media.image.failure.ImageProcessing? ==>
      r == FallbackReply(path, media.video, platform)
  {
    match media.image
    case Parsed(dirs) => Success(AllMetadata(Dump(dirs)))
    case ReadFailed(failure) =>
      match failure
      case ImageProcessing(_) => FallbackReply(path, media.video, platform)
      case FileNotFound(message) => Error(ErrorCode(OPERATION, "filenotfound"), FailureMessageWith(path, message))
      case OtherException => Error(ErrorCode(OPERATION, "exception"), FailureMessage(path))
  }

  method GetAllMetadata(path: Option<string>, media: MediaFile, platform: Platform) returns (r: Reply)
    ensures r == AllMetadataReply(path, media, platform)
  {
    match media.image
    case Parsed(dirs) =>
      var metadataMap := ReadDirectories(dirs);
      r := Success(AllMetadata(metadataMap));
    case ReadFailed(ImageProcessing(_)) =>
      r := GetAllVideoMetadataFallback(path, media.video, platform);
    case ReadFailed(FileNotFound(message)) =>
      r := Error(ErrorCode(OPERATION, "filenotfound"), FailureMessageWith(path, message));
    case ReadFailed(OtherException) =>
      r := Error(ErrorCode(OPERATION, "exception"), FailureMessage(path));
  }
}
