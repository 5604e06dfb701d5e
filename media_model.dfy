/** What the parsing libraries report about one file, taken as given. A still
    image reads as a sequence of directories (metadata-extractor's Metadata);
    a video as the values a MediaMetadataRetriever extracts per integer key. */
module MediaModel {
  import opened JavaLang

  // Tag identifiers of ExifSubIFDDirectory.
  const TAG_EXPOSURE_TIME: int := 0x829A
  const TAG_FNUMBER: int := 0x829D
  const TAG_ISO_EQUIVALENT: int := 0x8827
  const TAG_DATETIME_ORIGINAL: int := 0x9003
  const TAG_FOCAL_LENGTH: int := 0x920A

  /** One tag: its numeric type, its name, getDescription() and getString() of
      its value (either may be null). */
  datatype Tag = Tag(tagType: int, tagName: string, description: Option<string>, text: Option<string>)

  /** One step of the XMP property iterator: a property (getPath() and
      getValue() may be null), or an XMPException thrown at that point by
      sort(), iterator() or next(); nothing after a failure is reached. */
  datatype XmpEvent = Property(path: Option<string>, value: Option<string>) | XmpFailure

  /** What the XMP queries on dc:subject return: the property does not exist,
      it exists with these array items (getValue() of items 1..count), or one
      of the queries throws an XMPException. */
  datatype SubjectLookup = NoSubject | Subject(items: seq<Option<string>>) | SubjectFailure

  /** A resolved GPS position; only copied, never computed with. */
  datatype GeoLocation = GeoLocation(latitude: real, longitude: real)

  /** The directory classes the handler singles out, with what their library
      accessors return: getDate(TAG_DATETIME_ORIGINAL, null, default zone) as
      epoch milliseconds, getGeoLocation(), the XMP iteration and subject lookup. */
  datatype DirectoryKind =
    | Generic
    | ExifSubIfd(originalDateMillis: Option<int>)
    | Gps(geoLocation: Option<GeoLocation>)
    | Xmp(walk: seq<XmpEvent>, subject: SubjectLookup)

  /** A directory: getName(), getTags() in order (getTagCount() is their number), its class. */
  datatype Directory = Directory(name: string, tags: seq<Tag>, kind: DirectoryKind)

  /** Why opening or reading the still image failed: FileNotFoundException,
      ImageProcessingException (format not recognised), or any other exception.
      The messages are getMessage(), which may be null. */
  datatype ImageFailure =
    | FileNotFound(message: Option<string>)
    | ImageProcessing(message: Option<string>)
    | OtherException

  datatype ImageReading = Parsed(directories: seq<Directory>) | ReadFailed(failure: ImageFailure)

  /** The video side: setDataSource(path) (or creating the retriever) throws,
      or it succeeds and extractMetadata(key) is values[key], null when absent. */
  datatype VideoSource = Rejected | Opened(values: map<int, string>)

  /** Everything the libraries would report for the file at one path. */
  datatype MediaFile = MediaFile(image: ImageReading, video: VideoSource)

  /** The first tag of the given type. */
  function FindTag(tags: seq<Tag>, tagType: int): (r: Option<Tag>)
    ensures r.Some? ==> r.value in tags && r.value.tagType == tagType
    ensures r.Some? ==>
      exists i :: 0 <= i < |tags| && tags[i] == r.value && forall j :: 0 <= j < i ==> tags[j].tagType != tagType
    ensures r.None? <==> forall t :: t in tags ==> t.tagType != tagType
    decreases |tags|
  {
    if tags == [] then None
    else if tags[0].tagType == tagType then Some(tags[0])
    else FindTag(tags[1..], tagType)
  }

  /** Directory.containsTag. */
  predicate ContainsTag(d: Directory, tagType: int) {
    FindTag(d.tags, tagType).Some?
  }

  /** Directory.getDescription: null when the tag is absent. */
  function GetDescription(d: Directory, tagType: int): Option<string> {
    match FindTag(d.tags, tagType)
    case None => None
    case Some(t) => t.description
  }

  /** Directory.getString: null when the tag is absent. */
  function GetString(d: Directory, tagType: int): Option<string> {
    match FindTag(d.tags, tagType)
    case None => None
    case Some(t) => t.text
  }

  datatype DirectoryType = ExifSubIfdType | GpsType | XmpType

  predicate IsOfType(d: Directory, ty: DirectoryType) {
    match ty
    case ExifSubIfdType => d.kind.ExifSubIfd?
    case GpsType => d.kind.Gps?
    case XmpType => d.kind.Xmp?
  }

  /** The position of the first directory of a type, |dirs| when there is none. */
  function FirstIndexOfType(dirs: seq<Directory>, ty: DirectoryType): (i: nat)
    ensures i <= |dirs|
    ensures i < |dirs| ==> IsOfType(dirs[i], ty)
    ensures forall j :: 0 <= j < i ==> !IsOfType(dirs[j], ty)
    decreases |dirs|
  {
    if dirs == [] || IsOfType(dirs[0], ty) then 0
    else 1 + FirstIndexOfType(dirs[1..], ty)
  }

  /** Metadata.getFirstDirectoryOfType: null when no directory has the type,
      whatever the number of tags of the one it finds. */
  function FirstDirectoryOfType(dirs: seq<Directory>, ty: DirectoryType): (r: Option<Directory>)
    ensures r.Some? ==> IsOfType(r.value, ty) && r.value in dirs
    ensures r.None? <==> forall d :: d in dirs ==> !IsOfType(d, ty)
    ensures r.Some? ==>
      exists i :: 0 <= i < |dirs| && dirs[i] == r.value && forall j :: 0 <= j < i ==> !IsOfType(dirs[j], ty)
  {
    var i := FirstIndexOfType(dirs, ty);
    if i < |dirs| then Some(dirs[i]) else None
  }
}
