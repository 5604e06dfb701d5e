/** getCatalogMetadata: the capture date, the GPS position and the dc:subject
    keywords of a still image, each present only when the file carries it. */
module Catalog {
  import opened JavaLang
  import opened MediaModel
  import opened Channel

  /** The text the 1..count loop builds: each item's value preceded by one space. */
  function Keywords(items: seq<Option<string>>): string
    decreases |items|
  {
    if items == [] then "" else Keywords(items[..|items| - 1]) + " " + Show(items[|items| - 1])
  }

  /** The StringBuilder loop over the dc:subject array items, 1-based as in XMP. */
  method JoinKeywords(items: seq<Option<string>>) returns (keywords: string)
    ensures keywords == Keywords(items)
  {
    var sb := "";
    for i := 1 to |items| + 1
      invariant sb == Keywords(items[..i - 1])
    {
      sb := sb + " " + Show(items[i - 1]);
      assert items[..i][..i - 1] == items[..i - 1];
    }
    assert items[..|items|] == items;
    keywords := sb;
  }

  /** The keyword text of a concatenation is the concatenation of their texts. */
  lemma {:induction false} KeywordsConcat(a: seq<Option<string>>, b: seq<Option<string>>)
    ensures Keywords(a + b) == Keywords(a) + Keywords(b)
    decreases |b|
  {
    if b == [] {
      assert a + b == a;
    } else {
      var n := |b| - 1;
      KeywordsConcat(a, b[..n]);
      assert (a + b)[..|a + b| - 1] == a + b[..n];
    }
  }

  /** ["a", "b"] gives " a b"; an existing but empty array gives "". */
  lemma KeywordsExamples()
    ensures Keywords([Some("a"), Some("b")]) == " a b"
    ensures Keywords([]) == ""
  {
  }

  /** The position of the last space of s, -1 when there is none. */
  function LastSpace(s: string): (k: int)
    ensures -1 <= k < |s|
    ensures k >= 0 ==> s[k] == ' '
    decreases |s|
  {
    if s == [] then -1
    else if s[|s| - 1] == ' ' then |s| - 1
    else LastSpace(s[..|s| - 1])
  }

  /** Splits a keyword text back into its words: the inverse of Keywords. */
  function Words(s: string): seq<string>
    decreases |s|
  {
    if s == [] then []
    else
      var k := LastSpace(s);
      if k < 0 then [s] else Words(s[..k]) + [s[k + 1..]]
  }

  lemma {:induction false} LastSpaceAfter(front: string, word: string)
    requires ' ' !in word
    ensures LastSpace(front + " " + word) == |front|
    decreases |word|
  {
    var s := front + " " + word;
    if word != [] {
      var n := |word| - 1;
      assert s[|s| - 1] == word[n];
      assert s[..|s| - 1] == front + " " + word[..n];
      LastSpaceAfter(front, word[..n]);
    } else {
      assert s[|s| - 1] == ' ';
    }
  }

  /** When no item holds a space, the words of the keyword text are the items,
      null items reading "null": the concatenation loses nothing. */
  lemma {:induction false} WordsOfKeywords(items: seq<Option<string>>)
    requires forall i :: 0 <= i < |items| ==> ' ' !in Show(items[i])
    ensures Words(Keywords(items)) == seq(|items|, i requires 0 <= i < |items| => Show(items[i]))
    decreases |items|
  {
    if items != [] {
      var n := |items| - 1;
      var front := Keywords(items[..n]);
      var word := Show(items[n]);
      var s := Keywords(items);
      assert s == front + " " + word;
      LastSpaceAfter(front, word);
      assert s[..|front|] == front;
      assert s[|front| + 1..] == word;
      WordsOfKeywords(items[..n]);
    }
  }

  const OPERATION: string := "getCatalogMetadata"

  const KEY_DATE_MILLIS: string := "dateMillis"
  const KEY_LATITUDE: string := "latitude"
  const KEY_LONGITUDE: string := "longitude"
  const KEY_KEYWORDS: string := "keywords"

  /** The catalog map of a parsed still image; None when reading the original
      date throws (getDate returns null for a tag it cannot parse, and
      getTime() is then called on null). */
  function CatalogMap(dirs: seq<Directory>): (r: Option<map<string, CatalogValue>>)
    ensures var exif := FirstDirectoryOfType(dirs, ExifSubIfdType);
      r.None? <==> exif.Some? && ContainsTag(exif.value, TAG_DATETIME_ORIGINAL) && exif.value.kind.originalDateMillis.None?
    ensures r.Some? ==> r.value.Keys <= {KEY_DATE_MILLIS, KEY_LATITUDE, KEY_LONGITUDE, KEY_KEYWORDS}
    ensures r.Some? ==> var exif := FirstDirectoryOfType(dirs, ExifSubIfdType);
      && (KEY_DATE_MILLIS in r.value <==> exif.Some? && ContainsTag(exif.value, TAG_DATETIME_ORIGINAL))
      && (KEY_DATE_MILLIS in r.value ==> r.value[KEY_DATE_MILLIS] == Millis(exif.value.kind.originalDateMillis.value))
    ensures r.Some? ==> var gps := FirstDirectoryOfType(dirs, GpsType);
      && (KEY_LATITUDE in r.value <==> KEY_LONGITUDE in r.value)
      && (KEY_LATITUDE in r.value <==> gps.Some? && gps.value.kind.geoLocation.Some?)
      && (KEY_LATITUDE in r.value ==>
            && r.value[KEY_LATITUDE] == Degrees(gps.value.kind.geoLocation.value.latitude)
            && r.value[KEY_LONGITUDE] == Degrees(gps.value.kind.geoLocation.value.longitude))
    ensures r.Some? ==> var xmp := FirstDirectoryOfType(dirs, XmpType);
      && (KEY_KEYWORDS in r.value <==> xmp.Some? && xmp.value.kind.subject.Subject?)
      && (KEY_KEYWORDS in r.value ==> r.value[KEY_KEYWORDS] == Text(Keywords(xmp.value.kind.subject.items)))
  {
    var exif := FirstDirectoryOfType(dirs, ExifSubIfdType);
    var gps := FirstDirectoryOfType(dirs, GpsType);
    var xmp := FirstDirectoryOfType(dirs, XmpType);
    var hasDate := exif.Some? && ContainsTag(exif.value, TAG_DATETIME_ORIGINAL);
    if hasDate && exif.value.kind.originalDateMillis.None? then None
    else
      var withDate: map<string, CatalogValue> :=
        if hasDate then map[KEY_DATE_MILLIS := Millis(exif.value.kind.originalDateMillis.value)] else map[];
      var withGps :=
        if gps.Some? && gps.value.kind.geoLocation.Some? then
          var geo := gps.value.kind.geoLocation.value;
          withDate[KEY_LATITUDE := Degrees(geo.latitude)][KEY_LONGITUDE := Degrees(geo.longitude)]
        else withDate;
      var withKeywords :=
        if xmp.Some? && xmp.value.kind.subject.Subject? then
          withGps[KEY_KEYWORDS := Text(Keywords(xmp.value.kind.subject.items))]
        else withGps;
      Some(withKeywords)
  }

  /** What getCatalogMetadata answers: an unrecognised format is no special
      case here and lands in the generic exception clause. */
  function CatalogReply(path: Option<string>, media: MediaFile): (r: Reply)
    ensures r.Error? ==> FailureMessage(path) <= r.message
    ensures media.image.ReadFailed? && media.image.failure.FileNotFound? ==>
      r == Error(ErrorCode(OPERATION, "filenotfound"), FailureMessageWith(path, media.image.failure.message))
    ensures media.image.ReadFailed? && !media.image.failure.FileNotFound? ==>
      r == Error(ErrorCode(OPERATION, "exception"), FailureMessage(path))
    ensures media.image.Parsed? ==>
      (r.Success? || r == Error(ErrorCode(OPERATION, "exception"), FailureMessage(path)))
    ensures media.image.Parsed? ==> (r.Success? <==> CatalogMap(media.image.directories).Some?)
    ensures media.image.Parsed? && r.Success? ==> r.payload == CatalogFields(CatalogMap(media.image.directories).value)
  {
    match media.image
    case ReadFailed(FileNotFound(message)) => Error(ErrorCode(OPERATION, "filenotfound"), FailureMessageWith(path, message))
    case ReadFailed(_) => Error(ErrorCode(OPERATION, "exception"), FailureMessage(path))
    case Parsed(dirs) =>
      match CatalogMap(dirs)
      case None => Error(ErrorCode(OPERATION, "exception"), FailureMessage(path))
      case Some(fields) => Success(CatalogFields(fields))
  }

  method GetCatalogMetadata(path: Option<string>, media: MediaFile) returns (r: Reply)
    ensures r == CatalogReply(path, media)
  {
    match media.image
    case ReadFailed(FileNotFound(message)) =>
      r := Error(ErrorCode(OPERATION, "filenotfound"), FailureMessageWith(path, message));
    case ReadFailed(_) =>
      r := Error(ErrorCode(OPERATION, "exception"), FailureMessage(path));
    case Parsed(dirs) =>
      var metadataMap: map<string, CatalogValue> := map[];
      // EXIF Sub-IFD
      var exif := FirstDirectoryOfType(dirs, ExifSubIfdType);
      if exif.Some? && ContainsTag(exif.value, TAG_DATETIME_ORIGINAL) {
        var date := exif.value.kind.originalDateMillis;
        if date.None? {
          return Error(ErrorCode(OPERATION, "exception"), FailureMessage(path));
        }
        metadataMap := metadataMap[KEY_DATE_MILLIS := Millis(date.value)];
      }
      // GPS
      var gps := FirstDirectoryOfType(dirs, GpsType);
      if gps.Some? {
        var geoLocation := gps.value.kind.geoLocation;
        if geoLocation.Some? {
          metadataMap := metadataMap[KEY_LATITUDE := Degrees(geoLocation.value.latitude)];
          metadataMap := metadataMap[KEY_LONGITUDE := Degrees(geoLocation.value.longitude)];
        }
      }
      // XMP: an XMPException is caught and logged, leaving no keywords
      var xmp := FirstDirectoryOfType(dirs, XmpType);
      if xmp.Some? && xmp.value.kind.subject.Subject? {
        var keywords := JoinKeywords(xmp.value.kind.subject.items);
        metadataMap := metadataMap[KEY_KEYWORDS := Text(keywords)];
      }
      r := Success(CatalogFields(metadataMap));
  }
}
