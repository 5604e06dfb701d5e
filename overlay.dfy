/** getOverlayMetadata: the exposure settings shown over a picture, each taken
    from the first EXIF Sub-IFD directory when it holds the tag. */
module Overlay {
  import opened JavaLang
  import opened MediaModel
  import opened Channel

  const OPERATION: string := "getOverlayMetadata"

  const KEY_APERTURE: string := "aperture"
  const KEY_EXPOSURE_TIME: string := "exposureTime"
  const KEY_FOCAL_LENGTH: string := "focalLength"
  const KEY_ISO: string := "iso"

  /** The overlay map of a parsed still image. A present tag whose description
      is null is put as null, and the ISO field then reads "ISOnull". */
  function OverlayMap(dirs: seq<Directory>): (r: map<string, Option<string>>)
    ensures r.Keys <= {KEY_APERTURE, KEY_EXPOSURE_TIME, KEY_FOCAL_LENGTH, KEY_ISO}
    ensures FirstDirectoryOfType(dirs, ExifSubIfdType).None? ==> r == map[]
    ensures FirstDirectoryOfType(dirs, ExifSubIfdType).Some? ==>
      var exif := FirstDirectoryOfType(dirs, ExifSubIfdType).value;
      && (KEY_APERTURE in r <==> ContainsTag(exif, TAG_FNUMBER))
      && (KEY_EXPOSURE_TIME in r <==> ContainsTag(exif, TAG_EXPOSURE_TIME))
      && (KEY_FOCAL_LENGTH in r <==> ContainsTag(exif, TAG_FOCAL_LENGTH))
      && (KEY_ISO in r <==> ContainsTag(exif, TAG_ISO_EQUIVALENT))
      && (KEY_APERTURE in r ==> r[KEY_APERTURE] == GetDescription(exif, TAG_FNUMBER))
      && (KEY_EXPOSURE_TIME in r ==> r[KEY_EXPOSURE_TIME] == GetString(exif, TAG_EXPOSURE_TIME))
      && (KEY_FOCAL_LENGTH in r ==> r[KEY_FOCAL_LENGTH] == GetDescription(exif, TAG_FOCAL_LENGTH))
      && (KEY_ISO in r ==> r[KEY_ISO] == Some("ISO" + Show(GetDescription(exif, TAG_ISO_EQUIVALENT))))
  {
    match FirstDirectoryOfType(dirs, ExifSubIfdType)
    case None => map[]
    case Some(exif) =>
      var a: map<string, Option<string>> :=
        if ContainsTag(exif, TAG_FNUMBER) then map[KEY_APERTURE := GetDescription(exif, TAG_FNUMBER)] else map[];
      var b := if ContainsTag(exif, TAG_EXPOSURE_TIME) then a[KEY_EXPOSURE_TIME := GetString(exif, TAG_EXPOSURE_TIME)] else a;
      var c := if ContainsTag(exif, TAG_FOCAL_LENGTH) then b[KEY_FOCAL_LENGTH := GetDescription(exif, TAG_FOCAL_LENGTH)] else b;
      if ContainsTag(exif, TAG_ISO_EQUIVALENT) then
        c[KEY_ISO := Some("ISO" + Show(GetDescription(exif, TAG_ISO_EQUIVALENT)))]
      else c
  }

  /** What getOverlayMetadata answers: an unrecognised format has its own code. */
  function OverlayReply(path: Option<string>, media: MediaFile): (r: Reply)
    ensures r.Success? || r.Error?
    ensures r.Error? ==> FailureMessage(path) <= r.message
    ensures media.image.Parsed? ==> r == Success(OverlayFields(OverlayMap(media.image.directories)))
    ensures media.image.ReadFailed? && media.image.failure.ImageProcessing? ==>
      r == Error(ErrorCode(OPERATION, "imageprocessing"), FailureMessageWith(path, media.image.failure.message))
    ensures media.image.ReadFailed? && media.image.failure.FileNotFound? ==>
      r == Error(ErrorCode(OPERATION, "filenotfound"), FailureMessageWith(path, media.image.failure.message))
    ensures media.image == ReadFailed(OtherException) ==> r == Error(ErrorCode(OPERATION, "exception"), FailureMessage(path))
  {
    match media.image
    case Parsed(dirs) => Success(OverlayFields(OverlayMap(dirs)))
    case ReadFailed(ImageProcessing(message)) =>
      Error(ErrorCode(OPERATION, "imageprocessing"), FailureMessageWith(path, message))
    case ReadFailed(FileNotFound(message)) =>
      Error(ErrorCode(OPERATION, "filenotfound"), FailureMessageWith(path, message))
    case ReadFailed(OtherException) =>
      Error(ErrorCode(OPERATION, "exception"), FailureMessage(path))
  }

  method GetOverlayMetadata(path: Option<string>, media: MediaFile) returns (r: Reply)
    ensures r == OverlayReply(path, media)
  {
    match media.image
    case ReadFailed(ImageProcessing(message)) =>
      r := Error(ErrorCode(OPERATION, "imageprocessing"), FailureMessageWith(path, message));
    case ReadFailed(FileNotFound(message)) =>
      r := Error(ErrorCode(OPERATION, "filenotfound"), FailureMessageWith(path, message));
    case ReadFailed(OtherException) =>
      r := Error(ErrorCode(OPERATION, "exception"), FailureMessage(path));
    case Parsed(dirs) =>
      var directory := FirstDirectoryOfType(dirs, ExifSubIfdType);
      var metadataMap: map<string, Option<string>> := map[];
      if directory.Some? {
        var exif := directory.value;
        if ContainsTag(exif, TAG_FNUMBER) {
          metadataMap := metadataMap[KEY_APERTURE := GetDescription(exif, TAG_FNUMBER)];
        }
        if ContainsTag(exif, TAG_EXPOSURE_TIME) {
          metadataMap := metadataMap[KEY_EXPOSURE_TIME := GetString(exif, TAG_EXPOSURE_TIME)];
        }
        if ContainsTag(exif, TAG_FOCAL_LENGTH) {
          metadataMap := metadataMap[KEY_FOCAL_LENGTH := GetDescription(exif, TAG_FOCAL_LENGTH)];
        }
        if ContainsTag(exif, TAG_ISO_EQUIVALENT) {
          metadataMap := metadataMap[KEY_ISO := Some("ISO" + Show(GetDescription(exif, TAG_ISO_EQUIVALENT)))];
        }
      }
      r := Success(OverlayFields(metadataMap));
  }
}
