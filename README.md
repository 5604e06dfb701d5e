# Aves metadata handler, modelled in Dafny

This project models the Android side of the Aves media browser that answers
the `deckers.thibault/aves/metadata` method channel
(`MetadataHandler.java`). Given a file path, the handler answers one of three
calls:

- `getAllMetadata`: the full dump. Every metadata-extractor directory that has
  tags becomes a map from tag name to description. In an XMP directory, the
  XMP properties whose path and value are both non-empty are laid over the
  tags. When the image reader does not recognise the format, the dump is built
  instead by `getAllVideoMetadataFallback` from `MediaMetadataRetriever`. That
  fallback fills one directory named `""` by walking a key table, writing
  bitrates as a file size per second and rotations with a degree sign.
- `getCatalogMetadata`: the capture date in epoch milliseconds, the GPS
  latitude and longitude, and the `dc:subject` keywords joined as
  `" " + item` for each item.
- `getOverlayMetadata`: aperture, exposure time, focal length and ISO
  (prefixed `"ISO"`), taken from the first EXIF Sub-IFD directory.

Any other method name is answered with `notImplemented`. Each exception kind
maps to an error code of the form `<operation>-<kind>`, or, for the full dump,
to the video fallback.

The parsing libraries are not modelled. What they would report for a path is
an input, `MediaModel.MediaFile`:

- the outcome of opening and reading the still image: its directories, or
  `FileNotFoundException`, `ImageProcessingException` or any other exception;
- for each directory, its name, its tags (type, name, description, string
  value) and its class, with the values of `getDate`, `getGeoLocation`, the
  XMP property iterator and the `dc:subject` queries;
- the values `MediaMetadataRetriever` extracts per key, or a
  `setDataSource` failure.

Java `null` is `None`. String concatenation with a null String gives
`"null"`, as in Java. The XMP iterator is a sequence of events in which
`XmpFailure` marks where an `XMPException` is thrown. `Constants.MEDIA_METADATA_KEYS`
(its entries in iteration order) and `Formatter.formatFileSize` are parameters.
The Flutter `MethodChannel.Result` is the datatype
`Reply = Success(payload) | Error(code, message) | NotImplemented`.

The modules follow the handler's parts:

- `JavaLang`: null strings and `Long.parseLong`.
- `HashMaps`: a run of `HashMap.put` calls in which the last write wins.
- `MediaModel`: the library outputs and their lookups.
- `Channel`: the replies.
- `FullDump`, `VideoFallback`, `Catalog`, `Overlay`: one module per
  operation.
- `MetadataHandler`: the dispatch.

Each loop of the source is a method with a loop. The method's contract ties
its result to a specification function, and the lemmas beside it state what
that function means.

Behaviours of the code that are easy to miss:

- An XMP property is skipped only when its path or value is null or empty.
  Blank strings are not trimmed.
- When the EXIF Sub-IFD holds `DATETIME_ORIGINAL` but `getDate` cannot parse
  it, `getTime()` is called on null. The whole catalog call then fails with
  `getCatalogMetadata-exception`; the date is not simply omitted.
- An unrecognised format fails `getCatalogMetadata` with the generic code
  `getCatalogMetadata-exception`. It has no code of its own.
- In `getAllVideoMetadataFallback`, any exception (including a bitrate that
  is not a number) fails the whole call. Nothing is swallowed per key.
- Errors carry a code string and a message that names the path. There is no
  separate kind or operation field.
- The retriever is released only on the success path. The model does not
  claim release on every path.

## Model

| member | source | states |
|---|---|---|
| `JavaLang.ParseLong` | android/app/src/main/java/deckers/thibault/aves/channelhandlers/MetadataHandler.java:126 | a bitrate parses only when, after one optional sign, it is a non-empty run of digits (so an empty string or a lone sign throws), and its value lies in the 64-bit range |
| `JavaLang.ParseLongRoundTrip` | android/app/src/main/java/deckers/thibault/aves/channelhandlers/MetadataHandler.java:126 | every long value printed in decimal parses back to itself |
| `JavaLang.ParseLongOutOfRange` | android/app/src/main/java/deckers/thibault/aves/channelhandlers/MetadataHandler.java:126 | the decimal text of a value outside the 64-bit range makes the parse throw |
| `JavaLang.ParseLongRejectsNonDigit` | android/app/src/main/java/deckers/thibault/aves/channelhandlers/MetadataHandler.java:126 | a character that is neither a digit nor a leading sign makes the parse throw |
| `HashMaps.PutAllKeys` | android/app/src/main/java/deckers/thibault/aves/channelhandlers/MetadataHandler.java:74-77 | after a run of puts, a key is present exactly when it was before or some put names it |
| `HashMaps.PutAllUntouched` | android/app/src/main/java/deckers/thibault/aves/channelhandlers/MetadataHandler.java:85-91 | a key that no put names keeps its presence and its value |
| `HashMaps.PutAllLastWins` | android/app/src/main/java/deckers/thibault/aves/channelhandlers/MetadataHandler.java:74-77 | a key's value is the one its last put gave it |
| `HashMaps.PutAllTwice` | android/app/src/main/java/deckers/thibault/aves/channelhandlers/MetadataHandler.java:85-91 | repeating the same run of puts changes nothing (idempotence) |
| `MediaModel.FindTag` | android/app/src/main/java/deckers/thibault/aves/channelhandlers/MetadataHandler.java:200-211 | `containsTag` holds exactly when some tag has the type; the tag found is the first one of that type |
| `MediaModel.FirstDirectoryOfType` | android/app/src/main/java/deckers/thibault/aves/channelhandlers/MetadataHandler.java:150 | the directory found is one of the file's directories, has the type, and no earlier directory has it; null exactly when no directory has the type |
| `Channel.FailureMessageWith` | android/app/src/main/java/deckers/thibault/aves/channelhandlers/MetadataHandler.java:103 | the message with the exception's text still begins with the path message |
| `VideoFallback.FallbackReply` | android/app/src/main/java/deckers/thibault/aves/channelhandlers/MetadataHandler.java:109-140 | a success has exactly one directory key, `""`, holding `FallbackDirectory` (the key table's puts, each value formatted by `FormatValue`); the call fails, with `getAllVideoMetadataFallback-exception`, exactly when the source is rejected or the table's bitrate value is present and not a long |
| `VideoFallback.GetAllVideoMetadataFallback` | android/app/src/main/java/deckers/thibault/aves/channelhandlers/MetadataHandler.java:112-140 | the key-table loop returns the fallback reply, including the early error on an unparsable bitrate |
| `VideoFallback.FallbackFields` | android/app/src/main/java/deckers/thibault/aves/channelhandlers/MetadataHandler.java:120-133 | the keys of `FallbackDirectory` are exactly the field names of the table entries that have a value; absent keys are omitted |
| `VideoFallback.FallbackFieldValue` | android/app/src/main/java/deckers/thibault/aves/channelhandlers/MetadataHandler.java:122-132 | a field of `FallbackDirectory` holds its last entry's value as `FormatValue` formats it: bitrate as `formatFileSize(parseLong(v)) + "/sec"`, rotation as `v + "°"`, anything else unchanged |
| `FullDump.ReadTags` | android/app/src/main/java/deckers/thibault/aves/channelhandlers/MetadataHandler.java:76-78 | the tag loop builds the map of tag names to descriptions |
| `FullDump.TagMapKeys` | android/app/src/main/java/deckers/thibault/aves/channelhandlers/MetadataHandler.java:76-78 | a directory map's keys are exactly its tag names |
| `FullDump.TagMapLastWins` | android/app/src/main/java/deckers/thibault/aves/channelhandlers/MetadataHandler.java:76-78 | a tag name maps to the description of its last tag; a later tag overwrites an earlier one |
| `FullDump.MergeXmp` | android/app/src/main/java/deckers/thibault/aves/channelhandlers/MetadataHandler.java:79-96 | the XMP while loop puts each usable property delivered before any XMPException over the map |
| `FullDump.XmpKeys` | android/app/src/main/java/deckers/thibault/aves/channelhandlers/MetadataHandler.java:85-91 | the keys of an XMP directory's `DirContents` are its tag names plus the paths of the properties delivered before any failure that pass `IsUsable` (path and value non-null and non-empty), and nothing else |
| `FullDump.XmpOverridesTags` | android/app/src/main/java/deckers/thibault/aves/channelhandlers/MetadataHandler.java:89-90 | a property passing `IsUsable` overwrites a tag with the same key in `DirContents`; the last delivered one wins |
| `FullDump.XmpLeavesOtherTags` | android/app/src/main/java/deckers/thibault/aves/channelhandlers/MetadataHandler.java:85-91 | tags that no usable property names keep their descriptions |
| `FullDump.XmpFailureKeepsEarlierEntries` | android/app/src/main/java/deckers/thibault/aves/channelhandlers/MetadataHandler.java:79-96 | a directory whose XMP walk fails part way keeps its tags and the properties put before the failure, as if the walk had ended there |
| `FullDump.XmpMergeIdempotent` | android/app/src/main/java/deckers/thibault/aves/channelhandlers/MetadataHandler.java:83-92 | flattening the same XMP properties again leaves the directory map unchanged |
| `FullDump.ReadDirectories` | android/app/src/main/java/deckers/thibault/aves/channelhandlers/MetadataHandler.java:68-98 | the nested directory, tag and XMP loops build the full dump |
| `FullDump.DumpKeys` | android/app/src/main/java/deckers/thibault/aves/channelhandlers/MetadataHandler.java:70-74 | a name is a key of `Dump` exactly when some directory of that name has tags |
| `FullDump.DumpLastNamesakeWins` | android/app/src/main/java/deckers/thibault/aves/channelhandlers/MetadataHandler.java:70-74 | of several directories with tags and one name, the last one's map replaces the earlier ones entirely |
| `FullDump.DumpKeepsDistinctDirectories` | android/app/src/main/java/deckers/thibault/aves/channelhandlers/MetadataHandler.java:70-78 | when names are distinct, every directory with tags appears with all of its entries |
| `FullDump.AllMetadataReply` | android/app/src/main/java/deckers/thibault/aves/channelhandlers/MetadataHandler.java:65-106 | a parsed image always succeeds with the dump, whatever its XMP failures; ImageProcessingException gives the fallback's reply; a missing file gives `getAllMetadata-filenotfound`; any other exception gives `getAllMetadata-exception`; every error message names the path |
| `FullDump.GetAllMetadata` | android/app/src/main/java/deckers/thibault/aves/channelhandlers/MetadataHandler.java:65-107 | the operation returns the reply described by `AllMetadataReply` |
| `Catalog.JoinKeywords` | android/app/src/main/java/deckers/thibault/aves/channelhandlers/MetadataHandler.java:173-179 | the 1..count StringBuilder loop builds `Keywords`, the text of `" " + item` for each item, a null item reading "null" |
| `Catalog.KeywordsConcat` | android/app/src/main/java/deckers/thibault/aves/channelhandlers/MetadataHandler.java:173-177 | the keyword text of a concatenation of item lists is the concatenation of their texts, one `" " + item` per item |
| `Catalog.KeywordsExamples` | android/app/src/main/java/deckers/thibault/aves/channelhandlers/MetadataHandler.java:173-179 | `["a","b"]` gives `" a b"`, and an empty array gives `""` |
| `Catalog.WordsOfKeywords` | android/app/src/main/java/deckers/thibault/aves/channelhandlers/MetadataHandler.java:173-177 | when no item holds a space, splitting the keyword text gives back the items, so the join loses nothing |
| `Catalog.CatalogMap` | android/app/src/main/java/deckers/thibault/aves/channelhandlers/MetadataHandler.java:147-185 | `dateMillis` is present exactly when the first EXIF Sub-IFD holds DATETIME_ORIGINAL; latitude and longitude are both present or both absent, present exactly when a GPS directory has a non-null location; `keywords` is present exactly when `dc:subject` exists, with the joined items; an unparsable date fails the call; there are no other keys |
| `Catalog.CatalogReply` | android/app/src/main/java/deckers/thibault/aves/channelhandlers/MetadataHandler.java:143-190 | a missing file gives `getCatalogMetadata-filenotfound`; every other exception, ImageProcessingException included, gives `getCatalogMetadata-exception`; a parsed file succeeds exactly when `CatalogMap` does not throw, and then carries that map; every error message names the path |
| `Catalog.GetCatalogMetadata` | android/app/src/main/java/deckers/thibault/aves/channelhandlers/MetadataHandler.java:143-191 | the operation returns the reply described by `CatalogReply` |
| `Overlay.OverlayMap` | android/app/src/main/java/deckers/thibault/aves/channelhandlers/MetadataHandler.java:197-212 | each of `aperture`, `exposureTime`, `focalLength` and `iso` is present exactly when its tag is, with the description (the string value for exposure time), and `iso` is `"ISO" + description`; with no EXIF Sub-IFD the map is empty |
| `Overlay.OverlayReply` | android/app/src/main/java/deckers/thibault/aves/channelhandlers/MetadataHandler.java:193-220 | a parsed file always succeeds; ImageProcessingException gives `getOverlayMetadata-imageprocessing`; a missing file gives `getOverlayMetadata-filenotfound`; any other exception gives `getOverlayMetadata-exception`; every error message names the path |
| `Overlay.GetOverlayMetadata` | android/app/src/main/java/deckers/thibault/aves/channelhandlers/MetadataHandler.java:193-221 | the operation returns the reply described by `OverlayReply` |
| `MetadataHandler.HandleCall` | android/app/src/main/java/deckers/thibault/aves/channelhandlers/MetadataHandler.java:47-63 | each method name routes to its own operation: `getAllMetadata` answers `AllMetadataReply`, `getCatalogMetadata` answers `CatalogReply`, `getOverlayMetadata` answers `OverlayReply`, and `notImplemented` is answered exactly for any other name; so a missing file gives `<method>-filenotfound` and other exceptions `<method>-exception` for all three methods, ImageProcessingException sends the full dump to the fallback but fails the catalog and the overlay with their own codes, and error messages always name the path |
| `MetadataHandler.OnMethodCall` | android/app/src/main/java/deckers/thibault/aves/channelhandlers/MetadataHandler.java:48-63 | the dispatch returns the reply described by `HandleCall` |

## Left out

- Opening the file, try-with-resources and closing the stream are I/O. If `close()` threw after a reply was sent, Java would send a second reply; the model does not capture that.
- `retriever.release()` only runs on the success path. Handle release is a resource concern and is not modelled.
- The parsing libraries are inputs, not models: `ImageMetadataReader.readMetadata`, `XMPMeta.sort` and `iterator`, the `dc:subject` queries, `getDate` with the default time zone, and `GpsDirectory.getGeoLocation`. The model does not check that the two XMP views of one directory agree.
- Runtime exceptions a library accessor could throw after the file is parsed are not modelled: in the directory loop of `getAllMetadata` (other than `XMPException`) and in the parsed branches of `getCatalogMetadata` and `getOverlayMetadata`. In Java they would give an `<operation>-exception` reply. The model gives that reply only when the read itself fails (`ReadFailed(OtherException)`) or, in the catalog, for an unparsable date.
- `Formatter.formatFileSize` is a parameter function. The contents of `Constants.MEDIA_METADATA_KEYS` are a parameter sequence.
- `JavaLang.ParseLong`: accepts only ASCII digits. Java's `Character.digit` also accepts other Unicode decimal digits.
- Latitude and longitude are copied as `real` values; floating-point behaviour is not modelled.
- The `details` argument of `result.error` (the exception object) and the `printStackTrace` logging are not modelled.
- Aliasing: Java puts each directory map into the dump before filling it. The model puts the finished map, which gives the same final contents.
- Iteration order of the Java `HashMap`s is not modelled; the model's maps are unordered.
- The Flutter channel transport is not modelled; only the reply datatype is.
- `VideoThumbnailFetcher.java` (thumbnail extraction and PNG compression) and `TiffRegionFetcher.kt` (a wrapper over the native TIFF decoder) are not part of this model. They are I/O and image codec work.
