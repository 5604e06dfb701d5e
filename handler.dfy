/** MetadataHandler.onMethodCall: the three method names of the
    "deckers.thibault/aves/metadata" channel, each routed to its operation;
    any other name is not implemented. */
module MetadataHandler {
  import opened JavaLang
  import opened MediaModel
  import opened Channel
  import opened VideoFallback
  import opened FullDump
  import opened Catalog
  import opened Overlay

  const CHANNEL: string := "deckers.thibault/aves/metadata"

  const GET_ALL_METADATA: string := FullDump.OPERATION
  const GET_CATALOG_METADATA: string := Catalog.OPERATION
  const GET_OVERLAY_METADATA: string := Overlay.OPERATION

  /** A call on the channel: the method name and the "path" argument (null when missing). */
  datatype MethodCall = MethodCall(methodName: string, path: Option<string>)

  predicate IsHandled(methodName: string) {
    methodName == GET_ALL_METADATA || methodName == GET_CATALOG_METADATA || methodName == GET_OVERLAY_METADATA
  }

  /** The reply to a call on a file the libraries report as media. */
  function HandleCall(call: MethodCall, media: MediaFile, platform: Platform): (r: Reply)
    ensures r.NotImplemented? <==> !IsHandled(call.methodName)
    ensures call.methodName == GET_ALL_METADATA ==> r == AllMetadataReply(call.path, media, platform)
    ensures call.methodName == GET_CATALOG_METADATA ==> r == CatalogReply(call.path, media)
    ensures call.methodName == GET_OVERLAY_METADATA ==> r == OverlayReply(call.path, media)
    ensures r.Error? ==> FailureMessage(call.path) <= r.message
    ensures IsHandled(call.methodName) && media.image.ReadFailed? && media.image.failure.FileNotFound? ==>
      r == Error(ErrorCode(call.methodName, "filenotfound"), FailureMessageWith(call.path, media.image.failure.message))
    ensures IsHandled(call.methodName) && media.image == ReadFailed(OtherException) ==>
      r == Error(ErrorCode(call.methodName, "exception"), FailureMessage(call.path))
    ensures media.image.ReadFailed? && media.image.failure.ImageProcessing? ==>
      && (call.methodName == GET_ALL_METADATA ==> r == FallbackReply(call.path, media.video, platform))
      && (call.methodName == GET_CATALOG_METADATA ==> r == Error(ErrorCode(GET_CATALOG_METADATA, "exception"), FailureMessage(call.path)))
      && (call.methodName == GET_OVERLAY_METADATA ==>
            r == Error(ErrorCode(GET_OVERLAY_METADATA, "imageprocessing"), FailureMessageWith(call.path, media.image.failure.message)))
    ensures media.image.Parsed? && (call.methodName == GET_ALL_METADATA || call.methodName == GET_OVERLAY_METADATA) ==>
      r.Success?
  {
    if call.methodName == GET_ALL_METADATA then AllMetadataReply(call.path, media, platform)
    else if call.methodName == GET_CATALOG_METADATA then CatalogReply(call.path, media)
    else if call.methodName == GET_OVERLAY_METADATA then OverlayReply(call.path, media)
    else NotImplemented
  }

  method OnMethodCall(call: MethodCall, media: MediaFile, platform: Platform) returns (r: Reply)
    ensures r == HandleCall(call, media, platform)
  {
    if call.methodName == GET_ALL_METADATA {
      r := GetAllMetadata(call.path, media, platform);
    } else if call.methodName == GET_CATALOG_METADATA {
      r := GetCatalogMetadata(call.path, media);
    } else if call.methodName == GET_OVERLAY_METADATA {
      r := GetOverlayMetadata(call.path, media);
    } else {
      r := NotImplemented;
    }
  }
}
