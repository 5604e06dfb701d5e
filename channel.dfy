/** The shapes that go back over the method channel: the Flutter
    MethodChannel.Result receives exactly one of success(payload),
    error(code, message, details) or notImplemented(). */
module Channel {
  import opened JavaLang

  /** A value of the catalog map: getTime() of a date, a coordinate, a string. */
  datatype CatalogValue = Millis(millis: int) | Degrees(degrees: real) | Text(text: string)

  /** One directory of the full dump: key to value, null values kept. */
  type DirMap = map<string, Option<string>>

  /** The full dump: directory name to its map. */
  type MetadataMap = map<string, DirMap>

  datatype Payload =
    | AllMetadata(directories: MetadataMap)
    | CatalogFields(catalog: map<string, CatalogValue>)
    | OverlayFields(overlay: map<string, Option<string>>)

  /** The details argument of error(...) is not modelled. */
  datatype Reply = Success(payload: Payload) | Error(code: string, message: string) | NotImplemented

  /** An error code: the operation's name, a dash, the kind of failure. */
  function ErrorCode(operation: string, kind: string): string {
    operation + "-" + kind
  }

  /** The message every error starts with: it names the path (null prints "null"). */
  function FailureMessage(path: Option<string>): string {
    "failed to get metadata for path=" + Show(path)
  }

  /** The longer message of the clauses that append the exception's own message. */
  function FailureMessageWith(path: Option<string>, exceptionMessage: Option<string>): (m: string)
    ensures FailureMessage(path) <= m
  {
    FailureMessage(path) + " (" + Show(exceptionMessage) + ")"
  }
}
