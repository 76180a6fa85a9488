/**
 * The library's closed error taxonomy (`LibError`) and the text each variant displays as.
 * Every other module reports its failures with these values.
 */
module Errors {
  import opened Strings

  /** A transport error of the HTTP library, kept opaque: only its own message is observable. */
  datatype TransportError = TransportError(message: string)

  /**
   * The seven failure kinds. Only `IOError` and `NotFound` carry data; converting a transport
   * error into a `LibError` (what `?` does on a failed request build or body read) is the
   * constructor `IOError` itself, which keeps the cause unchanged.
   */
  datatype LibError =
    | InternalServerError
    | TimeOut
    | IOError(cause: TransportError)
    | NotFound(resource: string)
    | Unauthorized
    | Forbidden
    | InvalidDeviceMode

  const NOT_FOUND_SUFFIX := ", Not found"

  /** The `Display` text of an error. */
  function Display(e: LibError): (msg: string)
    ensures e.NotFound? ==> |msg| == |e.resource| + |NOT_FOUND_SUFFIX|
                            && msg[..|e.resource|] == e.resource
                            && msg[|e.resource|..] == NOT_FOUND_SUFFIX
    ensures !e.NotFound? ==> forall i :: 0 <= i < |msg| ==> msg[i] != ','
  {
    match e
    case InternalServerError => "InternalError"
    case TimeOut => "request timeout"
    case IOError(_) => "IOError"
    case NotFound(r) => r + NOT_FOUND_SUFFIX
    case Unauthorized => "Unauthorized"
    case Forbidden => "Forbidden"
    case InvalidDeviceMode => "Invalid device mode"
  }

  /**
   * The displayed text identifies the error, except that every transport cause displays the
   * same "IOError".
   */
  lemma DisplayIdentifiesError(e1: LibError, e2: LibError)
    requires Display(e1) == Display(e2)
    ensures e1.IOError? <==> e2.IOError?
    ensures !e1.IOError? ==> e1 == e2
  {
    if e1.NotFound? {
      assert Display(e1)[|e1.resource|] == NOT_FOUND_SUFFIX[0] == ',';
    }
    if e2.NotFound? {
      assert Display(e2)[|e2.resource|] == NOT_FOUND_SUFFIX[0] == ',';
    }
    if e1.NotFound? && e2.NotFound? {
      var r1, r2 := e1.resource, e2.resource;
      assert |r1| == |r2|;
      assert r1 == Display(e1)[..|r1|] == r2;
    }
  }
}
