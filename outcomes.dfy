/** Values that stand for Python's `None` and for exceptions that escape a call. */
module Outcomes {

  /** `Optional[T]`: `None` or a value. */
  datatype Option<+T> = None | Some(value: T)

  /** The exceptions the modelled code can raise or catch. */
  datatype Exception =
    | KeyError(key: string)     // a missing dictionary/attribute key
    | ValueError                // `float(...)` of a malformed string, and other value errors
    | AttributeError            // `None.strip()`
    | BinasciiError             // `binascii.Error` from the base64 codec
    | ZlibError                 // `zlib.error` from the decompressor
    | ParseError                // `xml.etree.ElementTree.ParseError`
    | ConnectionError           // a transport failure of an HTTP request

  /** The result of a Python call: it returned a value or raised an exception. */
  datatype Outcome<+T> = Returned(value: T) | Raised(error: Exception)
}
