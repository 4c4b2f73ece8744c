/**
 * `read_pob_to_xml`: a build code is base64-decoded (URL-safe alphabet), inflated and parsed
 * as XML. The three library calls are the parameters `b64`, `inflate` and `parse`; what is
 * modelled is the guard in front of them and which of their exceptions are caught.
 */
module BuildDecoder {
  import opened Outcomes
  import opened Document

  newtype byte = x: int | 0 <= x < 256

  type Bytes = seq<byte>

  /** `not pob_code`: `None` or the empty string. */
  predicate EmptyCode(code: Option<string>)
  {
    code.None? || code.value == []
  }

  /** The two exceptions the `except` clauses name. */
  predicate Caught(e: Exception)
  {
    e == BinasciiError || e == ZlibError
  }

  /**
   * The `try` block: the decoded and inflated bytes, or the exception of the first call that
   * raised one.
   */
  function Unpack(code: string, b64: string -> Outcome<Bytes>, inflate: Bytes -> Outcome<Bytes>): (r: Outcome<Bytes>)
    ensures r.Returned? <==> b64(code).Returned? && inflate(b64(code).value).Returned?
    ensures r.Returned? ==> r.value == inflate(b64(code).value).value
    ensures r.Raised? ==>
      || b64(code) == Raised(r.error)
      || (b64(code).Returned? && inflate(b64(code).value) == Raised(r.error))
  {
    match b64(code)
    case Raised(e) => Raised(e)
    case Returned(decoded) => inflate(decoded)
  }

  /**
   * `read_pob_to_xml(pob_code)`. An empty code gives `None` before any call; a caught error of
   * the `try` block gives `None`; any other error of the block escapes; `parse` runs in the
   * `else` clause, outside the handlers, so whatever it raises escapes too.
   */
  function ReadPobToXml(code: Option<string>, b64: string -> Outcome<Bytes>, inflate: Bytes -> Outcome<Bytes>,
                        parse: Bytes -> Outcome<Element>): (r: Outcome<Option<Element>>)
    ensures EmptyCode(code) ==> r == Returned(None)
    ensures r.Returned? && r.value.Some? ==>
      && !EmptyCode(code)
      && Unpack(code.value, b64, inflate).Returned?
      && parse(Unpack(code.value, b64, inflate).value) == Returned(r.value.value)
  {
    if EmptyCode(code) then Returned(None)
    else match Unpack(code.value, b64, inflate)
      case Raised(e) => if Caught(e) then Returned(None) else Raised(e)
      case Returned(decompressed) =>
        match parse(decompressed)
        case Raised(e) => Raised(e)
        case Returned(root) => Returned(Some(root))
  }

  /**
   * The result is `None` exactly when the code is empty or the base64 decoder or the
   * decompressor raised a base64 or zlib error.
   */
  lemma NoneCases(code: Option<string>, b64: string -> Outcome<Bytes>, inflate: Bytes -> Outcome<Bytes>,
                  parse: Bytes -> Outcome<Element>)
    ensures ReadPobToXml(code, b64, inflate, parse) == Returned(None) <==>
      || EmptyCode(code)
      || (b64(code.value).Raised? && Caught(b64(code.value).error))
      || (b64(code.value).Returned? && inflate(b64(code.value).value).Raised?
          && Caught(inflate(b64(code.value).value).error))
  {
    if !EmptyCode(code) {
      var u := Unpack(code.value, b64, inflate);
      if u.Returned? {
        assert ReadPobToXml(code, b64, inflate, parse) != Returned(None);
      }
    }
  }

  /** A code that decodes, inflates and parses gives the parsed document. */
  lemma DecodedDocument(code: string, b64: string -> Outcome<Bytes>, inflate: Bytes -> Outcome<Bytes>,
                        parse: Bytes -> Outcome<Element>, decoded: Bytes, xml: Bytes, root: Element)
    requires code != [] && b64(code) == Returned(decoded) && inflate(decoded) == Returned(xml)
    requires parse(xml) == Returned(root)
    ensures ReadPobToXml(Some(code), b64, inflate, parse) == Returned(Some(root))
  {
    assert Unpack(code, b64, inflate) == Returned(xml);
  }

  /**
   * An error escapes exactly when the `try` block raised one that is not caught, or the block
   * succeeded and `parse` raised; in both cases it is that error.
   */
  lemma RaisedCases(code: Option<string>, b64: string -> Outcome<Bytes>, inflate: Bytes -> Outcome<Bytes>,
                    parse: Bytes -> Outcome<Element>)
    ensures var r := ReadPobToXml(code, b64, inflate, parse);
      r.Raised? <==> !EmptyCode(code) && var u := Unpack(code.value, b64, inflate);
        (u.Raised? && !Caught(u.error)) || (u.Returned? && parse(u.value).Raised?)
    ensures var r := ReadPobToXml(code, b64, inflate, parse);
      r.Raised? ==> var u := Unpack(code.value, b64, inflate);
        if u.Raised? then r.error == u.error else r == Raised(parse(u.value).error)
  {
  }

  /**
   * When `parse` raises only `ParseError`, as `ET.fromstring` does, a base64 or zlib error never
   * escapes: whatever escapes was raised by the codecs and not caught, or is a `ParseError`.
   */
  lemma CodecErrorsNeverEscape(code: Option<string>, b64: string -> Outcome<Bytes>, inflate: Bytes -> Outcome<Bytes>,
                               parse: Bytes -> Outcome<Element>)
    requires forall x :: parse(x).Raised? ==> parse(x).error == ParseError
    ensures ReadPobToXml(code, b64, inflate, parse).Raised? ==> !Caught(ReadPobToXml(code, b64, inflate, parse).error)
  {
    RaisedCases(code, b64, inflate, parse);
  }
}
