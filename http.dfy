/** The parts of net/http's response that the core reads and writes. */
module Http {
  import opened Base

  /** http.Header: a canonical header name to its list of values. Keys are
      assumed to be in canonical form already, as net/http stores them. */
  type Header = map<string, seq<string>>

  /** Header.Get: the first value, or "" when there is none. */
  function GetHeader(h: Header, key: string): (v: string)
    ensures key in h && |h[key]| > 0 ==> v == h[key][0]
    ensures key in h && |h[key]| == 0 ==> v == ""
    ensures key !in h ==> v == ""
  {
    if key in h && |h[key]| > 0 then h[key][0] else ""
  }

  /** Header.Set: replaces every value of `key` by `value`, other keys kept. */
  function SetHeader(h: Header, key: string, value: string): (h': Header)
    ensures GetHeader(h', key) == value
    ensures h'.Keys == h.Keys + {key}
    ensures forall k :: k in h && k != key ==> h'[k] == h[k]
  {
    h[key := [value]]
  }

  /** A response body as an io.Reader: it yields `data` and then either
      reaches the end of the stream or, when `failure` is present, fails. */
  datatype Body = Body(data: seq<byte>, failure: Option<Error>)

  /** A body that yields exactly `b`, as ioutil.NopCloser(bytes.NewReader(b)). */
  function BytesBody(b: seq<byte>): Body {
    Body(b, None)
  }

  /** What is left of a body once it has been read to its end. */
  function Drained(b: Body): Body {
    Body([], b.failure)
  }

  /** *http.Response: header, body and ContentLength field, and the path of
      the request it answers (r.Request.URL.Path). `bodyReads` counts how
      often the body was read, so that a contract can say it was not. */
  class Response {
    var header: Header
    var body: Body
    var contentLength: int
    const path: string
    ghost var bodyReads: nat

    constructor (header: Header, body: Body, contentLength: int, path: string)
      ensures this.header == header && this.body == body
      ensures this.contentLength == contentLength && this.path == path
      ensures bodyReads == 0
    {
      this.header := header;
      this.body := body;
      this.contentLength := contentLength;
      this.path := path;
      bodyReads := 0;
    }
  }

  /** mime.ParseMediaType, reduced to the media type it yields, or None on
      a parse error. It is outside the model. */
  type MediaTypeParser = string -> Option<string>

  /** mediaType(r): the media type of Content-Type without parameters, or
      "" when the header is absent, empty or does not parse. */
  function MediaType(parse: MediaTypeParser, h: Header): (mt: string)
    ensures GetHeader(h, "Content-Type") == "" ==> mt == ""
    ensures mt != "" ==> parse(GetHeader(h, "Content-Type")) == Some(mt)
    ensures parse(GetHeader(h, "Content-Type")).None? ==> mt == ""
    ensures GetHeader(h, "Content-Type") != "" && parse(GetHeader(h, "Content-Type")).Some? ==>
      mt == parse(GetHeader(h, "Content-Type")).value
  {
    var ct := GetHeader(h, "Content-Type");
    if ct == "" then ""
    else match parse(ct)
      case None => ""
      case Some(t) => t
  }
}
