/** Content-encoding selection and the codec-aware body reset of the
    `response` wrapper. The compressors of gzip, zlib and brotli are
    outside the model and are given as opaque functions. */
module Encoding {
  import opened Base
  import opened GoStrings
  import opened Http

  /** The contentEncode implementation a response gets. */
  datatype Codec = Identity | Gzip | Deflate | Brotli

  /** A compression library as the codecs use it: `compress` writes a whole
      buffer through the library's writer and closes it; `decompress` reads
      a whole stream through the library's reader. Either may fail. */
  datatype Compressor = Compressor(
    compress: seq<byte> -> Result<seq<byte>>,
    decompress: Body -> Result<seq<byte>>)

  datatype Compressors = Compressors(gzip: Compressor, zlib: Compressor, brotli: Compressor)

  /** What encode returns: the new body stream and the length it reports. */
  datatype Encoded = Encoded(stream: seq<byte>, clen: int)

  /** The label newResponse recognises for a codec. */
  function Label(c: Codec): (l: string)
    ensures forall i :: 0 <= i < |l| ==> 'a' <= l[i] <= 'z'
  {
    match c
    case Identity => ""
    case Gzip => "gzip"
    case Deflate => "deflate"
    case Brotli => "br"
  }

  /** newResponse's switch on the lower-cased Content-Encoding value. */
  function SelectCodec(contentEncoding: string): Codec {
    match ToLower(contentEncoding)
    case "gzip" => Gzip
    case "deflate" => Deflate
    case "br" => Brotli
    case _ => Identity
  }

  /** The choice depends on the value only up to ASCII case; every value
      that is not one of the three labels selects identity, never an error. */
  lemma SelectCodecSpec(contentEncoding: string)
    ensures SelectCodec(contentEncoding) != Identity ==> ToLower(contentEncoding) == Label(SelectCodec(contentEncoding))
    ensures SelectCodec(contentEncoding) == Identity <==> ToLower(contentEncoding) !in {"gzip", "deflate", "br"}
  {
  }

  /** Any spelling of a label, whatever its case, selects that label's codec. */
  lemma SelectCodecIgnoresCase(contentEncoding: string, c: Codec)
    requires c != Identity && EqualFold(contentEncoding, Label(c))
    ensures SelectCodec(contentEncoding) == c
  {
    EqualFoldLower(contentEncoding, Label(c));
    LowerFixed(Label(c));
  }

  /** An absent header selects identity. */
  lemma SelectCodecAbsent(h: Header)
    requires "Content-Encoding" !in h
    ensures SelectCodec(GetHeader(h, "Content-Encoding")) == Identity
  {
  }

  function CompressorOf(cs: Compressors, c: Codec): Compressor
    requires c != Identity
  {
    match c
    case Gzip => cs.gzip
    case Deflate => cs.zlib
    case Brotli => cs.brotli
  }

  /** contentEncode.decode. The identity codec is ioutil.ReadAll: the
      body's bytes, or its error. */
  function Decode(cs: Compressors, c: Codec, body: Body): (r: Result<seq<byte>>)
    ensures c == Identity ==> r == (if body.failure.Some? then Err(body.failure.value) else Ok(body.data))
  {
    if c == Identity then
      (if body.failure.Some? then Err(body.failure.value) else Ok(body.data))
    else CompressorOf(cs, c).decompress(body)
  }

  /** contentEncode.encode: the identity codec passes the bytes through with
      their own length and never fails; a compressor reports the length of
      the buffer it filled. */
  function Encode(cs: Compressors, c: Codec, b: seq<byte>): (r: Result<Encoded>)
    ensures r.Ok? ==> r.value.clen == |r.value.stream|
    ensures c == Identity ==> r == Ok(Encoded(b, |b|))
    ensures c != Identity ==> (r.Err? <==> CompressorOf(cs, c).compress(b).Err?)
  {
    if c == Identity then Ok(Encoded(b, |b|))
    else match CompressorOf(cs, c).compress(b)
      case Err(e) => Err(e)
      case Ok(stream) => Ok(Encoded(stream, |stream|))
  }

  /** A compressor whose reader gives back what its writer was given. */
  ghost predicate RoundTrips(k: Compressor) {
    forall b :: k.compress(b).Ok? ==> k.decompress(BytesBody(k.compress(b).value)) == Ok(b)
  }

  /** Decoding what was encoded gives back the bytes: always for identity,
      and for a compressor whenever its library round-trips. */
  lemma CodecRoundTrip(cs: Compressors, c: Codec, b: seq<byte>)
    requires c != Identity ==> RoundTrips(CompressorOf(cs, c))
    requires Encode(cs, c, b).Ok?
    ensures Decode(cs, c, BytesBody(Encode(cs, c, b).value.stream)) == Ok(b)
  {
    if c != Identity {
      var k := CompressorOf(cs, c);
      assert k.compress(b).Ok?;
    }
  }

  /** The `response` wrapper: the codec is chosen once, when the wrapper is
      made, so reading and setting the body always use the same one. */
  class CodedResponse {
    const res: Response
    const ce: Codec

    /** newResponse. */
    constructor (res: Response)
      ensures this.res == res
      ensures ce == SelectCodec(GetHeader(res.header, "Content-Encoding"))
    {
      this.res := res;
      ce := SelectCodec(GetHeader(res.header, "Content-Encoding"));
    }

    /** response.mediaType: the same function as substitute.go's. */
    function MediaTypeOf(parse: MediaTypeParser): string
      reads res
    {
      MediaType(parse, res.header)
    }

    /** response.path. */
    function PathOf(): string {
      res.path
    }

    /** response.readBody: the body decoded with this response's codec. */
    method ReadBody(cs: Compressors) returns (r: Result<seq<byte>>)
      modifies res
      ensures r == Decode(cs, ce, old(res.body))
      ensures res.body == Drained(old(res.body)) && res.bodyReads == old(res.bodyReads) + 1
      ensures res.header == old(res.header) && res.contentLength == old(res.contentLength)
    {
      r := Decode(cs, ce, res.body);
      res.body := Drained(res.body);
      res.bodyReads := res.bodyReads + 1;
    }

    /** response.setBody: encodes with this response's codec; on an error
        nothing changes, otherwise the body is the encoded stream and both
        the header and the field give the length encode reported. */
    method SetBody(cs: Compressors, b: seq<byte>) returns (err: Option<Error>)
      modifies res
      ensures Encode(cs, ce, b).Err? ==> err == Some(Encode(cs, ce, b).error) && unchanged(res)
      ensures Encode(cs, ce, b).Ok? ==>
        var enc := Encode(cs, ce, b).value;
        && err == None && res.body == BytesBody(enc.stream)
        && res.header == SetHeader(old(res.header), "Content-Length", Decimal(enc.clen))
        && res.contentLength == enc.clen == |enc.stream|
        && res.bodyReads == old(res.bodyReads)
    {
      var e := Encode(cs, ce, b);
      if e.Err? {
        return Some(e.error);
      }
      res.body := BytesBody(e.value.stream);
      res.header := SetHeader(res.header, "Content-Length", Decimal(e.value.clen));
      res.contentLength := e.value.clen;
      return None;
    }
  }
}
