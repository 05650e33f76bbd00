/** The transport-level values one request handler sees: the request as it
    arrives (method, target, body chunks in arrival order) and the response it
    writes (status, Content-Type, body). */
module Http {

  type Byte = bv8
  type Bytes = seq<Byte>

  datatype Option<T> = None | Some(value: T)

  /** One inbound request: the method name as sent (`req.method`), the raw request target
      (`req.url`) and the body as the chunks the `data` events deliver. */
  datatype Request = Request(verb: string, url: string, chunks: seq<Bytes>)

  /** What `res.end` is given: a fixed text message or the stored image bytes. */
  datatype Payload = Text(message: string) | Image(bytes: Bytes)

  datatype Response = Response(status: nat, contentType: string, body: Payload)

  const TextPlain: string := "text/plain"
  const ImageJpeg: string := "image/jpeg"

  const BadRequest := Response(400, TextPlain, Text("Bad Request: Invalid HTTP code\n"))
  const MethodNotAllowed := Response(405, TextPlain, Text("Method Not Allowed\n"))
  const NotFound := Response(404, TextPlain, Text("Not Found\n"))
  const Created := Response(201, TextPlain, Text("Created\n"))
  const Deleted := Response(200, TextPlain, Text("OK\n"))
  const InternalServerError := Response(500, TextPlain, Text("Internal Server Error\n"))

  /** The successful GET: the stored bytes, labelled as a JPEG whatever they hold. */
  function ImageResponse(bytes: Bytes): Response
  {
    Response(200, ImageJpeg, Image(bytes))
  }
}
