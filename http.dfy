/** The request and response values the route handlers exchange. */
module Http {
  import opened Store

  /** A value read from a parsed JSON request body. Undefined is an absent
      property; Other stands for an object or an array. Numbers are integral. */
  datatype Json = Undefined | Null | Num(n: int) | Str(s: string) | Bool(b: bool) | Other

  /** JavaScript truthiness of a JSON value: undefined, null, 0, "" and false are falsy. */
  predicate Truthy(v: Json) {
    match v
    case Undefined => false
    case Null => false
    case Num(n) => n != 0
    case Str(s) => s != []
    case Bool(b) => b
    case Other => true
  }

  /** A response body: an error object, a feed page, or one image record. */
  datatype Body =
    | ErrorBody(error: string)
    | FeedBody(images: seq<Image>, total: int, page: int, totalPages: int)
    | ImageBody(image: Image)

  datatype Response = Response(status: int, body: Body)

  function Error(status: int, message: string): Response {
    Response(status, ErrorBody(message))
  }
}
