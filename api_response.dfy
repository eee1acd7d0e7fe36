/** The JSON envelopes every HTTP endpoint answers with, and the arithmetic of
    offset pagination. */
module ApiResponse {
  import opened Wrappers
  import opened Json
  import opened Ints

  // Status codes, with the meanings section 15 of RFC 9110 gives them.
  const HTTP_OK: int := 200
  const HTTP_CREATED: int := 201
  const HTTP_NO_CONTENT: int := 204
  const HTTP_BAD_REQUEST: int := 400
  const HTTP_UNAUTHORIZED: int := 401
  const HTTP_FORBIDDEN: int := 403
  const HTTP_NOT_FOUND: int := 404
  const HTTP_CONFLICT: int := 409
  const HTTP_UNPROCESSABLE_ENTITY: int := 422
  const HTTP_INTERNAL_SERVER_ERROR: int := 500

  /** What a body says: a success carrying data, or an error carrying errors. */
  datatype Envelope =
    | SuccessEnvelope(message: string, data: Json)
    | ErrorEnvelope(message: string, errors: Json)

  /** A JSON response: its body and its HTTP status. */
  datatype Response = Response(body: Json, status: int)

  /** The array `success` and `error` hand to `response()->json`. */
  function EnvelopeBody(e: Envelope): Json {
    match e
    case SuccessEnvelope(m, d) => Object([("success", Bool(true)), ("message", Str(m)), ("data", d)])
    case ErrorEnvelope(m, errs) => Object([("success", Bool(false)), ("message", Str(m)), ("errors", errs)])
  }

  /** How a client reads a body back: the `success` flag selects which of
      `data` and `errors` it carries. */
  function ReadEnvelope(body: Json): Option<Envelope> {
    if body.Object? && |body.fields| == 3
       && body.fields[0].0 == "success" && body.fields[0].1.Bool?
       && body.fields[1].0 == "message" && body.fields[1].1.Str?
    then
      var ok, message, payload := body.fields[0].1.b, body.fields[1].1.s, body.fields[2];
      if ok && payload.0 == "data" then Some(SuccessEnvelope(message, payload.1))
      else if !ok && payload.0 == "errors" then Some(ErrorEnvelope(message, payload.1))
      else None
    else None
  }

  /** Reading a body back recovers exactly the envelope it was built from. */
  lemma ReadEnvelopeBody(e: Envelope)
    ensures ReadEnvelope(EnvelopeBody(e)) == Some(e)
  {
  }

  /** A body that reads as an envelope is that envelope's body, so no two
      envelopes share a body. */
  lemma ReadEnvelopeInverse(body: Json, e: Envelope)
    requires ReadEnvelope(body) == Some(e)
    ensures body == EnvelopeBody(e)
  {
    var fs := body.fields;
    assert fs == [fs[0], fs[1], fs[2]];
  }

  /** `ApiResponse::success`. */
  function Success(data: Json := Null, message: string := "Success", status: int := HTTP_OK): (r: Response)
    ensures r.status == status
    ensures ReadEnvelope(r.body) == Some(SuccessEnvelope(message, data))
  {
    Response(EnvelopeBody(SuccessEnvelope(message, data)), status)
  }

  /** `ApiResponse::error`. */
  function Error(message: string := "An error occurred", errors: Json := Null, status: int := HTTP_BAD_REQUEST): (r: Response)
    ensures r.status == status
    ensures ReadEnvelope(r.body) == Some(ErrorEnvelope(message, errors))
  {
    Response(EnvelopeBody(ErrorEnvelope(message, errors)), status)
  }

  /** The two defaults of the generic envelopes. */
  lemma Defaults()
    ensures Success().status == HTTP_OK
    ensures ReadEnvelope(Success().body) == Some(SuccessEnvelope("Success", Null))
    ensures Error().status == HTTP_BAD_REQUEST
    ensures ReadEnvelope(Error().body) == Some(ErrorEnvelope("An error occurred", Null))
  {
  }

  function Created(data: Json := Null, message: string := "Resource created successfully"): (r: Response)
    ensures r.status == HTTP_CREATED
    ensures ReadEnvelope(r.body) == Some(SuccessEnvelope(message, data))
  {
    Success(data, message, HTTP_CREATED)
  }

  function NotFound(message: string := "Resource not found"): (r: Response)
    ensures r.status == HTTP_NOT_FOUND
    ensures ReadEnvelope(r.body) == Some(ErrorEnvelope(message, Null))
  {
    Error(message, Null, HTTP_NOT_FOUND)
  }

  function ValidationError(errors: Json, message: string := "Validation failed"): (r: Response)
    ensures r.status == HTTP_UNPROCESSABLE_ENTITY
    ensures ReadEnvelope(r.body) == Some(ErrorEnvelope(message, errors))
  {
    Error(message, errors, HTTP_UNPROCESSABLE_ENTITY)
  }

  function Unauthorized(message: string := "Unauthorized"): (r: Response)
    ensures r.status == HTTP_UNAUTHORIZED
    ensures ReadEnvelope(r.body) == Some(ErrorEnvelope(message, Null))
  {
    Error(message, Null, HTTP_UNAUTHORIZED)
  }

  function Forbidden(message: string := "Forbidden"): (r: Response)
    ensures r.status == HTTP_FORBIDDEN
    ensures ReadEnvelope(r.body) == Some(ErrorEnvelope(message, Null))
  {
    Error(message, Null, HTTP_FORBIDDEN)
  }

  function Conflict(message: string := "Conflict", errors: Json := Null): (r: Response)
    ensures r.status == HTTP_CONFLICT
    ensures ReadEnvelope(r.body) == Some(ErrorEnvelope(message, errors))
  {
    Error(message, errors, HTTP_CONFLICT)
  }

  function ServerError(message: string := "Internal server error"): (r: Response)
    ensures r.status == HTTP_INTERNAL_SERVER_ERROR
    ensures ReadEnvelope(r.body) == Some(ErrorEnvelope(message, Null))
  {
    Error(message, Null, HTTP_INTERNAL_SERVER_ERROR)
  }

  /** `noContent`: a null body, which is neither kind of envelope. */
  function NoContent(): (r: Response)
    ensures r.status == HTTP_NO_CONTENT && r.body == Null
    ensures ReadEnvelope(r.body) == None
  {
    Response(Null, HTTP_NO_CONTENT)
  }

  /** `(int) ceil(a / b)`: the least integer `r` with `a <= r * b` for a
      positive divisor (the greatest with `a >= r * b` for a negative one). */
  function CeilDiv(a: int, b: int): (r: int)
    requires b != 0
    ensures b > 0 ==> (r - 1) * b < a <= r * b
    ensures b < 0 ==> r * b <= a < (r - 1) * b
  {
    if b > 0 then
      CeilOfFloor(a, b);
      -((-a) / b)
    else
      CeilOfFloor(-a, -b);
      var r := -(a / (-b));
      assert (r - 1) * (-b) == -((r - 1) * b) && r * (-b) == -(r * b);
      r
  }

  /** Ceiling division by a positive divisor through Dafny's flooring `/`. */
  lemma CeilOfFloor(a: int, b: int)
    requires b > 0
    ensures var r := -((-a) / b); (r - 1) * b < a <= r * b
  {
    var q, m := (-a) / b, (-a) % b;
    assert -a == b * q + m && 0 <= m < b;
    var r := -q;
    assert r * b == -(b * q);
    assert (r - 1) * b == r * b - b;
  }

  /** The `pagination` block of `paginated`. */
  datatype PageMeta = PageMeta(total: int, perPage: int, currentPage: int, lastPage: int, from: int, to: int)

  /** The figures `paginated` computes; dividing by a zero page size throws
      in PHP, so the caller must not pass one. */
  function Pagination(total: int, perPage: int, currentPage: int): (m: PageMeta)
    requires perPage != 0
    ensures m.total == total && m.perPage == perPage && m.currentPage == currentPage
  {
    PageMeta(total, perPage, currentPage,
             CeilDiv(total, perPage),
             (currentPage - 1) * perPage + 1,
             Min(currentPage * perPage, total))
  }

  function MetaJson(m: PageMeta): Json {
    Object([("total", Int(m.total)), ("per_page", Int(m.perPage)), ("current_page", Int(m.currentPage)),
            ("last_page", Int(m.lastPage)), ("from", Int(m.from)), ("to", Int(m.to))])
  }

  /** `ApiResponse::paginated`: a status-200 success whose data holds the
      items unchanged next to the pagination figures. */
  function Paginated(items: seq<Json>, total: int, perPage: int, currentPage: int,
                     message: string := "Data retrieved successfully"): (r: Response)
    requires perPage != 0
    ensures r.status == HTTP_OK
    ensures ReadEnvelope(r.body) == Some(SuccessEnvelope(message,
              Object([("items", List(items)), ("pagination", MetaJson(Pagination(total, perPage, currentPage)))])))
  {
    Success(Object([("items", List(items)), ("pagination", MetaJson(Pagination(total, perPage, currentPage)))]), message)
  }

  lemma MulMonotone(a: int, b: int, p: int)
    requires a <= b && p >= 0
    ensures a * p <= b * p
  {
  }

  /** On any page from the first to the last, `from` and `to` are 1-based
      positions inside the result set, at most `perPage` apart. */
  lemma PageBounds(total: int, perPage: int, currentPage: int)
    requires total >= 1 && perPage > 0
    requires 1 <= currentPage <= Pagination(total, perPage, currentPage).lastPage
    ensures var m := Pagination(total, perPage, currentPage);
            1 <= m.from <= m.to <= m.total && m.to - m.from + 1 <= perPage
  {
    var m := Pagination(total, perPage, currentPage);
    MulMonotone(currentPage - 1, m.lastPage - 1, perPage);
    MulMonotone(0, currentPage - 1, perPage);
    assert currentPage * perPage == (currentPage - 1) * perPage + perPage;
  }

  /** Every page before the last is full. */
  lemma FullPagesBeforeLast(total: int, perPage: int, currentPage: int)
    requires total >= 1 && perPage > 0
    requires 1 <= currentPage < Pagination(total, perPage, currentPage).lastPage
    ensures var m := Pagination(total, perPage, currentPage);
            m.to - m.from + 1 == perPage
  {
    var m := Pagination(total, perPage, currentPage);
    MulMonotone(currentPage, m.lastPage - 1, perPage);
    assert currentPage * perPage == (currentPage - 1) * perPage + perPage;
  }

  /** An empty result has no pages; its first page runs from 1 to 0. */
  lemma EmptyResult(perPage: int)
    requires perPage > 0
    ensures var m := Pagination(0, perPage, 1);
            m.lastPage == 0 && m.from == 1 && m.to == 0
  {
    var m := Pagination(0, perPage, 1);
    if m.lastPage != 0 {
      MulMonotone(1, m.lastPage, perPage);
      MulMonotone(m.lastPage, -1, perPage);
    }
  }
}
