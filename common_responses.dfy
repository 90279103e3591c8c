/** The two response envelopes of the API: `success(message, data, status)` and
    `error(message, errors, status)`. */
module Responses {
  import opened JsonData

  /** An HTTP response: status code and the top-level JSON object of its body. */
  datatype Response = Response(status: int, body: map<string, Json>)

  const HTTP_200_OK := 200
  const HTTP_400_BAD_REQUEST := 400
  const HTTP_401_UNAUTHORIZED := 401
  const HTTP_404_NOT_FOUND := 404
  const HTTP_500_INTERNAL_SERVER_ERROR := 500

  /** A keyword argument left out is `None`. */
  function Success(message: string, data: Json := Null, status: int := HTTP_200_OK): (r: Response)
    ensures r.status == status
    ensures "message" in r.body && r.body["message"] == Str(message)
    ensures "data" in r.body <==> data != Null
    ensures "data" in r.body ==> r.body["data"] == data
    ensures r.body.Keys <= {"message", "data"}
  {
    var payload := map["message" := Str(message)];
    Response(status, if data != Null then payload["data" := data] else payload)
  }

  function Error(message: string, errors: Json := Null, status: int := HTTP_400_BAD_REQUEST): (r: Response)
    ensures r.status == status
    ensures "message" in r.body && r.body["message"] == Str(message)
    ensures "errors" in r.body <==> Truthy(errors)
    ensures "errors" in r.body ==> r.body["errors"] == errors
    ensures r.body.Keys <= {"message", "errors"}
  {
    var payload := map["message" := Str(message)];
    Response(status, if Truthy(errors) then payload["errors" := errors] else payload)
  }

  /** An empty object still counts as data, but not as errors. */
  lemma EmptyObjectIncludedOnlyAsData(message: string)
    ensures "data" in Success(message, Obj(map[])).body
    ensures Error(message, Obj(map[])).body == map["message" := Str(message)]
  {
  }
}
