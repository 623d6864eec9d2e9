/**
  What the crawlers' `BuscarArticulos` functions see of an HTTP exchange, and
  how they report failures. The request, the transport and `json.Unmarshal`
  are not modelled: their outcomes are inputs.
 */
module Fetch {
  import opened Text
  import opened Wrappers

  /** One query parameter, in the order `params.Add` received it. */
  datatype Param = Param(name: Bytes, value: Bytes)

  /** The first value recorded under `name`, as `url.Values` keeps the values of a name in `Add` order. */
  function ParamValue(ps: seq<Param>, name: Bytes): (v: Option<Bytes>)
    ensures v.Some? <==> exists i :: 0 <= i < |ps| && ps[i].name == name
    ensures v.Some? ==>
      exists i :: 0 <= i < |ps| && ps[i] == Param(name, v.value) && forall j :: 0 <= j < i ==> ps[j].name != name
  {
    if ps == [] then None
    else if ps[0].name == name then Some(ps[0].value)
    else
      var v := ParamValue(ps[1..], name);
      assert forall i :: 1 <= i < |ps| ==> ps[i] == ps[1..][i - 1];
      assert v.Some? ==>
        exists i :: 1 <= i < |ps| && ps[i] == Param(name, v.value) && forall j :: 0 <= j < i ==> ps[j].name != name;
      v
  }

  /** The outcome of building, sending and reading one request. */
  datatype Exchange =
    | RequestFailed              // http.NewRequest returned an error
    | TransportFailed            // Client.Do / Client.Get returned an error
    | ReadFailed                 // io.ReadAll returned an error
    | Received(status: int, body: Bytes)

  /** The outcome of `json.Unmarshal` on the body. */
  datatype Decoded<T> = Malformed | Parsed(value: T)

  /** The errors `BuscarArticulos` returns. */
  datatype FetchError =
    | BadRequest                                   // the error of http.NewRequest, unwrapped
    | Transport                                    // "error en petición"
    | Read                                         // "error leyendo respuesta"
    | HttpStatus(code: int, body: Bytes)           // "error HTTP: status code %d, body: %s"
    | BadJson(preview: Bytes)                      // "error parseando JSON", with a body preview
    | ApiStatus(apiStatus: Bytes, shownBody: Option<Bytes>) // a decoded status other than "ok"

  datatype Result<T> = Success(value: T) | Failure(error: FetchError)

  const StatusOK := 200
  const PreviewLimit := 500
  const Ok: Bytes := [111, 107]  // "ok"

  /** The body preview shown when decoding fails: at most 500 bytes, then "...". */
  function Preview(body: Bytes): (p: Bytes)
    ensures |body| <= PreviewLimit ==> p == body
    ensures |body| > PreviewLimit ==> |p| == PreviewLimit + 3 && p == body[..PreviewLimit] + Ellipsis
  {
    Truncate(body, PreviewLimit)
  }
}
