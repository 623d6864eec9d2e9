/**
  The three crawlers check an answer in different orders. These lemmas put
  the differences side by side on the same exchange.
 */
module CheckOrder {
  import opened Text
  import opened Wrappers
  import opened Fetch
  import Guardian
  import NewsApi
  import Gdelt

  /**
    A 500 answer whose body does not decode: the newspaper and event-index
    crawlers report the HTTP status, the news crawler reports the decoding
    failure with a preview of the body.
   */
  lemma ServerErrorWithBadBody(body: Bytes)
    ensures Guardian.CheckResponse(Received(500, body), Malformed) == Failure(HttpStatus(500, body))
    ensures Gdelt.CheckResponse(Received(500, body), Malformed) == Failure(HttpStatus(500, body))
    ensures NewsApi.CheckResponse(Received(500, body), Malformed) == Failure(BadJson(Preview(body)))
  {
  }

  /**
    A non-200 answer whose body decodes with status "ok" is accepted by the
    news crawler only.
   */
  lemma OkBodyBehindErrorStatus(status: int, body: Bytes, g: Guardian.Response, n: NewsApi.Response, d: Gdelt.Response)
    requires status != StatusOK
    requires g.status == Ok && n.status == Ok
    ensures Guardian.CheckResponse(Received(status, body), Parsed(g)).Failure?
    ensures Gdelt.CheckResponse(Received(status, body), Parsed(d)).Failure?
    ensures NewsApi.CheckResponse(Received(status, body), Parsed(n)) == Success(n)
  {
  }

  /**
    A 200 answer whose body decodes with a status other than "ok" is
    rejected by the two crawlers that read that status; the event index has
    none to read.
   */
  lemma ErrorStatusInBody(body: Bytes, g: Guardian.Response, n: NewsApi.Response, d: Gdelt.Response)
    requires g.status != Ok && n.status != Ok
    ensures Guardian.CheckResponse(Received(StatusOK, body), Parsed(g)) == Failure(ApiStatus(g.status, None))
    ensures NewsApi.CheckResponse(Received(StatusOK, body), Parsed(n)) == Failure(ApiStatus(n.status, Some(body)))
    ensures Gdelt.CheckResponse(Received(StatusOK, body), Parsed(d)) == Success(d)
  {
  }
}
