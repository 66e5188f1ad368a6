/**
 * HTTP responses as the modelled code reads them. The network is not
 * modelled: callers receive a function from URL to response.
 */
module Fetch {
  import opened Wrappers

  /** A response read with `res.text()`. */
  datatype TextResponse = TextResponse(status: int, text: string)

  /**
   * A response read with `res.json()`: whether it carries a headers object
   * at all, the `Content-Type` header, if any, and the decoded body, `None`
   * when `res.json()` throws.
   */
  datatype JsonResponse<T> = JsonResponse(status: int, headers: bool, contentType: Option<string>, body: Option<T>)

  /** 200 and 304 are the success statuses throughout. */
  predicate IsOk(status: int)
  {
    status == 200 || status == 304
  }
}
