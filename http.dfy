/** The values the service worker receives from and hands back to the browser. */
module Wrappers {

  datatype Option<+T> = None | Some(value: T)
}

module Http {

  /** An absolute request URL; the Cache API keys stored responses by it. */
  type Url = string

  /** A response, treated as an immutable value (headers are folded into `body`). */
  datatype Response = Response(status: int, body: string)

  /** What `fetch` does with a request: it resolves with a response of any status,
      or rejects with an error (offline, DNS failure, ...). */
  datatype NetworkOutcome = Ok(response: Response) | Fail(error: string)

  /** A request as the fetch handler sees it; `origin` is the origin of `url`. */
  datatype Request = Request(httpMethod: string, origin: string, url: Url, destination: string)

  /** What a strategy's promise settles to: a response, `undefined` (a cache lookup
      that found nothing), or a rejection with the given error. */
  datatype StrategyResult = Resp(response: Response) | NoResp | Err(error: string)

  /** Resolves an absolute-path reference such as "/offline.html" against an origin. */
  function Resolve(origin: string, path: string): Url
  {
    origin + path
  }
}
