/** What the browser capture hands to the selectors: the requests it
    intercepted, in observation order. */
module Capture {

  /** One intercepted request: its URL, and whether a response was seen
      for it (the truthiness of `r.response`). */
  datatype Request = Request(url: string, hasResponse: bool)
}
