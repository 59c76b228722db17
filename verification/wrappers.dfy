/** Option and Result values, and the Python exception classes the modelled code can raise. */
module Wrappers {

  datatype Option<+T> = None | Some(value: T)

  /** The exception classes that reach the callers of the modelled code. `CrawlerError` stands for
      anything the browser-automation library raises (network failures, timeouts). */
  datatype Error =
    | ValueError
    | IndexError
    | TypeError
    | KeyError
    | AttributeError
    | OverflowError
    | ZeroDivisionError
    | CrawlerError

  /** A Python call either returns a value or raises. */
  datatype Result<+T> = Ok(value: T) | Err(error: Error)
}
