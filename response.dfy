/**
 * The parts of the gateway's response (`crate::response`) that the error
 * layer looks at. Only the optional error body and its reason are modelled.
 */
module Responses {
  import opened Wrappers

  /** The reason the gateway gives for rejecting a notification. */
  type Reason(==)

  /** `ErrorBody`: the JSON body of a rejection; only its `reason` is modelled. */
  datatype ErrorBody = ErrorBody(reason: Reason)

  /** `Response`: the gateway's answer; `error` is present when it sent a body. */
  datatype Response = Response(error: Option<ErrorBody>)
}
