/**
 * Failure types of the libraries the client is built on. Their internals are
 * foreign code and are not modelled: each is an abstract type, and the only
 * thing this layer ever observes of a value is its `Display` text, which the
 * operations below receive as a rendering function parameter.
 */
module Foreign {

  /** `serde_json::Error`: a JSON encode or decode failure. */
  type SerdeError

  /** `openssl::error::ErrorStack`: a failure of the signing key or signature. */
  type ErrorStack

  /** `std::io::Error`: a failure reading a certificate or key file. */
  type IoError

  /** `hyper::error::Error`: a failure of the HTTP/2 connection. */
  type HyperError

  /** Some value of a type implementing `std::error::Error` (`&dyn StdError`). */
  type DynStdError
}
