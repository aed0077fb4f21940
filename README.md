# Error taxonomy of the a2 APNs client, in Dafny

This project models `src/error.rs` of the a2 Apple Push Notification service client. That file is the client's closed failure taxonomy: the eight-variant enum `Error`, its `StdError::description` and `StdError::cause`, its `Display` rendering, and the four `From` conversions. Those conversions turn JSON, OpenSSL, I/O and hyper failures into `Error`.

Files:

- `error.dfy` (module `Errors`): the `Error` datatype, the operations of `src/error.rs` as functions, and the lemmas about them.
- `foreign.dfy` (module `Foreign`): the library failure types, as abstract types.
- `response.dfy` (module `Responses`): the part of the gateway response that the error layer matches on.
- `wrappers.dfy` (module `Wrappers`): `Option`.

Modelling choices:

- Foreign failures are abstract types. These are `serde_json::Error`, `openssl::error::ErrorStack`, `std::io::Error`, `hyper::error::Error` and `&dyn StdError`. Their `Display` implementations are foreign code, so an operation that renders one (`format!("{}", e)`) takes the renderer as a function parameter, `show`. Every property is proved for all renderers.
- `crate::response` is not part of this model. `Response` is modelled as its optional `error` body alone, and `ErrorBody` as its `reason` alone. The type of `reason` is abstract, and its `Debug` rendering (`{:?}`) is a function parameter, `debug`.
- `Kind` and `Tag` are the variant of an `Error` without its payload. `Payload` is the diagnostic string a variant carries. `ReasonOf` and `ShownReason` give the gateway reason a rejection carries, and `ReasonSuffix` gives the text `Display` appends for it.
- Rendering is a function that returns a string. The `Formatter` and `fmt::Result` plumbing is not modelled.
- The description strings are the ones in the code, which name APNs.
- The reason is shown through its `Debug` rendering. Whether that text has quotes (`"BadDeviceToken"`) depends on the type of `reason`, and that type is not part of this model.

## Model

| member | source | states |
|---|---|---|
| `Errors.Description` | src/error.rs:55-66 | maps each variant to its fixed text, at least 24 characters long; the characters at positions 0, 6, 7 and 9 name the variant, so each of the eight variants gets its own string |
| `Errors.DescriptionIdentifiesKind` | src/error.rs:55-66 | two errors have the same description exactly when they are the same variant: the description ignores the payload (`SignerError(a)` and `SignerError(b)`, or two `ResponseError`s, agree), and the eight strings are pairwise distinct |
| `Errors.DescriptionsAreNotPrefixes` | src/error.rs:56-65 | no variant's description is a prefix of another variant's, so a rendered line's category can be read off its start |
| `Errors.Cause` | src/error.rs:68-70 | `cause` returns no cause for every variant |
| `Errors.Display` | src/error.rs:42-52 | the rendering starts with the description. It is longer than the description exactly for a `ResponseError` whose response has `error: Some(ErrorBody { reason, .. })`, and then the rest is ` (reason: <Debug of reason>)`. Every other value, including a `ResponseError` with `error: None`, renders as the description alone |
| `Errors.DisplayDeterminesKindAndReason` | src/error.rs:44-50 | two errors render alike exactly when they are the same variant and show the same reason text (or both show none) |
| `Errors.DisplayAsWrittenNeverReturns` | src/error.rs:48-49 | `Display` as written formats `self` inside its own body. For every error and every stack depth, the nested calls run out of stack and never produce a rendering. Partial output written to the formatter is not modelled |
| `Errors.FromSerdeError` | src/error.rs:73-77 | builds a `SerializeError`, which carries no diagnostic string |
| `Errors.SerdeErrorDiscardsDetail` | src/error.rs:73-77 | every JSON failure converts to the same `SerializeError`, which has no payload |
| `Errors.FromErrorStack` | src/error.rs:79-83 | builds a `SignerError` whose string is the rendering `show(e)` of the OpenSSL failure |
| `Errors.ErrorStackKeepsMessage` | src/error.rs:79-83 | an OpenSSL failure `e` converts to `SignerError(m)` where `m` is exactly the rendering of `e`; two failures convert alike exactly when they render alike |
| `Errors.FromIoError` | src/error.rs:85-89 | builds a `ReadError` whose string is the rendering `show(e)` of the I/O failure |
| `Errors.IoErrorKeepsMessage` | src/error.rs:85-89 | an I/O failure `e` converts to `ReadError(m)` where `m` is exactly the rendering of `e`; two failures convert alike exactly when they render alike |
| `Errors.FromHyperError` | src/error.rs:91-95 | builds a `ConnectionError`, which carries no diagnostic string |
| `Errors.HyperErrorDiscardsDetail` | src/error.rs:91-95 | every hyper failure converts to the same `ConnectionError`, which has no payload |
| `Errors.ConvertedErrorsRenderAsDescription` | src/error.rs:73-95 | no converted error carries a reason, so each renders as its fixed description alone |

## Findings

| source | as written | input that shows it | evidently intended | confidence | as-written member | corrected member |
|---|---|---|---|---|---|---|
| src/error.rs:48-49 | both match arms write `self` with `{}`, which calls this same `Display::fmt` again before any text is written, so the call never returns | any `Error`, e.g. `Error::SerializeError` | write the variant's description, then ` (reason: {:?})` for a rejection that has an error body | high; not executed | `Errors.DisplayAsWrittenNeverReturns` (about `Errors.DisplayAsWritten`) | `Errors.Display` |

`Errors.DisplayAsWritten` models the code as written. Its `depth` parameter bounds the nesting of the self-calls, and `None` means the stack ran out. The remaining lemmas about rendering use the corrected `Errors.Display`, whose base text is `description`.

## Left out

- The behaviour of `serde_json`, `openssl`, `std::io` and `hyper` failures is foreign library code. Each is an abstract type, and its rendering is a parameter.
- The rest of `Response` and `ErrorBody` (status code, notification id, timestamp) is outside this model. It is a JSON wire type defined in `crate::response`.
- `TimeoutError`, `InvalidOptions` and `TlsError` are built directly by the client and the request builder. There is no conversion for them in `src/error.rs`, so only their constructors are modelled.
- The derived `Debug` implementation of `Error` (src/error.rs:11) is compiler-generated, so it is not modelled.
- The `Formatter` and `fmt::Result` plumbing of `Display` is I/O, so it is not modelled. Rendering is a pure string function, and the formatter's failure path is not represented.
