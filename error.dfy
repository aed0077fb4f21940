/**
 * The client's closed failure taxonomy: the `Error` enum, its categorical
 * `description`, its `cause`, its `Display` rendering and the conversions
 * from the failures of the libraries beneath it.
 */
module Errors {
  import opened Wrappers
  import opened Responses
  import opened Foreign

  /** The eight failures a client operation can report. */
  datatype Error =
    | SerializeError
    | ConnectionError
    | TimeoutError
    | SignerError(signerMessage: string)
    | ResponseError(response: Response)
    | InvalidOptions(optionsMessage: string)
    | TlsError(tlsMessage: string)
    | ReadError(readMessage: string)

  /** The variant of an error with its payload forgotten. */
  datatype Kind = Serialize | Connection | Timeout | Signer | Rejected | Options | Tls | Read

  function Tag(e: Error): Kind
  {
    match e
    case SerializeError => Serialize
    case ConnectionError => Connection
    case TimeoutError => Timeout
    case SignerError(_) => Signer
    case ResponseError(_) => Rejected
    case InvalidOptions(_) => Options
    case TlsError(_) => Tls
    case ReadError(_) => Read
  }

  /** The diagnostic string a variant carries, if it carries one. */
  function Payload(e: Error): Option<string>
  {
    match e
    case SignerError(m) => Some(m)
    case InvalidOptions(m) => Some(m)
    case TlsError(m) => Some(m)
    case ReadError(m) => Some(m)
    case _ => None
  }

  /** The reason the gateway gave, for a rejection whose response has a body. */
  function ReasonOf(e: Error): Option<Reason>
  {
    if e.ResponseError? && e.response.error.Some? then Some(e.response.error.value.reason) else None
  }

  // ---------------------------------------------------------------------------
  // StdError::description and StdError::cause

  /**
   * The fixed text naming the category of an error. Its characters at
   * positions 0, 6, 7 and 9 already name the variant (see `KindFromKey`).
   */
  function Description(e: Error): (r: string)
    ensures |r| >= 24
    ensures KindFromKey(r[0], r[6], r[7], r[9]) == Tag(e)
  {
    match e
    case SerializeError => "Error serializing to JSON"
    case ConnectionError => "Error connecting to APNs"
    case SignerError(_) => "Error creating a signature"
    case ResponseError(_) => "Notification was not accepted by APNs"
    case InvalidOptions(_) => "Invalid options for APNs payload"
    case TlsError(_) => "Error in creating a TLS connection"
    case ReadError(_) => "Error in reading a certificate file"
    case TimeoutError => "Timeout in sending a push notification"
  }

  /** No error wraps another: the cause chain ends at every error. */
  function Cause(e: Error): (r: Option<DynStdError>)
    ensures r.None?
  {
    None
  }

  /** Two errors have the same description exactly when they are the same variant. */
  lemma DescriptionIdentifiesKind(a: Error, b: Error)
    ensures Description(a) == Description(b) <==> Tag(a) == Tag(b)
  {
  }

  /** No description is a prefix of the description of another variant. */
  lemma {:induction false} DescriptionsAreNotPrefixes(a: Error, b: Error)
    ensures Description(a) <= Description(b) ==> Tag(a) == Tag(b)
  {
    var da, db := Description(a), Description(b);
    if da <= db {
      assert da[0] == db[0] && da[6] == db[6] && da[7] == db[7] && da[9] == db[9];
    }
  }

  /**
   * The variant whose description has the given characters at positions 0,
   * 6, 7 and 9. It is not part of the client: it exists only so that the proof
   * that descriptions are told apart compares four characters, which keeps
   * `DescriptionsAreNotPrefixes` fast.
   */
  function KindFromKey(c0: char, c6: char, c7: char, c9: char): Kind
  {
    if c0 == 'N' then Rejected
    else if c0 == 'I' then Options
    else if c0 == 'T' then Timeout
    else if c6 == 's' then Serialize
    else if c6 == 'c' then (if c7 == 'o' then Connection else Signer)
    else if c9 == 'c' then Tls
    else Read
  }

  // ---------------------------------------------------------------------------
  // Display

  /** The text `Display` adds after the description: ` (reason: <Debug of reason>)`. */
  function ReasonSuffix(e: Error, debug: Reason -> string): string
  {
    match ReasonOf(e)
    case None => ""
    case Some(reason) => " (reason: " + debug(reason) + ")"
  }

  /**
   * `Display` as evidently intended: the description, followed by the
   * gateway's reason, rendered with `debug`, when the error is a rejection
   * whose response carries an error body.
   */
  function Display(e: Error, debug: Reason -> string): (s: string)
    ensures Description(e) <= s
    ensures (e.ResponseError? && e.response.error.Some?) <==> |s| > |Description(e)|
    ensures !(e.ResponseError? && e.response.error.Some?) ==> s == Description(e)
    ensures e.ResponseError? && e.response.error.Some? ==>
      s[|Description(e)|..] == " (reason: " + debug(e.response.error.value.reason) + ")"
  {
    Description(e) + ReasonSuffix(e, debug)
  }

  /** The reason text that a rendering shows, if it shows one. */
  function ShownReason(e: Error, debug: Reason -> string): Option<string>
  {
    match ReasonOf(e)
    case None => None
    case Some(reason) => Some(debug(reason))
  }

  /**
   * A rendering loses nothing a reader of the log needs: two errors render
   * alike exactly when they are the same variant and show the same reason.
   */
  lemma {:induction false} DisplayDeterminesKindAndReason(a: Error, b: Error, debug: Reason -> string)
    ensures Display(a, debug) == Display(b, debug) <==>
      Tag(a) == Tag(b) && ShownReason(a, debug) == ShownReason(b, debug)
  {
    var da, db := Description(a), Description(b);
    var sa, sb := ReasonSuffix(a, debug), ReasonSuffix(b, debug);
    if Display(a, debug) == Display(b, debug) {
      OneSideIsPrefix(da, sa, db, sb);
      DescriptionsAreNotPrefixes(a, b);
      DescriptionsAreNotPrefixes(b, a);
      DescriptionIdentifiesKind(a, b);
      assert sa == (da + sa)[|da|..] == (db + sb)[|db|..] == sb;
      SuffixDeterminesReason(a, b, debug);
    } else if Tag(a) == Tag(b) {
      DescriptionIdentifiesKind(a, b);
      assert sa != sb;
    }
  }

  /** When two concatenations are equal, one of the leading parts is a prefix of the other. */
  lemma OneSideIsPrefix(x: string, u: string, y: string, v: string)
    requires x + u == y + v
    ensures x <= y || y <= x
  {
    if |x| <= |y| {
      assert x == (y + v)[..|x|] == y[..|x|];
    } else {
      assert y == (x + u)[..|y|] == x[..|y|];
    }
  }

  /** Equal suffixes show equal reasons, and conversely. */
  lemma SuffixDeterminesReason(a: Error, b: Error, debug: Reason -> string)
    ensures ReasonSuffix(a, debug) == ReasonSuffix(b, debug) <==> ShownReason(a, debug) == ShownReason(b, debug)
  {
    var sa, sb := ReasonSuffix(a, debug), ReasonSuffix(b, debug);
    if sa == sb && ShownReason(a, debug).Some? && ShownReason(b, debug).Some? {
      var ta, tb := ShownReason(a, debug).value, ShownReason(b, debug).value;
      assert ta == sa[10..|sa| - 1];
      assert tb == sb[10..|sb| - 1];
    }
  }

  /**
   * `Display` as written: both arms format `self` with `{}`, which calls this
   * same function again before anything is written. `depth` bounds the
   * nesting of those calls (the stack); `None` means the stack ran out.
   */
  function DisplayAsWritten(e: Error, debug: Reason -> string, depth: nat): Option<string>
    decreases depth
  {
    if depth == 0 then None
    else
      match DisplayAsWritten(e, debug, depth - 1)
      case None => None
      case Some(inner) => Some(inner + ReasonSuffix(e, debug))
  }

  /** However deep the stack, `Display` as written never produces any text. */
  lemma {:induction false} DisplayAsWrittenNeverReturns(e: Error, debug: Reason -> string, depth: nat)
    ensures DisplayAsWritten(e, debug, depth).None?
    decreases depth
  {
    if depth > 0 {
      DisplayAsWrittenNeverReturns(e, debug, depth - 1);
    }
  }

  // ---------------------------------------------------------------------------
  // From conversions

  /** `From<SerdeError>`: the JSON failure's detail is dropped. */
  function FromSerdeError(e: SerdeError): (r: Error)
    ensures Tag(r) == Serialize && Payload(r) == None
  {
    SerializeError
  }

  /** `From<ErrorStack>`: the signing failure keeps its rendered message. */
  function FromErrorStack(e: ErrorStack, show: ErrorStack -> string): (r: Error)
    ensures Tag(r) == Signer && Payload(r) == Some(show(e))
  {
    SignerError(show(e))
  }

  /** `From<IoError>`: the read failure keeps its rendered message. */
  function FromIoError(e: IoError, show: IoError -> string): (r: Error)
    ensures Tag(r) == Read && Payload(r) == Some(show(e))
  {
    ReadError(show(e))
  }

  /** `From<hyper::error::Error>`: the connection failure's detail is dropped. */
  function FromHyperError(e: HyperError): (r: Error)
    ensures Tag(r) == Connection && Payload(r) == None
  {
    ConnectionError
  }

  /** Every JSON failure becomes the same payload-free `SerializeError`. */
  lemma SerdeErrorDiscardsDetail(e1: SerdeError, e2: SerdeError)
    ensures Tag(FromSerdeError(e1)) == Serialize && Payload(FromSerdeError(e1)) == None
    ensures FromSerdeError(e1) == FromSerdeError(e2)
  {
  }

  /** Every connection failure becomes the same payload-free `ConnectionError`. */
  lemma HyperErrorDiscardsDetail(e1: HyperError, e2: HyperError)
    ensures Tag(FromHyperError(e1)) == Connection && Payload(FromHyperError(e1)) == None
    ensures FromHyperError(e1) == FromHyperError(e2)
  {
  }

  /**
   * A signing failure becomes `SignerError` carrying exactly its rendered
   * message, so two of them convert alike exactly when they render alike.
   */
  lemma ErrorStackKeepsMessage(e1: ErrorStack, e2: ErrorStack, show: ErrorStack -> string)
    ensures Tag(FromErrorStack(e1, show)) == Signer && Payload(FromErrorStack(e1, show)) == Some(show(e1))
    ensures FromErrorStack(e1, show) == FromErrorStack(e2, show) <==> show(e1) == show(e2)
  {
  }

  /**
   * A read failure becomes `ReadError` carrying exactly its rendered message,
   * so two of them convert alike exactly when they render alike.
   */
  lemma IoErrorKeepsMessage(e1: IoError, e2: IoError, show: IoError -> string)
    ensures Tag(FromIoError(e1, show)) == Read && Payload(FromIoError(e1, show)) == Some(show(e1))
    ensures FromIoError(e1, show) == FromIoError(e2, show) <==> show(e1) == show(e2)
  {
  }

  /** A converted error renders as its description alone: none carries a reason. */
  lemma ConvertedErrorsRenderAsDescription(
    se: SerdeError, es: ErrorStack, io: IoError, he: HyperError,
    showStack: ErrorStack -> string, showIo: IoError -> string, debug: Reason -> string)
    ensures Display(FromSerdeError(se), debug) == "Error serializing to JSON"
    ensures Display(FromErrorStack(es, showStack), debug) == "Error creating a signature"
    ensures Display(FromIoError(io, showIo), debug) == "Error in reading a certificate file"
    ensures Display(FromHyperError(he), debug) == "Error connecting to APNs"
  {
  }
}
