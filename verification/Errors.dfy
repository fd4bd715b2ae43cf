/** Error values as chains, and the walks that drive every retry decision. */
module Errors {
  import opened Basics

  const STATUS_OK := 1
  const STATUS_INVALID_SYNC_KEY := 3
  const HTTP_UNAUTHORIZED := 401
  const HTTP_RETRY_WITH := 449

  /** `Wrapped` is an error with an Unwrap method; the first two have none. Errors of stores and transports are Plain. */
  datatype Error =
    | HttpError(status: int)
    | StatusError(command: string, code: int)
    | Plain(what: string)
    | Wrapped(what: string, inner: Error)

  function Unwrap(e: Error): Option<Error> {
    if e.Wrapped? then Some(e.inner) else None
  }

  /** The status of the first HTTP error on the chain. */
  function FirstHttp(e: Error): Option<int> {
    match e
    case HttpError(status) => Some(status)
    case Wrapped(_, inner) => FirstHttp(inner)
    case _ => None
  }

  /** The code of the first status error on the chain. */
  function FirstStatus(e: Error): Option<int> {
    match e
    case StatusError(_, code) => Some(code)
    case Wrapped(_, inner) => FirstStatus(inner)
    case _ => None
  }

  /** The links of a chain, outermost first. */
  function Chain(e: Error): (links: seq<Error>)
    ensures links != []
  {
    [e] + match Unwrap(e) case Some(inner) => Chain(inner) case None => []
  }

  /** The outermost error of the kind decides, whatever wraps it and whatever it wraps. */
  lemma {:induction false} OutermostDecides(e: Error, i: nat)
    requires i < |Chain(e)|
    ensures var links := Chain(e);
            && (links[i].HttpError? && (forall j | 0 <= j < i :: !links[j].HttpError?) ==> FirstHttp(e) == Some(links[i].status))
            && (links[i].StatusError? && (forall j | 0 <= j < i :: !links[j].StatusError?) ==> FirstStatus(e) == Some(links[i].code))
            && ((forall j | 0 <= j < |links| :: !links[j].HttpError?) ==> FirstHttp(e).None?)
            && ((forall j | 0 <= j < |links| :: !links[j].StatusError?) ==> FirstStatus(e).None?)
    decreases e
  {
    if e.Wrapped? {
      var links, inner := Chain(e), Chain(e.inner);
      assert links == [e] + inner;
      assert forall j | 0 <= j < |inner| :: links[j + 1] == inner[j];
      OutermostDecides(e.inner, if i > 0 then i - 1 else 0);
    }
  }

  function Links(e: Error): nat {
    if e.Wrapped? then 1 + Links(e.inner) else 0
  }

  method IsHTTPStatus(e: Error, code: int) returns (b: bool)
    ensures b <==> FirstHttp(e) == Some(code)
  {
    var at := Some(e);
    while at.Some?
      invariant FirstHttp(e) == if at.Some? then FirstHttp(at.value) else None
      decreases if at.Some? then Links(at.value) + 1 else 0
    {
      if at.value.HttpError? {
        return at.value.status == code;
      }
      at := Unwrap(at.value);
    }
    return false;
  }

  method IsStatusCode(e: Error, code: int) returns (b: bool)
    ensures b <==> FirstStatus(e) == Some(code)
  {
    var at := Some(e);
    while at.Some?
      invariant FirstStatus(e) == if at.Some? then FirstStatus(at.value) else None
      decreases if at.Some? then Links(at.value) + 1 else 0
    {
      if at.value.StatusError? {
        return at.value.code == code;
      }
      at := Unwrap(at.value);
    }
    return false;
  }
}
