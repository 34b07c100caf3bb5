/**
 Errors are chains, as in Go: a link may wrap another error, and a test such as
 "is a context error" or "is unreachable" looks at every link, so both can hold
 of one error.
 */
module Errors {
  import opened Common

  datatype Error =
    | Plain(msg: string)
    | Canceled
    | DeadlineExceeded
    | Unreachable(inner: Error)
    | CommandFailed(host: string, inner: Error)
    | Wrapped(text: string, inner: Error)

  predicate IsContext(e: Error) {
    match e
    case Plain(_) => false
    case Canceled => true
    case DeadlineExceeded => true
    case Unreachable(inner) => IsContext(inner)
    case CommandFailed(_, inner) => IsContext(inner)
    case Wrapped(_, inner) => IsContext(inner)
  }

  predicate IsUnreachable(e: Error) {
    match e
    case Plain(_) => false
    case Canceled => false
    case DeadlineExceeded => false
    case Unreachable(_) => true
    case CommandFailed(_, inner) => IsUnreachable(inner)
    case Wrapped(_, inner) => IsUnreachable(inner)
  }

  /** Whether target is among the links of e. */
  predicate Is(e: Error, target: Error) {
    e == target ||
    match e
    case Unreachable(inner) => Is(inner, target)
    case CommandFailed(_, inner) => Is(inner, target)
    case Wrapped(_, inner) => Is(inner, target)
    case _ => false
  }

  /** One host's outcome of a fanned-out command. */
  datatype Result = Result(host: string, err: Option<Error>)

  /** A failure that is the host's own, not a cancelled bystander's. */
  predicate IsHard(r: Result) {
    r.err.Some? && !IsContext(r.err.value)
  }

  predicate AllSucceeded(results: seq<Result>) {
    forall i :: 0 <= i < |results| ==> results[i].err.None?
  }

  /** Whether e reports results[i], labelled with its host. */
  predicate Reports(e: Error, r: Result) {
    r.err.Some? && e.Wrapped? && e.inner == r.err.value
  }

  /** The index i is the one an error report must name: the first hard failure, or without any the first failure. */
  predicate MostInformative(results: seq<Result>, i: nat) {
    && i < |results|
    && results[i].err.Some?
    && (if IsHard(results[i])
        then forall j :: 0 <= j < i ==> !IsHard(results[j])
        else (forall j :: 0 <= j < |results| ==> !IsHard(results[j])) && AllSucceeded(results[..i]))
  }

  method Failed(results: seq<Result>) returns (failed: bool)
    ensures failed <==> !AllSucceeded(results)
  {
    for i := 0 to |results|
      invariant AllSucceeded(results[..i])
    {
      if results[i].err.Some? {
        return true;
      }
    }
    return false;
  }

  /** The error surfaced for a fanout: a real failure is preferred over a cancelled bystander. */
  method FirstError(results: seq<Result>) returns (err: Option<Error>)
    ensures err.None? <==> AllSucceeded(results)
    ensures err.Some? ==> exists i: nat :: MostInformative(results, i) && Reports(err.value, results[i])
    ensures (exists i :: 0 <= i < |results| && IsHard(results[i])) ==> err.Some? && !IsContext(err.value)
  {
    var canceled: Option<Error> := None;
    ghost var at := 0;
    for i := 0 to |results|
      invariant forall j :: 0 <= j < i ==> !IsHard(results[j])
      invariant canceled.None? ==> AllSucceeded(results[..i])
      invariant canceled.Some? ==>
                  && at < i && AllSucceeded(results[..at]) && Reports(canceled.value, results[at])
                  && IsContext(canceled.value)
    {
      var r := results[i];
      if r.err.Some? {
        if IsContext(r.err.value) {
          if canceled.None? {
            canceled := Some(Wrapped(r.host, r.err.value));
            at := i;
          }
        } else {
          assert MostInformative(results, i);
          return Some(Wrapped(r.host, r.err.value));
        }
      }
    }
    assert results[..|results|] == results;
    if canceled.Some? {
      assert MostInformative(results, at);
    }
    return canceled;
  }
}
