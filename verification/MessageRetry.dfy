/** The phone's side of message delivery: a bounded retry that repeats one client message id. */
module MessageRetry {
  const RETRY_DELAYS_MS: seq<nat> := [250, 750]

  /** What one `fetch` comes to: a network `TypeError`, another exception, or an HTTP status. */
  datatype Reply = NetworkError | OtherError | Status(code: nat)
  datatype SendResult = Sent | Failed(last: Reply)

  predicate Accepted(reply: Reply) {
    reply.Status? && 200 <= reply.code <= 299
  }

  predicate Transient(reply: Reply) {
    match reply
    case NetworkError => true
    case OtherError => false
    case Status(code) => code == 408 || code == 429 || code >= 500
  }

  /** The call succeeds exactly when one of its first three requests does, after transient failures only. */
  ghost predicate SucceedsWithin(network: nat -> Reply, attempts: nat) {
    exists i: nat :: i < attempts && Accepted(network(i)) && forall j: nat :: j < i ==> Transient(network(j))
  }

  /** The client makes exactly this many requests: it goes on only after a failure worth repeating. */
  ghost predicate Attempts(network: nat -> Reply, attempts: nat) {
    && 1 <= attempts <= 3
    && (forall j: nat :: j < attempts - 1 ==> GoesOn(network(j)))
    && (attempts < 3 ==> !GoesOn(network(attempts - 1)))
  }

  /** No reply at all, or one of the statuses 408, 429 and from 500 on. */
  ghost predicate GoesOn(reply: Reply) {
    reply == NetworkError || (reply.Status? && (reply.code in {408, 429} || reply.code >= 500))
  }

  method SendTextMessage(network: nat -> Reply) returns (result: SendResult, requests: nat, waitedMs: nat)
    ensures Attempts(network, requests)
    ensures result.Sent? <==> network(requests - 1).Status? && 200 <= network(requests - 1).code < 300
    ensures result.Sent? <==> SucceedsWithin(network, |RETRY_DELAYS_MS| + 1)
    ensures result.Failed? ==> result.last == network(requests - 1)
    ensures waitedMs == (if requests == 3 then 1000 else if requests == 2 then 250 else 0)
  {
    requests, waitedMs := 0, 0;
    for attempt := 0 to |RETRY_DELAYS_MS| + 1
      invariant requests == attempt
      invariant forall j: nat :: j < attempt ==> Transient(network(j)) && !Accepted(network(j))
      invariant attempt <= |RETRY_DELAYS_MS|
      invariant waitedMs == (if attempt == 2 then 1000 else if attempt == 1 then 250 else 0)
    {
      var response := network(attempt);
      requests := requests + 1;
      if Accepted(response) {
        return Sent, requests, waitedMs;
      }
      if attempt == |RETRY_DELAYS_MS| || !Transient(response) {
        return Failed(response), requests, waitedMs;
      }
      waitedMs := waitedMs + RETRY_DELAYS_MS[attempt];
    }
    assert false;
  }
}
