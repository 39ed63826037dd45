/**
 Outcomes of the issue-creation requests and their aggregation by
 `Promise.all`. The HTTP exchange itself is an oracle: each request ends
 either in a transport error or in a response with a status and a body.
 */
module Transport {
  import opened Wrappers

  /** The parts of a response body the synchroniser reads: the tracker's
      issue `number`, and the rest, carried along as diagnostics. */
  datatype Body = Body(number: int, message: string)

  datatype Outcome = TransportError(error: string) | Response(statusCode: int, body: Body)

  /** Why a run was rejected. */
  datatype Failure =
    | Transport(error: string)     // the request never got a response
    | Rejected(body: Body)         // the tracker answered with a status of 400 or more
    | StorageRead(error: string)   // the mapping file exists but could not be read

  /** The callback of one request: an error rejects with the error, a status
      of 400 or more rejects with the body, anything else resolves with the
      issue number of the body. */
  function Classify(o: Outcome): (r: Result<int, Failure>)
    ensures r.Success? <==> o.Response? && o.statusCode < 400
    ensures r.Success? ==> r.value == o.body.number
    ensures o.TransportError? ==> r == Failure(Transport(o.error))
    ensures o.Response? && r.Failure? ==> r.error == Rejected(o.body)
  {
    match o
    case TransportError(e) => Failure(Transport(e))
    case Response(status, body) => if status >= 400 then Failure(Rejected(body)) else Success(body.number)
  }

  predicate Succeeds(o: Outcome) {
    Classify(o).Success?
  }

  /** Among the first `n` requests, the failing one that settles first,
      `rank(i)` being the moment request `i` settles (ties go to the lower
      position); None when all of them succeed. */
  function EarliestFailure(outcomes: seq<Outcome>, rank: nat -> nat, n: nat): (r: Option<nat>)
    requires n <= |outcomes|
    ensures r.None? <==> forall j :: 0 <= j < n ==> Succeeds(outcomes[j])
    ensures r.Some? ==> r.value < n && !Succeeds(outcomes[r.value])
    ensures r.Some? ==> forall j :: 0 <= j < n && !Succeeds(outcomes[j]) ==> rank(r.value) <= rank(j)
  {
    if n == 0 then None
    else
      var earlier := EarliestFailure(outcomes, rank, n - 1);
      if Succeeds(outcomes[n - 1]) then earlier
      else if earlier.Some? && rank(earlier.value) <= rank(n - 1) then earlier
      else Some(n - 1)
  }

  /** The issue numbers of the responses, by request position. */
  function Numbers(outcomes: seq<Outcome>): (ns: seq<int>)
    ensures |ns| == |outcomes|
    ensures forall i :: 0 <= i < |outcomes| && Succeeds(outcomes[i]) ==> ns[i] == Classify(outcomes[i]).value
  {
    seq(|outcomes|, i requires 0 <= i < |outcomes| => if outcomes[i].Response? then outcomes[i].body.number else 0)
  }

  /** `Promise.all`: resolves with every response in request order when all
      requests succeed; otherwise rejects with the failure of the request
      that fails first, and every successful response is dropped. */
  function SettleAll(outcomes: seq<Outcome>, rank: nat -> nat): (r: Result<seq<int>, Failure>)
    ensures r.Success? <==> forall i :: 0 <= i < |outcomes| ==> Succeeds(outcomes[i])
    ensures r.Success? ==> |r.value| == |outcomes|
    ensures r.Success? ==> forall i :: 0 <= i < |outcomes| ==> r.value[i] == outcomes[i].body.number
    ensures r.Failure? ==>
              exists i :: 0 <= i < |outcomes| && Classify(outcomes[i]) == Failure(r.error)
                          && forall j :: 0 <= j < |outcomes| && !Succeeds(outcomes[j]) ==> rank(i) <= rank(j)
  {
    match EarliestFailure(outcomes, rank, |outcomes|)
    case Some(i) => Failure(Classify(outcomes[i]).error)
    case None => Success(Numbers(outcomes))
  }

  /** A batch of one request settles as that request does: the aggregate
      agrees with the classification of a single callback. */
  lemma {:induction false} SettleAllOfOne(o: Outcome, rank: nat -> nat)
    ensures SettleAll([o], rank).Success? <==> Classify(o).Success?
    ensures Classify(o).Success? ==> SettleAll([o], rank) == Success([Classify(o).value])
    ensures Classify(o).Failure? ==> SettleAll([o], rank) == Failure(Classify(o).error)
  {
    var r := SettleAll([o], rank);
    if r.Success? {
      assert r.value[0] == o.body.number;
      assert r.value == [Classify(o).value];
    } else {
      var i :| 0 <= i < 1 && Classify([o][i]) == Failure(r.error);
      assert i == 0;
    }
  }
}
