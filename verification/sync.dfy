/**
 One synchronisation run: load the mapping, compute the delta, send one
 creation request per missing article, and on full success record the
 issues and write the mapping back.
 */
module Sync {
  import opened Wrappers
  import opened Articles
  import opened Delta
  import opened Transport
  import opened Reconcile
  import opened Config

  /** What `createIssues` did: the payloads it sent, in order, and how it settled. */
  datatype Run = Run(sent: seq<IssuePayload>, result: Result<Store, Failure>)

  /** The outcomes of the first `n` requests, in request order. */
  function Answers(outcome: nat -> Outcome, n: nat): (r: seq<Outcome>)
    ensures |r| == n && forall i :: 0 <= i < n ==> r[i] == outcome(i)
  {
    seq(n, i requires 0 <= i < n => outcome(i))
  }

  /** `createIssues`. `outcome(i)` is how the i-th request sent ends and
      `rank(i)` when it settles; both belong to the network, not to the program. */
  function CreateIssues(articles: seq<Article>, store: Store, opts: Options, outcome: nat -> Outcome, rank: nat -> nat): (r: Run)
    ensures var missing := Missing(articles, store, opts.idProperty);
            && |r.sent| == |missing|
            && (forall i :: 0 <= i < |missing| ==> r.sent[i] == opts.getIssue(missing[i]))
            && (|missing| == 0 ==> r.result == Success(store))
            && (r.result.Success? <==> forall i :: 0 <= i < |missing| ==> Succeeds(outcome(i)))
            && (r.result.Failure? ==>
                  exists i :: 0 <= i < |missing| && Classify(outcome(i)) == Failure(r.result.error)
                              && forall j :: 0 <= j < |missing| && !Succeeds(outcome(j)) ==> rank(i) <= rank(j))
  {
    var missing := Missing(articles, store, opts.idProperty);
    if |missing| == 0 then Run([], Success(store))
    else
      var sent := seq(|missing|, i requires 0 <= i < |missing| => opts.getIssue(missing[i]));
      var outcomes := Answers(outcome, |missing|);
      match SettleAll(outcomes, rank)
      case Failure(e) => Run(sent, Failure(e))
      case Success(numbers) => Run(sent, Success(Record(store, missing, numbers, opts.idProperty)))
  }

  /** On success, article `i` of the delta is recorded with the issue number
      of response `i`, unless a later missing article has the same identity. */
  lemma CreateIssuesRecordsResponses(articles: seq<Article>, store: Store, opts: Options, outcome: nat -> Outcome, rank: nat -> nat, i: nat)
    requires CreateIssues(articles, store, opts, outcome, rank).result.Success?
    requires var missing := Missing(articles, store, opts.idProperty);
             i < |missing| && LastWithKey(missing, opts.idProperty, i)
    ensures var missing := Missing(articles, store, opts.idProperty);
            var k := IdentityKey(missing[i], opts.idProperty);
            var m := CreateIssues(articles, store, opts, outcome, rank).result.value;
            k in m && m[k] == IssueRecord(outcome(i).body.number)
  {
    var missing := Missing(articles, store, opts.idProperty);
    var outcomes := Answers(outcome, |missing|);
    var numbers := SettleAll(outcomes, rank).value;
    assert outcomes[i] == outcome(i);
    RecordLastWins(store, missing, numbers, opts.idProperty, i);
  }

  /** On success, keys are only added, and only identities of missing articles are written. */
  lemma CreateIssuesOnlyAdds(articles: seq<Article>, store: Store, opts: Options, outcome: nat -> Outcome, rank: nat -> nat, k: string)
    requires CreateIssues(articles, store, opts, outcome, rank).result.Success?
    ensures k in CreateIssues(articles, store, opts, outcome, rank).result.value
            <==> k in store || k in KeysOf(Missing(articles, store, opts.idProperty), opts.idProperty)
  {
    var missing := Missing(articles, store, opts.idProperty);
    if |missing| > 0 {
      RecordKeys(store, missing, SettleAll(Answers(outcome, |missing|), rank).value, opts.idProperty);
    }
  }

  /** On success, an entry under a key that is no missing article's identity
      is unchanged; in particular every entry that already had an issue is. */
  lemma CreateIssuesKeepsOthers(articles: seq<Article>, store: Store, opts: Options, outcome: nat -> Outcome, rank: nat -> nat, k: string)
    requires CreateIssues(articles, store, opts, outcome, rank).result.Success?
    requires k in store
    requires k !in KeysOf(Missing(articles, store, opts.idProperty), opts.idProperty) || HasIssue(store, k)
    ensures k in CreateIssues(articles, store, opts, outcome, rank).result.value
    ensures CreateIssues(articles, store, opts, outcome, rank).result.value[k] == store[k]
  {
    var missing := Missing(articles, store, opts.idProperty);
    if |missing| > 0 {
      if HasIssue(store, k) {
        MissingMembers(articles, store, opts.idProperty);
      }
      RecordPreserves(store, missing, SettleAll(Answers(outcome, |missing|), rank).value, opts.idProperty, k);
    }
  }

  /** On success, every article has an issue in the returned mapping. */
  lemma CreateIssuesCoversAll(articles: seq<Article>, store: Store, opts: Options, outcome: nat -> Outcome, rank: nat -> nat)
    requires CreateIssues(articles, store, opts, outcome, rank).result.Success?
    ensures var m := CreateIssues(articles, store, opts, outcome, rank).result.value;
            forall a :: a in articles ==> HasIssue(m, IdentityKey(a, opts.idProperty))
  {
    var missing := Missing(articles, store, opts.idProperty);
    var m := CreateIssues(articles, store, opts, outcome, rank).result.value;
    MissingMembers(articles, store, opts.idProperty);
    forall a | a in articles
      ensures HasIssue(m, IdentityKey(a, opts.idProperty))
    {
      if a in missing {
        var numbers := SettleAll(Answers(outcome, |missing|), rank).value;
        assert m == Record(store, missing, numbers, opts.idProperty);
        RecordCovers(store, missing, numbers, opts.idProperty, a);
      } else {
        CreateIssuesKeepsOthers(articles, store, opts, outcome, rank, IdentityKey(a, opts.idProperty));
      }
    }
  }

  /** Idempotence: after a successful run the delta of the same articles is
      empty, so a second run sends nothing and returns the mapping unchanged,
      whatever the network would have answered. */
  lemma CreateIssuesIdempotent(articles: seq<Article>, store: Store, opts: Options, outcome: nat -> Outcome, rank: nat -> nat,
                               outcome2: nat -> Outcome, rank2: nat -> nat)
    requires CreateIssues(articles, store, opts, outcome, rank).result.Success?
    ensures var m := CreateIssues(articles, store, opts, outcome, rank).result.value;
            && Missing(articles, m, opts.idProperty) == []
            && CreateIssues(articles, m, opts, outcome2, rank2) == Run([], Success(m))
  {
    var m := CreateIssues(articles, store, opts, outcome, rank).result.value;
    CreateIssuesCoversAll(articles, store, opts, outcome, rank);
    MissingEmptyIffCovered(articles, m, opts.idProperty);
  }

  /** The mapping file as found at the start of a run. */
  datatype StoredFile = Absent | Present(mapping: Store) | Unreadable(error: string)

  /** `getArticlesJSON`: a missing file is the empty mapping, not an error. */
  function Load(file: StoredFile): (r: Result<Store, Failure>)
    ensures file.Absent? ==> r == Success(map[])
    ensures file.Present? ==> r == Success(file.mapping)
    ensures file.Unreadable? ==> r == Failure(StorageRead(file.error))
  {
    match file
    case Absent => Success(map[])
    case Present(m) => Success(m)
    case Unreadable(e) => Failure(StorageRead(e))
  }

  /** A write of the whole mapping to the configured path. */
  datatype Write = Write(path: string, mapping: Store)

  /** What `ghComments` did: the payloads sent, what the returned promise
      settles to, and the write it starts, if any. */
  datatype Outcomes = Outcomes(sent: seq<IssuePayload>, result: Result<Store, Failure>, write: Option<Write>)

  /** `ghComments`: resolve the options, load, run, and start writing the
      mapping back when the run succeeded. The write is not awaited, so its
      own failure never reaches the caller. */
  function GhComments(articles: seq<Article>, user: UserOptions, file: StoredFile, outcome: nat -> Outcome, rank: nat -> nat): (r: Outcomes)
    ensures file.Unreadable? ==> r == Outcomes([], Failure(StorageRead(file.error)), None)
    ensures r.write.Some? <==> r.result.Success?
    ensures r.write.Some? ==> r.write.value == Write(Resolve(user).jsonPath, r.result.value)
    ensures !file.Unreadable? ==>
              var run := CreateIssues(articles, Load(file).value, Resolve(user), outcome, rank);
              r.sent == run.sent && r.result == run.result
    ensures r.result.Success? ==> forall a :: a in articles ==> HasIssue(r.result.value, IdentityKey(a, Resolve(user).idProperty))
    ensures r.result.Success? ==>
              forall k :: HasIssue(Load(file).value, k) ==> k in r.result.value && r.result.value[k] == Load(file).value[k]
  {
    var opts := Resolve(user);
    match Load(file)
    case Failure(e) => Outcomes([], Failure(e), None)
    case Success(store) =>
      var run := CreateIssues(articles, store, opts, outcome, rank);
      if run.result.Success? then
        CreateIssuesCoversAll(articles, store, opts, outcome, rank);
        assert forall k :: HasIssue(store, k) ==> k in run.result.value && run.result.value[k] == store[k] by {
          forall k | HasIssue(store, k)
            ensures k in run.result.value && run.result.value[k] == store[k]
          {
            CreateIssuesKeepsOthers(articles, store, opts, outcome, rank, k);
          }
        }
        Outcomes(run.sent, run.result, Some(Write(opts.jsonPath, run.result.value)))
      else Outcomes(run.sent, run.result, None)
  }

  /** A rejected run writes nothing, so the file keeps the previous mapping
      even when some sibling requests created their issues. */
  lemma FailedRunWritesNothing(articles: seq<Article>, user: UserOptions, file: StoredFile, outcome: nat -> Outcome, rank: nat -> nat)
    requires file.Present? || file.Absent?
    requires exists i :: 0 <= i < |Missing(articles, Load(file).value, Resolve(user).idProperty)| && !Succeeds(outcome(i))
    ensures GhComments(articles, user, file, outcome, rank).result.Failure?
    ensures GhComments(articles, user, file, outcome, rank).write == None
  {
  }
}
