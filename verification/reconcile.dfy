/**
 Recording the created issues: response `i` belongs to missing article `i`,
 and each pair writes `mapping[id] = {issueId: number}` in order, so a
 later article with the same identity overwrites an earlier one.
 */
module Reconcile {
  import opened Articles

  /** The identities of a sequence of articles, as property keys. */
  function KeysOf(articles: seq<Article>, idProperty: string): set<string> {
    set a | a in articles :: IdentityKey(a, idProperty)
  }

  /** No later article shares the identity of article `i`. */
  predicate LastWithKey(articles: seq<Article>, idProperty: string, i: nat)
    requires i < |articles|
  {
    forall j :: i < j < |articles| ==> IdentityKey(articles[j], idProperty) != IdentityKey(articles[i], idProperty)
  }

  function Record(store: Store, missing: seq<Article>, numbers: seq<int>, idProperty: string): (r: Store)
    requires |numbers| == |missing|
    ensures store.Keys <= r.Keys
    decreases |missing|
  {
    if |missing| == 0 then store
    else Record(store[IdentityKey(missing[0], idProperty) := IssueRecord(numbers[0])], missing[1..], numbers[1..], idProperty)
  }

  lemma KeysOfCons(missing: seq<Article>, idProperty: string)
    requires |missing| > 0
    ensures KeysOf(missing, idProperty) == {IdentityKey(missing[0], idProperty)} + KeysOf(missing[1..], idProperty)
  {
  }

  /** The only keys written are identities of the missing articles. */
  lemma {:induction false} RecordKeys(store: Store, missing: seq<Article>, numbers: seq<int>, idProperty: string)
    requires |numbers| == |missing|
    ensures Record(store, missing, numbers, idProperty).Keys == store.Keys + KeysOf(missing, idProperty)
    decreases |missing|
  {
    if |missing| > 0 {
      KeysOfCons(missing, idProperty);
      RecordKeys(store[IdentityKey(missing[0], idProperty) := IssueRecord(numbers[0])], missing[1..], numbers[1..], idProperty);
    }
  }

  /** Nothing else changes: a key that is no missing article's identity keeps its entry. */
  lemma {:induction false} RecordPreserves(store: Store, missing: seq<Article>, numbers: seq<int>, idProperty: string, k: string)
    requires |numbers| == |missing|
    requires k in store && k !in KeysOf(missing, idProperty)
    ensures k in Record(store, missing, numbers, idProperty)
    ensures Record(store, missing, numbers, idProperty)[k] == store[k]
    decreases |missing|
  {
    if |missing| > 0 {
      KeysOfCons(missing, idProperty);
      RecordPreserves(store[IdentityKey(missing[0], idProperty) := IssueRecord(numbers[0])], missing[1..], numbers[1..], idProperty, k);
    }
  }

  /** Article `i` gets the issue of response `i`, unless a later article with
      the same identity overwrites it: the last position wins. */
  lemma {:induction false} RecordLastWins(store: Store, missing: seq<Article>, numbers: seq<int>, idProperty: string, i: nat)
    requires |numbers| == |missing|
    requires i < |missing| && LastWithKey(missing, idProperty, i)
    ensures IdentityKey(missing[i], idProperty) in Record(store, missing, numbers, idProperty)
    ensures Record(store, missing, numbers, idProperty)[IdentityKey(missing[i], idProperty)] == IssueRecord(numbers[i])
    decreases |missing|
  {
    var k := IdentityKey(missing[i], idProperty);
    var store' := store[IdentityKey(missing[0], idProperty) := IssueRecord(numbers[0])];
    if i == 0 {
      assert k !in KeysOf(missing[1..], idProperty) by {
        forall a | a in missing[1..]
          ensures IdentityKey(a, idProperty) != k
        {
          var j :| 0 <= j < |missing[1..]| && missing[1..][j] == a;
          assert missing[j + 1] == a;
        }
      }
      RecordPreserves(store', missing[1..], numbers[1..], idProperty, k);
    } else {
      assert LastWithKey(missing[1..], idProperty, i - 1) by {
        forall j | i - 1 < j < |missing[1..]|
          ensures IdentityKey(missing[1..][j], idProperty) != k
        {
          assert missing[1..][j] == missing[j + 1];
        }
      }
      RecordLastWins(store', missing[1..], numbers[1..], idProperty, i - 1);
    }
  }

  /** Every missing article's identity ends up with an issue record, hence truthy. */
  lemma RecordCovers(store: Store, missing: seq<Article>, numbers: seq<int>, idProperty: string, a: Article)
    requires |numbers| == |missing|
    requires a in missing
    ensures HasIssue(Record(store, missing, numbers, idProperty), IdentityKey(a, idProperty))
  {
    var i := LastIndexWithKey(missing, idProperty, IdentityKey(a, idProperty));
    RecordLastWins(store, missing, numbers, idProperty, i);
  }

  /** The position of the last article whose identity is `k`. */
  function LastIndexWithKey(missing: seq<Article>, idProperty: string, k: string): (i: nat)
    requires exists a :: a in missing && IdentityKey(a, idProperty) == k
    ensures i < |missing| && IdentityKey(missing[i], idProperty) == k
    ensures LastWithKey(missing, idProperty, i)
  {
    var last := missing[|missing| - 1];
    if IdentityKey(last, idProperty) == k then |missing| - 1
    else
      assert exists a :: a in missing[..|missing| - 1] && IdentityKey(a, idProperty) == k by {
        var a :| a in missing && IdentityKey(a, idProperty) == k;
        var j :| 0 <= j < |missing| && missing[j] == a;
        assert j < |missing| - 1;
        assert missing[..|missing| - 1][j] == a;
      }
      var i := LastIndexWithKey(missing[..|missing| - 1], idProperty, k);
      assert missing[i] == missing[..|missing| - 1][i];
      i
  }
}
