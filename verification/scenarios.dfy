/**
 Concrete runs of the synchroniser, one per documented behaviour.
 */
module Scenarios {
  import opened Wrappers
  import opened JsValues
  import opened Articles
  import opened Delta
  import opened Transport
  import opened Reconcile
  import opened Config
  import opened Sync

  function ArticleOf(id: JsValue, title: string): Article {
    Article(map["id" := id, "title" := Str(title)])
  }

  /** Two new articles against an empty mapping, both requests answered:
      the mapping gains one record per article, and it is written back. */
  lemma TwoArticlesCreated(rank: nat -> nat)
    ensures var articles := [ArticleOf(Num(1), "A"), ArticleOf(Num(2), "B")];
            var outcome := (i: nat) => Response(201, Body(if i == 0 then 101 else 102, ""));
            var r := GhComments(articles, NoOptions, Absent, outcome, rank);
            && r.result == Success(map["1" := IssueRecord(101), "2" := IssueRecord(102)])
            && r.write == Some(Write("gh-comments.json", map["1" := IssueRecord(101), "2" := IssueRecord(102)]))
  {
  }

  /** One request answered, its sibling rejected with status 422: the run
      rejects with the tracker's body and nothing is written, so the file
      keeps whatever it held before. Any earlier mapping in which neither
      article has an issue yet will do. */
  lemma PartialFailureRecordsNothing(rank: nat -> nat, stored: Store)
    requires !HasIssue(stored, "1") && !HasIssue(stored, "2")
    ensures var articles := [ArticleOf(Num(1), "A"), ArticleOf(Num(2), "B")];
            var rejection := Body(0, "Validation Failed");
            var outcome := (i: nat) => if i == 0 then Response(201, Body(55, "")) else Response(422, rejection);
            var r := GhComments(articles, NoOptions, Present(stored), outcome, rank);
            r.result == Failure(Rejected(rejection)) && r.write == None
  {
  }

  /** The default payload of `{id: 7, title: "Hello"}`. */
  lemma DefaultPayloadOfHello()
    ensures var p := Resolve(NoOptions).getIssue(ArticleOf(Num(7), "Hello"));
            && p.title == "Comments: Hello"
            && p.labels == ["comments"]
            && OccursAt("Hello", p.body, |BodyPrefix|)
  {
  }

  /** The number 1 and the string "1" are the same key: an article with
      identity 1 is covered by an entry stored under "1". */
  lemma NumberAndStringIdentitiesCollide()
    ensures Missing([ArticleOf(Num(1), "A")], map["1" := IssueRecord(9)], "id") == []
  {
  }

  /** Two missing articles with the same identity: both get a request, and
      the issue of the later one is the one recorded. */
  lemma DuplicateIdentityLastWins(rank: nat -> nat)
    ensures var articles := [ArticleOf(Str("x"), "First"), ArticleOf(Str("x"), "Second")];
            var outcome := (i: nat) => Response(201, Body(10 + i, ""));
            var run := CreateIssues(articles, map[], Resolve(NoOptions), outcome, rank);
            && |run.sent| == 2
            && run.result == Success(map["x" := IssueRecord(11)])
  {
    var articles := [ArticleOf(Str("x"), "First"), ArticleOf(Str("x"), "Second")];
    var outcome := (i: nat) => Response(201, Body(10 + i, ""));
    assert Missing(articles, map[], "id") == articles;
    var numbers := SettleAll(Answers(outcome, 2), rank).value;
    assert numbers == [10, 11];
    assert Record(map[], articles, numbers, "id") == map["x" := IssueRecord(11)];
  }

  /** Articles without the identity property all share the key "undefined". */
  lemma MissingIdentityIsUndefinedKey(title: string)
    ensures IdentityKey(Article(map["title" := Str(title)]), "id") == "undefined"
  {
  }
}
