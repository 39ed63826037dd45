/**
 The delta: the articles whose identity has no truthy entry in the mapping
 yet, kept in the order they were given.
 */
module Delta {
  import opened Articles

  /** The article needs an issue: its identity has no truthy entry. */
  predicate NeedsIssue(a: Article, store: Store, idProperty: string) {
    !HasIssue(store, IdentityKey(a, idProperty))
  }

  function Missing(articles: seq<Article>, store: Store, idProperty: string): (r: seq<Article>)
    ensures |r| <= |articles|
  {
    if |articles| == 0 then []
    else
      var rest := Missing(articles[1..], store, idProperty);
      if NeedsIssue(articles[0], store, idProperty) then [articles[0]] + rest else rest
  }

  /** The delta holds exactly the input articles that need an issue. */
  lemma {:induction false} MissingMembers(articles: seq<Article>, store: Store, idProperty: string)
    ensures forall a :: a in Missing(articles, store, idProperty) <==> a in articles && NeedsIssue(a, store, idProperty)
  {
    if |articles| > 0 {
      MissingMembers(articles[1..], store, idProperty);
      assert forall a :: a in articles <==> a == articles[0] || a in articles[1..];
    }
  }

  /** The run is a no-op exactly when every article already has an issue. */
  lemma {:induction false} MissingEmptyIffCovered(articles: seq<Article>, store: Store, idProperty: string)
    ensures Missing(articles, store, idProperty) == []
            <==> forall a :: a in articles ==> HasIssue(store, IdentityKey(a, idProperty))
  {
    if |articles| > 0 {
      MissingEmptyIffCovered(articles[1..], store, idProperty);
      assert forall a :: a in articles <==> a == articles[0] || a in articles[1..];
    }
  }

  /** Filtering distributes over concatenation: the delta keeps the input order. */
  lemma {:induction false} MissingAppend(xs: seq<Article>, ys: seq<Article>, store: Store, idProperty: string)
    ensures Missing(xs + ys, store, idProperty) == Missing(xs, store, idProperty) + Missing(ys, store, idProperty)
  {
    if |xs| > 0 {
      assert (xs + ys)[1..] == xs[1..] + ys;
      MissingAppend(xs[1..], ys, store, idProperty);
    } else {
      assert xs + ys == ys;
    }
  }

  /** On one article the delta keeps it exactly when it needs an issue. */
  lemma MissingSingle(a: Article, store: Store, idProperty: string)
    ensures Missing([a], store, idProperty) == (if NeedsIssue(a, store, idProperty) then [a] else [])
  {
  }

  lemma MissingStep(articles: seq<Article>, n: nat, store: Store, idProperty: string)
    requires n < |articles|
    ensures Missing(articles[..n + 1], store, idProperty)
         == Missing(articles[..n], store, idProperty)
            + (if NeedsIssue(articles[n], store, idProperty) then [articles[n]] else [])
  {
    assert articles[..n + 1] == articles[..n] + [articles[n]];
    MissingAppend(articles[..n], [articles[n]], store, idProperty);
    MissingSingle(articles[n], store, idProperty);
  }

  /** An independent, positional account of the delta: an iterative filter
      that also returns the indices it kept. The result is the functional
      delta, the kept positions increase strictly, and a position is kept
      exactly when its article needs an issue. */
  method ComputeMissing(articles: seq<Article>, store: Store, idProperty: string)
    returns (r: seq<Article>, kept: seq<nat>)
    ensures r == Missing(articles, store, idProperty)
    ensures |kept| == |r|
    ensures forall i :: 0 <= i < |kept| ==> kept[i] < |articles| && r[i] == articles[kept[i]]
    ensures forall i, j :: 0 <= i < j < |kept| ==> kept[i] < kept[j]
    ensures forall p :: 0 <= p < |articles| ==> (p in kept <==> NeedsIssue(articles[p], store, idProperty))
  {
    r, kept := [], [];
    var n := 0;
    while n < |articles|
      invariant n <= |articles|
      invariant r == Missing(articles[..n], store, idProperty)
      invariant |kept| == |r|
      invariant forall i :: 0 <= i < |kept| ==> kept[i] < n && r[i] == articles[kept[i]]
      invariant forall i, j :: 0 <= i < j < |kept| ==> kept[i] < kept[j]
      invariant forall p :: 0 <= p < n ==> (p in kept <==> NeedsIssue(articles[p], store, idProperty))
    {
      MissingStep(articles, n, store, idProperty);
      if NeedsIssue(articles[n], store, idProperty) {
        assert forall p :: p in kept + [n] <==> p in kept || p == n;
        r, kept := r + [articles[n]], kept + [n];
      } else {
        assert n !in kept;
      }
      n := n + 1;
    }
    assert articles[..n] == articles;
  }
}
