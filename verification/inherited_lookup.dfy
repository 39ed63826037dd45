/**
 The lookup `createdIssues[key]` as JavaScript evaluates it on a plain
 object: a key the object does not own is looked up on `Object.prototype`,
 whose properties are all functions or objects and therefore truthy.
 The rest of the model uses own-property lookup (`Articles.HasIssue`).
 */
module InheritedLookup {
  import opened JsValues
  import opened Articles
  import Delta

  /** The properties every plain object inherits from `Object.prototype`. */
  const PrototypeNames: set<string> := {
    "constructor", "hasOwnProperty", "isPrototypeOf", "propertyIsEnumerable",
    "toLocaleString", "toString", "valueOf", "__proto__",
    "__defineGetter__", "__defineSetter__", "__lookupGetter__", "__lookupSetter__"
  }

  /** `!!createdIssues[key]` with inherited properties taken into account. */
  predicate HasIssueAsWritten(store: Store, key: string) {
    if key in store then EntryTruthy(store[key]) else key in PrototypeNames
  }

  /** The filter of `createIssues` as written. */
  function MissingAsWritten(articles: seq<Article>, store: Store, idProperty: string): (r: seq<Article>)
    ensures |r| <= |articles|
  {
    if |articles| == 0 then []
    else
      var rest := MissingAsWritten(articles[1..], store, idProperty);
      if HasIssueAsWritten(store, IdentityKey(articles[0], idProperty)) then rest else [articles[0]] + rest
  }

  /** The two lookups differ only on names inherited from `Object.prototype`. */
  lemma LookupsAgreeOffPrototype(store: Store, key: string)
    ensures HasIssueAsWritten(store, key) != HasIssue(store, key) <==> key !in store && key in PrototypeNames
  {
  }

  /** An article whose identity is "constructor", checked against an empty
      mapping: the filter as written finds an issue for it and leaves it out
      of the delta, so no run ever creates one, while own-property lookup
      puts it in the delta. */
  lemma ConstructorIdNeverGetsIssue()
    ensures var a := Article(map["id" := Str("constructor"), "title" := Str("Objects")]);
            && MissingAsWritten([a], map[], "id") == []
            && Delta.Missing([a], map[], "id") == [a]
  {
  }
}
