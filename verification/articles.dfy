/**
 Articles and the persisted mapping from article identity to created issue.
 The mapping is a plain JavaScript object: its keys are the stringified
 identities, its values whatever was stored under them.
 */
module Articles {
  import opened JsValues

  /** An article is an arbitrary record; only the property named by the
      configured identity field and `title` are ever read. */
  datatype Article = Article(props: map<string, JsValue>) {
    /** `article[name]`: a property that is not set reads as `undefined`. */
    function Get(name: string): JsValue {
      if name in props then props[name] else Undefined
    }
  }

  /** `article[idProperty]` used as a property key of the mapping. */
  function IdentityKey(a: Article, idProperty: string): string {
    ToJsString(a.Get(idProperty))
  }

  /** A value of the mapping: `{issueId}` as written by a successful run, or
      a scalar found in a mapping file written by someone else. */
  datatype Entry = IssueRecord(issueId: int) | Scalar(value: JsValue)

  /** Objects are always truthy; scalars follow ToBoolean. */
  predicate EntryTruthy(e: Entry) {
    match e
    case IssueRecord(_) => true
    case Scalar(v) => Truthy(v)
  }

  type Store = map<string, Entry>

  /** The mapping has a truthy own entry under `key`: that identity already has an issue. */
  predicate HasIssue(store: Store, key: string) {
    key in store && EntryTruthy(store[key])
  }
}
