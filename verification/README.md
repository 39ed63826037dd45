# gh-issues-for-comments, modelled in Dafny

`ghComments(articles, options)` makes sure every article of a blog has one
GitHub issue to hold its comments. It keeps a JSON file mapping each
article's identity to the number of the issue created for it. A run loads
that mapping, computes the delta (the articles with no truthy entry yet),
sends one issue-creation request per missing article, and, only when every
request succeeds, records `{issueId: number}` under each missing article's
identity and writes the mapping back.

This project models that reconciliation as pure functions over immutable
values:

- `js_values.dfy` (`JsValues`): the primitive values an identity or title
  can hold, their truthiness, and their conversion to a property key
  (`String(v)`), including integer printing with a parse-back round trip.
- `articles.dfy` (`Articles`): articles as property records, the stored
  mapping (`map<string, Entry>`), and the "already has an issue" test.
- `delta.dfy` (`Delta`): the order-preserving filter of `createIssues`, with
  a loop implementation proved equal to the functional one.
- `transport.dfy` (`Transport`): request outcomes, their classification,
  and `Promise.all` (all succeed, or the first failure to settle).
- `reconcile.dfy` (`Reconcile`): writing the responses into the mapping by
  position, the later duplicate winning.
- `config.dfy` (`Config`): option defaults, the `Object.assign` merge, and
  the default issue payload.
- `sync.dfy` (`Sync`): `createIssues` and `ghComments` put together, with
  the run-level properties (fail-fast, only adds, covers every article,
  idempotence).
- `inherited_lookup.dfy` (`InheritedLookup`): the lookup as JavaScript
  performs it on a plain object, kept for the finding below.
- `scenarios.dfy` (`Scenarios`): concrete runs.

The network is a parameter: `outcome(i)` is how the i-th request sent
ends (a transport error, or a status and a body), and `rank(i)` is when it
settles. The mapping file is an input (`Absent`, `Present(mapping)` or
`Unreadable(error)`), and the write-back is an output value.

The code tests entries for truthiness (`!createdIssues[id]`), not for key
presence, so a stored `0`, `""`, `false` or `null` counts as "no issue".
The returned promise resolves without waiting for the mapping to be
written.

One deliberate departure: the run-level members look up only the mapping's
own entries. On a plain JavaScript object the lookup also sees properties
inherited from `Object.prototype`, so index.js:37 never sends a request for
an article whose identity is, say, `"constructor"`. That behaviour is
modelled separately, in `InheritedLookup`, and reported under "## Findings".

## Model

| member | source | states |
|---|---|---|
| `JsValues.NumberKeysInjective` | index.js:37 | two numeric identities name the same mapping key exactly when they are equal |
| `JsValues.NumberKeyIsItsDecimalString` | index.js:37 | a numeric identity and a string identity collide exactly when the string is the number's decimal form |
| `JsValues.IntToStringRoundTrip` | index.js:37 | the decimal key printed for an integer identity reads back as that integer |
| `Delta.Missing` | index.js:37 | the delta is never longer than the article list |
| `Delta.MissingMembers` | index.js:37 | an article is in the delta exactly when it is one of the input articles and its identity has no truthy entry |
| `Delta.MissingAppend` | index.js:37 | the delta of a concatenation is the concatenation of the deltas, so input order is kept |
| `Delta.MissingSingle` | index.js:37 | a single article is kept exactly when it needs an issue |
| `Delta.MissingEmptyIffCovered` | index.js:37-42 | the no-op branch is taken exactly when every article's identity already has a truthy entry |
| `Delta.ComputeMissing` | index.js:37 | an iterative filter returns the delta together with strictly increasing kept positions, a position being kept exactly when its article needs an issue |
| `Transport.Classify` | index.js:58-62 | a request succeeds exactly when there is no transport error and the status is below 400; it then yields the body's `number`, otherwise it fails with the error or with the body |
| `Transport.EarliestFailure` | index.js:67 | among the requests, finds a failing one that settles no later than any other failing one, and finds none exactly when all succeed |
| `Transport.SettleAll` | index.js:67 | the batch succeeds exactly when every request succeeds, then yields every issue number in request order; otherwise it fails with the failure of a request that settles first among the failing ones |
| `Transport.SettleAllOfOne` | index.js:58-67 | a batch of one request succeeds exactly when its classification does, with that request's number, and otherwise rejects with that request's failure |
| `Reconcile.Record` | index.js:68-72 | writing responses never removes a key |
| `Reconcile.RecordKeys` | index.js:68-71 | the keys afterwards are the old keys plus the identities of the missing articles |
| `Reconcile.RecordPreserves` | index.js:68-71 | a key that is no missing article's identity keeps its old entry |
| `Reconcile.RecordLastWins` | index.js:68-71 | missing article `i` is recorded with the issue of response `i` unless a later missing article has the same identity |
| `Reconcile.RecordCovers` | index.js:68-71 | every missing article's identity ends with a truthy issue record |
| `Config.DefaultGetIssue` | index.js:82-88 | the default payload's title is "Comments: " followed by the article's title, its body contains that title, and its labels are exactly `["comments"]` |
| `Config.DefaultTitleDeterminesArticleTitle` | index.js:84 | two articles get the same default issue title exactly when their titles render the same |
| `Config.Resolve` | index.js:106 | every option the caller supplies overrides the default; `jsonPath` defaults to `gh-comments.json`, `idProperty` to `id`, `getIssue` to the default builder; account, repository and token are passed through |
| `Config.ResolveIsObjectAssign` | index.js:106 | the resolved options agree, field by field, with copying the default properties and then the caller's supplied properties onto an empty object, later copies replacing earlier ones |
| `Config.ResolveNoOptionsIsDefaults` | index.js:79-89 | with no options supplied, the run uses `gh-comments.json`, `id` and the default builder, with no account, repository or token |
| `Sync.CreateIssues` | index.js:36-77 | one payload per missing article, in delta order, built by `getIssue`; with no missing article, the mapping comes back unchanged; the run succeeds exactly when every request does, and otherwise fails with the failure of a request that settles first |
| `Sync.CreateIssuesRecordsResponses` | index.js:68-72 | after success, missing article `i` is recorded with response `i`'s issue number unless a later duplicate overwrites it |
| `Sync.CreateIssuesOnlyAdds` | index.js:68-71 | after success, a key is present exactly when it was present before or is the identity of a missing article: keys are only added, and only those |
| `Sync.CreateIssuesKeepsOthers` | index.js:37-71 | after success, an entry under a key that is no missing article's identity, and every entry that already had an issue, is unchanged |
| `Sync.CreateIssuesCoversAll` | index.js:36-77 | after success, every article's identity has a truthy entry |
| `Sync.CreateIssuesIdempotent` | index.js:37-42 | after success, the delta of the same articles is empty and a second run sends nothing and returns the mapping unchanged, whatever the network would answer |
| `Sync.Load` | index.js:7-19 | a missing mapping file is the empty mapping; an unreadable one rejects the run |
| `Sync.GhComments` | index.js:105-114 | with a readable file, the payloads sent and the settled result are those of `createIssues` on the loaded mapping and the resolved options; the mapping is written to the configured path exactly when the run succeeds; on success every article is covered and every earlier entry that had an issue is kept; an unreadable file rejects before any request |
| `Sync.FailedRunWritesNothing` | index.js:108-113 | when any request fails, the run rejects and nothing is written, even if sibling requests succeeded |
| `InheritedLookup.MissingAsWritten` | index.js:37 | the filter as written, with inherited `Object.prototype` properties visible; never longer than the input |
| `InheritedLookup.LookupsAgreeOffPrototype` | index.js:37 | inherited and own-property lookup differ exactly for names of `Object.prototype` the mapping does not own |
| `InheritedLookup.ConstructorIdNeverGetsIssue` | index.js:37 | an article whose identity is "constructor" is left out of the delta as written, but kept by own-property lookup |
| `Scenarios.TwoArticlesCreated` | index.js:105-113 | articles 1 and 2, an empty mapping and responses 101 and 102 give `{"1": {issueId: 101}, "2": {issueId: 102}}`, written to `gh-comments.json` |
| `Scenarios.PartialFailureRecordsNothing` | index.js:58-67 | from any mapping in which neither article has an issue, one response 55 and one status 422 reject with the 422 body and write nothing |
| `Scenarios.DefaultPayloadOfHello` | index.js:82-88 | the default payload of title "Hello" has title "Comments: Hello", the label `comments`, and "Hello" in its body |
| `Scenarios.NumberAndStringIdentitiesCollide` | index.js:37 | an article with identity 1 is covered by an entry stored under "1" |
| `Scenarios.DuplicateIdentityLastWins` | index.js:68-72 | two missing articles with identity "x" both get a request, and the second response's issue is recorded |
| `Scenarios.MissingIdentityIsUndefinedKey` | index.js:37 | an article without the identity property is keyed "undefined" |

## Left out

- Reading and parsing the mapping file (`index.js:7-19`) is reduced to its three outcomes. A `JSON.parse` error is thrown inside the read callback, outside the promise, so the run never settles; that is not modelled.
- Serialising and writing the mapping (`index.js:24-34`) is reduced to a `Write(path, mapping)` value. The write is not awaited (`index.js:111`), so a write error never reaches the caller, and the returned promise resolves before the file is written; timing is not expressible here.
- The HTTP request itself (`index.js:44-57`): URL, headers, token, and JSON encoding of the payload are transport plumbing. Only the payload and the outcome are modelled.
- Concurrency: requests are dispatched together and settle in any order. Only the positional pairing of responses and the settle order (`rank`) are kept.
- `console.log` notices (`index.js:40`, `index.js:72`) are not modelled.
- JavaScript numbers are modelled as mathematical integers. Fractions, `-0`, `NaN`, exponent notation and precision loss above 2^53 are left out. Objects and arrays used as identities are left out too.
- A success response whose body has no `number` is not modelled; the source would store `{issueId: undefined}`.
- `Config.Resolve`: a user option present but set to `undefined` overrides the default under `Object.assign`. The model only distinguishes a supplied field from an omitted one.
- Assigning to the key `__proto__` changes the object's prototype instead of adding an entry. The model treats every key as an own entry.
- `dist/index.js` is the compiled form of `index.js` and is not modelled separately.
- Delta.Missing: its own contract only bounds the length; which articles it keeps, and in what order, is proved by `Delta.MissingMembers`, `Delta.MissingAppend` and `Delta.ComputeMissing`. It uses the corrected own-entry lookup, so an identity that names an `Object.prototype` property (such as `"constructor"`) is kept in the delta, where index.js:37 drops it.
- Sync.CreateIssues: built on `Delta.Missing`, so it uses the corrected own-entry lookup; for identities that name `Object.prototype` properties it sends requests that index.js:37 never sends. The same holds for the `Sync` lemmas and `Sync.GhComments`.
- Reconcile.Record: its own contract only says no key is removed; what it writes is proved by `Reconcile.RecordKeys`, `Reconcile.RecordPreserves` and `Reconcile.RecordLastWins`.
- InheritedLookup.MissingAsWritten: its own contract only bounds the length; it exists to exhibit the finding below.
- Entries loaded from a file that are objects other than `{issueId}` are represented by `IssueRecord`, since all objects are truthy.

## Findings

| source | as written | input that shows it | evidently intended | confidence | as-written member | corrected member |
|---|---|---|---|---|---|---|
| index.js:37 | `!createdIssues[id]` reads inherited `Object.prototype` properties, and those are all truthy | an article `{id: "constructor"}` with an empty mapping is never in the delta, so no issue is ever created for it | only the mapping's own entries decide whether an article has an issue | high, not executed | `InheritedLookup.MissingAsWritten` (shown by `InheritedLookup.ConstructorIdNeverGetsIssue`) | `Delta.Missing` (own-property lookup; every article is covered after a successful run, proved in `Sync.CreateIssuesCoversAll`) |
