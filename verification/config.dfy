/**
 Options of a run: every field the caller supplies replaces the default of
 the same name, the others keep their defaults; and the default issue
 builder.
 */
module Config {
  import opened Wrappers
  import opened JsValues
  import opened Articles

  /** The issue sent to the tracker for one article. */
  datatype IssuePayload = IssuePayload(title: string, body: string, labels: seq<string>)

  const DefaultJsonPath: string := "gh-comments.json"
  const DefaultIdProperty: string := "id"
  const TitlePrefix: string := "Comments: "
  const BodyPrefix: string := "This issue is reserved for comments to **"
  const BodySuffix: string := "**. Leave a comment below and it will be shown in the blog page."

  /** `s` occurs in `text` starting at `at`. */
  predicate OccursAt(s: string, text: string, at: nat) {
    at + |s| <= |text| && text[at..at + |s|] == s
  }

  /** The default `getIssue`: the article's title, as a template literal
      renders it, prefixed by "Comments: " in the issue title and quoted in
      bold in the issue body; the single label `comments`. */
  function DefaultGetIssue(a: Article): (p: IssuePayload)
    ensures |p.title| == |TitlePrefix| + |ToJsString(a.Get("title"))|
    ensures p.title[..|TitlePrefix|] == TitlePrefix && p.title[|TitlePrefix|..] == ToJsString(a.Get("title"))
    ensures OccursAt(ToJsString(a.Get("title")), p.body, |BodyPrefix|)
    ensures p.labels == ["comments"]
  {
    var t := ToJsString(a.Get("title"));
    var body := BodyPrefix + t + BodySuffix;
    assert body[|BodyPrefix|..|BodyPrefix| + |t|] == t;
    IssuePayload(TitlePrefix + t, body, ["comments"])
  }

  /** The default payload tells articles with different titles apart. */
  lemma DefaultTitleDeterminesArticleTitle(a: Article, b: Article)
    ensures DefaultGetIssue(a).title == DefaultGetIssue(b).title <==> ToJsString(a.Get("title")) == ToJsString(b.Get("title"))
  {
  }

  /** The options a caller may pass; None is a field the caller left out. */
  datatype UserOptions = UserOptions(
    jsonPath: Option<string>,
    idProperty: Option<string>,
    getIssue: Option<Article -> IssuePayload>,
    username: Option<string>,
    repo: Option<string>,
    token: Option<string>)

  /** The options of a run. The tracker account, repository and token have no default. */
  datatype Options = Options(
    jsonPath: string,
    idProperty: string,
    getIssue: Article -> IssuePayload,
    username: Option<string>,
    repo: Option<string>,
    token: Option<string>)

  const NoOptions: UserOptions := UserOptions(None, None, None, None, None, None)

  /** A field the caller supplies wins; every other field keeps its default. */
  function Resolve(user: UserOptions): (o: Options)
    ensures user.jsonPath.Some? ==> o.jsonPath == user.jsonPath.value
    ensures user.jsonPath.None? ==> o.jsonPath == DefaultJsonPath
    ensures user.idProperty.Some? ==> o.idProperty == user.idProperty.value
    ensures user.idProperty.None? ==> o.idProperty == DefaultIdProperty
    ensures user.getIssue.Some? ==> forall a :: o.getIssue(a) == user.getIssue.value(a)
    ensures user.getIssue.None? ==> forall a :: o.getIssue(a) == DefaultGetIssue(a)
    ensures o.username == user.username && o.repo == user.repo && o.token == user.token
  {
    Options(
      if user.jsonPath.Some? then user.jsonPath.value else DefaultJsonPath,
      if user.idProperty.Some? then user.idProperty.value else DefaultIdProperty,
      if user.getIssue.Some? then user.getIssue.value else DefaultGetIssue,
      user.username,
      user.repo,
      user.token)
  }

  /** The value of one option property. */
  datatype OptionValue = Text(text: string) | Builder(build: Article -> IssuePayload)

  /** An options object as a property map. */
  type OptionsObject = map<string, OptionValue>

  /** `Object.assign(target, source)` on property maps: every own property
      of `source` is copied onto `target`, replacing a property of the same name. */
  function ObjectAssign(target: OptionsObject, source: OptionsObject): OptionsObject {
    target + source
  }

  /** `defaultOptions` as a property map. */
  function DefaultsObject(): OptionsObject {
    map["jsonPath" := Text(DefaultJsonPath), "idProperty" := Text(DefaultIdProperty), "getIssue" := Builder(DefaultGetIssue)]
  }

  /** The properties a caller actually supplied. */
  function Supplied(user: UserOptions): OptionsObject {
    (if user.jsonPath.Some? then map["jsonPath" := Text(user.jsonPath.value)] else map[])
    + (if user.idProperty.Some? then map["idProperty" := Text(user.idProperty.value)] else map[])
    + (if user.getIssue.Some? then map["getIssue" := Builder(user.getIssue.value)] else map[])
    + (if user.username.Some? then map["username" := Text(user.username.value)] else map[])
    + (if user.repo.Some? then map["repo" := Text(user.repo.value)] else map[])
    + (if user.token.Some? then map["token" := Text(user.token.value)] else map[])
  }

  /** `Resolve` agrees, field by field, with copying the defaults and then the
      caller's properties onto an empty object. */
  lemma ResolveIsObjectAssign(user: UserOptions)
    ensures var m := ObjectAssign(ObjectAssign(map[], DefaultsObject()), Supplied(user));
            var o := Resolve(user);
            && "jsonPath" in m && m["jsonPath"] == Text(o.jsonPath)
            && "idProperty" in m && m["idProperty"] == Text(o.idProperty)
            && "getIssue" in m && m["getIssue"].Builder?
            && (forall a :: m["getIssue"].build(a) == o.getIssue(a))
            && ("username" in m <==> o.username.Some?) && (o.username.Some? ==> m["username"] == Text(o.username.value))
            && ("repo" in m <==> o.repo.Some?) && (o.repo.Some? ==> m["repo"] == Text(o.repo.value))
            && ("token" in m <==> o.token.Some?) && (o.token.Some? ==> m["token"] == Text(o.token.value))
  {
  }

  /** With no options supplied, the run uses exactly `defaultOptions`. */
  lemma ResolveNoOptionsIsDefaults()
    ensures var o := Resolve(NoOptions);
            && o.jsonPath == "gh-comments.json"
            && o.idProperty == "id"
            && (forall a :: o.getIssue(a) == DefaultGetIssue(a))
            && o.username.None? && o.repo.None? && o.token.None?
  {
  }
}
