/** Data model of the Central Dogma client: revisions, queries on a file,
    entries, commit messages, changes and the results a watch delivers. */
module Model {
  import opened Wrappers

  newtype i64 = x: int | -0x8000_0000_0000_0000 <= x < 0x8000_0000_0000_0000

  newtype u32 = x: int | 0 <= x < 0x1_0000_0000

  /** A point of repository history. Positive numbers are absolute
      revisions (the first commit is 1); negative numbers count back from
      the latest commit, -1 being HEAD. */
  datatype Revision = Revision(number: i64) {

    function AsI64(): i64 {
      number
    }

    predicate IsRelative() {
      number < 0
    }

    predicate IsAbsolute() {
      number > 0
    }
  }

  const HEAD: Revision := Revision(-1)
  const INIT: Revision := Revision(1)

  function RevisionFrom(i: i64): (r: Revision)
    ensures r.AsI64() == i
  {
    Revision(i)
  }

  /** `from` and `as_i64` are mutually inverse, so a revision is nothing but
      its number; HEAD is the relative revision -1 and INIT the absolute
      revision 1. */
  lemma RevisionRoundTrip(i: i64, r: Revision)
    ensures RevisionFrom(i).AsI64() == i
    ensures RevisionFrom(r.AsI64()) == r
    ensures HEAD.AsI64() == -1 && HEAD.IsRelative()
    ensures INIT.AsI64() == 1 && INIT.IsAbsolute()
  {
  }

  // ---------------------------------------------------------------------
  // Strings

  predicate StartsWith(s: string, prefix: string) {
    |prefix| <= |s| && s[..|prefix|] == prefix
  }

  predicate EndsWith(s: string, suffix: string) {
    |suffix| <= |s| && s[|s| - |suffix|..] == suffix
  }

  function AsciiLower(c: char): char {
    if 'A' <= c <= 'Z' then (c as int + 32) as char else c
  }

  function ToLowercase(s: string): (r: string)
    ensures |r| == |s|
    ensures forall i :: 0 <= i < |s| ==> r[i] == AsciiLower(s[i])
  {
    seq(|s|, i requires 0 <= i < |s| => AsciiLower(s[i]))
  }

  // ---------------------------------------------------------------------
  // Entries

  /** Content of an entry; JSON values are kept as their text. */
  datatype EntryContent = Json(json: string) | Text(text: string) | Directory

  datatype EntryType = JsonType | TextType | DirectoryType

  datatype Entry = Entry(
    path: string,
    content: EntryContent,
    revision: Revision,
    url: string,
    modifiedAt: Option<string>)

  datatype ListEntry = ListEntry(path: string, entryType: EntryType)

  /** The `type` tag serde writes for an entry's content. */
  function ContentTag(c: EntryContent): string {
    match c
    case Json(_) => "JSON"
    case Text(_) => "TEXT"
    case Directory => "DIRECTORY"
  }

  /** The name serde writes for an entry type. */
  function TypeTag(t: EntryType): string {
    match t
    case JsonType => "JSON"
    case TextType => "TEXT"
    case DirectoryType => "DIRECTORY"
  }

  function EntryTypeOf(e: Entry): (t: EntryType)
    ensures t == JsonType <==> e.content.Json?
    ensures t == TextType <==> e.content.Text?
    ensures t == DirectoryType <==> e.content.Directory?
  {
    match e.content
    case Json(_) => JsonType
    case Text(_) => TextType
    case Directory => DirectoryType
  }

  /** The type reported for an entry is the one its own content is tagged
      with on the wire, and distinct contents kinds give distinct types. */
  lemma EntryTypeAgreesWithTag(e: Entry, f: Entry)
    ensures TypeTag(EntryTypeOf(e)) == ContentTag(e.content)
    ensures EntryTypeOf(e) == EntryTypeOf(f) <==> ContentTag(e.content) == ContentTag(f.content)
  {
  }

  // ---------------------------------------------------------------------
  // Queries

  datatype QueryType = Identity | IdentityJson | IdentityText | JsonPath(expressions: seq<string>)

  datatype Query = Query(path: string, queryType: QueryType)

  /** An absolute path: one with a leading '/', derived from `path` by
      adding at most that one character. */
  function NormalizePath(path: string): (r: string)
    ensures StartsWith(r, "/")
    ensures EndsWith(r, path)
    ensures |r| == if StartsWith(path, "/") then |path| else |path| + 1
  {
    if StartsWith(path, "/") then path else "/" + path
  }

  lemma NormalizePathIdempotent(path: string)
    ensures NormalizePath(NormalizePath(path)) == NormalizePath(path)
    ensures StartsWith(path, "/") ==> NormalizePath(path) == path
  {
  }

  function NonEmptyPathQuery(path: string, t: QueryType): Option<Query> {
    if path == "" then None else Some(Query(NormalizePath(path), t))
  }

  function QueryIdentity(path: string): (r: Option<Query>)
    ensures r.None? <==> path == ""
    ensures r.Some? ==> r.value.path == NormalizePath(path) && r.value.queryType == Identity
  {
    NonEmptyPathQuery(path, Identity)
  }

  function QueryOfText(path: string): (r: Option<Query>)
    ensures r.None? <==> path == ""
    ensures r.Some? ==> r.value.path == NormalizePath(path) && r.value.queryType == IdentityText
  {
    NonEmptyPathQuery(path, IdentityText)
  }

  function QueryOfJson(path: string): (r: Option<Query>)
    ensures r.None? <==> path == ""
    ensures r.Some? ==> r.value.path == NormalizePath(path) && r.value.queryType == IdentityJson
  {
    NonEmptyPathQuery(path, IdentityJson)
  }

  /** `path` names a JSON file in the loose sense the client checks: its last
      four characters read "json" in any letter case (no dot needed). */
  predicate EndsWithJsonIgnoringCase(path: string) {
    |path| >= 4 && forall k :: 0 <= k < 4 ==> AsciiLower(path[|path| - 4 + k]) == "json"[k]
  }

  function QueryOfJsonPath(path: string, exprs: seq<string>): (r: Option<Query>)
    ensures r.None? <==> !EndsWithJsonIgnoringCase(path)
    ensures r.Some? ==> r.value == Query(NormalizePath(path), JsonPath(exprs))
  {
    var lower := ToLowercase(path);
    if !EndsWith(lower, "json") then
      None
    else
      LowercaseSuffix(path);
      Some(Query(NormalizePath(path), JsonPath(exprs)))
  }

  lemma LowercaseSuffix(path: string)
    ensures EndsWith(ToLowercase(path), "json") <==> EndsWithJsonIgnoringCase(path)
  {
    var lower := ToLowercase(path);
    if |path| >= 4 {
      var tail := lower[|lower| - 4..];
      assert forall k :: 0 <= k < 4 ==> tail[k] == AsciiLower(path[|path| - 4 + k]);
    }
  }

  /** Every query a constructor hands out carries an absolute path; the
      empty path is refused by all four constructors. */
  lemma ConstructedQueriesAreAbsolute(path: string, exprs: seq<string>)
    ensures QueryIdentity(path).Some? ==> StartsWith(QueryIdentity(path).value.path, "/")
    ensures QueryOfText(path).Some? ==> StartsWith(QueryOfText(path).value.path, "/")
    ensures QueryOfJson(path).Some? ==> StartsWith(QueryOfJson(path).value.path, "/")
    ensures QueryOfJsonPath(path, exprs).Some? ==> StartsWith(QueryOfJsonPath(path, exprs).value.path, "/")
    ensures QueryOfJsonPath("", exprs).None?
  {
  }

  /** The suffix test ignores letter case and does not look for a dot. */
  lemma JsonPathAcceptsAnyCase(exprs: seq<string>, path: string)
    requires |path| >= 4
    requires path[|path| - 4] in "jJ" && path[|path| - 3] in "sS"
    requires path[|path| - 2] in "oO" && path[|path| - 1] in "nN"
    ensures QueryOfJsonPath(path, exprs) == Some(Query(NormalizePath(path), JsonPath(exprs)))
  {
    EndsInJson(path);
  }

  lemma JsonPathOfAbsolutePath(exprs: seq<string>)
    ensures QueryOfJsonPath("/a.json", exprs) == Some(Query("/a.json", JsonPath(exprs)))
  {
    JsonPathAcceptsAnyCase(exprs, "/a.json");
    assert StartsWith("/a.json", "/");
  }

  /** A relative path gets one leading '/'; no '.' is needed before the
      suffix, so "json" alone is accepted. */
  lemma JsonPathOfRelativePath(exprs: seq<string>, path: string)
    requires |path| >= 4 && path[0] != '/'
    requires path[|path| - 4] in "jJ" && path[|path| - 3] in "sS"
    requires path[|path| - 2] in "oO" && path[|path| - 1] in "nN"
    ensures QueryOfJsonPath(path, exprs) == Some(Query("/" + path, JsonPath(exprs)))
  {
    JsonPathAcceptsAnyCase(exprs, path);
    assert path[..1][0] != "/"[0];
  }

  lemma JsonPathUpperCaseSuffix(exprs: seq<string>)
    ensures QueryOfJsonPath("a.JSON", exprs) == Some(Query("/a.JSON", JsonPath(exprs)))
  {
    JsonPathOfRelativePath(exprs, "a.JSON");
    assert "/" + "a.JSON" == "/a.JSON";
  }

  lemma EndsInJson(path: string)
    requires |path| >= 4
    requires path[|path| - 4] in "jJ" && path[|path| - 3] in "sS"
    requires path[|path| - 2] in "oO" && path[|path| - 1] in "nN"
    ensures EndsWithJsonIgnoringCase(path)
  {
    forall k | 0 <= k < 4
      ensures AsciiLower(path[|path| - 4 + k]) == "json"[k]
    {
    }
  }

  lemma JsonPathRejectsOtherSuffix(exprs: seq<string>)
    ensures QueryOfJsonPath("/a.txt", exprs).None?
  {
    assert AsciiLower("/a.txt"[2]) != "json"[0];
  }

  // ---------------------------------------------------------------------
  // Commits and changes

  datatype CommitDetail = Markdown(markdown: string) | Plaintext(plaintext: string)

  datatype CommitMessage = CommitMessage(summary: string, detail: Option<CommitDetail>)

  datatype ChangeContent =
    | UpsertJson(json: string)
    | UpsertText(text: string)
    | Remove
    | Rename(newPath: string)
    | ApplyJsonPatch(patch: string)
    | ApplyTextPatch(diff: string)

  datatype Change = Change(path: string, content: ChangeContent)

  // ---------------------------------------------------------------------
  // Watch results

  datatype WatchFileResult = WatchFileResult(revision: Revision, entry: Entry)

  datatype WatchRepoResult = WatchRepoResult(revision: Revision)

  /** What a watch stream yields: a file result or a repository result.
      Both kinds are `Watchable`, which gives access to their revision. */
  datatype WatchResult = FileResult(file: WatchFileResult) | RepoResult(repo: WatchRepoResult) {

    function WatchedRevision(): Revision {
      match this
      case FileResult(f) => f.revision
      case RepoResult(r) => r.revision
    }
  }

  /** Both kinds of result report the revision they carry. */
  lemma WatchedRevisionIsStored(f: WatchFileResult, r: WatchRepoResult)
    ensures FileResult(f).WatchedRevision() == f.revision
    ensures RepoResult(r).WatchedRevision() == r.revision
  {
  }
}
