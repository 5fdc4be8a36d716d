/** The URL paths the service layer requests: fixed project and repository
    paths, and content paths whose query string is written by a
    form-urlencoded serializer. Each builder's contract says what a parser
    reads back from the query string it writes. */
module ServicePaths {
  import opened Wrappers
  import opened Model
  import opened Decimal
  import opened FormUrlEncoded

  const PATH_PREFIX := "/api/v1"

  // Query parameter names.
  const REVISION := "revision"
  const JSONPATH := "jsonpath"
  const PATH := "path"
  const PATH_PATTERN := "pathPattern"
  const MAX_COMMITS := "maxCommits"
  const FROM := "from"
  const TO := "to"

  // ---------------------------------------------------------------------
  // Path patterns

  /** Makes a glob path pattern absolute: the empty pattern matches every
      file, a pattern starting with "**" gets a leading '/', any other
      relative pattern is matched at every depth. */
  function NormalizePathPattern(pattern: string): (r: string)
    ensures StartsWith(r, "/")
    ensures EndsWith(r, pattern)
    ensures StartsWith(pattern, "/") ==> r == pattern
  {
    if pattern == "" then "/**"
    else if StartsWith(pattern, "**") then
      assert pattern[0] != "/"[0];
      "/" + pattern
    else if !StartsWith(pattern, "/") then "/**/" + pattern
    else pattern
  }

  lemma NormalizePathPatternCases(pattern: string)
    ensures pattern == "" ==> NormalizePathPattern(pattern) == "/**"
    ensures StartsWith(pattern, "**") ==> NormalizePathPattern(pattern) == "/" + pattern
    ensures pattern != "" && !StartsWith(pattern, "**") && !StartsWith(pattern, "/") ==>
      NormalizePathPattern(pattern) == "/**/" + pattern
    ensures StartsWith(pattern, "/") ==> NormalizePathPattern(pattern) == pattern
  {
  }

  /** A normalized pattern is left alone by a second normalization. */
  lemma NormalizePathPatternIdempotent(pattern: string)
    ensures NormalizePathPattern(NormalizePathPattern(pattern)) == NormalizePathPattern(pattern)
  {
  }

  // ---------------------------------------------------------------------
  // Fixed paths

  function ProjectsPath(): string {
    PATH_PREFIX + "/projects"
  }

  function RemovedProjectsPath(): string {
    PATH_PREFIX + "/projects?status=removed"
  }

  function ProjectPath(project: string): string {
    PATH_PREFIX + "/projects/" + project
  }

  function RemovedProjectPath(project: string): string {
    PATH_PREFIX + "/projects/" + project + "/removed"
  }

  function ReposPath(project: string): string {
    PATH_PREFIX + "/projects/" + project + "/repos"
  }

  function RemovedReposPath(project: string): string {
    PATH_PREFIX + "/projects/" + project + "/repos?status=removed"
  }

  function RepoPath(project: string, repo: string): string {
    PATH_PREFIX + "/projects/" + project + "/repos/" + repo
  }

  function RemovedRepoPath(project: string, repo: string): string {
    PATH_PREFIX + "/projects/" + project + "/repos/" + repo + "/removed"
  }

  // ---------------------------------------------------------------------
  // Query pairs

  /** The decimal form of a revision; an omitted revision renders empty. */
  function RevisionText(rev: Option<Revision>): (t: string)
    ensures t == "" <==> rev.None?
  {
    match rev
    case None => ""
    case Some(r) => IntToString(r.number as int)
  }

  /** The pair a parser reads back for `key` and `value`, or none when the
      value is empty. */
  function Encoded(key: string, value: string): seq<Pair> {
    if value == "" then [] else [Pair(Enc(key), Enc(value))]
  }

  predicate Extends(s: Serializer, url: string) {
    s.start == |url| <= |s.target| && s.target[..|url|] == url
  }

  /** `r` is `url` followed by the canonical query text of `pairs`, which
      reads back as `pairs`. */
  predicate IsUrl(r: string, url: string, pairs: seq<Pair>) {
    && |url| <= |r| && r[..|url|] == url
    && r[|url|..] == Joined(pairs)
    && ParseQuery(r[|url|..]) == pairs
  }

  /** `r` continues `s`: the text before the query part is kept, the
      query part reads back as that of `s` followed by `pairs`, and a
      canonical query part stays canonical. */
  predicate Appends(s: Serializer, r: Serializer, pairs: seq<Pair>)
    requires s.start <= |s.target|
  {
    && r.start == s.start
    && s.start <= |r.target|
    && r.target[..s.start] == s.target[..s.start]
    && Pairs(r) == Pairs(s) + pairs
    && (Canonical(s) ==> Canonical(r))
  }

  /** A URL and its pairs fix the whole text: no other spelling of the
      same pairs (a leading '&', say) meets `IsUrl`. */
  lemma IsUrlIsExact(r1: string, r2: string, url: string, pairs: seq<Pair>)
    requires IsUrl(r1, url, pairs) && IsUrl(r2, url, pairs)
    ensures r1 == r2
  {
    assert r1 == r1[..|url|] + r1[|url|..];
    assert r2 == r2[..|url|] + r2[|url|..];
  }

  lemma AppendsCompose(s: Serializer, s': Serializer, r: Serializer, x: seq<Pair>, y: seq<Pair>)
    requires s.start <= |s.target|
    requires Appends(s, s', x) && Appends(s', r, y)
    ensures Appends(s, r, x + y)
  {
    ConcatAssoc(Pairs(s), x, y);
  }

  lemma ConcatAssoc<T>(a: seq<T>, b: seq<T>, c: seq<T>)
    ensures a + b + c == a + (b + c)
  {
  }

  lemma FinishIsUrl(url: string, s: Serializer, pairs: seq<Pair>)
    requires Appends(Start(url), s, pairs)
    ensures IsUrl(Finish(s), url, pairs)
  {
    assert [] + pairs == pairs;
  }

  function Start(url: string): (s: Serializer)
    ensures Extends(s, url) && Pairs(s) == [] && Canonical(s)
  {
    ForSuffix(url, |url|)
  }

  /** `add_pair`: appends the pair unless the value is empty. */
  function AddPair(s: Serializer, key: string, value: string): (r: Serializer)
    requires s.start <= |s.target|
    ensures value == "" ==> r == s
    ensures Appends(s, r, Encoded(key, value))
  {
    if value == "" then s else AppendPair(s, key, value)
  }

  /** Appends the revision pair when a revision is given. */
  function AddRevision(s: Serializer, key: string, rev: Option<Revision>): (r: Serializer)
    requires s.start <= |s.target|
    ensures Appends(s, r, Encoded(key, RevisionText(rev)))
  {
    if rev.Some? then AddPair(s, key, RevisionText(rev)) else s
  }

  /** The pairs a parser reads back for one key and a list of values: one
      per non-empty value, in order. */
  function EncodedAll(key: string, values: seq<string>): seq<Pair>
    decreases |values|
  {
    if |values| == 0 then [] else Encoded(key, values[0]) + EncodedAll(key, values[1..])
  }

  /** `add_pair` for every value in turn. */
  function AddAll(s: Serializer, key: string, values: seq<string>): (r: Serializer)
    requires s.start <= |s.target|
    ensures Appends(s, r, EncodedAll(key, values))
    decreases |values|
  {
    if |values| == 0 then
      assert Pairs(s) + [] == Pairs(s);
      s
    else
      var s' := AddPair(s, key, values[0]);
      var r := AddAll(s', key, values[1..]);
      AppendsCompose(s, s', r, Encoded(key, values[0]), EncodedAll(key, values[1..]));
      r
  }

  function JsonPathExpressions(q: Query): seq<string> {
    if q.queryType.JsonPath? then q.queryType.expressions else []
  }

  /** One `jsonpath` pair per expression of a JSON path query. */
  function AddJsonPaths(s: Serializer, q: Query): (r: Serializer)
    requires s.start <= |s.target|
    ensures Appends(s, r, EncodedAll(JSONPATH, JsonPathExpressions(q)))
  {
    if q.queryType.JsonPath? then AddAll(s, JSONPATH, q.queryType.expressions)
    else
      assert Pairs(s) + [] == Pairs(s);
      s
  }

  // ---------------------------------------------------------------------
  // Content paths

  function ListContentsUrl(project: string, repo: string, pattern: string): string {
    PATH_PREFIX + "/projects/" + project + "/repos/" + repo + "/list" + NormalizePathPattern(pattern) + "?"
  }

  function ListContentsPath(project: string, repo: string, rev: Option<Revision>, pattern: string): (r: string)
    ensures IsUrl(r, ListContentsUrl(project, repo, pattern), Encoded(REVISION, RevisionText(rev)))
  {
    var url := ListContentsUrl(project, repo, pattern);
    var s := AddRevision(Start(url), REVISION, rev);
    FinishIsUrl(url, s, Encoded(REVISION, RevisionText(rev)));
    Finish(s)
  }

  function ContentsUrl(project: string, repo: string, pattern: string): string {
    PATH_PREFIX + "/projects/" + project + "/repos/" + repo + "/contents" + NormalizePathPattern(pattern) + "?"
  }

  function ContentsPath(project: string, repo: string, rev: Option<Revision>, pattern: string): (r: string)
    ensures IsUrl(r, ContentsUrl(project, repo, pattern), Encoded(REVISION, RevisionText(rev)))
  {
    var url := ContentsUrl(project, repo, pattern);
    var s := AddRevision(Start(url), REVISION, rev);
    FinishIsUrl(url, s, Encoded(REVISION, RevisionText(rev)));
    Finish(s)
  }

  function ContentUrl(project: string, repo: string, q: Query): string {
    PATH_PREFIX + "/projects/" + project + "/repos/" + repo + "/contents" + q.path + "?"
  }

  function ContentPath(project: string, repo: string, rev: Option<Revision>, q: Query): (r: string)
    ensures IsUrl(r, ContentUrl(project, repo, q),
                  Encoded(REVISION, RevisionText(rev)) + EncodedAll(JSONPATH, JsonPathExpressions(q)))
  {
    var url := ContentUrl(project, repo, q);
    var s0 := Start(url);
    var s1 := AddRevision(s0, REVISION, rev);
    var s2 := AddJsonPaths(s1, q);
    AppendsCompose(s0, s1, s2, Encoded(REVISION, RevisionText(rev)), EncodedAll(JSONPATH, JsonPathExpressions(q)));
    FinishIsUrl(url, s2, Encoded(REVISION, RevisionText(rev)) + EncodedAll(JSONPATH, JsonPathExpressions(q)));
    Finish(s2)
  }

  function CommitsUrl(project: string, repo: string, fromRev: Option<Revision>): string {
    PATH_PREFIX + "/projects/" + project + "/repos/" + repo + "/commits/" + RevisionText(fromRev) + "?"
  }

  function ContentCommitsPath(
    project: string, repo: string, fromRev: Option<Revision>, toRev: Option<Revision>,
    path: string, maxCommits: Option<u32>): (r: string)
    ensures IsUrl(r, CommitsUrl(project, repo, fromRev),
                  Encoded(PATH, path) + Encoded(TO, RevisionText(toRev))
                  + Encoded(MAX_COMMITS, if maxCommits.Some? then NatToString(maxCommits.value as nat) else ""))
  {
    var url := CommitsUrl(project, repo, fromRev);
    var count := if maxCommits.Some? then NatToString(maxCommits.value as nat) else "";
    var s0 := Start(url);
    var s1 := AddPair(s0, PATH, path);
    var s2 := AddRevision(s1, TO, toRev);
    var s3 := if maxCommits.Some? then AddPair(s2, MAX_COMMITS, count) else s2;
    assert Appends(s2, s3, Encoded(MAX_COMMITS, count)) by {
      if maxCommits.None? {
        assert Pairs(s2) + [] == Pairs(s2);
      }
    }
    AppendsCompose(s0, s1, s2, Encoded(PATH, path), Encoded(TO, RevisionText(toRev)));
    AppendsCompose(s0, s2, s3, Encoded(PATH, path) + Encoded(TO, RevisionText(toRev)), Encoded(MAX_COMMITS, count));
    FinishIsUrl(url, s3, Encoded(PATH, path) + Encoded(TO, RevisionText(toRev)) + Encoded(MAX_COMMITS, count));
    Finish(s3)
  }

  function CompareUrl(project: string, repo: string): string {
    PATH_PREFIX + "/projects/" + project + "/repos/" + repo + "/compare?"
  }

  function ContentComparePath(
    project: string, repo: string, fromRev: Option<Revision>, toRev: Option<Revision>, q: Query): (r: string)
    ensures IsUrl(r, CompareUrl(project, repo),
                  Encoded(PATH, q.path) + Encoded(FROM, RevisionText(fromRev)) + Encoded(TO, RevisionText(toRev))
                  + EncodedAll(JSONPATH, JsonPathExpressions(q)))
  {
    var url := CompareUrl(project, repo);
    var p1 := Encoded(PATH, q.path);
    var p2 := Encoded(FROM, RevisionText(fromRev));
    var p3 := Encoded(TO, RevisionText(toRev));
    var p4 := EncodedAll(JSONPATH, JsonPathExpressions(q));
    var s0 := Start(url);
    var s1 := AddPair(s0, PATH, q.path);
    var s2 := AddRevision(s1, FROM, fromRev);
    var s3 := AddRevision(s2, TO, toRev);
    var s4 := AddJsonPaths(s3, q);
    AppendsCompose(s0, s1, s2, p1, p2);
    AppendsCompose(s0, s2, s3, p1 + p2, p3);
    AppendsCompose(s0, s3, s4, p1 + p2 + p3, p4);
    FinishIsUrl(url, s4, p1 + p2 + p3 + p4);
    Finish(s4)
  }

  function ContentsComparePath(
    project: string, repo: string, fromRev: Option<Revision>, toRev: Option<Revision>, pattern: string): (r: string)
    ensures IsUrl(r, CompareUrl(project, repo),
                  Encoded(PATH_PATTERN, NormalizePathPattern(pattern))
                  + Encoded(FROM, RevisionText(fromRev)) + Encoded(TO, RevisionText(toRev)))
  {
    var url := CompareUrl(project, repo);
    var p1 := Encoded(PATH_PATTERN, NormalizePathPattern(pattern));
    var p2 := Encoded(FROM, RevisionText(fromRev));
    var p3 := Encoded(TO, RevisionText(toRev));
    var s0 := Start(url);
    var s1 := AddPair(s0, PATH_PATTERN, NormalizePathPattern(pattern));
    var s2 := AddRevision(s1, FROM, fromRev);
    var s3 := AddRevision(s2, TO, toRev);
    AppendsCompose(s0, s1, s2, p1, p2);
    AppendsCompose(s0, s2, s3, p1 + p2, p3);
    FinishIsUrl(url, s3, p1 + p2 + p3);
    Finish(s3)
  }

  function PushUrl(project: string, repo: string): string {
    PATH_PREFIX + "/projects/" + project + "/repos/" + repo + "/contents?"
  }

  function ContentsPushPath(project: string, repo: string, baseRev: Option<Revision>): (r: string)
    ensures IsUrl(r, PushUrl(project, repo), Encoded(REVISION, RevisionText(baseRev)))
  {
    var url := PushUrl(project, repo);
    var s := AddRevision(Start(url), REVISION, baseRev);
    FinishIsUrl(url, s, Encoded(REVISION, RevisionText(baseRev)));
    Finish(s)
  }

  function ContentWatchPath(project: string, repo: string, q: Query): (r: string)
    ensures IsUrl(r, ContentUrl(project, repo, q), EncodedAll(JSONPATH, JsonPathExpressions(q)))
  {
    var url := ContentUrl(project, repo, q);
    var s := AddJsonPaths(Start(url), q);
    FinishIsUrl(url, s, EncodedAll(JSONPATH, JsonPathExpressions(q)));
    Finish(s)
  }

  function RepoWatchPath(project: string, repo: string, pattern: string): (r: string)
    ensures r == RepoPath(project, repo) + "/contents" + NormalizePathPattern(pattern)
    ensures '?' !in project && '?' !in repo && '?' !in pattern ==> '?' !in r
  {
    PATH_PREFIX + "/projects/" + project + "/repos/" + repo + "/contents" + NormalizePathPattern(pattern)
  }

  /** The pairs of one key: all under that key, at most one per value,
      and exactly the values, in order, when none is empty. */
  lemma {:induction false} EncodedAllPairs(key: string, values: seq<string>)
    ensures |EncodedAll(key, values)| <= |values|
    ensures forall i :: 0 <= i < |EncodedAll(key, values)| ==> EncodedAll(key, values)[i].key == Enc(key)
    ensures (forall i :: 0 <= i < |values| ==> values[i] != "") ==>
      |EncodedAll(key, values)| == |values|
      && forall i :: 0 <= i < |values| ==> EncodedAll(key, values)[i].value == Enc(values[i])
    decreases |values|
  {
    if |values| > 0 {
      EncodedAllPairs(key, values[1..]);
      var rest := EncodedAll(key, values[1..]);
      if (forall i :: 0 <= i < |values| ==> values[i] != "") {
        assert forall i :: 0 <= i < |values[1..]| ==> values[1..][i] != "" by {
          forall i | 0 <= i < |values[1..]| ensures values[1..][i] != "" {
            assert values[1..][i] == values[i + 1];
          }
        }
        forall i | 0 <= i < |values|
          ensures EncodedAll(key, values)[i].value == Enc(values[i])
        {
          if i > 0 {
            assert EncodedAll(key, values)[i] == rest[i - 1];
            assert values[1..][i - 1] == values[i];
          }
        }
      }
    }
  }

  /** A file watch asks for no revision: its query reads back only as
      `jsonpath` pairs, none at all unless the query is a JSON path query,
      and one per expression, in order, when no expression is empty. */
  lemma ContentWatchPathPairs(project: string, repo: string, q: Query)
    ensures var r := ContentWatchPath(project, repo, q);
      var url := ContentUrl(project, repo, q);
      |url| <= |r| && r[..|url|] == url
      && var pairs := ParseQuery(r[|url|..]);
      && (forall i :: 0 <= i < |pairs| ==> pairs[i].key == Enc(JSONPATH))
      && (!q.queryType.JsonPath? ==> pairs == [])
      && ((forall i :: 0 <= i < |JsonPathExpressions(q)| ==> JsonPathExpressions(q)[i] != "") ==>
            |pairs| == |JsonPathExpressions(q)|
            && forall i :: 0 <= i < |pairs| ==> pairs[i].value == Enc(JsonPathExpressions(q)[i]))
  {
    EncodedAllPairs(JSONPATH, JsonPathExpressions(q));
  }
}
