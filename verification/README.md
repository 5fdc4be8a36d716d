# Central Dogma client core, modelled in Dafny

A model of the core of `centraldogma-rs`, the Rust client for the Central
Dogma configuration repository service, with proofs about it:

- **the watch stream** (`src/services/watch.rs`) — the long-poll loop a
  file watch or a repository watch runs. It keeps the last known revision
  and a failure counter between polls. A change is emitted and followed by
  a one-second pause. A 304 or a client timeout is retried after one second.
  Any other error is retried after an exponential backoff with up to 20 %
  jitter, the base delay being capped at 2 << 5 seconds. The stream ends when a request cannot
  be built. The loop is modelled as a pure `Step` over the outcome of one
  poll, and the stream as `Run`, a fold of `Step` over a finite sequence of
  outcomes that records every sleep, request and emitted result as an event;
- **the URL path builders** (`src/services/path.rs` and `src/path.rs`) —
  fixed project and repository paths, path-pattern normalization, and the
  content, commit, compare, push and watch paths. Their query strings are
  written by the `application/x-www-form-urlencoded` serializer of section
  5.2 of the WHATWG URL Standard, as the `form_urlencoded` crate implements
  it; that serializer is modelled too (`FormUrlEncoded`), with a decoder and
  a query parser as its partners;
- **the data model** (`src/model.rs`) — revisions, entries and their types,
  the four query constructors, commit messages, changes and watch results;
- **push validation** (`src/services/content.rs`) — the argument checks of
  `push` and the request it builds once they pass.

Files: `wrappers.dfy` (Option/Result), `model.dfy`, `decimal.dfy` (how
`i64`/`u32` values are written in decimal, with a parser), `errors.dfy`
(the client error type), `form_urlencoded.dfy`, `service_paths.dfy`,
`paths.dfy`, `path_vectors.dfy` (the builders' unit-test vectors),
`watch.dfy` and `content.dfy`.

Modelling choices:

- `Revision` wraps an `i64`. The path builders treat a revision as optional
  (`revision.as_ref()`) and the tests pass `Revision::DEFAULT`, which
  `src/model.rs` does not define. An omitted revision is modelled as `None`
  of an `Option<Revision>`, and it renders as the empty string, as the
  expected URLs in the tests show (`commits/?path=…`).
- The watch loop's I/O is a parameter. Each turn receives the outcome of
  its poll:
  - `Changed(result)`: a watch result arrived;
  - `NotModified`: a 304 came back;
  - `TimedOut`: an HTTP client timeout;
  - `Failed(error)`: any other error;
  - `BuildFailed`: the request could not be built.

  Each turn also receives a jitter draw in [0, 1) that stands for
  `fastrand::f32()`. Sleeping is recorded as a `Slept(ms)` event instead of
  being waited for.
- Backoff: the code increments the failure count before it computes the
  delay. The first failure therefore waits `(2 << 1) * 1000` = 4000 ms plus
  jitter, and the cap is `(2 << 5) * 1000` = 64000 ms.
- `Query::of_json_path` is documented as requiring a path that ends with
  `.json`. The code only checks that the lower-cased path ends with `json`,
  so `"json"` and `"a.JSON"` are both accepted, and the empty path is
  rejected only because it is shorter than four characters. The model
  follows the code (`Model.JsonPathOfRelativePath`).
- `push` returns `Error::InvalidParams`, a variant that the `Error` enum in
  `src/client.rs` does not declare. The model adds it to `Errors.Error`.

## Model

| member | source | states |
|---|---|---|
| Model.RevisionFrom | src/model.rs:41-43 | `Revision::from(i)` is a revision whose `as_i64` is `i` |
| Model.RevisionRoundTrip | src/model.rs:19-44 | `from` and `as_i64` are mutually inverse, so a revision is its number; HEAD is the relative revision -1 and INIT the absolute revision 1 |
| Model.EntryTypeOf | src/model.rs:118-126 | an entry's type is JSON, text or directory exactly when its content is JSON, text or a directory |
| Model.EntryTypeAgreesWithTag | src/model.rs:88-138 | the serialized name of an entry's type equals the `type` tag of its content; two entries have the same type iff their content tags agree |
| Model.NormalizePath | src/model.rs:166-172 | the result starts with '/' and ends with the input; it is one character longer exactly when the input did not start with '/' |
| Model.NormalizePathIdempotent | src/model.rs:166-172 | normalizing twice is normalizing once; an absolute path is left unchanged |
| Model.QueryIdentity | src/model.rs:176-184 | no query exactly for the empty path; otherwise the normalized path with the identity type |
| Model.QueryOfText | src/model.rs:188-196 | no query exactly for the empty path; otherwise the normalized path with the text type |
| Model.QueryOfJson | src/model.rs:200-208 | no query exactly for the empty path; otherwise the normalized path with the JSON type |
| Model.QueryOfJsonPath | src/model.rs:214-222 | no query exactly when the last four characters are not "json" in some letter case; otherwise the normalized path with the given expressions |
| Model.LowercaseSuffix | src/model.rs:215 | lower-casing the path and then testing for the "json" suffix is the same as comparing its last four characters case-insensitively |
| Model.ConstructedQueriesAreAbsolute | src/model.rs:165-222 | every query a constructor returns has a path starting with '/'; the JSON path constructor rejects the empty path |
| Model.JsonPathAcceptsAnyCase | src/model.rs:214-222 | any path whose last four characters spell "json" in any mix of cases is accepted, with no dot required |
| Model.JsonPathOfAbsolutePath | src/model.rs:214-222 | "/a.json" with any expressions gives the query on "/a.json" |
| Model.JsonPathOfRelativePath | src/model.rs:214-222 | a relative path ending in "json" in any case is accepted and gets exactly one leading '/' |
| Model.JsonPathUpperCaseSuffix | src/model.rs:214-222 | "a.JSON" is accepted and becomes "/a.JSON" |
| Model.JsonPathRejectsOtherSuffix | src/model.rs:214-217 | "/a.txt" gives no JSON path query |
| Model.WatchedRevisionIsStored | src/model.rs:328-342 | a file watch result and a repository watch result each report the `revision` field they carry |
| Decimal.NatToString | src/model.rs:28-32 | the decimal form of a natural number is non-empty, all digits, and has no leading zero |
| Decimal.IntToString | src/model.rs:28-32 | a revision number renders with a leading '-' exactly when it is negative, followed by digits |
| Decimal.ParseNatToString | src/model.rs:28-32 | parsing the decimal form of a natural number gives the number back |
| Decimal.ParseIntToString | src/model.rs:28-32 | parsing the rendered revision number gives the number back |
| Decimal.IntToStringInjective | src/model.rs:28-32 | two different revision numbers never render to the same text |
| FormUrlEncoded.Enc | src/services/path.rs:277-284 | the encoded form contains only unreserved characters, '+' and '%'; it is never shorter than its input, is empty iff the input is, and leaves a string of unreserved characters unchanged |
| FormUrlEncoded.DecEnc | src/services/path.rs:277-284 | decoding the percent-encoding of any string gives the string back |
| FormUrlEncoded.EncInjective | src/services/path.rs:277-284 | two different strings never encode alike |
| FormUrlEncoded.ForSuffix | src/services/path.rs:83-85 | finishing a fresh serializer gives its target back; one started at the end of its target holds no pairs and its (empty) query is canonical |
| FormUrlEncoded.AppendPair | src/services/path.rs:277-284 | appending keeps everything written so far, and the query then parses as the previous pairs followed by the encoded key and value; a canonical query (each pair as `key=value`, one '&' between neighbours, none before the first) stays canonical |
| FormUrlEncoded.AppendPairReadsBack | src/services/path.rs:277-284 | the pair appended last decodes to exactly the key and value given |
| ServicePaths.NormalizePathPattern | src/services/path.rs:17-29 | a normalized pattern starts with '/' and ends with the pattern; an absolute pattern is unchanged |
| ServicePaths.NormalizePathPatternCases | src/services/path.rs:17-29 | the empty pattern becomes "/\*\*", a pattern starting with "\*\*" gets a '/', any other relative pattern gets "/\*\*/" |
| ServicePaths.NormalizePathPatternIdempotent | src/services/path.rs:17-29 | normalizing a normalized pattern changes nothing |
| ServicePaths.RevisionText | src/services/path.rs:86-88 | a revision's text is empty exactly when no revision is given |
| ServicePaths.IsUrlIsExact | src/services/path.rs:277-284 | a builder's URL and the pairs it reads back as fix its whole text, so no other spelling of the query (a leading '&', say) meets a builder's contract |
| ServicePaths.AddPair | src/services/path.rs:277-284 | an empty value leaves the serializer as it was; otherwise exactly the encoded pair is appended |
| ServicePaths.AddRevision | src/services/path.rs:86-88 | the revision pair is appended exactly when a revision is given |
| ServicePaths.AddAll | src/services/path.rs:131-135 | one pair per non-empty expression is appended, in order |
| ServicePaths.AddJsonPaths | src/services/path.rs:131-135 | a JSON path query appends its expressions as `jsonpath` pairs; other queries append nothing |
| ServicePaths.ListContentsPath | src/services/path.rs:72-91 | the list URL with the normalized pattern, then exactly the canonical query of the `revision` pair if a revision is given and nothing else |
| ServicePaths.ContentsPath | src/services/path.rs:93-112 | the contents URL with the normalized pattern, then exactly the canonical query of at most the `revision` pair |
| ServicePaths.ContentPath | src/services/path.rs:114-138 | the contents URL with the query's path, then exactly the canonical query of the `revision` pair, then one `jsonpath` pair per expression |
| ServicePaths.ContentCommitsPath | src/services/path.rs:140-169 | the commits URL with the from-revision, then exactly the canonical query of `path`, `to` and `maxCommits` in that order, each present only when its value is |
| ServicePaths.ContentComparePath | src/services/path.rs:171-201 | the compare URL, then exactly the canonical query of `path`, `from`, `to` and the `jsonpath` pairs, in that order |
| ServicePaths.ContentsComparePath | src/services/path.rs:203-228 | the compare URL, then exactly the canonical query of the normalized `pathPattern`, then `from` and `to` |
| ServicePaths.ContentsPushPath | src/services/path.rs:230-248 | the contents URL, then exactly the canonical query of the `revision` pair if a base revision is given and nothing else |
| ServicePaths.ContentWatchPath | src/services/path.rs:250-266 | the contents URL with the query's path, then exactly the canonical query of `jsonpath` pairs only |
| ServicePaths.RepoWatchPath | src/services/path.rs:268-275 | the repository path, "/contents" and the normalized pattern, with no query string added |
| ServicePaths.EncodedAllPairs | src/services/path.rs:259-263 | the pairs for a list of values are all under the one key, at most one per value, and exactly the values in order when none is empty |
| ServicePaths.ContentWatchPathPairs | src/services/path.rs:250-266 | a file watch path carries no revision: its query holds only `jsonpath` pairs, none unless the query is a JSON path query, one per expression in order |
| PathVectors.FirstPair | src/services/path.rs:277-284 | the first pair on an empty query is written without a separator |
| PathVectors.NextPair | src/services/path.rs:277-284 | a later pair is written after '&', and nothing is written for an empty value |
| PathVectors.NextPairs | src/services/path.rs:131-135 | a list of values is written as one `&key=value` per non-empty value, in order |
| PathVectors.CommitsPathText | src/services/path.rs:140-169 | the text of a commits path for any non-empty path and any revisions, relative ones included, spelled out pair by pair |
| PathVectors.ComparePathText | src/services/path.rs:171-201 | the text of a compare path for any non-empty path, any revisions and expressions that need no encoding, spelled out pair by pair |
| PathVectors.RevisionTextUnreserved | src/services/path.rs:160-162 | the text of every revision, a relative one's '-' included, passes through the encoder unchanged |
| PathVectors.CommitsPairsText | src/services/path.rs:156-166 | for a non-empty path, the `path`, `to` and `maxCommits` pairs of a commits query are written as `path=…`, then `&to=…` and `&maxCommits=…` only for values that are present |
| PathVectors.JsonPathsText | src/services/path.rs:194-198 | a JSON path query's expressions are written as one `&jsonpath=…` each, in order; other queries write nothing |
| PathVectors.CommitsPathWithAllArguments | src/services/path.rs:292-293 | from 1, to 2, "/a.json", max 5 gives `…/commits/1?path=%2Fa.json&to=2&maxCommits=5` |
| PathVectors.CommitsPathWithoutMaxCommits | src/services/path.rs:295-296 | without a maximum the `maxCommits` pair is absent |
| PathVectors.CommitsPathWithoutRevisions | src/services/path.rs:298-299 | without revisions the URL ends in `commits/?` and `to` is absent |
| PathVectors.CommitsPathWithPathOnly | src/services/path.rs:301-302 | with only a path the query is `path=%2Fa.json` |
| PathVectors.ComparePathWithBothRevisions | src/services/path.rs:307-308 | compare from 1 to 2 gives `…/compare?path=%2Fa.json&from=1&to=2` |
| PathVectors.ComparePathWithoutFrom | src/services/path.rs:310-311 | without a from-revision only `to` follows the path |
| PathVectors.ComparePathWithoutTo | src/services/path.rs:313-314 | without a to-revision only `from` follows the path |
| PathVectors.ComparePathWithoutRevisions | src/services/path.rs:316-317 | without revisions only the path pair is written |
| PathVectors.ComparePathWithJsonPath | src/services/path.rs:319-320 | a JSON path query adds `jsonpath=a` after the path |
| Paths.PathsNest | src/path.rs:5-47 | each path extends its parent's: project under projects, repos under project, repo under repos, and each removed path is its live path with the removal suffix |
| Paths.AgreesWithServicePaths | src/path.rs:1-47 | the eight paths spell the same strings as the service layer's copies in src/services/path.rs |
| Paths.ProjectPathInjective | src/path.rs:13-15 | two project paths are equal iff the project names are |
| Paths.RepoPathInjective | src/path.rs:35-40 | for project names without '/', two repository paths are equal iff both the project and repository names are |
| Paths.RepoPathNeedsSlashFreeProjects | src/path.rs:35-40 | project "a/repos/b" with repository "c" and project "a" with repository "b/repos/c" give the same path |
| Watch.WatchPath | src/services/watch.rs:116-134 | a file watch polls the content watch path, whose query holds only `jsonpath` pairs; a repository watch polls the repository's contents with the normalized pattern |
| Watch.BaseDelayValues | src/services/watch.rs:29-34 | the base delay is 2000 ms for count 0, 4000 ms for count 1 and 64000 ms at the cap of 5 |
| Watch.BaseDelayGrows | src/services/watch.rs:29-34 | the base delay never decreases with the count and at least doubles per step |
| Watch.JitterMs | src/services/watch.rs:31 | the jitter is below a fifth of the base delay, and zero for a zero base |
| Watch.DelayTimeFor | src/services/watch.rs:29-34 | the delay is the base plus less than a fifth of it, and fits in 64 bits |
| Watch.RequestWatch | src/services/watch.rs:18-27 | a 304 is "no change" and nothing else is; a send error is returned as is; any other reply gives the decoded result or its error |
| Watch.Classify | src/services/watch.rs:57-91 | each turn has exactly one outcome: build failure, change, 304, client timeout, or any other error |
| Watch.NotModifiedReplyIsUnchanged | src/services/watch.rs:18-22 | a 304 reply is classified as no change, whatever its body |
| Watch.OtherReplies | src/services/watch.rs:18-27 | every other reply is a change, a timeout or a failure |
| Watch.Bumped | src/services/watch.rs:87-89 | a failure raises the count by one below the cap of 5 and leaves it at the cap |
| Watch.Step | src/services/watch.rs:71-92 | a change is emitted, resets the count, records its revision and schedules the one-second pause; a 304 resets the count and waits one second; a timeout changes nothing and waits one second; another error bumps the count and waits the backoff for the new count; a build failure stops; the state invariant is kept |
| Watch.FailuresAtCapStayAtCap | src/services/watch.rs:85-91 | at the cap, a failure keeps the count at 5 and waits at least 64 s and less than 76.8 s (strictly below 76.8 s because `f32` rounding is not modelled; see `Watch.JitterMs` under Left out) |
| Watch.Run | src/services/watch.rs:44-97 | a live stream ends in a state that keeps the invariant: count at most 5, and the only pending delay is the one-second pause |
| Watch.RunYieldsChangedResults | src/services/watch.rs:52-97 | the stream yields exactly the changed results, in order, up to the first build failure |
| Watch.RunStopsAtBuildFailure | src/services/watch.rs:57-68 | no retry after a request that cannot be built: the stream over all outcomes equals the stream over those up to the first build failure, it has ended, and it made exactly one request per earlier outcome |
| Watch.RunEndsOnBuildFailure | src/services/watch.rs:57-68 | the stream ends iff some request cannot be built |
| Watch.RunPollsFromLastRevision | src/services/watch.rs:57-78 | every request carries the revision of the last result emitted before it (or the starting one), and a live stream keeps it for its next request |
| Watch.RunStarts | src/services/watch.rs:52-55 | a stream starts with the pending pause if there is one, else with a request |
| Watch.FreshStreamStartsWithPoll | src/services/watch.rs:45-55 | a fresh stream's first event is a request with no known revision |
| Watch.RunIsPaced | src/services/watch.rs:52-94 | every request except the first follows a sleep, every emitted result is followed by the one-second pause, no two sleeps are adjacent, and a pause is pending exactly when the last event was a result |
| Watch.StepDelayBounded | src/services/watch.rs:80-91 | every retry waits at least one second and less than 76.8 s (strictly below 76.8 s because `f32` rounding is not modelled; see `Watch.JitterMs` under Left out) |
| Watch.RunSleepsBounded | src/services/watch.rs:52-94 | every sleep in a stream lasts at least one second and less than 76.8 s (strictly below 76.8 s because `f32` rounding is not modelled; see `Watch.JitterMs` under Left out) |
| Watch.ConsecutiveFailures | src/services/watch.rs:85-91 | after k failures in a row the count is min(count + k, 5) and the stream is live |
| Watch.SuccessesKeepCounterAtZero | src/services/watch.rs:73-83 | changes and 304s leave the count at zero |
| Watch.RunTurn | src/services/watch.rs:52-94 | one turn is the pending pause, a request, then the result or the delay, then the rest of the stream |
| Watch.UnchangedThenChanged | src/services/watch.rs:173-211 | a 304 and then a change at revision 3 give: request, one-second sleep, request, the result; the stream then waits from revision 3 |
| Watch.FailedTurn | src/services/watch.rs:85-94 | a failed turn is a request then the backoff sleep, with the count bumped |
| Watch.ChangeThenFailure | src/services/watch.rs:73-94 | after a change at revision 5, the pause, a request from revision 5 and a 4-4.8 s backoff follow, with the count back at 1 |
| Watch.ThreeFailures | src/services/watch.rs:85-91 | three failures from the start are exactly three requests with no known revision, each followed by the backoff `DelayTimeFor` gives for counts 1, 2 and 3, and the rest of the stream continues from count 3 |
| Watch.FailuresThenChangeThenFailure | src/services/watch.rs:73-94 | three failures, a change at revision 5, then one failure: the last backoff is 4-4.8 s again because the change reset the count |
| Watch.BuildFailureEndsFreshStream | src/services/watch.rs:57-68 | a fresh stream whose first request cannot be built ends with no event |
| Content.Push | src/services/content.rs:167-191 | a push is accepted iff the summary is non-empty and there are changes; an empty summary is reported first, then missing changes; an accepted push is a POST to the contents path, whose query reads back as the base revision, carrying the message and changes unchanged |
| Content.PushRejectionsDiffer | src/services/content.rs:175-182 | the two rejections carry different messages, and a push with neither a summary nor changes reports the summary |
| Content.PushSendsBaseRevision | src/services/content.rs:190-191 | the base revision of a push reads back from its path and decodes to the revision's text; without one the query is empty |

## Left out

- Sending requests, `status_unwrap`, response decoding and the headers
  that the client adds: `if-none-match` and `prefer: wait=60`, added by
  `Client::new_watch_request`, and `Authorization` and `Content-Type`,
  added by `Client::request` when a request is sent. `src/client.rs`
  is only represented by its error type. The decoded reply of a poll
  arrives as the `body` of an `Exchange`, and a request that cannot be
  built arrives as the `BuildFailed` outcome.
- The URL-join error of `Client::new_request`: `Error::InvalidURL`
  (`Errors.InvalidUrl` here) when the path cannot be joined onto the base
  URL. `Content.Push` stops at the path, method and body of the request
  and does not model that error path.
- The 60-second long-poll timeout. Tokio sleeping, cancellation and the
  `futures::stream::unfold` machinery are also left out. Sleeps are
  recorded as events, and the stream is modelled over a finite sequence of
  poll outcomes.
- `fastrand::f32()` itself: its draw is a parameter in [0, 1).
- The `log::debug!` of a request error in the watch loop: logging has no
  effect on the stream.
- Watch.JitterMs: does not model `f32` rounding. `f32() * 0.2 * base` is
  computed exactly and then truncated, so the jitter stays below a fifth of
  the base. The `f32` product can round up to exactly a fifth, so the
  source's delay may reach `base * 1.2`.
- Watch.DelayTimeFor: requires a count of at most 52. The loop only calls
  it with counts up to 5. For larger counts the `u64` computation of
  `(2 << n) * 1000` plus the jitter overflows, and that overflow is not
  modelled.
- JSON (de)serialization with serde: entry contents, JSON patches and JSON
  values are kept as opaque strings. The `push` body is not turned into
  JSON text, and a serialization failure of `push` is not modelled.
  `Content.Push` stops at the built request. Sending it and decoding the
  `PushResult` are not modelled.
- Model.QueryOfJsonPath: lower-cases ASCII letters only. Rust's
  `to_lowercase` is Unicode-aware.
- The remaining service calls of `src/services/content.rs`,
  `project.rs` and `repository.rs` (list, get, history, diff, create,
  remove, unremove, purge) are left out. They only send the paths modelled
  here.
- Revision monotonicity: the server promises that watch results arrive with
  increasing revisions. The client does not check this, and the model does
  not assume it.
- The contents of a `PushResult`, `Commit`, `Author`, `Project` and `Repository`:
  plain records that the modelled operations do not inspect.
