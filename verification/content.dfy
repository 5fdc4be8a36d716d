/** The argument checks of `push` and the request it builds once they pass.
    Serializing the body to JSON and sending the request are not part of
    this model: the request carries the commit message and the changes as
    given. */
module Content {
  import opened Wrappers
  import opened Model
  import opened Errors
  import opened FormUrlEncoded
  import opened ServicePaths

  const EMPTY_SUMMARY := "summary of commit_message cannot be empty"
  const NO_CHANGES := "no changes to commit"

  datatype HttpMethod = Get | Post | Patch | Delete

  /** The `Push` body: `commitMessage` and `changes`. */
  datatype PushBody = PushBody(commitMessage: CommitMessage, changes: seq<Change>)

  datatype Request = Request(verb: HttpMethod, path: string, body: PushBody)

  function Push(project: string, repo: string, baseRev: Option<Revision>,
                message: CommitMessage, changes: seq<Change>): (r: Result<Request, Error>)
    ensures r.Success? <==> message.summary != "" && changes != []
    ensures message.summary == "" ==> r == Failure(InvalidParams(EMPTY_SUMMARY))
    ensures message.summary != "" && changes == [] ==> r == Failure(InvalidParams(NO_CHANGES))
    ensures r.Success? ==>
      r.value.verb == Post
      && IsUrl(r.value.path, PushUrl(project, repo), Encoded(REVISION, RevisionText(baseRev)))
      && r.value.body == PushBody(message, changes)
  {
    if message.summary == "" then Failure(InvalidParams(EMPTY_SUMMARY))
    else if changes == [] then Failure(InvalidParams(NO_CHANGES))
    else Success(Request(Post, ContentsPushPath(project, repo, baseRev), PushBody(message, changes)))
  }

  /** The two rejections are told apart by their messages, and a push with
      neither a summary nor changes reports the missing summary. */
  lemma PushRejectionsDiffer(project: string, repo: string, baseRev: Option<Revision>, detail: Option<CommitDetail>)
    ensures Push(project, repo, baseRev, CommitMessage("", detail), []) == Failure(InvalidParams(EMPTY_SUMMARY))
    ensures EMPTY_SUMMARY != NO_CHANGES
  {
  }

  /** A base revision given to a push reads back from its query; none is
      sent without one. */
  lemma PushSendsBaseRevision(project: string, repo: string, baseRev: Option<Revision>,
                              message: CommitMessage, changes: seq<Change>)
    requires message.summary != "" && changes != []
    ensures var path := Push(project, repo, baseRev, message, changes).value.path;
      var url := PushUrl(project, repo);
      |url| <= |path|
      && (baseRev.None? ==> ParseQuery(path[|url|..]) == [])
      && (baseRev.Some? ==>
            ParseQuery(path[|url|..]) == [Pair(Enc(REVISION), Enc(RevisionText(baseRev)))]
            && Dec(ParseQuery(path[|url|..])[0].value) == Some(RevisionText(baseRev)))
  {
    if baseRev.Some? {
      DecEnc(RevisionText(baseRev));
    }
  }
}
