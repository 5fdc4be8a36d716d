/** The project and repository paths of the client's top-level path module,
    assembled from the prefix and the collection names the way that module
    formats them. */
module Paths {
  import ServicePaths

  const PATH_PREFIX := "/api/v1"
  const PROJECT_PATH := "projects"
  const REPO_PATH := "repos"

  function ProjectsPath(): string {
    PATH_PREFIX + "/" + PROJECT_PATH
  }

  function RemovedProjectsPath(): string {
    PATH_PREFIX + "/" + PROJECT_PATH + "?status=removed"
  }

  function ProjectPath(project: string): string {
    PATH_PREFIX + "/" + PROJECT_PATH + "/" + project
  }

  function RemovedProjectPath(project: string): string {
    PATH_PREFIX + "/" + PROJECT_PATH + "/" + project + "/removed"
  }

  function ReposPath(project: string): string {
    PATH_PREFIX + "/" + PROJECT_PATH + "/" + project + "/" + REPO_PATH
  }

  function RemovedReposPath(project: string): string {
    PATH_PREFIX + "/" + PROJECT_PATH + "/" + project + "/" + REPO_PATH + "?status=removed"
  }

  function RepoPath(project: string, repo: string): string {
    PATH_PREFIX + "/" + PROJECT_PATH + "/" + project + "/" + REPO_PATH + "/" + repo
  }

  function RemovedRepoPath(project: string, repo: string): string {
    PATH_PREFIX + "/" + PROJECT_PATH + "/" + project + "/" + REPO_PATH + "/" + repo + "/removed"
  }

  /** The paths nest: each one extends its parent collection's path. */
  lemma PathsNest(project: string, repo: string)
    ensures RemovedProjectsPath() == ProjectsPath() + "?status=removed"
    ensures ProjectPath(project) == ProjectsPath() + "/" + project
    ensures RemovedProjectPath(project) == ProjectPath(project) + "/removed"
    ensures ReposPath(project) == ProjectPath(project) + "/repos"
    ensures RemovedReposPath(project) == ReposPath(project) + "?status=removed"
    ensures RepoPath(project, repo) == ReposPath(project) + "/" + repo
    ensures RemovedRepoPath(project, repo) == RepoPath(project, repo) + "/removed"
  {
  }

  /** The service layer's copies of these paths spell the same strings. */
  lemma AgreesWithServicePaths(project: string, repo: string)
    ensures ProjectsPath() == ServicePaths.ProjectsPath()
    ensures RemovedProjectsPath() == ServicePaths.RemovedProjectsPath()
    ensures ProjectPath(project) == ServicePaths.ProjectPath(project)
    ensures RemovedProjectPath(project) == ServicePaths.RemovedProjectPath(project)
    ensures ReposPath(project) == ServicePaths.ReposPath(project)
    ensures RemovedReposPath(project) == ServicePaths.RemovedReposPath(project)
    ensures RepoPath(project, repo) == ServicePaths.RepoPath(project, repo)
    ensures RemovedRepoPath(project, repo) == ServicePaths.RemovedRepoPath(project, repo)
  {
  }

  /** Different project names give different project paths. */
  lemma ProjectPathInjective(p1: string, p2: string)
    ensures ProjectPath(p1) == ProjectPath(p2) <==> p1 == p2
  {
    if ProjectPath(p1) == ProjectPath(p2) {
      var n := |ProjectsPath() + "/"|;
      assert ProjectPath(p1)[n..] == p1;
      assert ProjectPath(p2)[n..] == p2;
    }
  }

  /** The index of the first '/' in `s`, or its length if there is none. */
  function SlashIndex(s: string): nat
    decreases |s|
  {
    if |s| == 0 || s[0] == '/' then 0 else 1 + SlashIndex(s[1..])
  }

  lemma {:induction false} SlashIndexAfter(p: string, rest: string)
    requires '/' !in p && |rest| > 0 && rest[0] == '/'
    ensures SlashIndex(p + rest) == |p|
    decreases |p|
  {
    if |p| == 0 {
      assert p + rest == rest;
    } else {
      assert (p + rest)[0] == p[0];
      assert (p + rest)[1..] == p[1..] + rest;
      SlashIndexAfter(p[1..], rest);
    }
  }

  /** A project name without '/' ends where `rest` begins when `rest`
      starts with '/'. */
  lemma SplitAtSlash(p1: string, rest1: string, p2: string, rest2: string)
    requires '/' !in p1 && '/' !in p2
    requires |rest1| > 0 && rest1[0] == '/' && |rest2| > 0 && rest2[0] == '/'
    requires p1 + rest1 == p2 + rest2
    ensures p1 == p2 && rest1 == rest2
  {
    var s := p1 + rest1;
    SlashIndexAfter(p1, rest1);
    SlashIndexAfter(p2, rest2);
    assert p1 == s[..|p1|] == p2;
    assert rest1 == s[|p1|..] == rest2;
  }

  /** Repository paths identify the project and the repository, as long
      as project names contain no '/'. */
  lemma RepoPathInjective(p1: string, r1: string, p2: string, r2: string)
    requires '/' !in p1 && '/' !in p2
    ensures RepoPath(p1, r1) == RepoPath(p2, r2) <==> p1 == p2 && r1 == r2
  {
    if RepoPath(p1, r1) == RepoPath(p2, r2) {
      var n := |ProjectsPath() + "/"|;
      var tail := "/" + REPO_PATH + "/";
      assert RepoPath(p1, r1) == ProjectsPath() + "/" + (p1 + (tail + r1));
      assert RepoPath(p2, r2) == ProjectsPath() + "/" + (p2 + (tail + r2));
      assert RepoPath(p1, r1)[n..] == p1 + (tail + r1);
      assert RepoPath(p2, r2)[n..] == p2 + (tail + r2);
      SplitAtSlash(p1, tail + r1, p2, tail + r2);
      assert r1 == (tail + r1)[|tail|..];
      assert r2 == (tail + r2)[|tail|..];
    }
  }

  /** Without that restriction two different pairs can share a path. */
  lemma RepoPathNeedsSlashFreeProjects()
    ensures RepoPath("a/repos/b", "c") == RepoPath("a", "b/repos/c")
  {
  }
}
