/** The path builders' expected outputs from the repository's unit tests
    for `content_commits_path` and `content_compare_path`, proved for the
    model. A missing revision stands for `Revision::DEFAULT`. */
module PathVectors {
  import opened Wrappers
  import opened Model
  import opened Decimal
  import opened FormUrlEncoded
  import opened ServicePaths

  predicate AllUnreserved(s: string) {
    forall i :: 0 <= i < |s| ==> IsUnreserved(s[i])
  }

  /** The text `add_pair` appends after a non-empty query for a key and a
      value that need no percent-encoding: nothing when the value is empty. */
  function Tail(key: string, value: string): (t: string)
    ensures t == "" <==> value == ""
  {
    if value == "" then "" else "&" + (key + "=" + value)
  }

  /** The text of one `Tail` per value, in order. */
  function Tails(key: string, values: seq<string>): string
    decreases |values|
  {
    if |values| == 0 then "" else Tail(key, values[0]) + Tails(key, values[1..])
  }

  lemma KeysUnreserved()
    ensures AllUnreserved(PATH) && AllUnreserved(FROM) && AllUnreserved(TO)
    ensures AllUnreserved(MAX_COMMITS) && AllUnreserved(JSONPATH)
  {
  }

  lemma DigitsUnreserved(s: string)
    requires AllDigits(s)
    ensures AllUnreserved(s)
  {
  }

  /** Every revision text, relative ones with their '-' included, needs no
      percent-encoding. */
  lemma RevisionTextUnreserved(rev: Option<Revision>)
    ensures AllUnreserved(RevisionText(rev))
  {
    if rev.Some? {
      var t := RevisionText(rev);
      if rev.value.number < 0 {
        DigitsUnreserved(t[1..]);
        assert forall i :: 1 <= i < |t| ==> t[i] == t[1..][i - 1];
      } else {
        DigitsUnreserved(t);
      }
    }
  }

  lemma RevisionTexts()
    ensures RevisionText(Some(Revision(1))) == "1"
    ensures RevisionText(Some(Revision(2))) == "2"
    ensures NatToString(5) == "5"
  {
    assert DigitChar(1) == '1';
    assert DigitChar(2) == '2';
    assert DigitChar(5) == '5';
  }

  lemma EncodeSlash()
    ensures EncodeChar('/') == "%2F"
  {
    assert Utf8('/') == [47];
    assert PercentBytes([47]) == "%2F";
  }

  /** An absolute path of one unreserved name encodes its slash only. */
  lemma EncodeSlashName(name: string)
    requires AllUnreserved(name)
    ensures Enc("/" + name) == "%2F" + name
  {
    assert ("/" + name)[0] == '/';
    assert ("/" + name)[1..] == name;
    EncodeSlash();
  }

  lemma EncodeAbsolutePath()
    ensures Enc("/a.json") == "%2Fa.json"
  {
    var s := "/a.json";
    assert s[0] == '/' && s[1..] == "a.json";
    assert AllUnreserved("a.json");
    EncodeSlash();
  }

  lemma NoSeparator(url: string, pair: string)
    ensures url + "" + pair == url + pair
  {
  }

  lemma Regroup(url: string, query: string, sep: string, pair: string)
    ensures url + query + sep + pair == url + (query + (sep + pair))
  {
  }

  lemma Reassociate(query: string, a: string, b: string)
    ensures query + a + b == query + (a + b)
  {
  }

  /** The first pair of an empty query. */
  lemma FirstPair(url: string, key: string, value: string, encodedValue: string)
    requires AllUnreserved(key) && Enc(value) == encodedValue && value != ""
    ensures AddPair(Start(url), key, value) == Serializer(url + (key + "=" + encodedValue), |url|)
  {
    assert EncodePair(key, value) == key + "=" + encodedValue;
    NoSeparator(url, key + "=" + encodedValue);
  }

  /** A further pair of characters that need no encoding. */
  lemma NextPair(url: string, query: string, key: string, value: string)
    requires |query| > 0 && AllUnreserved(key) && AllUnreserved(value)
    ensures AddPair(Serializer(url + query, |url|), key, value)
         == Serializer(url + (query + Tail(key, value)), |url|)
  {
    if value != "" {
      assert EncodePair(key, value) == key + "=" + value;
      Regroup(url, query, "&", key + "=" + value);
    } else {
      assert query + "" == query;
    }
  }

  lemma {:induction false} NextPairs(url: string, query: string, key: string, values: seq<string>)
    requires |query| > 0 && AllUnreserved(key)
    requires forall i :: 0 <= i < |values| ==> AllUnreserved(values[i])
    ensures AddAll(Serializer(url + query, |url|), key, values)
         == Serializer(url + (query + Tails(key, values)), |url|)
    decreases |values|
  {
    if |values| == 0 {
      assert query + "" == query;
    } else {
      NextPair(url, query, key, values[0]);
      var query' := query + Tail(key, values[0]);
      NextPairs(url, query', key, values[1..]);
      Reassociate(query, Tail(key, values[0]), Tails(key, values[1..]));
    }
  }

  /** `content_commits_path` spelled out for a path and revisions whose
      text needs no encoding beyond the path. */
  lemma CommitsPathText(project: string, repo: string, fromRev: Option<Revision>, toRev: Option<Revision>,
                        path: string, maxCommits: Option<u32>, encodedPath: string, count: string)
    requires path != "" && Enc(path) == encodedPath
    requires count == (if maxCommits.Some? then NatToString(maxCommits.value as nat) else "")
    ensures ContentCommitsPath(project, repo, fromRev, toRev, path, maxCommits)
         == CommitsUrl(project, repo, fromRev)
            + (PATH + "=" + encodedPath + Tail(TO, RevisionText(toRev)) + Tail(MAX_COMMITS, count))
  {
    CommitsPairsText(CommitsUrl(project, repo, fromRev), path, encodedPath, toRev, maxCommits, count);
  }

  /** The `path`, `to` and `maxCommits` pairs of a commits query. */
  lemma CommitsPairsText(url: string, path: string, encodedPath: string, toRev: Option<Revision>,
                         maxCommits: Option<u32>, count: string)
    requires path != "" && Enc(path) == encodedPath
    requires count == (if maxCommits.Some? then NatToString(maxCommits.value as nat) else "")
    ensures var s2 := AddRevision(AddPair(Start(url), PATH, path), TO, toRev);
      (if maxCommits.Some? then AddPair(s2, MAX_COMMITS, count) else s2)
      == Serializer(url + (PATH + "=" + encodedPath + Tail(TO, RevisionText(toRev)) + Tail(MAX_COMMITS, count)), |url|)
  {
    var q1 := PATH + "=" + encodedPath;
    assert AllUnreserved(PATH) && AllUnreserved(TO) && AllUnreserved(MAX_COMMITS) by { KeysUnreserved(); }
    var s1 := AddPair(Start(url), PATH, path);
    assert s1 == Serializer(url + q1, |url|) by {
      FirstPair(url, PATH, path, encodedPath);
    }
    var s2 := AddRevision(s1, TO, toRev);
    assert s2 == Serializer(url + (q1 + Tail(TO, RevisionText(toRev))), |url|) by {
      RevisionTextUnreserved(toRev);
      NextPair(url, q1, TO, RevisionText(toRev));
    }
    var q2 := q1 + Tail(TO, RevisionText(toRev));
    var s3 := if maxCommits.Some? then AddPair(s2, MAX_COMMITS, count) else s2;
    assert s3 == Serializer(url + (q2 + Tail(MAX_COMMITS, count)), |url|) by {
      if maxCommits.Some? {
        DigitsUnreserved(count);
      }
      NextPair(url, q2, MAX_COMMITS, count);
    }
  }

  /** The path and revision pairs that open a compare query. */
  lemma CompareRevisionsText(url: string, path: string, encodedPath: string,
                             fromRev: Option<Revision>, toRev: Option<Revision>)
    requires path != "" && Enc(path) == encodedPath
    ensures AddRevision(AddRevision(AddPair(Start(url), PATH, path), FROM, fromRev), TO, toRev)
         == Serializer(url + (PATH + "=" + encodedPath + Tail(FROM, RevisionText(fromRev))
                              + Tail(TO, RevisionText(toRev))), |url|)
  {
    var q1 := PATH + "=" + encodedPath;
    assert AllUnreserved(PATH) && AllUnreserved(FROM) && AllUnreserved(TO) by { KeysUnreserved(); }
    var s1 := AddPair(Start(url), PATH, path);
    assert s1 == Serializer(url + q1, |url|) by {
      FirstPair(url, PATH, path, encodedPath);
    }
    var s2 := AddRevision(s1, FROM, fromRev);
    assert s2 == Serializer(url + (q1 + Tail(FROM, RevisionText(fromRev))), |url|) by {
      RevisionTextUnreserved(fromRev);
      NextPair(url, q1, FROM, RevisionText(fromRev));
    }
    var q2 := q1 + Tail(FROM, RevisionText(fromRev));
    assert AddRevision(s2, TO, toRev) == Serializer(url + (q2 + Tail(TO, RevisionText(toRev))), |url|) by {
      RevisionTextUnreserved(toRev);
      NextPair(url, q2, TO, RevisionText(toRev));
    }
  }

  /** `content_compare_path` spelled out for a path, revisions and JSON path
      expressions whose text needs no encoding beyond the path. */
  lemma ComparePathText(project: string, repo: string, fromRev: Option<Revision>, toRev: Option<Revision>,
                        q: Query, encodedPath: string)
    requires q.path != "" && Enc(q.path) == encodedPath
    requires forall i :: 0 <= i < |JsonPathExpressions(q)| ==> AllUnreserved(JsonPathExpressions(q)[i])
    ensures ContentComparePath(project, repo, fromRev, toRev, q)
         == CompareUrl(project, repo)
            + (PATH + "=" + encodedPath + Tail(FROM, RevisionText(fromRev)) + Tail(TO, RevisionText(toRev))
               + Tails(JSONPATH, JsonPathExpressions(q)))
  {
    var url := CompareUrl(project, repo);
    var q3 := PATH + "=" + encodedPath + Tail(FROM, RevisionText(fromRev)) + Tail(TO, RevisionText(toRev));
    CompareRevisionsText(url, q.path, encodedPath, fromRev, toRev);
    JsonPathsText(url, q3, q);
  }

  /** The `jsonpath` pairs that close a compare query. */
  lemma JsonPathsText(url: string, query: string, q: Query)
    requires |query| > 0
    requires forall i :: 0 <= i < |JsonPathExpressions(q)| ==> AllUnreserved(JsonPathExpressions(q)[i])
    ensures AddJsonPaths(Serializer(url + query, |url|), q)
         == Serializer(url + (query + Tails(JSONPATH, JsonPathExpressions(q))), |url|)
  {
    if q.queryType.JsonPath? {
      assert AllUnreserved(JSONPATH) by { KeysUnreserved(); }
      NextPairs(url, query, JSONPATH, JsonPathExpressions(q));
    } else {
      assert query + "" == query;
    }
  }

  lemma CommitsUrlFromOne()
    ensures CommitsUrl("foo", "bar", Some(Revision(1))) == "/api/v1/projects/foo/repos/bar/commits/1?"
  {
    RevisionTexts();
    assert PATH_PREFIX + "/projects/" == "/api/v1/projects/";
    assert "/api/v1/projects/" + "foo" + "/repos/" == "/api/v1/projects/foo/repos/";
    assert "/api/v1/projects/foo/repos/" + "bar" + "/commits/" == "/api/v1/projects/foo/repos/bar/commits/";
  }

  lemma CommitsUrlWithoutFrom()
    ensures CommitsUrl("foo", "bar", None) == "/api/v1/projects/foo/repos/bar/commits/?"
  {
    assert PATH_PREFIX + "/projects/" == "/api/v1/projects/";
    assert "/api/v1/projects/" + "foo" + "/repos/" == "/api/v1/projects/foo/repos/";
    assert "/api/v1/projects/foo/repos/" + "bar" + "/commits/" == "/api/v1/projects/foo/repos/bar/commits/";
  }

  lemma IdentityQuery()
    ensures QueryIdentity("/a.json") == Some(Query("/a.json", Identity))
  {
    assert StartsWith("/a.json", "/");
  }

  lemma JsonPathQuery()
    ensures QueryOfJsonPath("/a.json", ["a"]) == Some(Query("/a.json", JsonPath(["a"])))
  {
    JsonPathOfAbsolutePath(["a"]);
  }

  lemma CompareUrlFooBar()
    ensures CompareUrl("foo", "bar") == "/api/v1/projects/foo/repos/bar/compare?"
  {
    assert PATH_PREFIX + "/projects/" == "/api/v1/projects/";
    assert "/api/v1/projects/" + "foo" + "/repos/" == "/api/v1/projects/foo/repos/";
  }

  lemma CommitsPathWithAllArgumentsText()
    ensures PATH + "=" + "%2Fa.json" + Tail(TO, "2") + Tail(MAX_COMMITS, "5") == "path=%2Fa.json&to=2&maxCommits=5"
  {
  }

  lemma CommitsPathWithAllArguments()
    ensures ContentCommitsPath("foo", "bar", Some(Revision(1)), Some(Revision(2)), "/a.json", Some(5))
         == "/api/v1/projects/foo/repos/bar/commits/1?" + "path=%2Fa.json&to=2&maxCommits=5"
  {
    CommitsUrlFromOne();
    RevisionTexts();
    EncodeAbsolutePath();
    CommitsPathText("foo", "bar", Some(Revision(1)), Some(Revision(2)), "/a.json", Some(5), "%2Fa.json", "5");
    CommitsPathWithAllArgumentsText();
  }

  lemma CommitsPathWithoutMaxCommitsText()
    ensures PATH + "=" + "%2Fa.json" + Tail(TO, "2") + Tail(MAX_COMMITS, "") == "path=%2Fa.json&to=2"
  {
  }

  lemma CommitsPathWithoutMaxCommits()
    ensures ContentCommitsPath("foo", "bar", Some(Revision(1)), Some(Revision(2)), "/a.json", None)
         == "/api/v1/projects/foo/repos/bar/commits/1?" + "path=%2Fa.json&to=2"
  {
    CommitsUrlFromOne();
    RevisionTexts();
    EncodeAbsolutePath();
    CommitsPathText("foo", "bar", Some(Revision(1)), Some(Revision(2)), "/a.json", None, "%2Fa.json", "");
    CommitsPathWithoutMaxCommitsText();
  }

  lemma CommitsPathWithoutRevisionsText()
    ensures PATH + "=" + "%2Fa.json" + Tail(TO, "") + Tail(MAX_COMMITS, "5") == "path=%2Fa.json&maxCommits=5"
  {
  }

  lemma CommitsPathWithoutRevisions()
    ensures ContentCommitsPath("foo", "bar", None, None, "/a.json", Some(5))
         == "/api/v1/projects/foo/repos/bar/commits/?" + "path=%2Fa.json&maxCommits=5"
  {
    CommitsUrlWithoutFrom();
    RevisionTexts();
    EncodeAbsolutePath();
    CommitsPathText("foo", "bar", None, None, "/a.json", Some(5), "%2Fa.json", "5");
    CommitsPathWithoutRevisionsText();
  }

  lemma CommitsPathWithPathOnlyText()
    ensures PATH + "=" + "%2Fa.json" + Tail(TO, "") + Tail(MAX_COMMITS, "") == "path=%2Fa.json"
  {
  }

  lemma CommitsPathWithPathOnly()
    ensures ContentCommitsPath("foo", "bar", None, None, "/a.json", None)
         == "/api/v1/projects/foo/repos/bar/commits/?" + "path=%2Fa.json"
  {
    CommitsUrlWithoutFrom();
    RevisionTexts();
    EncodeAbsolutePath();
    CommitsPathText("foo", "bar", None, None, "/a.json", None, "%2Fa.json", "");
    CommitsPathWithPathOnlyText();
  }

  lemma ComparePathWithBothRevisionsText()
    ensures PATH + "=" + "%2Fa.json" + Tail(FROM, "1") + Tail(TO, "2") + "" == "path=%2Fa.json&from=1&to=2"
  {
  }

  lemma ComparePathWithBothRevisions()
    ensures ContentComparePath("foo", "bar", Some(Revision(1)), Some(Revision(2)), QueryIdentity("/a.json").value)
         == "/api/v1/projects/foo/repos/bar/compare?" + "path=%2Fa.json&from=1&to=2"
  {
    CompareUrlFooBar();
    RevisionTexts();
    EncodeAbsolutePath();
    IdentityQuery();
    ComparePathText("foo", "bar", Some(Revision(1)), Some(Revision(2)), Query("/a.json", Identity), "%2Fa.json");
    ComparePathWithBothRevisionsText();
  }

  lemma ComparePathWithoutFromText()
    ensures PATH + "=" + "%2Fa.json" + Tail(FROM, "") + Tail(TO, "2") + "" == "path=%2Fa.json&to=2"
  {
  }

  lemma ComparePathWithoutFrom()
    ensures ContentComparePath("foo", "bar", None, Some(Revision(2)), QueryIdentity("/a.json").value)
         == "/api/v1/projects/foo/repos/bar/compare?" + "path=%2Fa.json&to=2"
  {
    CompareUrlFooBar();
    RevisionTexts();
    EncodeAbsolutePath();
    IdentityQuery();
    ComparePathText("foo", "bar", None, Some(Revision(2)), Query("/a.json", Identity), "%2Fa.json");
    ComparePathWithoutFromText();
  }

  lemma ComparePathWithoutToText()
    ensures PATH + "=" + "%2Fa.json" + Tail(FROM, "1") + Tail(TO, "") + "" == "path=%2Fa.json&from=1"
  {
  }

  lemma ComparePathWithoutTo()
    ensures ContentComparePath("foo", "bar", Some(Revision(1)), None, QueryIdentity("/a.json").value)
         == "/api/v1/projects/foo/repos/bar/compare?" + "path=%2Fa.json&from=1"
  {
    CompareUrlFooBar();
    RevisionTexts();
    EncodeAbsolutePath();
    IdentityQuery();
    ComparePathText("foo", "bar", Some(Revision(1)), None, Query("/a.json", Identity), "%2Fa.json");
    ComparePathWithoutToText();
  }

  lemma ComparePathWithoutRevisionsText()
    ensures PATH + "=" + "%2Fa.json" + Tail(FROM, "") + Tail(TO, "") + "" == "path=%2Fa.json"
  {
  }

  lemma ComparePathWithoutRevisions()
    ensures ContentComparePath("foo", "bar", None, None, QueryIdentity("/a.json").value)
         == "/api/v1/projects/foo/repos/bar/compare?" + "path=%2Fa.json"
  {
    CompareUrlFooBar();
    RevisionTexts();
    EncodeAbsolutePath();
    IdentityQuery();
    ComparePathText("foo", "bar", None, None, Query("/a.json", Identity), "%2Fa.json");
    ComparePathWithoutRevisionsText();
  }

  lemma ComparePathWithJsonPathText()
    ensures PATH + "=" + "%2Fa.json" + Tail(FROM, "") + Tail(TO, "") + Tails(JSONPATH, ["a"]) == "path=%2Fa.json&jsonpath=a"
  {
    assert ["a"][1..] == [];
  }

  lemma ComparePathWithJsonPath()
    ensures ContentComparePath("foo", "bar", None, None, QueryOfJsonPath("/a.json", ["a"]).value)
         == "/api/v1/projects/foo/repos/bar/compare?" + "path=%2Fa.json&jsonpath=a"
  {
    CompareUrlFooBar();
    RevisionTexts();
    EncodeAbsolutePath();
    JsonPathQuery();
    ComparePathText("foo", "bar", None, None, Query("/a.json", JsonPath(["a"])), "%2Fa.json");
    ComparePathWithJsonPathText();
  }
}
