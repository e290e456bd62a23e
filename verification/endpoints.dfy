/** URL composition for one query's three REST calls (submit, job status,
    job results). The node writes the deployment decision out three times,
    once per call; each of `SubmitUrl`, `StatusUrl` and `ResultsUrl`
    follows one of those call sites as written, and `ApiRoot` is the
    single decision table keyed on (is software, base already has "/v0")
    that the lemmas below show all three agree with. */
module Endpoints {
  import opened JsValue
  import opened Text

  const Software: string := "software"
  const VersionSegment: string := "/v0"

  /** The base URL with one trailing '/' removed, as every call site uses it. */
  function CleanBaseUrl(baseUrl: string): (clean: string)
    ensures clean == baseUrl || clean + "/" == baseUrl
    ensures |baseUrl| - |clean| == (if EndsWithSlash(baseUrl) then 1 else 0)
  {
    TrimTrailingSlash(baseUrl)
  }

  /** `u` starts with `head` and ends with `tail`, the two not overlapping. */
  ghost predicate Frames(u: string, head: string, tail: string) {
    |head| + |tail| <= |u| && u[..|head|] == head && u[|u| - |tail|..] == tail
  }

  /** Appending to a framed string extends its tail. */
  lemma FramesGrow(u: string, head: string, tail: string, x: string)
    requires Frames(u, head, tail)
    ensures Frames(u + x, head, tail + x)
  {
    assert (u + x)[..|head|] == u[..|head|];
    assert (u + x)[|u + x| - |tail + x|..] == u[|u| - |tail|..] + x;
  }

  /** Submit URL, as written for the POST of the SQL text. Any deployment
      type other than exactly "software" takes the cloud branch. */
  function SubmitUrl(kind: string, clean: string, projectId: Option<string>): (u: string)
    ensures Frames(u, clean, "/sql")
  {
    if kind == Software then clean + "/sql"
    else if !Includes(clean, VersionSegment) then clean + "/v0/projects/" + Show(projectId) + "/sql"
    else clean + "/projects/" + Show(projectId) + "/sql"
  }

  /** Job status URL, as written inside the poll loop. */
  function StatusUrl(kind: string, clean: string, projectId: Option<string>, jobId: Option<string>): (u: string)
    ensures Frames(u, clean, "/job/" + Show(jobId))
  {
    if kind == Software then clean + "/job/" + Show(jobId)
    else if !Includes(clean, VersionSegment) then
      clean + "/v0/projects/" + Show(projectId) + "/job/" + Show(jobId)
    else clean + "/projects/" + Show(projectId) + "/job/" + Show(jobId)
  }

  /** Job results URL, as written for the final GET. */
  function ResultsUrl(kind: string, clean: string, projectId: Option<string>, jobId: Option<string>): (u: string)
    ensures Frames(u, clean, "/job/" + Show(jobId) + "/results")
  {
    FramesGrow(StatusUrl(kind, clean, projectId, jobId), clean, "/job/" + Show(jobId), "/results");
    if kind == Software then clean + "/job/" + Show(jobId) + "/results"
    else if !Includes(clean, VersionSegment) then
      clean + "/v0/projects/" + Show(projectId) + "/job/" + Show(jobId) + "/results"
    else clean + "/projects/" + Show(projectId) + "/job/" + Show(jobId) + "/results"
  }

  /** The API root every call of one query hangs off: the base itself for
      software; for cloud the project path, with the version segment
      added only when the base does not already contain "/v0". */
  function ApiRoot(kind: string, clean: string, projectId: Option<string>): (root: string)
    ensures kind == Software ==> root == clean
    ensures kind != Software ==> |clean| <= |root| && root[..|clean|] == clean
    ensures kind != Software ==> Includes(root, VersionSegment)
  {
    if kind == Software then clean
    else if Includes(clean, VersionSegment) then
      IncludesAppend(clean, "/projects/", VersionSegment);
      IncludesAppend(clean + "/projects/", Show(projectId), VersionSegment);
      clean + "/projects/" + Show(projectId)
    else
      VersionedRootIncludes(clean, Show(projectId));
      clean + "/v0/projects/" + Show(projectId)
  }

  lemma VersionedRootIncludes(clean: string, p: string)
    ensures Includes(clean + "/v0/projects/" + p, VersionSegment)
  {
    assert VersionSegment + ("/projects/" + p) == "/v0/projects/" + p;
    assert clean + "/v0/projects/" + p == clean + VersionSegment + ("/projects/" + p);
    IncludesMiddle(clean, VersionSegment, "/projects/" + p);
  }

  /** All three call sites agree with the one decision table: submit is
      the root plus "/sql", status the root plus "/job/<id>", and results
      is exactly the status URL plus "/results". */
  lemma CallSitesAgree(kind: string, clean: string, projectId: Option<string>, jobId: Option<string>)
    ensures SubmitUrl(kind, clean, projectId) == ApiRoot(kind, clean, projectId) + "/sql"
    ensures StatusUrl(kind, clean, projectId, jobId) == ApiRoot(kind, clean, projectId) + "/job/" + Show(jobId)
    ensures ResultsUrl(kind, clean, projectId, jobId) == StatusUrl(kind, clean, projectId, jobId) + "/results"
  {
  }

  /** Software URLs are the base plus a fixed path: the project identifier
      and the presence of "/v0" in the base play no part. */
  lemma SoftwareUrls(clean: string, p1: Option<string>, p2: Option<string>, jobId: Option<string>)
    ensures SubmitUrl(Software, clean, p1) == clean + "/sql"
    ensures StatusUrl(Software, clean, p1, jobId) == clean + "/job/" + Show(jobId)
    ensures ResultsUrl(Software, clean, p1, jobId) == clean + "/job/" + Show(jobId) + "/results"
    ensures SubmitUrl(Software, clean, p1) == SubmitUrl(Software, clean, p2)
    ensures StatusUrl(Software, clean, p1, jobId) == StatusUrl(Software, clean, p2, jobId)
    ensures ResultsUrl(Software, clean, p1, jobId) == ResultsUrl(Software, clean, p2, jobId)
  {
  }

  /** Cloud URLs address the project path: when the base has no "/v0"
      anywhere the version segment is inserted right after the base; when
      it has one the base is followed directly by "/projects/". */
  lemma CloudUrls(kind: string, clean: string, projectId: Option<string>, jobId: Option<string>)
    requires kind != Software
    ensures !Includes(clean, VersionSegment) ==>
      StatusUrl(kind, clean, projectId, jobId) == clean + "/v0/projects/" + Show(projectId) + "/job/" + Show(jobId)
    ensures Includes(clean, VersionSegment) ==>
      StatusUrl(kind, clean, projectId, jobId) == clean + "/projects/" + Show(projectId) + "/job/" + Show(jobId)
  {
  }

  /** Either way, every cloud URL contains "/v0". */
  lemma CloudUrlsVersioned(kind: string, clean: string, projectId: Option<string>, jobId: Option<string>)
    requires kind != Software
    ensures Includes(SubmitUrl(kind, clean, projectId), VersionSegment)
    ensures Includes(StatusUrl(kind, clean, projectId, jobId), VersionSegment)
    ensures Includes(ResultsUrl(kind, clean, projectId, jobId), VersionSegment)
  {
    var root := ApiRoot(kind, clean, projectId);
    CallSitesAgree(kind, clean, projectId, jobId);
    IncludesAppend(root, "/sql", VersionSegment);
    IncludesAppend(root, "/job/", VersionSegment);
    IncludesAppend(root + "/job/", Show(jobId), VersionSegment);
    IncludesAppend(root + "/job/" + Show(jobId), "/results", VersionSegment);
  }

  /** "/v0" is matched as a plain substring, so a base such as ".../v01"
      or ".../v0-beta" counts as already versioned and gets no second
      segment. */
  lemma VersionMatchIsSubstring(kind: string, b: string, t: string, projectId: Option<string>)
    requires kind != Software
    ensures SubmitUrl(kind, b + VersionSegment + t, projectId)
      == b + VersionSegment + t + "/projects/" + Show(projectId) + "/sql"
  {
    IncludesMiddle(b, VersionSegment, t);
  }

  /** Only one trailing slash is removed from the base, so a software base
      ending in "//" yields a submit URL with a doubled slash. */
  lemma DoubleSlashBaseKeepsOne(b: string, projectId: Option<string>)
    ensures SubmitUrl(Software, CleanBaseUrl(b + "//"), projectId) == b + "//sql"
  {
    TrimTrailingSlashOnce(b);
  }

  /** Nothing checks that a cloud profile has a project identifier: a
      missing one produces exactly the URLs of a project named "undefined",
      and the requests are still made. */
  lemma MissingProjectIdIsInterpolated(kind: string, clean: string, jobId: Option<string>)
    ensures SubmitUrl(kind, clean, None) == SubmitUrl(kind, clean, Some("undefined"))
    ensures StatusUrl(kind, clean, None, jobId) == StatusUrl(kind, clean, Some("undefined"), jobId)
    ensures ResultsUrl(kind, clean, None, jobId) == ResultsUrl(kind, clean, Some("undefined"), jobId)
  {
  }

  /** A project id left blank (the credential's default is the empty
      string) is not rejected either: the cloud URLs get an empty path
      segment after "projects". */
  lemma BlankProjectIdLeavesEmptySegment(kind: string, clean: string)
    requires kind != Software
    ensures !Includes(clean, VersionSegment) ==> SubmitUrl(kind, clean, Some("")) == clean + "/v0/projects//sql"
    ensures Includes(clean, VersionSegment) ==> SubmitUrl(kind, clean, Some("")) == clean + "/projects//sql"
  {
    assert "/v0/projects/" + Show(Some("")) + "/sql" == "/v0/projects//sql";
    assert "/projects/" + Show(Some("")) + "/sql" == "/projects//sql";
  }
}
