/** The `listDependencies` command (listDependencies/listDependencies.ts):
    for each accessible repository with a single dependency dashboard, its
    header and one rendered line per record the extractor copy without
    class inference finds in the body. */
module ListDependencies {
  import opened Wrappers
  import opened Text
  import opened UpdateModel
  import opened Extractor
  import opened Render
  import opened Github

  /** `given ?? stored`: the stored default is used only when nothing was
      given; an empty string that was given is kept. */
  function OrStored(given: Option<string>, stored: Option<string>): (r: Option<string>)
    ensures given.Some? ==> r == given
    ensures given.None? ==> r == stored
  {
    if given.Some? then given else stored
  }

  const NoUpdates := "  No updates found"

  /** The info lines for one repository: nothing unless it has exactly one
      dashboard and that dashboard has a body (the other cases log at debug
      level only); otherwise a blank line, the header, and either the
      `No updates found` line or one rendered line per record. */
  function RepoInfo(r: Repository, issues: seq<Issue>, extract: string -> seq<UpdateInfo>): seq<string> {
    var d := Dashboards(issues);
    if |d| != 1 || !Truthy(d[0].body) then []
    else
      var updates := extract(d[0].body.value);
      ["", r.fullName + " - " + d[0].htmlUrl]
        + (if updates == [] then [NoUpdates] else Lines(updates, r.htmlUrl))
  }

  /** A repository logs info lines exactly when it has one dashboard with a
      body; it then logs its header and, for each record in order, the
      line rendering it. */
  lemma RepoInfoLines(r: Repository, issues: seq<Issue>, extract: string -> seq<UpdateInfo>)
    ensures var out, d := RepoInfo(r, issues, extract), Dashboards(issues);
            && (out != [] <==> |d| == 1 && Truthy(d[0].body))
            && (out != [] ==>
                  var updates := extract(d[0].body.value);
                  && out[..2] == ["", r.fullName + " - " + d[0].htmlUrl]
                  && (updates == [] ==> out == ["", r.fullName + " - " + d[0].htmlUrl, NoUpdates])
                  && (updates != [] ==>
                        && |out| == 2 + |updates|
                        && forall k :: 0 <= k < |updates| ==> out[2 + k] == Line(updates[k], r.htmlUrl)))
  {
    var out, d := RepoInfo(r, issues, extract), Dashboards(issues);
    if |d| == 1 && Truthy(d[0].body) {
      var updates := extract(d[0].body.value);
      if updates != [] {
        forall k | 0 <= k < |updates| ensures out[2 + k] == Line(updates[k], r.htmlUrl) {
          LinesAt(updates, r.htmlUrl, k);
        }
      }
    }
  }

  /** The info lines of the repository loop. */
  function InfoLines(repos: seq<Repository>, author: Option<string>, issuesOf: IssueSource,
                     extract: string -> seq<UpdateInfo>): seq<string>
  {
    if repos == [] then []
    else InfoLines(repos[..|repos| - 1], author, issuesOf, extract)
         + RepoInfo(repos[|repos| - 1], issuesOf(repos[|repos| - 1], author), extract)
  }

  /** The info lines of the command: the organisation and author fall back
      to the stored defaults, the accessible repositories are walked in
      order. */
  function Output(org: Option<string>, author: Option<string>, storedOrg: Option<string>, storedAuthor: Option<string>,
                  all: seq<Repository>, issuesOf: IssueSource, extract: string -> seq<UpdateInfo>): seq<string>
  {
    InfoLines(AccessibleRepos(all, OrStored(org, storedOrg)), OrStored(author, storedAuthor), issuesOf, extract)
  }

  /** An organisation given as the empty string is kept, and then filters on
      nothing: every repository that is not archived is walked, whatever the
      stored default says. */
  lemma EmptyOrgFiltersNothing(all: seq<Repository>, storedOrg: Option<string>)
    ensures forall r :: r in AccessibleRepos(all, OrStored(Some(""), storedOrg)) <==> r in all && !r.archived
  {
    ListingFilters(all, Some(""), []);
  }

  lemma InfoLinesSnoc(repos: seq<Repository>, i: nat, author: Option<string>, issuesOf: IssueSource,
                      extract: string -> seq<UpdateInfo>)
    requires i < |repos|
    ensures InfoLines(repos[..i + 1], author, issuesOf, extract)
            == InfoLines(repos[..i], author, issuesOf, extract) + RepoInfo(repos[i], issuesOf(repos[i], author), extract)
  {
    var p := repos[..i + 1];
    assert p[..|p| - 1] == repos[..i];
  }

  /** One pass of the repository loop: the dashboard checks, then the
      header and the loop logging one `filter(Boolean).join(" ")` line per
      record. The source loops over the single remaining issue. */
  method ReportRepository(r: Repository, issues: seq<Issue>, extract: string -> seq<UpdateInfo>) returns (out: seq<string>)
    ensures out == RepoInfo(r, issues, extract)
  {
    var dashboards := Dashboards(issues);
    if |dashboards| == 0 || |dashboards| > 1 {
      return [];
    }
    var issue := dashboards[0];
    if issue.body.None? || issue.body.value == "" {
      return [];
    }
    out := ["", r.fullName + " - " + issue.htmlUrl];
    var updates := extract(issue.body.value);
    if |updates| == 0 {
      out := out + [NoUpdates];
      return;
    }
    ghost var header := out;
    for k := 0 to |updates|
      invariant out == header + Lines(updates[..k], r.htmlUrl)
    {
      LinesSnoc(updates, k, r.htmlUrl);
      out := out + [Line(updates[k], r.htmlUrl)];
    }
    assert updates[..|updates|] == updates;
  }

  /** `listDependencies` with a given extractor. */
  method ListWith(org: Option<string>, author: Option<string>, storedOrg: Option<string>, storedAuthor: Option<string>,
                  all: seq<Repository>, issuesOf: IssueSource, extract: string -> seq<UpdateInfo>) returns (out: seq<string>)
    ensures out == Output(org, author, storedOrg, storedAuthor, all, issuesOf, extract)
  {
    var owner := if org.Some? then org else storedOrg;
    var creator := if author.Some? then author else storedAuthor;
    var repos := AccessibleRepos(all, owner);
    out := [];
    for i := 0 to |repos|
      invariant out == InfoLines(repos[..i], creator, issuesOf, extract)
    {
      InfoLinesSnoc(repos, i, creator, issuesOf, extract);
      var lines := ReportRepository(repos[i], issuesOf(repos[i], creator), extract);
      out := out + lines;
    }
    assert repos[..|repos|] == repos;
  }

  /** `listDependencies` with this file's extractor. */
  method ListDependencies(org: Option<string>, author: Option<string>, storedOrg: Option<string>, storedAuthor: Option<string>,
                          all: seq<Repository>, issuesOf: IssueSource) returns (out: seq<string>)
    ensures out == Output(org, author, storedOrg, storedAuthor, all, issuesOf, PlainRecords)
  {
    out := ListWith(org, author, storedOrg, storedAuthor, all, issuesOf, PlainRecords);
  }
}
