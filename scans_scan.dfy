/** The `scans scan` command (scans/scan/scan.ts): its options and its loop
    over the fetched repositories, which hands each dashboard body to the
    canonical extractor and the records to `printUpdates`. */
module ScansScan {
  import opened Wrappers
  import opened Text
  import opened UpdateModel
  import opened Extractor
  import opened Render
  import opened PrintUpdates
  import opened CliOptions
  import opened Github

  /** What `getOptions` returns. */
  datatype ScansOptions = ScansOptions(
    owner: Option<string>,
    reposToFilterBy: Option<seq<RepoRef>>,
    dependenciesToFilterBy: Option<seq<string>>,
    verbose: bool,
    updateType: Option<UpdateType>,
    quiet: bool)

  /** Why the options were rejected: an `updateType` outside the enum. */
  datatype OptionsError = InvalidUpdateType(value: string)

  /** `getOptions`: the class must be `major`, `minor` or `patch` when given;
      the flags are on only when given as `true`; owner and dependency list
      are passed on as given; invalid repository specs are dropped. */
  function GetOptions(owner: Option<string>, repos: Option<seq<string>>, dependencies: Option<seq<string>>,
                      updateType: Option<string>, verbose: RawFlag, quiet: RawFlag): (r: Result<ScansOptions, OptionsError>)
    ensures r.Failure? <==> updateType.Some? && ParseUpdateType(updateType.value).None?
    ensures r.Failure? ==> r.error == InvalidUpdateType(updateType.value)
    ensures r.Success? ==>
              && r.value.owner == owner
              && r.value.dependenciesToFilterBy == dependencies
              && (updateType.None? ==> r.value.updateType.None?)
              && (updateType.Some? ==> r.value.updateType.Some? && r.value.updateType.value.Name() == updateType.value)
              && (r.value.verbose <==> verbose == Flag(true))
              && (r.value.quiet <==> quiet == Flag(true))
              && (r.value.reposToFilterBy.Some? <==> repos.Some?)
              && (repos.Some? ==> forall ref :: ref in r.value.reposToFilterBy.value <==>
                    exists s :: s in repos.value && ParseRepoSpec(s) == Some(ref))
  {
    KeptSpecsMembers(repos.GetOr([]));
    if updateType.Some? && ParseUpdateType(updateType.value).None? then Failure(InvalidUpdateType(updateType.value))
    else
      var ty := if updateType.Some? then ParseUpdateType(updateType.value) else None;
      Success(ScansOptions(owner, ReposToFilterBy(repos), dependencies, CaughtFlag(verbose), ty, CaughtFlag(quiet)))
  }

  const NotFoundIntro := "Did not find any repositories accessible by the CLI using the given configuration options:"

  /** The info lines for an empty repository list. */
  function NotFound(o: ScansOptions): seq<string> {
    [ NotFoundIntro,
      "- Owner: " + (if Truthy(o.owner) then o.owner.value else "N/A"),
      "- Repositories to filter by: " + (if o.reposToFilterBy.Some? then ObjectsText(|o.reposToFilterBy.value|) else "N/A"),
      "- Dependencies to filter by: " + (if o.dependenciesToFilterBy.Some? then Join(o.dependenciesToFilterBy.value, ", ") else "N/A"),
      "" ]
  }

  /** The empty-list report: each option given shows its value (the
      repository filter one `[object Object]` per reference), each option
      missing or falsy shows `N/A`, and a blank line closes it. */
  lemma NotFoundLines(o: ScansOptions)
    ensures var r := NotFound(o);
            && |r| == 5 && r[0] == NotFoundIntro && r[4] == ""
            && r[1] == "- Owner: " + (if Truthy(o.owner) then o.owner.value else "N/A")
            && (o.reposToFilterBy.None? ==> r[2] == "- Repositories to filter by: N/A")
            && (o.reposToFilterBy.Some? ==>
                  r[2] == "- Repositories to filter by: " + Join(seq(|o.reposToFilterBy.value|, _ => ObjectString), ", "))
            && (o.dependenciesToFilterBy.None? ==> r[3] == "- Dependencies to filter by: N/A")
            && (o.dependenciesToFilterBy.Some? ==>
                  r[3] == "- Dependencies to filter by: " + Join(o.dependenciesToFilterBy.value, ", "))
  {
    if o.reposToFilterBy.Some? {
      ObjectsTextJoin(|o.reposToFilterBy.value|);
    }
  }

  /** How `printUpdates` is told about a repository. */
  function View(r: ScannedRepo): RepoView {
    RepoView(r.name, r.ownerLogin, r.htmlUrl)
  }

  /** A repository's info lines: nothing when it is skipped (no dashboard
      or an empty body), otherwise what `printUpdates` logs for the records
      `extract` finds in its body, with the filters as given. */
  function RepoLines(r: ScannedRepo, o: ScansOptions, extract: string -> seq<UpdateInfo>): seq<string> {
    match ScannedBody(r)
    case None => []
    case Some(body) => Report(extract(body), o.dependenciesToFilterBy, o.updateType, r.dashboard.value.htmlUrl, View(r))
  }

  /** The info lines logged up to the end of the repository loop. */
  function Logged(repos: seq<ScannedRepo>, o: ScansOptions, extract: string -> seq<UpdateInfo>): (r: seq<string>)
    ensures |r| >= 1 && r[0] == ""
  {
    if repos == [] then [""] else Logged(repos[..|repos| - 1], o, extract) + RepoLines(repos[|repos| - 1], o, extract)
  }

  /** The info lines of a scan over the fetched repositories. */
  function ScanOutput(o: ScansOptions, repos: seq<ScannedRepo>, extract: string -> seq<UpdateInfo>): seq<string> {
    if repos == [] then [""] + NotFound(o) else Logged(repos, o, extract)
  }

  /** A repository that is not skipped always logs its report, which opens
      with its header; so the loop logs nothing beyond the blank line
      exactly when every repository is skipped. */
  lemma {:induction false} LoggedOnlyBlank(repos: seq<ScannedRepo>, o: ScansOptions, extract: string -> seq<UpdateInfo>)
    ensures Logged(repos, o, extract) == [""] <==> forall i :: 0 <= i < |repos| ==> ScannedBody(repos[i]).None?
    decreases |repos|
  {
    if repos != [] {
      var front, last := repos[..|repos| - 1], repos[|repos| - 1];
      LoggedOnlyBlank(front, o, extract);
      var before := Logged(front, o, extract);
      if ScannedBody(last).Some? {
        var body := ScannedBody(last).value;
        ReportLayout(extract(body), o.dependenciesToFilterBy, o.updateType, last.dashboard.value.htmlUrl, View(last));
        assert |Logged(repos, o, extract)| > 1;
      } else {
        assert Logged(repos, o, extract) == before;
        forall i | 0 <= i < |front| ensures repos[i] == front[i] { }
      }
    }
  }

  /** A repository with a body logs the header of its dashboard. */
  lemma RepoHeader(r: ScannedRepo, o: ScansOptions, extract: string -> seq<UpdateInfo>)
    requires ScannedBody(r).Some?
    ensures var out := RepoLines(r, o, extract);
            |out| >= 2 && out[0] == r.ownerLogin + "/" + r.name + " - " + r.dashboard.value.htmlUrl
  {
    var body := ScannedBody(r).value;
    ReportLayout(extract(body), o.dependenciesToFilterBy, o.updateType, r.dashboard.value.htmlUrl, View(r));
  }

  /** `quiet` is passed to `printUpdates`, which ignores it. */
  lemma QuietIgnored(o: ScansOptions, repos: seq<ScannedRepo>, extract: string -> seq<UpdateInfo>)
    ensures ScanOutput(o.(quiet := true), repos, extract) == ScanOutput(o.(quiet := false), repos, extract)
  {
    QuietIgnoredLogged(o, repos, extract);
  }

  lemma {:induction false} QuietIgnoredLogged(o: ScansOptions, repos: seq<ScannedRepo>, extract: string -> seq<UpdateInfo>)
    ensures Logged(repos, o.(quiet := true), extract) == Logged(repos, o.(quiet := false), extract)
    decreases |repos|
  {
    if repos != [] {
      QuietIgnoredLogged(o, repos[..|repos| - 1], extract);
    }
  }

  lemma LoggedSnoc(repos: seq<ScannedRepo>, i: nat, o: ScansOptions, extract: string -> seq<UpdateInfo>)
    requires i < |repos|
    ensures Logged(repos[..i + 1], o, extract) == Logged(repos[..i], o, extract) + RepoLines(repos[i], o, extract)
  {
    var p := repos[..i + 1];
    assert p[..|p| - 1] == repos[..i];
  }

  /** `scan`: logs a blank line; for an empty repository list logs what was
      asked for; otherwise skips each repository without a dashboard or
      with an empty body and prints the updates of every other one. */
  method ScanWith(o: ScansOptions, repos: seq<ScannedRepo>, extract: string -> seq<UpdateInfo>) returns (out: seq<string>)
    ensures out == ScanOutput(o, repos, extract)
  {
    out := [""];
    if |repos| == 0 {
      out := out + NotFound(o);
      return;
    }
    assert out == Logged(repos[..0], o, extract);
    for i := 0 to |repos|
      invariant out == Logged(repos[..i], o, extract)
    {
      LoggedSnoc(repos, i, o, extract);
      var repo := repos[i];
      if repo.dashboard.None? {
        continue;
      }
      var dashboard := repo.dashboard.value;
      if dashboard.body.None? || dashboard.body.value == "" {
        continue;
      }
      var updates := extract(dashboard.body.value);
      var printed := Print(updates, o.dependenciesToFilterBy, o.updateType, dashboard.htmlUrl,
                           RepoView(repo.name, repo.ownerLogin, repo.htmlUrl));
      out := out + printed;
    }
    assert repos[..|repos|] == repos;
  }

  /** `scan` with the canonical extractor. */
  method Scan(o: ScansOptions, repos: seq<ScannedRepo>) returns (out: seq<string>)
    ensures out == ScanOutput(o, repos, InferredRecords)
  {
    out := ScanWith(o, repos, InferredRecords);
  }
}
