/** The older `scan` command (scan/scan.ts): its options, its own copy of
    the extractor (no class inference), the exact name filter and the
    report loop with its `hasUpdates` flag. */
module ScanCommand {
  import opened Wrappers
  import opened Text
  import opened UpdateModel
  import opened Extractor
  import opened Render
  import opened CliOptions
  import opened Github

  /** What `getOptions` returns. */
  datatype ScanOptions = ScanOptions(
    owner: Option<string>,
    renovateGithubAuthor: Option<string>,
    reposToFilterBy: Option<seq<RepoRef>>,
    dependenciesToFilterBy: Option<seq<string>>,
    verbose: bool)

  /** `getOptions`: an owner or author not given falls back to the stored
      default, which is passed in; invalid repository specs are dropped. */
  function GetOptions(owner: Option<string>, renovateGithubAuthor: Option<string>,
                      repos: Option<seq<string>>, dependencies: Option<seq<string>>,
                      verbose: RawFlag, defaultOwner: Option<string>,
                      defaultAuthor: Option<string>): (r: ScanOptions)
    ensures r.owner == (if owner.Some? then owner else defaultOwner)
    ensures r.renovateGithubAuthor == (if renovateGithubAuthor.Some? then renovateGithubAuthor else defaultAuthor)
    ensures r.reposToFilterBy.Some? <==> repos.Some?
    ensures repos.Some? ==> forall ref :: ref in r.reposToFilterBy.value <==>
              exists s :: s in repos.value && ParseRepoSpec(s) == Some(ref)
    ensures r.dependenciesToFilterBy == dependencies
    ensures r.verbose <==> verbose == Flag(true)
  {
    KeptSpecsMembers(repos.GetOr([]));
    ScanOptions(
      if owner.Some? then owner else defaultOwner,
      if renovateGithubAuthor.Some? then renovateGithubAuthor else defaultAuthor,
      ReposToFilterBy(repos),
      dependencies,
      CaughtFlag(verbose))
  }

  /** The exact, case-sensitive name test: the dependency (when non-empty)
      or some package is in the list. */
  predicate Listed(u: UpdateInfo, names: seq<string>) {
    (Truthy(u.dependency) && u.dependency.value in names)
    || (exists p :: p in u.packages && p in names)
  }

  function FilterListed(us: seq<UpdateInfo>, names: seq<string>): (r: seq<UpdateInfo>)
    ensures |r| <= |us|
  {
    if us == [] then []
    else (if Listed(us[0], names) then [us[0]] else []) + FilterListed(us[1..], names)
  }

  /** The updates a repository reports: all of them without a list,
      otherwise the listed ones, in order. */
  function FilterByName(all: seq<UpdateInfo>, names: Option<seq<string>>): seq<UpdateInfo> {
    if names.Some? then FilterListed(all, names.value) else all
  }

  lemma {:induction false} FilterListedMembers(us: seq<UpdateInfo>, names: seq<string>)
    ensures forall u :: u in FilterListed(us, names) <==> u in us && Listed(u, names)
    decreases |us|
  {
    if us != [] {
      FilterListedMembers(us[1..], names);
      assert us == [us[0]] + us[1..];
    }
  }

  /** With a list an update passes exactly when it is listed; without one
      every update passes; an empty list passes none. */
  lemma FilterByNameMembers(all: seq<UpdateInfo>, names: Option<seq<string>>)
    ensures forall u :: u in FilterByName(all, names) <==> u in all && (names.Some? ==> Listed(u, names.value))
    ensures names == Some([]) ==> FilterByName(all, names) == []
  {
    if names.Some? {
      FilterListedMembers(all, names.value);
      if names.value == [] && FilterByName(all, names) != [] {
        var u := FilterByName(all, names)[0];
        assert u in FilterByName(all, names);
      }
    }
  }

  /** The updates a repository shows: none when it has no dashboard or an
      empty body, else the filtered records `extract` finds in its body. The
      scan uses `PlainRecords`; the lemmas below hold for any extractor. */
  function Shown(r: ScannedRepo, names: Option<seq<string>>, extract: string -> seq<UpdateInfo>): seq<UpdateInfo> {
    match ScannedBody(r)
    case None => []
    case Some(body) => FilterByName(extract(body), names)
  }

  /** A repository's info lines: nothing when it shows no update (only
      debug lines, which are not modelled); otherwise its header, one line
      per shown update and a blank line. */
  function Section(r: ScannedRepo, names: Option<seq<string>>, extract: string -> seq<UpdateInfo>): (out: seq<string>)
    ensures out == [] <==> Shown(r, names, extract) == []
    ensures out != [] ==> |out| == |Shown(r, names, extract)| + 2 && out[|out| - 1] == ""
  {
    var shown := Shown(r, names, extract);
    if shown == [] then []
    else [r.fullName + " - " + r.dashboard.value.htmlUrl] + Lines(shown, r.htmlUrl) + [""]
  }

  /** The info lines logged up to the end of the repository loop: the
      opening blank line, then each repository's section in order. */
  function Logged(repos: seq<ScannedRepo>, names: Option<seq<string>>, extract: string -> seq<UpdateInfo>): (r: seq<string>)
    ensures |r| >= 1 && r[|r| - 1] == ""
  {
    if repos == [] then [""] else Logged(repos[..|repos| - 1], names, extract) + Section(repos[|repos| - 1], names, extract)
  }

  /** Some repository shows an update. */
  predicate AnyShown(repos: seq<ScannedRepo>, names: Option<seq<string>>, extract: string -> seq<UpdateInfo>) {
    exists i :: 0 <= i < |repos| && Shown(repos[i], names, extract) != []
  }

  const NotFoundIntro := "Did not find any repositories accessible by the CLI using the given configuration options:"

  /** The info lines for an empty repository list. */
  function NotFound(o: ScanOptions): seq<string> {
    [ NotFoundIntro,
      "- Owner: " + (if Truthy(o.owner) then o.owner.value else "N/A"),
      "- Repositories to filter by: " + (if o.reposToFilterBy.Some? then ObjectsText(|o.reposToFilterBy.value|) else "N/A"),
      "- Dependencies to filter by: " + (if o.dependenciesToFilterBy.Some? then Join(o.dependenciesToFilterBy.value, ", ") else "N/A"),
      "- Renovate GitHub author: " + (if Truthy(o.renovateGithubAuthor) then o.renovateGithubAuthor.value else "N/A"),
      "" ]
  }

  /** The empty-list report: each option given shows its value (the
      repository filter one `[object Object]` per reference), each option
      missing or falsy shows `N/A`, and a blank line closes it. */
  lemma NotFoundLines(o: ScanOptions)
    ensures var r := NotFound(o);
            && |r| == 6 && r[0] == NotFoundIntro && r[5] == ""
            && r[1] == "- Owner: " + (if Truthy(o.owner) then o.owner.value else "N/A")
            && (o.reposToFilterBy.None? ==> r[2] == "- Repositories to filter by: N/A")
            && (o.reposToFilterBy.Some? ==>
                  r[2] == "- Repositories to filter by: " + Join(seq(|o.reposToFilterBy.value|, _ => ObjectString), ", "))
            && (o.dependenciesToFilterBy.None? ==> r[3] == "- Dependencies to filter by: N/A")
            && (o.dependenciesToFilterBy.Some? ==>
                  r[3] == "- Dependencies to filter by: " + Join(o.dependenciesToFilterBy.value, ", "))
            && r[4] == "- Renovate GitHub author: " + (if Truthy(o.renovateGithubAuthor) then o.renovateGithubAuthor.value else "N/A")
  {
    if o.reposToFilterBy.Some? {
      ObjectsTextJoin(|o.reposToFilterBy.value|);
    }
  }

  const NoUpdatesSuffix := " repositories. No updates found.\n"

  function FinalLine(count: nat): string {
    "Scanned " + NatToString(count) + NoUpdatesSuffix
  }

  /** The info lines of a scan over the fetched repositories. */
  function ScanOutput(o: ScanOptions, repos: seq<ScannedRepo>, extract: string -> seq<UpdateInfo>): seq<string> {
    if repos == [] then [""] + NotFound(o)
    else Logged(repos, o.dependenciesToFilterBy, extract)
         + (if AnyShown(repos, o.dependenciesToFilterBy, extract) then [] else [FinalLine(|repos|)])
  }

  /** Some repository shows an update exactly when one of the earlier ones
      or the last one does. */
  lemma AnyShownSnoc(repos: seq<ScannedRepo>, names: Option<seq<string>>, extract: string -> seq<UpdateInfo>)
    requires repos != []
    ensures var front, last := repos[..|repos| - 1], repos[|repos| - 1];
            AnyShown(repos, names, extract) <==> AnyShown(front, names, extract) || Shown(last, names, extract) != []
  {
    var front := repos[..|repos| - 1];
    if AnyShown(front, names, extract) {
      var i :| 0 <= i < |front| && Shown(front[i], names, extract) != [];
      assert repos[i] == front[i];
    }
    if AnyShown(repos, names, extract) {
      var i :| 0 <= i < |repos| && Shown(repos[i], names, extract) != [];
      if i < |front| {
        assert repos[i] == front[i];
      }
    }
  }

  /** Skipped repositories and repositories with nothing to show add no
      line: the loop logs more than its opening blank line exactly when some
      repository shows an update. */
  lemma {:induction false} LoggedEmpty(repos: seq<ScannedRepo>, names: Option<seq<string>>, extract: string -> seq<UpdateInfo>)
    ensures |Logged(repos, names, extract)| == 1 <==> !AnyShown(repos, names, extract)
    decreases |repos|
  {
    if repos != [] {
      var front, last := repos[..|repos| - 1], repos[|repos| - 1];
      LoggedEmpty(front, names, extract);
      AnyShownSnoc(repos, names, extract);
    }
  }

  /** The closing `No updates found` line is logged exactly when no
      repository logged an update line. */
  lemma FinalLineIff(o: ScanOptions, repos: seq<ScannedRepo>, extract: string -> seq<UpdateInfo>)
    requires repos != []
    ensures var out := ScanOutput(o, repos, extract);
            out[|out| - 1] == FinalLine(|repos|) <==> Logged(repos, o.dependenciesToFilterBy, extract) == [""]
  {
    var names := o.dependenciesToFilterBy;
    LoggedEmpty(repos, names, extract);
    var logged := Logged(repos, names, extract);
    var out := ScanOutput(o, repos, extract);
    var last := FinalLine(|repos|);
    assert last != "" by { assert last[0] == 'S'; }
    if AnyShown(repos, names, extract) {
      assert out == logged;
      assert |logged| != 1;
    } else {
      assert out == logged + [last];
      assert |logged| == 1;
      assert logged == [""];
    }
  }

  lemma LoggedSnoc(repos: seq<ScannedRepo>, i: nat, names: Option<seq<string>>, extract: string -> seq<UpdateInfo>)
    requires i < |repos|
    ensures Logged(repos[..i + 1], names, extract) == Logged(repos[..i], names, extract) + Section(repos[i], names, extract)
    ensures AnyShown(repos[..i + 1], names, extract) <==> AnyShown(repos[..i], names, extract) || Shown(repos[i], names, extract) != []
  {
    var p := repos[..i + 1];
    assert p[..|p| - 1] == repos[..i];
    assert p[|p| - 1] == repos[i];
    AnyShownSnoc(p, names, extract);
  }

  /** One pass of the repository loop: skips a repository without a
      dashboard or with an empty body, and one whose filtered updates are
      empty; otherwise logs its header, one line per update (setting the
      flag at each) and a blank line. */
  method ReportRepo(repo: ScannedRepo, names: Option<seq<string>>, extract: string -> seq<UpdateInfo>,
                    hasUpdates: bool) returns (section: seq<string>, flag: bool)
    ensures section == Section(repo, names, extract)
    ensures flag <==> hasUpdates || Shown(repo, names, extract) != []
  {
    flag := hasUpdates;
    if repo.dashboard.None? || repo.dashboard.value.body.None? || repo.dashboard.value.body.value == "" {
      assert ScannedBody(repo).None?;
      return [], flag;
    }
    var allUpdates := extract(repo.dashboard.value.body.value);
    var updates := FilterByName(allUpdates, names);
    assert ScannedBody(repo) == Some(repo.dashboard.value.body.value);
    assert updates == Shown(repo, names, extract);
    if |updates| == 0 {
      return [], flag;
    }
    var header := repo.fullName + " - " + repo.dashboard.value.htmlUrl;
    section := [header];
    for j := 0 to |updates|
      invariant section == [header] + Lines(updates[..j], repo.htmlUrl)
      invariant flag <==> hasUpdates || j > 0
    {
      flag := true;
      var line := RenderLine(updates[j], repo.htmlUrl);
      LinesSnoc(updates, j, repo.htmlUrl);
      section := section + [line];
    }
    assert updates[..|updates|] == updates;
    section := section + [""];
  }

  /** `scan`: logs a blank line; for an empty repository list logs what was
      asked for; otherwise logs each repository's section and closes with
      the `No updates found` line when no update line was logged. The
      extractor is a parameter so that the loop's proof does not depend on
      it. */
  method ScanWith(o: ScanOptions, repos: seq<ScannedRepo>, extract: string -> seq<UpdateInfo>) returns (out: seq<string>)
    ensures out == ScanOutput(o, repos, extract)
  {
    var names := o.dependenciesToFilterBy;
    out := [""];
    if |repos| == 0 {
      out := out + NotFound(o);
      return;
    }
    assert out == Logged(repos[..0], names, extract);
    var hasUpdates := false;
    for i := 0 to |repos|
      invariant out == Logged(repos[..i], names, extract)
      invariant hasUpdates <==> AnyShown(repos[..i], names, extract)
    {
      LoggedSnoc(repos, i, names, extract);
      var section;
      section, hasUpdates := ReportRepo(repos[i], names, extract, hasUpdates);
      out := out + section;
    }
    assert repos[..|repos|] == repos;
    if !hasUpdates {
      out := out + [FinalLine(|repos|)];
    }
  }

  /** `scan` with this file's extractor. */
  method Scan(o: ScanOptions, repos: seq<ScannedRepo>) returns (out: seq<string>)
    ensures out == ScanOutput(o, repos, PlainRecords)
  {
    out := ScanWith(o, repos, PlainRecords);
  }
}
