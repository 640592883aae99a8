/** The `repo-groups create` command (repoGroups/createRepoGroups.ts): it
    validates and fetches each repository spec, records an error for each
    one it cannot use, stores the group, and reports with
    `formatGroupResults`. The stored configuration is a class whose map the
    command updates; the platform-dependent success and warning symbols
    are parameters. */
module CreateRepoGroups {
  import opened Wrappers
  import opened Text
  import opened UpdateModel
  import opened CliOptions
  import opened Github

  /** A repository as a group stores it. */
  datatype StoredRepo = StoredRepo(name: string, owner: string, url: string)

  /** Why a spec was skipped; `suggestion` is optional in the record type. */
  datatype GroupError = GroupError(repo: string, message: string, suggestion: Option<string>)

  /** What `fetchRepository(repoName, repoOwner)` returns: the repository,
      or nothing when the request failed. */
  type RepoFetch = (string, string) -> Option<Repository>

  /** The stored repository groups (`userConfig.repoGroup`). */
  class GroupStore {
    var groups: map<string, seq<StoredRepo>>

    constructor(initial: map<string, seq<StoredRepo>>)
      ensures groups == initial
    {
      groups := initial;
    }
  }

  const InvalidMessage := "Invalid repository name"
  const InvalidSuggestion := "Verify that the repository name follows the format owner/repo"
  const NotFoundMessage := "Repository data not found"
  const NotFoundSuggestion := "Verify that the repository exists on Github, or check that your Github personal access token gives the CLI access to the repository"

  /** The repositories and errors collected so far. */
  datatype Collected = Collected(repos: seq<StoredRepo>, errors: seq<GroupError>)

  /** One pass of the collection loop: an invalid spec records an error
      without any fetch; a valid one is fetched and either stored or
      recorded as not found. */
  function Step(acc: Collected, spec: string, fetch: RepoFetch): Collected {
    match ParseRepoSpec(spec)
    case None => acc.(errors := acc.errors + [GroupError(spec, InvalidMessage, Some(InvalidSuggestion))])
    case Some(ref) =>
      match fetch(ref.name, ref.owner)
      case None => acc.(errors := acc.errors + [GroupError(spec, NotFoundMessage, Some(NotFoundSuggestion))])
      case Some(data) => acc.(repos := acc.repos + [StoredRepo(data.name, data.ownerLogin, data.htmlUrl)])
  }

  /** The outcome of the collection loop over `specs`. */
  function Collect(specs: seq<string>, fetch: RepoFetch): Collected {
    if specs == [] then Collected([], [])
    else Step(Collect(specs[..|specs| - 1], fetch), specs[|specs| - 1], fetch)
  }

  /** The repositories a list of valid references fetches to, in order. */
  function FetchedRepos(refs: seq<RepoRef>, fetch: RepoFetch): seq<StoredRepo> {
    if refs == [] then []
    else
      FetchedRepos(refs[..|refs| - 1], fetch)
        + match fetch(refs[|refs| - 1].name, refs[|refs| - 1].owner)
          case None => []
          case Some(data) => [StoredRepo(data.name, data.ownerLogin, data.htmlUrl)]
  }

  lemma CollectSnoc(specs: seq<string>, i: nat, fetch: RepoFetch)
    requires i < |specs|
    ensures Collect(specs[..i + 1], fetch) == Step(Collect(specs[..i], fetch), specs[i], fetch)
  {
    var p := specs[..i + 1];
    assert p[..|p| - 1] == specs[..i];
  }

  lemma KeptSnoc(specs: seq<string>, i: nat)
    requires i < |specs|
    ensures KeptSpecs(specs[..i + 1])
            == KeptSpecs(specs[..i]) + KeptRef(specs[i])
  {
    KeptSpecsAppend(specs[..i], [specs[i]]);
    assert specs[..i + 1] == specs[..i] + [specs[i]];
    assert [specs[i]][1..] == [];
  }

  /** Every spec ends up in exactly one of the two lists: stored or
      recorded as an error. */
  lemma {:induction false} CollectPartition(specs: seq<string>, fetch: RepoFetch)
    ensures |Collect(specs, fetch).repos| + |Collect(specs, fetch).errors| == |specs|
    decreases |specs|
  {
    if specs != [] {
      CollectPartition(specs[..|specs| - 1], fetch);
    }
  }

  /** Each error names its spec: an invalid spec is reported as an invalid
      name, a valid one as not found exactly when its fetch failed. */
  lemma {:induction false} CollectErrors(specs: seq<string>, fetch: RepoFetch)
    ensures forall e :: e in Collect(specs, fetch).errors ==>
              && e.repo in specs
              && (e.message == InvalidMessage <==> ParseRepoSpec(e.repo).None?)
              && (e.message == NotFoundMessage <==>
                    ParseRepoSpec(e.repo).Some? && fetch(ParseRepoSpec(e.repo).value.name, ParseRepoSpec(e.repo).value.owner).None?)
    ensures forall s :: s in specs && ParseRepoSpec(s).None? ==>
              GroupError(s, InvalidMessage, Some(InvalidSuggestion)) in Collect(specs, fetch).errors
    decreases |specs|
  {
    assert InvalidMessage != NotFoundMessage by { assert InvalidMessage[0] != NotFoundMessage[0]; }
    if specs != [] {
      var front := specs[..|specs| - 1];
      CollectErrors(front, fetch);
      assert specs == front + [specs[|specs| - 1]];
    }
  }

  /** The stored repositories are the fetched ones, in spec order: those
      of the valid specs whose fetch succeeded. */
  lemma {:induction false} CollectReposAreFetched(specs: seq<string>, fetch: RepoFetch)
    ensures Collect(specs, fetch).repos == FetchedRepos(KeptSpecs(specs), fetch)
    decreases |specs|
  {
    if specs != [] {
      var front, last := specs[..|specs| - 1], specs[|specs| - 1];
      CollectReposAreFetched(front, fetch);
      var kept := KeptSpecs(front);
      assert KeptSpecs(specs) == kept + KeptRef(last) by {
        KeptSnoc(specs, |specs| - 1);
        assert specs[..|specs|] == specs;
      }
      match ParseRepoSpec(last)
      case None =>
        assert kept + KeptRef(last) == kept;
      case Some(ref) =>
        assert (kept + [ref])[..|kept|] == kept;
    }
  }

  /** Invalid specs are never fetched: two fetches that agree on the valid
      specs give the same outcome. */
  lemma {:induction false} InvalidNeverFetched(specs: seq<string>, fetch: RepoFetch, fetch': RepoFetch)
    requires forall s :: s in specs && ParseRepoSpec(s).Some? ==>
               fetch(ParseRepoSpec(s).value.name, ParseRepoSpec(s).value.owner)
               == fetch'(ParseRepoSpec(s).value.name, ParseRepoSpec(s).value.owner)
    ensures Collect(specs, fetch) == Collect(specs, fetch')
    decreases |specs|
  {
    if specs != [] {
      var front, last := specs[..|specs| - 1], specs[|specs| - 1];
      assert forall s :: s in front ==> s in specs;
      InvalidNeverFetched(front, fetch, fetch');
      assert last in specs;
    }
  }

  // formatGroupResults

  const CreatedPrefix := "Created repository group \""
  const AddedSuffix := " repositories added"
  const SkippedSuffix := " repositories skipped"

  function HeaderLine(groupName: string): string {
    CreatedPrefix + groupName + "\""
  }

  function RepoEntry(r: StoredRepo): string {
    "  - " + r.owner + "/" + r.name
  }

  /** One `  - owner/name` line per repository, in order. */
  function RepoEntries(repos: seq<StoredRepo>): (r: seq<string>)
    ensures |r| == |repos|
  {
    if repos == [] then [] else RepoEntries(repos[..|repos| - 1]) + [RepoEntry(repos[|repos| - 1])]
  }

  /** An error's lines: the spec, the message, and the suggestion only when
      it is present and non-empty. */
  function ErrorLines(e: GroupError): (r: seq<string>)
    ensures |r| == (if Truthy(e.suggestion) then 3 else 2)
  {
    ["  - " + e.repo, "    " + e.message] + (if Truthy(e.suggestion) then ["    " + e.suggestion.value] else [])
  }

  function ErrorEntries(errors: seq<GroupError>): seq<string> {
    if errors == [] then [] else ErrorEntries(errors[..|errors| - 1]) + ErrorLines(errors[|errors| - 1])
  }

  /** The errors that carry a suggestion. */
  function SuggestionCount(errors: seq<GroupError>): nat {
    if errors == [] then 0
    else SuggestionCount(errors[..|errors| - 1]) + (if Truthy(errors[|errors| - 1].suggestion) then 1 else 0)
  }

  /** Two lines per error and one more per suggestion. */
  lemma {:induction false} ErrorEntriesLength(errors: seq<GroupError>)
    ensures |ErrorEntries(errors)| == 2 * |errors| + SuggestionCount(errors)
    decreases |errors|
  {
    if errors != [] {
      ErrorEntriesLength(errors[..|errors| - 1]);
    }
  }

  lemma {:induction false} RepoEntriesAt(repos: seq<StoredRepo>, k: nat)
    requires k < |repos|
    ensures RepoEntries(repos)[k] == RepoEntry(repos[k])
    decreases |repos|
  {
    if k < |repos| - 1 {
      RepoEntriesAt(repos[..|repos| - 1], k);
    }
  }

  function AddedLines(repos: seq<StoredRepo>, success: string): seq<string> {
    [success + " " + NatToString(|repos|) + AddedSuffix] + RepoEntries(repos)
  }

  function SkippedLines(errors: seq<GroupError>, warning: string): seq<string> {
    [warning + " " + NatToString(|errors|) + SkippedSuffix] + ErrorEntries(errors)
  }

  /** The sections of the report: the header, then the added section when
      something was stored, then the skipped section when something was
      skipped. */
  function ResultSections(groupName: string, repos: seq<StoredRepo>, errors: seq<GroupError>,
                          success: string, warning: string): seq<string>
  {
    [HeaderLine(groupName)]
      + (if |repos| > 0 then [Join(AddedLines(repos, success), "\n")] else [])
      + (if |errors| > 0 then [Join(SkippedLines(errors, warning), "\n")] else [])
  }

  /** The report text: the sections separated by blank lines. */
  function GroupResults(groupName: string, repos: seq<StoredRepo>, errors: seq<GroupError>,
                        success: string, warning: string): string
  {
    Join(ResultSections(groupName, repos, errors, success, warning), "\n\n")
  }

  /** The header always comes first; each other section is there exactly
      when its list is non-empty, in the order added, skipped. */
  lemma SectionsShape(groupName: string, repos: seq<StoredRepo>, errors: seq<GroupError>, success: string, warning: string)
    ensures var c := ResultSections(groupName, repos, errors, success, warning);
            && |c| == 1 + (if |repos| > 0 then 1 else 0) + (if |errors| > 0 then 1 else 0)
            && c[0] == HeaderLine(groupName)
            && (|repos| > 0 ==> c[1] == Join(AddedLines(repos, success), "\n"))
            && (|errors| > 0 ==> c[|c| - 1] == Join(SkippedLines(errors, warning), "\n"))
  {
  }

  /** The text opens with the header; with nothing stored and nothing
      skipped it is the header alone. */
  lemma ResultsStartWithHeader(groupName: string, repos: seq<StoredRepo>, errors: seq<GroupError>, success: string, warning: string)
    ensures StartsAt(GroupResults(groupName, repos, errors, success, warning), 0, HeaderLine(groupName))
    ensures repos == [] && errors == [] ==> GroupResults(groupName, repos, errors, success, warning) == HeaderLine(groupName)
  {
    var c := ResultSections(groupName, repos, errors, success, warning);
    var h := HeaderLine(groupName);
    if |c| > 1 {
      JoinCons(c[0], c[1..], "\n\n");
      assert c == [c[0]] + c[1..];
      var text := GroupResults(groupName, repos, errors, success, warning);
      assert text == h + ("\n\n" + Join(c[1..], "\n\n"));
      assert text[..|h|] == h;
    }
  }

  /** The push loops of `formatGroupResults`. */
  method FormatGroupResults(groupName: string, repos: seq<StoredRepo>, errors: seq<GroupError>,
                            success: string, warning: string) returns (text: string)
    ensures text == GroupResults(groupName, repos, errors, success, warning)
  {
    var content := [HeaderLine(groupName)];
    if |repos| > 0 {
      var reposInfo := [success + " " + NatToString(|repos|) + AddedSuffix];
      for k := 0 to |repos|
        invariant reposInfo == [success + " " + NatToString(|repos|) + AddedSuffix] + RepoEntries(repos[..k])
      {
        assert repos[..k + 1][..k] == repos[..k];
        reposInfo := reposInfo + ["  - " + repos[k].owner + "/" + repos[k].name];
      }
      assert repos[..|repos|] == repos;
      content := content + [Join(reposInfo, "\n")];
    }
    if |errors| > 0 {
      var skippedInfo := [warning + " " + NatToString(|errors|) + SkippedSuffix];
      for k := 0 to |errors|
        invariant skippedInfo == [warning + " " + NatToString(|errors|) + SkippedSuffix] + ErrorEntries(errors[..k])
      {
        assert errors[..k + 1][..k] == errors[..k];
        var e := errors[k];
        ghost var before := skippedInfo;
        skippedInfo := skippedInfo + ["  - " + e.repo];
        skippedInfo := skippedInfo + ["    " + e.message];
        if e.suggestion.Some? && e.suggestion.value != "" {
          skippedInfo := skippedInfo + ["    " + e.suggestion.value];
        }
        assert skippedInfo == before + ErrorLines(e);
      }
      assert errors[..|errors|] == errors;
      content := content + [Join(skippedInfo, "\n")];
    }
    assert content == ResultSections(groupName, repos, errors, success, warning);
    text := Join(content, "\n\n");
  }

  function ExistsLine(groupName: string): string {
    "A repository group with the name \"" + groupName + "\" already exists\n"
  }

  const ForceTip := "  - use the --force flag to overwrite the existing repository group"
  const DeleteTip := "  - use deps-cli repo-groups delete <groupName> to delete the existing repository group"

  /** The lines logged when the group exists and `force` is off. */
  function ExistsReport(groupName: string, group: seq<StoredRepo>): seq<string> {
    [ExistsLine(groupName), "Group content:"]
      + RepoEntries(group)
      + ["", "Tips:",
         ForceTip, DeleteTip, ""]
  }

  /** The collection loop: walks the specs in order, fetching only the
      valid ones (the ghost `fetched` records each fetch made). */
  method CollectAll(specs: seq<string>, fetch: RepoFetch) returns (c: Collected, ghost fetched: seq<RepoRef>)
    ensures c == Collect(specs, fetch)
    ensures fetched == KeptSpecs(specs)
  {
    c := Collected([], []);
    fetched := [];
    for i := 0 to |specs|
      invariant c == Collect(specs[..i], fetch)
      invariant fetched == KeptSpecs(specs[..i])
    {
      CollectSnoc(specs, i, fetch);
      KeptSnoc(specs, i);
      var repo := specs[i];
      var parsed := ParseRepoSpec(repo);
      if parsed.None? {
        c := c.(errors := c.errors + [GroupError(repo, InvalidMessage, Some(InvalidSuggestion))]);
        continue;
      }
      var ref := parsed.value;
      var data := fetch(ref.name, ref.owner);
      fetched := fetched + [ref];
      if data.None? {
        c := c.(errors := c.errors + [GroupError(repo, NotFoundMessage, Some(NotFoundSuggestion))]);
        continue;
      }
      c := c.(repos := c.repos + [StoredRepo(data.value.name, data.value.ownerLogin, data.value.htmlUrl)]);
    }
    assert specs[..|specs|] == specs;
  }

  /** The exists report: the message and `Group content:`, then one
      `  - owner/name` line per stored repository in order, then a blank
      line, the two tips and a closing blank line. */
  lemma ExistsReportLayout(groupName: string, group: seq<StoredRepo>)
    ensures var r := ExistsReport(groupName, group);
            && |r| == |group| + 7
            && r[0] == "A repository group with the name \"" + groupName + "\" already exists\n"
            && r[1] == "Group content:"
            && (forall k :: 0 <= k < |group| ==> r[2 + k] == "  - " + group[k].owner + "/" + group[k].name)
            && r[|group| + 2..] == ["", "Tips:", ForceTip, DeleteTip, ""]
  {
    var r := ExistsReport(groupName, group);
    var es := RepoEntries(group);
    assert r == [ExistsLine(groupName), "Group content:"] + es + ["", "Tips:", ForceTip, DeleteTip, ""];
    forall k | 0 <= k < |group| ensures r[2 + k] == "  - " + group[k].owner + "/" + group[k].name {
      RepoEntriesAt(group, k);
      assert r[2 + k] == es[k];
    }
    assert r[|group| + 2..] == ["", "Tips:", ForceTip, DeleteTip, ""];
  }

  /** The logging of the exists branch: the message, one line per
      repository of the stored group, and the tips. */
  method ReportExisting(groupName: string, group: seq<StoredRepo>) returns (log: seq<string>)
    ensures log == ExistsReport(groupName, group)
  {
    log := [ExistsLine(groupName), "Group content:"];
    ghost var front := log;
    for k := 0 to |group|
      invariant log == front + RepoEntries(group[..k])
    {
      assert group[..k + 1][..k] == group[..k];
      log := log + ["  - " + group[k].owner + "/" + group[k].name];
    }
    assert group[..|group|] == group;
    log := log + ["", "Tips:",
                  ForceTip, DeleteTip, ""];
  }

  /** `createRepoGroups`: when a group of that name exists (even an empty
      one) and `force` is off, logs its content and tips and stores
      nothing; otherwise stores the collected repositories under the name,
      even when none was collected, and logs the report. */
  method CreateRepoGroups(store: GroupStore, groupName: string, specs: seq<string>, force: RawFlag,
                          fetch: RepoFetch, success: string, warning: string) returns (log: seq<string>)
    modifies store
    ensures groupName in old(store.groups) && !CaughtFlag(force) ==>
              && store.groups == old(store.groups)
              && log == [""] + ExistsReport(groupName, old(store.groups)[groupName])
    ensures !(groupName in old(store.groups) && !CaughtFlag(force)) ==>
              var c := Collect(specs, fetch);
              && store.groups == old(store.groups)[groupName := c.repos]
              && log == ["", GroupResults(groupName, c.repos, c.errors, success, warning), ""]
  {
    log := [""];
    if groupName in store.groups && !CaughtFlag(force) {
      var lines := ReportExisting(groupName, store.groups[groupName]);
      log := log + lines;
      return;
    }
    var c, fetched := CollectAll(specs, fetch);
    store.groups := store.groups[groupName := c.repos];
    var text := FormatGroupResults(groupName, c.repos, c.errors, success, warning);
    log := log + [text, ""];
  }
}
