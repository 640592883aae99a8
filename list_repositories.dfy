/** The legacy `listRepositories` command (listRepositories/listRepositories.ts):
    the accessible repositories, and for each one with a single dashboard
    the lines a global `singlePackageRegex` loop finds in its body. The
    `monorepoRegex` the file declares is never used, so it is not modelled. */
module ListRepositories {
  import opened Wrappers
  import opened Text
  import opened UpdateModel
  import opened Github

  // singlePackageRegex:
  //   /Update dependency ([^\s]+) from ([^\s]+) to ([^\]\s]+)(?:\]\(\.\.\/pull\/(\d+)\))?/g

  const Lead := "Update dependency "
  const FromWord := " from "
  const ToWord := " to "
  const LinkOpen := "](../pull/"

  /** `[^\]\s]` */
  predicate ToChar(c: char) { IsToken(c) && c != ']' }

  /** Every character of `s[lo..hi]` is in `inRun`. */
  predicate RunOf(s: string, lo: nat, hi: nat, inRun: char -> bool)
    requires lo <= hi <= |s|
  {
    forall k :: lo <= k < hi ==> inRun(s[k])
  }

  /** The mandatory part of the pattern matches at `i` with the three groups
      ending at `e1`, `e2` and `e3`. */
  predicate Fits(s: string, i: nat, e1: nat, e2: nat, e3: nat) {
    && StartsAt(s, i, Lead)
    && i + |Lead| < e1 <= |s| && RunOf(s, i + |Lead|, e1, IsToken) && StartsAt(s, e1, FromWord)
    && e1 + |FromWord| < e2 <= |s| && RunOf(s, e1 + |FromWord|, e2, IsToken) && StartsAt(s, e2, ToWord)
    && e2 + |ToWord| < e3 <= |s| && RunOf(s, e2 + |ToWord|, e3, ToChar)
  }

  /** The optional `](../pull/<digits>)` matches at `e` and ends before `e4`'s `)`. */
  predicate IsLinkAt(s: string, e: nat, e4: nat) {
    && StartsAt(s, e, LinkOpen)
    && e + |LinkOpen| < e4 <= |s| && RunOf(s, e + |LinkOpen|, e4, IsDigit) && StartsAt(s, e4, ")")
  }

  /** One match: its groups and the span `[start, end)` it consumed. */
  datatype SingleMatch = SingleMatch(
    start: nat,
    name: string,
    fromVersion: string,
    toVersion: string,
    pullRequest: Option<string>,
    end: nat)

  /** The end of the digits of the link at `e`, if one is there. */
  function LinkEnd(s: string, e: nat): (r: Option<nat>)
    requires e <= |s|
    ensures r.Some? ==> e + |LinkOpen| < r.value < |s|
  {
    if !StartsAt(s, e, LinkOpen) then None
    else
      var d := e + |LinkOpen|;
      var e4 := RunEnd(s, d, IsDigit);
      if e4 > d && StartsAt(s, e4, ")") then Some(e4) else None
  }

  /** The link part matches exactly where `LinkEnd` finds it, and only there. */
  lemma LinkEndIff(s: string, e: nat)
    requires e <= |s|
    ensures LinkEnd(s, e).Some? ==> IsLinkAt(s, e, LinkEnd(s, e).value)
    ensures forall e4: nat :: IsLinkAt(s, e, e4) ==> LinkEnd(s, e) == Some(e4)
  {
    forall e4: nat | IsLinkAt(s, e, e4) ensures LinkEnd(s, e) == Some(e4) {
      var d := e + |LinkOpen|;
      assert s[e4] == ')';
      RunEndUnique(s, d, e4, IsDigit);
    }
  }

  /** The ends of the three groups of the mandatory part anchored at `i`,
      if it matches there: each group is the longest run its class allows,
      since nothing in the pattern can follow a shorter one. */
  function GroupEnds(s: string, i: nat): (r: Option<(nat, nat, nat)>)
    requires i <= |s|
    ensures r.Some? ==> Ordered(s, i, r.value)
    ensures r.Some? ==> StartsAt(s, i, Lead) && StartsAt(s, r.value.0, FromWord) && StartsAt(s, r.value.1, ToWord)
  {
    if !StartsAt(s, i, Lead) then None
    else
      var a := i + |Lead|;
      var e1 := RunEnd(s, a, IsToken);
      if e1 == a || !StartsAt(s, e1, FromWord) then None
      else
        var b := e1 + |FromWord|;
        var e2 := RunEnd(s, b, IsToken);
        if e2 == b || !StartsAt(s, e2, ToWord) then None
        else
          var c := e2 + |ToWord|;
          var e3 := RunEnd(s, c, ToChar);
          if e3 == c then None else Some((e1, e2, e3))
  }

  /** A run of `inRun` characters from `lo` that is followed by a character
      outside the class ends where the longest run does. */
  lemma RunFollowedBy(s: string, lo: nat, x: nat, inRun: char -> bool)
    requires lo <= x < |s| && RunOf(s, lo, x, inRun) && !inRun(s[x])
    ensures RunEnd(s, lo, inRun) == x
  {
    RunEndUnique(s, lo, x, inRun);
  }

  /** The ends found are a way for the mandatory part to match; the
      to-version stops at the first whitespace or `]`; and every way it
      can match has the same first two groups and a to-version no longer
      than the one taken (the greedy choice). */
  lemma GroupEndsSound(s: string, i: nat)
    requires i <= |s| && GroupEnds(s, i).Some?
    ensures var (e1, e2, e3) := GroupEnds(s, i).value;
            && Fits(s, i, e1, e2, e3)
            && (e3 == |s| || !ToChar(s[e3]))
            && (forall x1: nat, x2: nat, x3: nat :: Fits(s, i, x1, x2, x3) ==> x1 == e1 && x2 == e2 && x3 <= e3)
  {
    var (e1, e2, e3) := GroupEnds(s, i).value;
    var a, b := i + |Lead|, e1 + |FromWord|;
    forall x1: nat, x2: nat, x3: nat | Fits(s, i, x1, x2, x3) ensures x1 == e1 && x2 == e2 && x3 <= e3 {
      StartsAtChar(s, x1, FromWord, 0);
      RunFollowedBy(s, a, x1, IsToken);
      StartsAtChar(s, x2, ToWord, 0);
      RunFollowedBy(s, b, x2, IsToken);
    }
  }

  /** Wherever the mandatory part can match, it is found. */
  lemma GroupEndsComplete(s: string, i: nat, x1: nat, x2: nat, x3: nat)
    requires Fits(s, i, x1, x2, x3)
    ensures GroupEnds(s, i).Some?
  {
    StartsAtChar(s, x1, FromWord, 0);
    RunFollowedBy(s, i + |Lead|, x1, IsToken);
    StartsAtChar(s, x2, ToWord, 0);
    RunFollowedBy(s, x1 + |FromWord|, x2, IsToken);
  }

  /** The match of the pattern anchored at `i`, if any: the three groups,
      then the pull-request number when the link immediately follows. */
  function SingleMatchAt(s: string, i: nat): (r: Option<SingleMatch>)
    requires i <= |s|
    ensures r.Some? ==> r.value.start == i && i < r.value.end <= |s|
  {
    Assemble(s, i, GroupEnds(s, i))
  }

  /** Group ends in order within `s`, after the literal words. */
  predicate Ordered(s: string, i: nat, g: (nat, nat, nat)) {
    i + |Lead| < g.0 && g.0 + |FromWord| < g.1 && g.1 + |ToWord| < g.2 <= |s|
  }

  /** The match built from the group ends found at `i`. */
  function Assemble(s: string, i: nat, g: Option<(nat, nat, nat)>): (r: Option<SingleMatch>)
    requires g.Some? ==> Ordered(s, i, g.value)
    ensures r.Some? <==> g.Some?
    ensures r.Some? ==> r.value.start == i && i < r.value.end <= |s|
  {
    match g
    case None => None
    case Some((e1, e2, e3)) =>
      var name, from, to := s[i + |Lead|..e1], s[e1 + |FromWord|..e2], s[e2 + |ToWord|..e3];
      match LinkEnd(s, e3)
      case Some(e4) => Some(SingleMatch(i, name, from, to, Some(s[e3 + |LinkOpen|..e4]), e4 + 1))
      case None => Some(SingleMatch(i, name, from, to, None, e3))
  }

  /** What the pattern matched, given group ends for which the literal
      words are in place: `Update dependency <name> from <from> to <to>` at
      `start`; the pull-request number is taken exactly when the link
      immediately follows, and the match then ends after the link. With
      `GroupEndsSound` this describes `SingleMatchAt`, which is
      `Assemble(s, i, GroupEnds(s, i))`. */
  lemma AssembleSound(s: string, i: nat, g: (nat, nat, nat))
    requires Ordered(s, i, g)
    requires StartsAt(s, i, Lead) && StartsAt(s, g.0, FromWord) && StartsAt(s, g.1, ToWord)
    ensures var m, (e1, e2, e3) := Assemble(s, i, Some(g)).value, g;
            && m.name == s[i + |Lead|..e1] && m.fromVersion == s[e1 + |FromWord|..e2] && m.toVersion == s[e2 + |ToWord|..e3]
            && s[i..e3] == Lead + m.name + FromWord + m.fromVersion + ToWord + m.toVersion
            && (m.pullRequest.Some? <==> exists e4: nat :: IsLinkAt(s, e3, e4))
            && (m.pullRequest.Some? ==> IsLinkAt(s, e3, m.end - 1) && m.pullRequest.value == s[e3 + |LinkOpen|..m.end - 1])
            && (m.pullRequest.None? ==> m.end == e3)
  {
    AssembleText(s, i, g);
    AssembleLink(s, i, g);
  }

  lemma AssembleText(s: string, i: nat, g: (nat, nat, nat))
    requires Ordered(s, i, g)
    requires StartsAt(s, i, Lead) && StartsAt(s, g.0, FromWord) && StartsAt(s, g.1, ToWord)
    ensures var m, (e1, e2, e3) := Assemble(s, i, Some(g)).value, g;
            && m.name == s[i + |Lead|..e1] && m.fromVersion == s[e1 + |FromWord|..e2] && m.toVersion == s[e2 + |ToWord|..e3]
            && s[i..e3] == Lead + m.name + FromWord + m.fromVersion + ToWord + m.toVersion
  {
    var (e1, e2, e3) := g;
    MatchedText(s, i, e1, e2, e3);
  }

  lemma AssembleLink(s: string, i: nat, g: (nat, nat, nat))
    requires Ordered(s, i, g)
    ensures var m, e3 := Assemble(s, i, Some(g)).value, g.2;
            && (m.pullRequest.Some? <==> exists e4: nat :: IsLinkAt(s, e3, e4))
            && (m.pullRequest.Some? ==> IsLinkAt(s, e3, m.end - 1) && m.pullRequest.value == s[e3 + |LinkOpen|..m.end - 1])
            && (m.pullRequest.None? ==> m.end == e3)
  {
    LinkEndIff(s, g.2);
  }

  lemma MatchedText(s: string, i: nat, e1: nat, e2: nat, e3: nat)
    requires i + |Lead| <= e1 && e1 + |FromWord| <= e2 && e2 + |ToWord| <= e3 <= |s|
    requires StartsAt(s, i, Lead) && StartsAt(s, e1, FromWord) && StartsAt(s, e2, ToWord)
    ensures s[i..e3] == Lead + s[i + |Lead|..e1] + FromWord + s[e1 + |FromWord|..e2] + ToWord + s[e2 + |ToWord|..e3]
  {
    var a, b, c := i + |Lead|, e1 + |FromWord|, e2 + |ToWord|;
    SixSlices(s, i, a, e1, b, e2, c, e3);
    assert s[i..a] == Lead && s[e1..b] == FromWord && s[e2..c] == ToWord;
  }

  lemma SixSlices(s: string, i: nat, a: nat, e1: nat, b: nat, e2: nat, c: nat, e3: nat)
    requires i <= a <= e1 <= b <= e2 <= c <= e3 <= |s|
    ensures s[i..e3] == s[i..a] + s[a..e1] + s[e1..b] + s[b..e2] + s[e2..c] + s[c..e3]
  {
    SliceSplit(s, e2, c, e3);
    SliceSplit(s, b, e2, e3);
    SliceSplit(s, e1, b, e3);
    SliceSplit(s, a, e1, e3);
    SliceSplit(s, i, a, e3);
  }

  lemma SliceSplit(s: string, i: nat, j: nat, k: nat)
    requires i <= j <= k <= |s|
    ensures s[i..k] == s[i..j] + s[j..k]
  {
  }

  /** Wherever the mandatory part can match, the pattern matches. */
  lemma SingleMatchComplete(s: string, i: nat, x1: nat, x2: nat, x3: nat)
    requires Fits(s, i, x1, x2, x3)
    ensures SingleMatchAt(s, i).Some?
  {
    GroupEndsComplete(s, i, x1, x2, x3);
  }

  /** A matcher over a text of length `n`: a match it finds at `j` starts
      at `j` and ends after it, within the text. */
  ghost predicate Anchored(n: nat, at: nat -> Option<SingleMatch>) {
    forall j: nat :: at(j).Some? ==> at(j).value.start == j < at(j).value.end <= n
  }

  /** `exec` with `lastIndex` at `k`: the match at the first index from `k`
      where `at` finds one. */
  function FindFrom(n: nat, k: nat, at: nat -> Option<SingleMatch>): (r: Option<SingleMatch>)
    requires k <= n && Anchored(n, at)
    ensures r.Some? ==> k <= r.value.start <= n && at(r.value.start) == r
    ensures r.Some? ==> forall j :: k <= j < r.value.start ==> at(j).None?
    ensures r.None? ==> forall j :: k <= j <= n ==> at(j).None?
    decreases n - k
  {
    if at(k).Some? then at(k)
    else if k == n then None
    else FindFrom(n, k + 1, at)
  }

  /** The matches a global `exec` loop goes through from `lastIndex` `k`:
      each search resumes where the previous match ended. */
  function MatchesFrom(n: nat, k: nat, at: nat -> Option<SingleMatch>): seq<SingleMatch>
    requires k <= n && Anchored(n, at)
    decreases n - k
  {
    match FindFrom(n, k, at)
    case None => []
    case Some(m) => [m] + MatchesFrom(n, m.end, at)
  }

  /** Where the search for match `t` starts. */
  function SearchStart(ms: seq<SingleMatch>, t: nat, k: nat): nat
    requires t <= |ms|
  {
    if t == 0 then k else ms[t - 1].end
  }

  /** Match `t` of `ms` lies after where its search started, is what the
      matcher finds at its start, ends within the text, and the matcher
      finds nothing between the search start and it. */
  ghost predicate Placed(ms: seq<SingleMatch>, t: nat, k: nat, n: nat, at: nat -> Option<SingleMatch>)
    requires t < |ms|
  {
    && SearchStart(ms, t, k) <= ms[t].start < ms[t].end <= n
    && at(ms[t].start) == Some(ms[t])
    && forall j: nat :: SearchStart(ms, t, k) <= j < ms[t].start ==> at(j).None?
  }

  /** The matcher finds nothing from `lo` to the end of the text. */
  ghost predicate NoneFrom(lo: nat, n: nat, at: nat -> Option<SingleMatch>) {
    forall j: nat :: lo <= j <= n ==> at(j).None?
  }

  /** The matches are found in order and do not overlap, and the matcher
      finds nothing anywhere the loop skipped over: before each match back
      to where its search started, and after the last one. */
  lemma {:induction false} MatchesOrderedAndLeftmost(n: nat, k: nat, at: nat -> Option<SingleMatch>)
    requires k <= n && Anchored(n, at)
    ensures var ms := MatchesFrom(n, k, at);
            && (forall t :: 0 <= t < |ms| ==> Placed(ms, t, k, n, at))
            && NoneFrom(SearchStart(ms, |ms|, k), n, at)
    decreases n - k
  {
    var ms := MatchesFrom(n, k, at);
    match FindFrom(n, k, at)
    case None =>
    case Some(m) =>
      var rest := MatchesFrom(n, m.end, at);
      MatchesOrderedAndLeftmost(n, m.end, at);
      assert ms == [m] + rest;
      assert Placed(ms, 0, k, n, at);
      forall t | 1 <= t < |ms| ensures Placed(ms, t, k, n, at) {
        assert ms[t] == rest[t - 1];
        assert SearchStart(ms, t, k) == SearchStart(rest, t - 1, m.end) by {
          if t > 1 {
            assert ms[t - 1] == rest[t - 2];
          }
        }
        assert Placed(rest, t - 1, m.end, n, at);
      }
      assert SearchStart(ms, |ms|, k) == SearchStart(rest, |rest|, m.end) by {
        if |rest| > 0 {
          assert ms[|ms| - 1] == rest[|rest| - 1];
        }
      }
  }

  /** The pattern anchored at each index of `s`. */
  function Matcher(s: string): nat -> Option<SingleMatch> {
    (j: nat) => if j <= |s| then SingleMatchAt(s, j) else None
  }

  lemma MatcherAnchored(s: string)
    ensures Anchored(|s|, Matcher(s))
  {
    forall j: nat | Matcher(s)(j).Some? ensures Matcher(s)(j).value.start == j < Matcher(s)(j).value.end <= |s| {
      assert Matcher(s)(j) == SingleMatchAt(s, j);
    }
  }

  /** The matches of `singlePackageRegex` in a body, from index 0. */
  function Matches(s: string): seq<SingleMatch> {
    MatcherAnchored(s);
    MatchesFrom(|s|, 0, Matcher(s))
  }

  /** `  - Update <name> from <from> to <to> - ` and the pull-request link
      when a number was captured. */
  function MatchLine(m: SingleMatch, htmlUrl: string): string {
    "  - Update " + m.name + " from " + m.fromVersion + " to " + m.toVersion + " - "
      + (match m.pullRequest case Some(pr) => htmlUrl + "/pull/" + pr case None => "")
  }

  /** The lines of a list of matches, in order. */
  function MatchLines(ms: seq<SingleMatch>, htmlUrl: string): (r: seq<string>)
    ensures |r| == |ms|
  {
    if ms == [] then [] else MatchLines(ms[..|ms| - 1], htmlUrl) + [MatchLine(ms[|ms| - 1], htmlUrl)]
  }

  lemma {:induction false} MatchLinesAt(ms: seq<SingleMatch>, htmlUrl: string, t: nat)
    requires t < |ms|
    ensures MatchLines(ms, htmlUrl)[t] == MatchLine(ms[t], htmlUrl)
    decreases |ms|
  {
    if t < |ms| - 1 {
      MatchLinesAt(ms[..|ms| - 1], htmlUrl, t);
    }
  }

  /** Without a captured number the link suffix is empty and the line ends
      with ` - `. */
  lemma LineWithoutLink(m: SingleMatch, htmlUrl: string)
    requires m.pullRequest.None?
    ensures var line := MatchLine(m, htmlUrl);
            |line| >= 3 && line[|line| - 3..] == " - "
  {
    var head := "  - Update " + m.name + " from " + m.fromVersion + " to " + m.toVersion;
    assert MatchLine(m, htmlUrl) == head + " - ";
  }

  lemma MatchesStep(n: nat, k: nat, at: nat -> Option<SingleMatch>, found: seq<SingleMatch>)
    requires k <= n && Anchored(n, at) && FindFrom(n, k, at).Some?
    ensures var m := FindFrom(n, k, at).value;
            found + MatchesFrom(n, k, at) == (found + [m]) + MatchesFrom(n, m.end, at)
  {
  }

  /** The `while ((match = regex.exec(body)) !== null)` loop: `lastIndex`
      starts at 0 (the preceding `match` leaves it there) and moves to the
      end of each match; one line per match, in order. */
  method ExecLoop(n: nat, at: nat -> Option<SingleMatch>, htmlUrl: string) returns (out: seq<string>)
    requires Anchored(n, at)
    ensures out == MatchLines(MatchesFrom(n, 0, at), htmlUrl)
  {
    out := [];
    ghost var found: seq<SingleMatch> := [];
    var lastIndex := 0;
    while true
      invariant lastIndex <= n
      invariant found + MatchesFrom(n, lastIndex, at) == MatchesFrom(n, 0, at)
      invariant out == MatchLines(found, htmlUrl)
      decreases n - lastIndex
    {
      var m := FindFrom(n, lastIndex, at);
      if m.None? {
        break;
      }
      MatchesStep(n, lastIndex, at, found);
      out := out + [MatchLine(m.value, htmlUrl)];
      found := found + [m.value];
      assert found[..|found| - 1] + [m.value] == found;
      lastIndex := m.value.end;
    }
    assert found + [] == found;
  }

  /** The loop over one dashboard body. */
  method PrintMatches(body: string, htmlUrl: string) returns (out: seq<string>)
    ensures out == MatchLines(Matches(body), htmlUrl)
  {
    MatcherAnchored(body);
    out := ExecLoop(|body|, Matcher(body), htmlUrl);
  }

  /** `${issue.user?.login}`: a missing user prints as `undefined`. */
  function LoginText(login: Option<string>): string {
    match login case Some(l) => l case None => "undefined"
  }

  const NotUsingRenovate := "  - Not using Renovate"

  /** The warning for a repository with several dashboards. */
  function TooManyLine(n: nat): string {
    "- " + NatToString(n) + " issues found. We should only have one issue per repository. Skipping this one."
  }

  /** The warning for a dashboard without a body: `chalk.yellow` joins its
      two arguments with a space. */
  function NoBodyLine(i: Issue): string {
    "no issue body, skipping - " + i.title + " - " + LoginText(i.userLogin)
  }

  /** What is printed for one repository: its name, then a warning when it
      has no dashboard, several dashboards or an empty body, otherwise one
      line per match in the body. */
  function RepoBlock(r: Repository, issues: seq<Issue>): seq<string> {
    var dashboards := Dashboards(issues);
    ["- " + r.fullName]
      + if |dashboards| == 0 then [NotUsingRenovate]
        else if |dashboards| > 1 then [TooManyLine(|dashboards|)]
        else if !Truthy(dashboards[0].body) then [NoBodyLine(dashboards[0])]
        else MatchLines(Matches(dashboards[0].body.value), r.htmlUrl)
  }

  /** A repository prints update lines only when it has exactly one
      dashboard and that dashboard has a body: then one line per match. */
  lemma RepoBlockLines(r: Repository, issues: seq<Issue>)
    ensures var out, d := RepoBlock(r, issues), Dashboards(issues);
            && out[0] == "- " + r.fullName
            && (if |d| == 1 && Truthy(d[0].body)
                then |out| == 1 + |Matches(d[0].body.value)|
                     && forall t :: 0 <= t < |out| - 1 ==> out[t + 1] == MatchLine(Matches(d[0].body.value)[t], r.htmlUrl)
                else |out| == 2)
  {
    var d := Dashboards(issues);
    if |d| == 1 && Truthy(d[0].body) {
      var ms := Matches(d[0].body.value);
      BlockOfLines("- " + r.fullName, ms, r.htmlUrl);
    }
  }

  /** The header followed by one line per match. */
  lemma BlockOfLines(head: string, ms: seq<SingleMatch>, htmlUrl: string)
    ensures var out := [head] + MatchLines(ms, htmlUrl);
            && |out| == 1 + |ms| && out[0] == head
            && forall t :: 0 <= t < |out| - 1 ==> out[t + 1] == MatchLine(ms[t], htmlUrl)
  {
    var lines := MatchLines(ms, htmlUrl);
    var out := [head] + lines;
    forall t | 0 <= t < |out| - 1 ensures out[t + 1] == MatchLine(ms[t], htmlUrl) {
      MatchLinesAt(ms, htmlUrl, t);
      assert out[t + 1] == lines[t];
    }
  }

  const FoundSuffix := " accessible by the CLI using your current configuration."

  /** `Found <n> repository[s] accessible…`: plural for more than one. */
  function FoundLine(n: nat): string {
    "Found " + NatToString(n) + " repository" + (if n > 1 then "s" else "") + FoundSuffix
  }

  /** The header lines: a blank line, the count, a blank line. */
  function Header(count: nat): seq<string> {
    ["", FoundLine(count), ""]
  }

  /** Everything printed after the header lines for `repos` and then each
      repository's block in order, given the author and the issue fetch. */
  function PrintedAfter(header: seq<string>, repos: seq<Repository>, author: Option<string>, issuesOf: IssueSource): seq<string> {
    if repos == [] then header
    else PrintedAfter(header, repos[..|repos| - 1], author, issuesOf) + RepoBlock(repos[|repos| - 1], issuesOf(repos[|repos| - 1], author))
  }

  /** Everything printed, given the configured organisation and author,
      the repositories the account can see and the issue fetch. */
  function Printed(org: Option<string>, author: Option<string>, all: seq<Repository>, issuesOf: IssueSource): seq<string> {
    var repos := AccessibleRepos(all, org);
    PrintedAfter(Header(|repos|), repos, author, issuesOf)
  }

  lemma PrintedSnoc(header: seq<string>, repos: seq<Repository>, i: nat, author: Option<string>, issuesOf: IssueSource)
    requires i < |repos|
    ensures PrintedAfter(header, repos[..i + 1], author, issuesOf)
            == PrintedAfter(header, repos[..i], author, issuesOf) + RepoBlock(repos[i], issuesOf(repos[i], author))
  {
    var p := repos[..i + 1];
    assert p[..|p| - 1] == repos[..i];
  }

  /** The output opens with the header, and each repository prints at
      least its name line after it. */
  lemma {:induction false} PrintedLength(header: seq<string>, repos: seq<Repository>, author: Option<string>, issuesOf: IssueSource)
    ensures var out := PrintedAfter(header, repos, author, issuesOf);
            |out| >= |header| + |repos| && out[..|header|] == header
    decreases |repos|
  {
    if repos != [] {
      PrintedLength(header, repos[..|repos| - 1], author, issuesOf);
      var last := repos[|repos| - 1];
      RepoBlockLines(last, issuesOf(last, author));
      var before := PrintedAfter(header, repos[..|repos| - 1], author, issuesOf);
      assert PrintedAfter(header, repos, author, issuesOf)[..|header|] == before[..|header|];
    }
  }

  /** One repository's output: the name line, then the warning or the
      lines of the `exec` loop. */
  method PrintRepo(r: Repository, issues: seq<Issue>) returns (out: seq<string>)
    ensures out == RepoBlock(r, issues)
  {
    out := ["- " + r.fullName];
    var dashboards := Dashboards(issues);
    if |dashboards| == 0 {
      out := out + [NotUsingRenovate];
      return;
    }
    if |dashboards| > 1 {
      out := out + [TooManyLine(|dashboards|)];
      return;
    }
    var issue := dashboards[0];
    if issue.body.None? || issue.body.value == "" {
      out := out + [NoBodyLine(issue)];
      return;
    }
    var lines := PrintMatches(issue.body.value, r.htmlUrl);
    out := out + lines;
  }

  /** `listRepositories`: the count of accessible repositories, then each
      one's output in order. */
  method ListRepositories(org: Option<string>, author: Option<string>, all: seq<Repository>, issuesOf: IssueSource)
    returns (out: seq<string>)
    ensures out == Printed(org, author, all, issuesOf)
  {
    var repos := AccessibleRepos(all, org);
    out := ["", FoundLine(|repos|), ""];
    ghost var header := out;
    for i := 0 to |repos|
      invariant out == PrintedAfter(header, repos[..i], author, issuesOf)
    {
      PrintedSnoc(header, repos, i, author, issuesOf);
      var block := PrintRepo(repos[i], issuesOf(repos[i], author));
      out := out + block;
    }
    assert repos[..|repos|] == repos;
  }
}
