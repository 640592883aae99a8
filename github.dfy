/** The shapes of the data the commands read from GitHub. Fetching is not
    modelled: a command receives what the requests returned. */
module Github {
  import opened Wrappers
  import opened Text
  import opened UpdateModel

  /** A dependency-dashboard issue: its page and its body (`null` when GitHub
      has none). */
  datatype Dashboard = Dashboard(htmlUrl: string, body: Option<string>)

  /** A repository a scan walks, with the dashboard its request found. */
  datatype ScannedRepo = ScannedRepo(
    name: string,
    ownerLogin: string,
    fullName: string,
    htmlUrl: string,
    dashboard: Option<Dashboard>)

  /** The body a scan reads: present only for a dashboard with a non-empty
      body; every other repository is skipped. */
  function ScannedBody(r: ScannedRepo): (b: Option<string>)
    ensures b.Some? <==> r.dashboard.Some? && Truthy(r.dashboard.value.body)
    ensures b.Some? ==> b == r.dashboard.value.body
  {
    if r.dashboard.Some? && Truthy(r.dashboard.value.body) then r.dashboard.value.body else None
  }

  /** A repository as `repos.listForAuthenticatedUser` lists it. */
  datatype Repository = Repository(
    name: string,
    ownerLogin: string,
    fullName: string,
    htmlUrl: string,
    archived: bool)

  /** An issue as `issues.listForRepo` lists it; `isPullRequest` stands for
      a defined `pull_request` field, `userLogin` for `user?.login`. */
  datatype Issue = Issue(
    title: string,
    body: Option<string>,
    isPullRequest: bool,
    userLogin: Option<string>,
    htmlUrl: string)

  /** The issues GitHub returns for a repository and an optional creator:
      the fetch is an input of the commands that make it. */
  type IssueSource = (Repository, Option<string>) -> seq<Issue>

  /** `xs.filter(keep)` */
  function Filter<T>(xs: seq<T>, keep: T -> bool): (r: seq<T>)
    ensures |r| <= |xs|
  {
    if xs == [] then [] else (if keep(xs[0]) then [xs[0]] else []) + Filter(xs[1..], keep)
  }

  /** An element is kept exactly when it is in the input and passes. */
  lemma {:induction false} FilterMembers<T>(xs: seq<T>, keep: T -> bool)
    ensures forall x :: x in Filter(xs, keep) <==> x in xs && keep(x)
    decreases |xs|
  {
    if xs != [] {
      FilterMembers(xs[1..], keep);
      assert xs == [xs[0]] + xs[1..];
    }
  }

  /** The repositories the listing commands walk: not archived and, when an
      organisation is configured (non-empty), owned by it. */
  predicate Accessible(org: Option<string>, r: Repository) {
    !r.archived && (Truthy(org) ==> r.ownerLogin == org.value)
  }

  function AccessibleRepos(all: seq<Repository>, org: Option<string>): seq<Repository> {
    Filter(all, r => Accessible(org, r))
  }

  /** A dependency-dashboard issue: a real issue whose title mentions the
      dashboard. */
  predicate IsDashboard(i: Issue) {
    !i.isPullRequest && Contains(i.title, "Dependency Dashboard")
  }

  function Dashboards(issues: seq<Issue>): seq<Issue> {
    Filter(issues, IsDashboard)
  }

  /** A repository is walked exactly when it is listed and accessible; an
      issue counts as a dashboard exactly when it is listed and is one. */
  lemma ListingFilters(all: seq<Repository>, org: Option<string>, issues: seq<Issue>)
    ensures forall r :: r in AccessibleRepos(all, org) <==> r in all && !r.archived && (Truthy(org) ==> r.ownerLogin == org.value)
    ensures forall i :: i in Dashboards(issues) <==> i in issues && !i.isPullRequest && Contains(i.title, "Dependency Dashboard")
  {
    FilterMembers(all, r => Accessible(org, r));
    FilterMembers(issues, IsDashboard);
  }
}
