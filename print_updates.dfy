/** `printUpdates` (scans/printUpdates.ts): the case-insensitive name filter
    and the exact class filter, the message for an empty result, and the
    report (header, one line per surviving update, blank line). */
module PrintUpdates {
  import opened Wrappers
  import opened Text
  import opened UpdateModel
  import opened Render

  /** The repository a report is about. */
  datatype RepoView = RepoView(name: string, owner: string, url: string)

  /** `names.map((d) => d.toLowerCase())`. */
  function LowerAll(names: seq<string>): (r: seq<string>)
    ensures |r| == |names|
    ensures forall i :: 0 <= i < |names| ==> r[i] == ToLower(names[i])
  {
    if names == [] then [] else [ToLower(names[0])] + LowerAll(names[1..])
  }

  /** The lowered filter list, present exactly when a list was given. */
  function Lowered(names: Option<seq<string>>): Option<seq<string>> {
    match names
    case Some(ns) => Some(LowerAll(ns))
    case None => None
  }

  /** The dependency (when non-empty), or one of the packages, lower-cased
      is in the lowered list. */
  predicate NameListed(u: UpdateInfo, lowered: seq<string>) {
    (Truthy(u.dependency) && ToLower(u.dependency.value) in lowered)
    || (exists p :: p in u.packages && ToLower(p) in lowered)
  }

  /** The `filter` callback: a stated class must equal the update's (a
      missing class never equals it); without a list every update of the
      class passes; with one, a name must be listed. */
  predicate Keep(u: UpdateInfo, lowered: Option<seq<string>>, updateType: Option<UpdateType>) {
    if updateType.Some? && u.updateType != updateType then false
    else if lowered.None? then true
    else NameListed(u, lowered.value)
  }

  /** `Array.prototype.filter` with `Keep`. */
  function FilterKeep(us: seq<UpdateInfo>, lowered: Option<seq<string>>, updateType: Option<UpdateType>): (r: seq<UpdateInfo>)
    ensures |r| <= |us|
  {
    if us == [] then []
    else (if Keep(us[0], lowered, updateType) then [us[0]] else []) + FilterKeep(us[1..], lowered, updateType)
  }

  /** The updates the report shows: filtered when a name list or a class is
      given (an empty list counts as given), otherwise all of them. */
  function SelectUpdates(all: seq<UpdateInfo>, names: Option<seq<string>>, updateType: Option<UpdateType>): seq<UpdateInfo> {
    var lowered := Lowered(names);
    if lowered.Some? || updateType.Some? then FilterKeep(all, lowered, updateType) else all
  }

  /** `xs` is `ys` with some elements dropped, the rest in their order. */
  ghost predicate Subsequence<T>(xs: seq<T>, ys: seq<T>)
    decreases |ys|
  {
    if xs == [] then true
    else if ys == [] then false
    else (xs[0] == ys[0] && Subsequence(xs[1..], ys[1..])) || Subsequence(xs, ys[1..])
  }

  lemma {:induction false} FilterKeepMembers(us: seq<UpdateInfo>, lowered: Option<seq<string>>, updateType: Option<UpdateType>)
    ensures forall u :: u in FilterKeep(us, lowered, updateType) <==> u in us && Keep(u, lowered, updateType)
    decreases |us|
  {
    if us != [] {
      FilterKeepMembers(us[1..], lowered, updateType);
      assert us == [us[0]] + us[1..];
    }
  }

  lemma {:induction false} FilterKeepSubsequence(us: seq<UpdateInfo>, lowered: Option<seq<string>>, updateType: Option<UpdateType>)
    ensures Subsequence(FilterKeep(us, lowered, updateType), us)
    decreases |us|
  {
    if us != [] {
      var rest := FilterKeep(us[1..], lowered, updateType);
      FilterKeepSubsequence(us[1..], lowered, updateType);
      if Keep(us[0], lowered, updateType) {
        var r := FilterKeep(us, lowered, updateType);
        assert r == [us[0]] + rest;
        assert r[0] == us[0] && r[1..] == rest;
      } else {
        assert FilterKeep(us, lowered, updateType) == rest;
        SubsequenceDropHead(rest, us);
      }
    }
  }

  lemma SubsequenceDropHead<T>(xs: seq<T>, ys: seq<T>)
    requires ys != [] && Subsequence(xs, ys[1..])
    ensures Subsequence(xs, ys)
  {
  }

  lemma {:induction false} SubsequenceRefl<T>(xs: seq<T>)
    ensures Subsequence(xs, xs)
    decreases |xs|
  {
    if xs != [] {
      SubsequenceRefl(xs[1..]);
    }
  }

  /** The shown updates keep the input order and drop some of them. */
  lemma SelectSubsequence(all: seq<UpdateInfo>, names: Option<seq<string>>, updateType: Option<UpdateType>)
    ensures Subsequence(SelectUpdates(all, names, updateType), all)
  {
    if Lowered(names).Some? || updateType.Some? {
      FilterKeepSubsequence(all, Lowered(names), updateType);
    } else {
      SubsequenceRefl(all);
    }
  }

  /** An update is shown exactly when it is in the input and passes the
      filter; with neither a list nor a class every update passes, so the
      input is shown unchanged. */
  lemma SelectMembers(all: seq<UpdateInfo>, names: Option<seq<string>>, updateType: Option<UpdateType>)
    ensures forall u :: u in SelectUpdates(all, names, updateType) <==> u in all && Keep(u, Lowered(names), updateType)
    ensures names.None? && updateType.None? ==> SelectUpdates(all, names, updateType) == all
  {
    FilterKeepMembers(all, Lowered(names), updateType);
  }

  /** With a class filter, an update of another class, or of none, is never shown. */
  lemma TypeFilterExcludes(all: seq<UpdateInfo>, names: Option<seq<string>>, t: UpdateType, u: UpdateInfo)
    requires u.updateType != Some(t)
    ensures u !in SelectUpdates(all, names, Some(t))
  {
    FilterKeepMembers(all, Lowered(names), Some(t));
  }

  /** An empty name list is still a list, and it lists nothing. */
  lemma {:induction false} EmptyListShowsNothing(all: seq<UpdateInfo>, updateType: Option<UpdateType>)
    ensures SelectUpdates(all, Some([]), updateType) == []
    decreases |all|
  {
    if all != [] {
      EmptyListShowsNothing(all[1..], updateType);
      assert !NameListed(all[0], []);
    }
  }

  /** Two names that agree after lower-casing. */
  predicate SameIgnoringCase(a: string, b: string) {
    ToLower(a) == ToLower(b)
  }

  lemma LowerAllMember(names: seq<string>, x: string)
    ensures x in LowerAll(names) <==> exists d :: d in names && ToLower(d) == x
  {
    var l := LowerAll(names);
    if x in l {
      var i :| 0 <= i < |l| && l[i] == x;
      assert names[i] in names;
    }
    if exists d :: d in names && ToLower(d) == x {
      var d :| d in names && ToLower(d) == x;
      var i :| 0 <= i < |names| && names[i] == d;
      assert l[i] == x;
    }
  }

  /** Name matching ignores case on both sides: the dependency or a package
      passes when some listed name equals it up to case. */
  lemma MatchIgnoresCase(u: UpdateInfo, names: seq<string>)
    ensures NameListed(u, LowerAll(names)) <==>
      (Truthy(u.dependency) && exists d :: d in names && SameIgnoringCase(d, u.dependency.value))
      || (exists p, d :: p in u.packages && d in names && SameIgnoringCase(p, d))
  {
    if Truthy(u.dependency) {
      LowerAllMember(names, ToLower(u.dependency.value));
    }
    forall p | p in u.packages
      ensures ToLower(p) in LowerAll(names) <==> exists d :: d in names && SameIgnoringCase(p, d)
    {
      LowerAllMember(names, ToLower(p));
    }
  }

  /** Lower-casing the list first changes nothing. */
  lemma FilterListCaseIrrelevant(all: seq<UpdateInfo>, names: seq<string>, updateType: Option<UpdateType>)
    ensures SelectUpdates(all, Some(LowerAll(names)), updateType) == SelectUpdates(all, Some(names), updateType)
  {
    var l := LowerAll(names);
    forall i | 0 <= i < |names| ensures LowerAll(l)[i] == l[i] {
      ToLowerIdempotent(names[i]);
    }
    assert LowerAll(l) == l;
  }

  const FilteredOut := "  - No pending updates matching the dependency filter"
  const NothingPending := "  - No pending updates"

  /** The dimmed message printed when nothing is shown. */
  function EmptyMessage(shown: seq<UpdateInfo>, all: seq<UpdateInfo>): (r: seq<string>)
    ensures |r| <= 1
    ensures r == [] <==> shown != []
  {
    if |shown| == 0 then [if |shown| != |all| then FilteredOut else NothingPending] else []
  }

  /** With nothing shown, the message names the filter exactly when there
      was something to filter. */
  lemma MessageChoice(all: seq<UpdateInfo>, names: Option<seq<string>>, updateType: Option<UpdateType>)
    requires SelectUpdates(all, names, updateType) == []
    ensures EmptyMessage([], all) == [FilteredOut] <==> all != []
    ensures EmptyMessage([], all) == [NothingPending] <==> all == []
  {
    assert FilteredOut != NothingPending by { assert |FilteredOut| != |NothingPending|; }
  }

  /** `${repo.owner}/${repo.name} - ${dependencyDashboardUrl}` */
  function Header(repo: RepoView, dashboardUrl: string): string {
    repo.owner + "/" + repo.name + " - " + dashboardUrl
  }

  /** The lines `printUpdates` logs, in order. */
  function Report(all: seq<UpdateInfo>, names: Option<seq<string>>, updateType: Option<UpdateType>,
                  dashboardUrl: string, repo: RepoView): seq<string>
  {
    var shown := SelectUpdates(all, names, updateType);
    [Header(repo, dashboardUrl)] + EmptyMessage(shown, all) + Lines(shown, repo.url) + [""]
  }

  /** The layout of a report with header `h` showing `shown` out of `all`. */
  lemma Layout(h: string, shown: seq<UpdateInfo>, all: seq<UpdateInfo>, url: string)
    ensures var out := [h] + EmptyMessage(shown, all) + Lines(shown, url) + [""];
            && |out| == 2 + |shown| + (if shown == [] then 1 else 0)
            && out[0] == h
            && out[|out| - 1] == ""
            && (shown == [] ==> out[1] == (if all == [] then NothingPending else FilteredOut))
            && (forall k :: 0 <= k < |shown| ==> out[1 + k] == Line(shown[k], url))
  {
    if shown != [] {
      LayoutShown(h, shown, all, url);
    } else {
      assert Lines(shown, url) == [];
    }
  }

  lemma LayoutShown(h: string, shown: seq<UpdateInfo>, all: seq<UpdateInfo>, url: string)
    requires shown != []
    ensures var out := [h] + EmptyMessage(shown, all) + Lines(shown, url) + [""];
            && out == [h] + Lines(shown, url) + [""]
            && (forall k :: 0 <= k < |shown| ==> out[1 + k] == Line(shown[k], url))
  {
    var ls := Lines(shown, url);
    var out := [h] + ls + [""];
    assert [h] + EmptyMessage(shown, all) + ls + [""] == out;
    forall k | 0 <= k < |shown| ensures out[1 + k] == Line(shown[k], url) {
      LinesAt(shown, url, k);
      assert out[1 + k] == ls[k];
    }
  }

  /** The report is the header, the message when nothing is shown, one line
      per shown update in order, and a closing blank line. */
  lemma ReportLayout(all: seq<UpdateInfo>, names: Option<seq<string>>, updateType: Option<UpdateType>,
                     dashboardUrl: string, repo: RepoView)
    ensures var out, shown := Report(all, names, updateType, dashboardUrl, repo), SelectUpdates(all, names, updateType);
            && |out| == 2 + |shown| + (if shown == [] then 1 else 0)
            && out[0] == Header(repo, dashboardUrl)
            && out[|out| - 1] == ""
            && (shown == [] ==> out[1] == (if all == [] then NothingPending else FilteredOut))
            && (forall k :: 0 <= k < |shown| ==> out[1 + k] == Line(shown[k], repo.url))
  {
    Layout(Header(repo, dashboardUrl), SelectUpdates(all, names, updateType), all, repo.url);
  }

  /** `printUpdates`: the header, the message, then the render loop pushing
      one line per shown update, then the blank line. */
  method Print(all: seq<UpdateInfo>, names: Option<seq<string>>, updateType: Option<UpdateType>,
               dashboardUrl: string, repo: RepoView) returns (out: seq<string>)
    ensures out == Report(all, names, updateType, dashboardUrl, repo)
  {
    var updates := SelectUpdates(all, names, updateType);
    out := [repo.owner + "/" + repo.name + " - " + dashboardUrl];
    if |updates| == 0 {
      out := out + [if |updates| != |all| then FilteredOut else NothingPending];
    }
    ghost var front := out;
    for i := 0 to |updates|
      invariant out == front + Lines(updates[..i], repo.url)
    {
      var line := RenderLine(updates[i], repo.url);
      LinesSnoc(updates, i, repo.url);
      out := out + [line];
    }
    assert updates[..|updates|] == updates;
    out := out + [""];
  }
}
