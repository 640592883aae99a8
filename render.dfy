/** The one-line rendering of an update record shared by `printUpdates`,
    `scan` and `listDependencies`: `  - Update <dep>` followed, in a fixed
    order and only when present, by the versions, the class, the package
    group and the pull-request link, joined by single spaces. Colour
    wrappers are the identity. */
module Render {
  import opened Wrappers
  import opened Text
  import opened UpdateModel

  /** `${update.dependency}`: a missing name is printed as `null`. */
  function DependencyText(d: Option<string>): (r: string)
    ensures d.Some? ==> r == d.value
    ensures d.None? ==> r == "null"
  {
    match d
    case Some(name) => name
    case None => "null"
  }

  function Head(u: UpdateInfo): string {
    "  - Update " + DependencyText(u.dependency)
  }

  /** The array literal of listDependencies.ts: each optional segment, or
      `null` when its field is falsy. */
  function Candidates(u: UpdateInfo, url: string): (r: seq<Option<string>>)
    ensures |r| == 6
  {
    [ Some(Head(u)),
      if Truthy(u.fromVersion) then Some("from " + u.fromVersion.value) else None,
      if Truthy(u.toVersion) then Some("to " + u.toVersion.value) else None,
      if u.updateType.Some? then Some("(" + u.updateType.value.Name() + ")") else None,
      if |u.packages| > 0 then Some("[" + Join(u.packages, ", ") + "]") else None,
      if Truthy(u.pullRequest) then Some("- " + url + "/pull/" + u.pullRequest.value) else None ]
  }

  /** `Boolean(x)` on a string or `null`. */
  predicate Kept(x: Option<string>) {
    x.Some? && x.value != ""
  }

  /** What `.filter(Boolean)` keeps of one entry. */
  function Opt(x: Option<string>): (r: seq<string>)
    ensures |r| <= 1
  {
    if Kept(x) then [x.value] else []
  }

  /** `.filter(Boolean)`: the truthy entries, in order. */
  function Present(xs: seq<Option<string>>): (r: seq<string>)
    ensures |r| <= |xs|
  {
    if xs == [] then [] else Present(xs[..|xs| - 1]) + Opt(xs[|xs| - 1])
  }

  /** `.filter(Boolean)` on the six slots keeps each slot's own entry, in order. */
  lemma PresentSix(c: seq<Option<string>>)
    requires |c| == 6
    ensures Present(c) == Opt(c[0]) + Opt(c[1]) + Opt(c[2]) + Opt(c[3]) + Opt(c[4]) + Opt(c[5])
  {
    var o0, o1, o2, o3, o4, o5 := Opt(c[0]), Opt(c[1]), Opt(c[2]), Opt(c[3]), Opt(c[4]), Opt(c[5]);
    assert Present(c[..1]) == o0 by { PresentStep(c, 0); }
    assert Present(c[..2]) == o0 + o1 by { PresentStep(c, 1); }
    assert Present(c[..3]) == o0 + o1 + o2 by { PresentStep(c, 2); }
    assert Present(c[..4]) == o0 + o1 + o2 + o3 by { PresentStep(c, 3); }
    assert Present(c[..5]) == o0 + o1 + o2 + o3 + o4 by { PresentStep(c, 4); }
    assert c[..6] == c;
    PresentStep(c, 5);
  }

  lemma PresentStep(c: seq<Option<string>>, k: nat)
    requires k < |c|
    ensures Present(c[..k + 1]) == Present(c[..k]) + Opt(c[k])
  {
    assert c[..k + 1][..k] == c[..k];
  }

  /** The rendered line: the truthy segments joined by single spaces. */
  function Line(u: UpdateInfo, url: string): string {
    Join(Present(Candidates(u, url)), " ")
  }

  /** The loop body of printUpdates.ts and scan/scan.ts: the head, then one
      `push` per present field, then `join(" ")`. It renders exactly what
      the `filter(Boolean)` form of listDependencies.ts renders. */
  method RenderLine(u: UpdateInfo, url: string) returns (line: string)
    ensures line == Line(u, url)
  {
    ghost var c := Candidates(u, url);
    var logInfo: seq<string> := [];
    logInfo := logInfo + ["  - Update " + DependencyText(u.dependency)];
    ghost var built := Opt(c[0]);
    if u.fromVersion.Some? && u.fromVersion.value != "" {
      logInfo := logInfo + ["from " + u.fromVersion.value];
    }
    built := built + Opt(c[1]);
    assert logInfo == built;
    if u.toVersion.Some? && u.toVersion.value != "" {
      logInfo := logInfo + ["to " + u.toVersion.value];
    }
    built := built + Opt(c[2]);
    assert logInfo == built;
    if u.updateType.Some? {
      logInfo := logInfo + ["(" + u.updateType.value.Name() + ")"];
    }
    built := built + Opt(c[3]);
    assert logInfo == built;
    if |u.packages| > 0 {
      logInfo := logInfo + ["[" + Join(u.packages, ", ") + "]"];
    }
    built := built + Opt(c[4]);
    assert logInfo == built;
    if u.pullRequest.Some? && u.pullRequest.value != "" {
      logInfo := logInfo + ["- " + url + "/pull/" + u.pullRequest.value];
    }
    built := built + Opt(c[5]);
    assert logInfo == built;
    assert Present(c) == built by { PresentSix(c); }
    line := Join(logInfo, " ");
  }

  /** Every segment is non-empty, so `filter(Boolean)` drops exactly the
      `null` slots: one segment for the head and one per present field. */
  lemma SegmentCount(u: UpdateInfo, url: string)
    ensures |Present(Candidates(u, url))| ==
      1 + (if Truthy(u.fromVersion) then 1 else 0) + (if Truthy(u.toVersion) then 1 else 0)
        + (if u.updateType.Some? then 1 else 0) + (if |u.packages| > 0 then 1 else 0)
        + (if Truthy(u.pullRequest) then 1 else 0)
  {
    var c := Candidates(u, url);
    PresentSix(c);
    assert |Opt(c[0])| == 1;
    assert |Opt(c[1])| == (if Truthy(u.fromVersion) then 1 else 0);
    assert |Opt(c[2])| == (if Truthy(u.toVersion) then 1 else 0);
    assert |Opt(c[3])| == (if u.updateType.Some? then 1 else 0);
    assert |Opt(c[4])| == (if |u.packages| > 0 then 1 else 0);
    assert |Opt(c[5])| == (if Truthy(u.pullRequest) then 1 else 0);
  }

  /** The line always opens with the head segment. */
  lemma LineStartsWithHead(u: UpdateInfo, url: string)
    ensures StartsAt(Line(u, url), 0, Head(u))
  {
    var c := Candidates(u, url);
    var parts := Present(c);
    PresentSix(c);
    assert Opt(c[0]) == [Head(u)];
    assert parts[0] == Head(u);
    if |parts| == 1 {
      assert Line(u, url) == Head(u);
    } else {
      JoinCons(parts[0], parts[1..], " ");
      assert parts == [parts[0]] + parts[1..];
      assert Line(u, url)[..|Head(u)|] == Head(u);
    }
  }

  /** With a pull request, the line closes with its link. */
  lemma LineEndsWithLink(u: UpdateInfo, url: string)
    requires Truthy(u.pullRequest)
    ensures var line, link := Line(u, url), " - " + url + "/pull/" + u.pullRequest.value;
            |link| <= |line| && line[|line| - |link|..] == link
  {
    var pr := u.pullRequest.value;
    var link := "- " + url + "/pull/" + pr;
    var p := Present(Candidates(u, url));
    LinkIsLastSegment(u, url);
    var front := p[..|p| - 1];
    var j := Join(front, " ");
    var line := Line(u, url);
    assert line == j + " " + link by {
      assert p == front + [link];
      JoinSnoc(front, link, " ");
    }
    assert " - " + url + "/pull/" + pr == " " + link;
    assert line[|j|..] == " " + link;
  }

  /** With a pull request, its link is the last of at least two segments. */
  lemma LinkIsLastSegment(u: UpdateInfo, url: string)
    requires Truthy(u.pullRequest)
    ensures var p := Present(Candidates(u, url));
            |p| >= 2 && p[|p| - 1] == "- " + url + "/pull/" + u.pullRequest.value
  {
    var c := Candidates(u, url);
    var front := Opt(c[0]) + Opt(c[1]) + Opt(c[2]) + Opt(c[3]) + Opt(c[4]);
    assert Present(c) == front + Opt(c[5]) by { PresentSix(c); }
    assert Opt(c[5]) == ["- " + url + "/pull/" + u.pullRequest.value];
    assert |front| >= 1 by { assert Opt(c[0]) == [Head(u)]; }
  }

  /** The rendered lines of a list of updates, in order. */
  function Lines(us: seq<UpdateInfo>, url: string): (r: seq<string>)
    ensures |r| == |us|
  {
    if us == [] then [] else [Line(us[0], url)] + Lines(us[1..], url)
  }

  /** Line `i` renders update `i`. */
  lemma {:induction false} LinesAt(us: seq<UpdateInfo>, url: string, i: nat)
    requires i < |us|
    ensures Lines(us, url)[i] == Line(us[i], url)
    decreases i
  {
    if i > 0 {
      LinesAt(us[1..], url, i - 1);
    }
  }

  lemma LinesSnoc(us: seq<UpdateInfo>, i: nat, url: string)
    requires i < |us|
    ensures Lines(us[..i + 1], url) == Lines(us[..i], url) + [Line(us[i], url)]
  {
    var a, b := Lines(us[..i + 1], url), Lines(us[..i], url) + [Line(us[i], url)];
    assert |a| == |b|;
    forall k | 0 <= k < |a| ensures a[k] == b[k] {
      LinesAt(us[..i + 1], url, k);
      if k < i {
        LinesAt(us[..i], url, k);
        assert us[..i + 1][k] == us[..i][k];
      }
    }
  }

  /** A record with only a name and a to-version renders as the head and
      `to <version>`. */
  lemma OnlyToVersion(u: UpdateInfo, url: string)
    requires u.fromVersion.None? && Truthy(u.toVersion) && u.updateType.None? && u.packages == [] && u.pullRequest.None?
    ensures Line(u, url) == Head(u) + " to " + u.toVersion.value
  {
    var c := Candidates(u, url);
    PresentSix(c);
    assert Opt(c[0]) == [Head(u)];
    assert Opt(c[1]) == [] && Opt(c[3]) == [] && Opt(c[4]) == [] && Opt(c[5]) == [];
    var t := "to " + u.toVersion.value;
    assert Opt(c[2]) == [t];
    assert Present(c) == [Head(u)] + [t];
    JoinCons(Head(u), [t], " ");
  }

  /** `...Update Node.js to v22` renders as `  - Update Node.js to v22`. */
  lemma NodeLine(url: string)
    ensures Line(UpdateInfo(Some("Node.js"), None, Some("v22"), None, None, []), url)
            == "  - Update Node.js to v22"
  {
    OnlyToVersion(UpdateInfo(Some("Node.js"), None, Some("v22"), None, None, []), url);
  }
}
