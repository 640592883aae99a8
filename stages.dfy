/** The five field extractors of `extractUpdateInfo` and the version-delta
    classifier (scans/extractUpdateInfo.ts). Each regular expression of the
    source is hand-coded as a search; its contract states the match the
    JavaScript engine picks, in terms of a declarative description of every
    string the pattern accepts: the leftmost start, then, per quantifier, the
    longest (greedy) or the shortest (lazy) choice that lets the rest match. */
module Stages {
  import opened Wrappers
  import opened Text
  import opened UpdateModel

  // ---------------------------------------------------------------------
  // Stage 1: /\[(?<prefix>.+)]\(\.\.\/pull\/(?<pullRequest>\d+)\)(?<postfix>.*)/
  // ---------------------------------------------------------------------

  const PullPath: string := "](../pull/"

  /** `](../pull/<digits>)` starts at `c`. */
  predicate PullTailAt(s: string, c: nat) {
    StartsAt(s, c, PullPath)
    && var d := RunEnd(s, c + 10, IsDigit);
       d > c + 10 && d < |s| && s[d] == ')'
  }

  /** A match of the link pattern whose `[` is at `o` and whose `](` is at `c`:
      the link text `s[o+1..c]` is non-empty and crosses no line terminator. */
  predicate IsPullLink(s: string, o: nat, c: nat) {
    o < |s| && s[o] == '[' && o + 2 <= c && c <= RunEnd(s, o + 1, IsDot) && PullTailAt(s, c)
  }

  /** The match the engine reports: leftmost `[`, then the last `](` for it. */
  ghost predicate IsFirstPullLink(s: string, o: nat, c: nat) {
    IsPullLink(s, o, c)
    && (forall o': nat, c': nat :: o' < o ==> !IsPullLink(s, o', c'))
    && (forall c': nat :: c < c' ==> !IsPullLink(s, o, c'))
  }

  /** The largest `c' <= c` that closes a link opened at `o`. */
  function LastPullClose(s: string, o: nat, c: nat): (r: Option<nat>)
    requires o < |s| && s[o] == '[' && c <= RunEnd(s, o + 1, IsDot)
    ensures r.Some? ==> r.value <= c && IsPullLink(s, o, r.value)
    ensures r.Some? ==> forall c': nat :: r.value < c' <= c ==> !IsPullLink(s, o, c')
    ensures r.None? ==> forall c': nat :: c' <= c ==> !IsPullLink(s, o, c')
    decreases c
  {
    if c < o + 2 then None
    else if PullTailAt(s, c) then Some(c)
    else
      var r := LastPullClose(s, o, c - 1);
      NoPullCloseAbove(s, o, c, r);
      r
  }

  /** No close at `c` nor between the one found below it and `c - 1`: none
      up to `c`. */
  lemma NoPullCloseAbove(s: string, o: nat, c: nat, r: Option<nat>)
    requires !PullTailAt(s, c)
    requires r.Some? ==> r.value <= c - 1 && forall c': nat :: r.value < c' <= c - 1 ==> !IsPullLink(s, o, c')
    requires r.None? ==> forall c': nat :: c' <= c - 1 ==> !IsPullLink(s, o, c')
    ensures r.Some? ==> forall c': nat :: r.value < c' <= c ==> !IsPullLink(s, o, c')
    ensures r.None? ==> forall c': nat :: c' <= c ==> !IsPullLink(s, o, c')
  {
  }

  /** The first link whose `[` is at or after `o`. */
  function FindPullLinkFrom(s: string, o: nat): (r: Option<(nat, nat)>)
    ensures r.Some? ==> o <= r.value.0 && IsPullLink(s, r.value.0, r.value.1)
    ensures r.Some? ==> forall c': nat :: r.value.1 < c' ==> !IsPullLink(s, r.value.0, c')
    ensures r.Some? ==> forall o': nat, c': nat :: o <= o' < r.value.0 ==> !IsPullLink(s, o', c')
    ensures r.None? ==> forall o': nat, c': nat :: o <= o' ==> !IsPullLink(s, o', c')
    decreases |s| - o
  {
    if o >= |s| then None
    else
      var close := if s[o] == '[' then LastPullClose(s, o, RunEnd(s, o + 1, IsDot)) else None;
      if close.Some? then
        LastCloseIsLast(s, o, close.value);
        Some((o, close.value))
      else
        NoPullLinkAt(s, o);
        var rest := FindPullLinkFrom(s, o + 1);
        NoPullLinkBefore(s, o, rest);
        rest
  }

  /** No link at `o` and none from `o + 1` up to the next one found: none
      from `o` either. */
  lemma NoPullLinkBefore(s: string, o: nat, r: Option<(nat, nat)>)
    requires forall c': nat :: !IsPullLink(s, o, c')
    requires r.Some? ==> o + 1 <= r.value.0 && forall o': nat, c': nat :: o + 1 <= o' < r.value.0 ==> !IsPullLink(s, o', c')
    requires r.None? ==> forall o': nat, c': nat :: o + 1 <= o' ==> !IsPullLink(s, o', c')
    ensures r.Some? ==> forall o': nat, c': nat :: o <= o' < r.value.0 ==> !IsPullLink(s, o', c')
    ensures r.None? ==> forall o': nat, c': nat :: o <= o' ==> !IsPullLink(s, o', c')
  {
  }

  /** The close `LastPullClose` finds over the whole run is the last one. */
  lemma LastCloseIsLast(s: string, o: nat, c: nat)
    requires o < |s| && s[o] == '[' && LastPullClose(s, o, RunEnd(s, o + 1, IsDot)) == Some(c)
    ensures forall c': nat :: c < c' ==> !IsPullLink(s, o, c')
  {
  }

  /** No link opens at `o` when `s[o]` is not `[` or no close is found. */
  lemma NoPullLinkAt(s: string, o: nat)
    requires o < |s|
    requires s[o] != '[' || LastPullClose(s, o, RunEnd(s, o + 1, IsDot)).None?
    ensures forall c': nat :: !IsPullLink(s, o, c')
  {
  }

  /** The text of a link tail: the path, the digit run, the `)`. */
  lemma PullLinkText(s: string, c: nat)
    requires PullTailAt(s, c)
    ensures var d := RunEnd(s, c + 10, IsDigit);
            StartsAt(s, c, PullPath + s[c + 10..d] + ")")
  {
    var d := RunEnd(s, c + 10, IsDigit);
    assert s[c..c + 10] == PullPath;
    assert s[c..d + 1] == s[c..c + 10] + s[c + 10..d] + [s[d]];
  }

  datatype PullRequestInfo = PullRequestInfo(pullRequest: Option<string>, remainingText: string)

  /** The link at (`o`, `c`) is the one the engine reports, and `r` holds its
      capture groups. */
  ghost predicate PullRequestGroups(s: string, o: nat, c: nat, r: PullRequestInfo) {
    IsFirstPullLink(s, o, c) && r.pullRequest.Some?
    && var post := c + |PullPath| + |r.pullRequest.value| + 1;
       && StartsAt(s, c, PullPath + r.pullRequest.value + ")")
       && r.remainingText == s[o + 1..c] + s[post..RunEnd(s, post, IsDot)]
  }

  lemma PullRequestWitness(s: string, o: nat, c: nat, r: PullRequestInfo)
    requires PullRequestGroups(s, o, c, r)
    ensures exists o': nat, c': nat :: PullRequestGroups(s, o', c', r)
  {
  }

  /** `extractPullRequest`: the PR number of the first link, and the line with
      the link unwrapped: the link text followed by what follows the link up to
      the first line terminator (text before the `[` is dropped). */
  function ExtractPullRequest(s: string): (r: PullRequestInfo)
    ensures r.pullRequest.None? <==> forall o: nat, c: nat :: !IsPullLink(s, o, c)
    ensures r.pullRequest.None? ==> r.remainingText == s
    ensures r.pullRequest.Some? ==> exists o: nat, c: nat :: PullRequestGroups(s, o, c, r)
    ensures r.pullRequest.Some? ==>
              |r.pullRequest.value| > 0 && forall i :: 0 <= i < |r.pullRequest.value| ==> IsDigit(r.pullRequest.value[i])
  {
    match FindPullLinkFrom(s, 0)
    case None => PullRequestInfo(None, s)
    case Some((o, c)) =>
      PullLinkFound(s, o, c);
      assert IsPullLink(s, o, c);
      PullInfo(s, o, c)
  }

  /** The groups of the link at (`o`, `c`): the digits after the path, and
      the link text followed by the rest of the line after the `)`. */
  function PullInfo(s: string, o: nat, c: nat): PullRequestInfo
    requires IsPullLink(s, o, c)
  {
    var d := RunEnd(s, c + 10, IsDigit);
    PullRequestInfo(Some(s[c + 10..d]), s[o + 1..c] + s[d + 1..RunEnd(s, d + 1, IsDot)])
  }

  /** The record built from the first link holds its capture groups. */
  lemma PullLinkFound(s: string, o: nat, c: nat)
    requires FindPullLinkFrom(s, 0) == Some((o, c))
    ensures var r := PullInfo(s, o, c);
            && |r.pullRequest.value| > 0 && (forall i :: 0 <= i < |r.pullRequest.value| ==> IsDigit(r.pullRequest.value[i]))
            && exists o': nat, c': nat :: PullRequestGroups(s, o', c', r)
  {
    PullDigits(s, c);
    assert IsFirstPullLink(s, o, c);
    PullGroupsAt(s, o, c);
  }

  /** The pull-request number of a link tail is a non-empty digit run. */
  lemma PullDigits(s: string, c: nat)
    requires PullTailAt(s, c)
    ensures var pr := s[c + 10..RunEnd(s, c + 10, IsDigit)];
            |pr| > 0 && forall i :: 0 <= i < |pr| ==> IsDigit(pr[i])
  {
    var pr := s[c + 10..RunEnd(s, c + 10, IsDigit)];
    assert forall i :: 0 <= i < |pr| ==> pr[i] == s[c + 10 + i];
  }

  /** The groups of the reported link, taken from its tail. */
  lemma PullGroupsAt(s: string, o: nat, c: nat)
    requires IsFirstPullLink(s, o, c)
    ensures exists o': nat, c': nat :: PullRequestGroups(s, o', c', PullInfo(s, o, c))
  {
    var r := PullInfo(s, o, c);
    var d := RunEnd(s, c + 10, IsDigit);
    var pr := s[c + 10..d];
    assert StartsAt(s, c, PullPath + pr + ")") by { PullLinkText(s, c); }
    var post := c + |PullPath| + |pr| + 1;
    assert post == d + 1 by { assert |PullPath| == 10; }
    assert r.remainingText == s[o + 1..c] + s[post..RunEnd(s, post, IsDot)];
    PullRequestWitness(s, o, c, r);
  }

  // ---------------------------------------------------------------------
  // Stage 2: /(?<prefix>.+)\((?<updateType>minor|major|patch)\)(?<postfix>.*)/
  // ---------------------------------------------------------------------

  /** The parenthesised class token that starts at `j`, if any. */
  function TypeTokenAt(s: string, j: nat): (r: Option<UpdateType>)
    ensures r.Some? ==> StartsAt(s, j, "(" + r.value.Name() + ")")
    ensures r.None? ==> forall t: UpdateType :: !StartsAt(s, j, "(" + t.Name() + ")")
  {
    if StartsAt(s, j, "(minor)") then Some(Minor)
    else if StartsAt(s, j, "(major)") then Some(Major)
    else if StartsAt(s, j, "(patch)") then Some(Patch)
    else
      NoTypeToken(s, j);
      None
  }

  /** Where none of the three literals starts, no class token does. */
  lemma NoTypeToken(s: string, j: nat)
    requires !StartsAt(s, j, "(minor)") && !StartsAt(s, j, "(major)") && !StartsAt(s, j, "(patch)")
    ensures forall t: UpdateType :: !StartsAt(s, j, "(" + t.Name() + ")")
  {
    forall t: UpdateType ensures !StartsAt(s, j, "(" + t.Name() + ")") {
      match t
      case Major => assert "(" + t.Name() + ")" == "(major)";
      case Minor => assert "(" + t.Name() + ")" == "(minor)";
      case Patch => assert "(" + t.Name() + ")" == "(patch)";
    }
  }

  /** A match starting at `a` whose token is at `j`: the prefix `s[a..j]` is
      non-empty and crosses no line terminator. */
  predicate IsTypeMatch(s: string, a: nat, j: nat) {
    a < j <= |s| && j <= RunEnd(s, a, IsDot) && TypeTokenAt(s, j).Some?
  }

  /** The match the engine reports: leftmost start, then the last token. */
  ghost predicate IsFirstTypeMatch(s: string, a: nat, j: nat) {
    IsTypeMatch(s, a, j)
    && (forall a': nat, j': nat :: a' < a ==> !IsTypeMatch(s, a', j'))
    && (forall j': nat :: j < j' ==> !IsTypeMatch(s, a, j'))
  }

  /** The largest token position `j' <= j` for a match starting at `a`. */
  function LastTypeToken(s: string, a: nat, j: nat): (r: Option<nat>)
    requires a <= |s| && j <= RunEnd(s, a, IsDot)
    ensures r.Some? ==> r.value <= j && IsTypeMatch(s, a, r.value)
    ensures r.Some? ==> forall j': nat :: r.value < j' <= j ==> !IsTypeMatch(s, a, j')
    ensures r.None? ==> forall j': nat :: j' <= j ==> !IsTypeMatch(s, a, j')
    decreases j
  {
    if j <= a then None
    else if TypeTokenAt(s, j).Some? then Some(j)
    else
      var r := LastTypeToken(s, a, j - 1);
      NoTypeTokenAbove(s, a, j, r);
      r
  }

  /** No token at `j` nor between the one found below it and `j - 1`: none
      up to `j`. */
  lemma NoTypeTokenAbove(s: string, a: nat, j: nat, r: Option<nat>)
    requires !IsTypeMatch(s, a, j)
    requires r.Some? ==> r.value <= j - 1 && forall j': nat :: r.value < j' <= j - 1 ==> !IsTypeMatch(s, a, j')
    requires r.None? ==> forall j': nat :: j' <= j - 1 ==> !IsTypeMatch(s, a, j')
    ensures r.Some? ==> forall j': nat :: r.value < j' <= j ==> !IsTypeMatch(s, a, j')
    ensures r.None? ==> forall j': nat :: j' <= j ==> !IsTypeMatch(s, a, j')
  {
  }

  /** The first match whose start is at or after `a`. */
  function FindTypeFrom(s: string, a: nat): (r: Option<(nat, nat)>)
    ensures r.Some? ==> a <= r.value.0 && IsTypeMatch(s, r.value.0, r.value.1)
    ensures r.Some? ==> forall j': nat :: r.value.1 < j' ==> !IsTypeMatch(s, r.value.0, j')
    ensures r.Some? ==> forall a': nat, j': nat :: a <= a' < r.value.0 ==> !IsTypeMatch(s, a', j')
    ensures r.None? ==> forall a': nat, j': nat :: a <= a' ==> !IsTypeMatch(s, a', j')
    decreases |s| - a
  {
    if a >= |s| then None
    else
      var last := LastTypeToken(s, a, RunEnd(s, a, IsDot));
      if last.Some? then Some((a, last.value)) else FindTypeFrom(s, a + 1)
  }

  datatype UpdateTypeInfo = UpdateTypeInfo(updateType: Option<UpdateType>, remainingText: string)

  /** `extractUpdateType`: the class of the chosen `(major|minor|patch)` token,
      which is spliced out; the text after it is kept up to the first line
      terminator. */
  function ExtractUpdateType(s: string): (r: UpdateTypeInfo)
    ensures r.updateType.None? <==> forall a: nat, j: nat :: !IsTypeMatch(s, a, j)
    ensures r.updateType.None? ==> r.remainingText == s
    ensures r.updateType.Some? ==>
              exists a: nat, j: nat :: IsFirstTypeMatch(s, a, j)
                && StartsAt(s, j, "(" + r.updateType.value.Name() + ")")
                && r.remainingText == s[a..j] + s[j + 7..RunEnd(s, j + 7, IsDot)]
  {
    match FindTypeFrom(s, 0)
    case None => UpdateTypeInfo(None, s)
    case Some((a, j)) =>
      var t := TypeTokenAt(s, j).value;
      var e := RunEnd(s, j + 7, IsDot);
      assert IsFirstTypeMatch(s, a, j);
      UpdateTypeInfo(Some(t), s[a..j] + s[j + 7..e])
  }

  // ---------------------------------------------------------------------
  // Stage 3: /^(?<prefix>.+)(\((?<packages>`[^`]+`(?:, `[^`]+`)*)\))$/
  // ---------------------------------------------------------------------

  /** `[^`]` */
  predicate NotBacktick(c: char) { c != '`' }

  /** The items the package group lists: at least one, none empty, none
      holding a back-tick. */
  predicate ValidItems(items: seq<string>) {
    |items| >= 1 && forall i :: 0 <= i < |items| ==> |items[i]| > 0 && '`' !in items[i]
  }

  /** The text of a package group: each item in back-ticks, joined by `, `. */
  function QuotedList(items: seq<string>): string
    requires |items| >= 1
  {
    if |items| == 1 then "`" + items[0] + "`"
    else "`" + items[0] + "`" + ", " + QuotedList(items[1..])
  }

  /** Recogniser for `` `[^`]+`(?:, `[^`]+`)* `` over the whole of `g`: the
      back-ticks fix the items, so the parse is unique. */
  function ParseItems(g: string): (r: Option<seq<string>>)
    decreases |g|
  {
    if |g| == 0 || g[0] != '`' then None
    else
      var e := RunEnd(g, 1, NotBacktick);
      if e == 1 || e == |g| then None
      else
        var rest := g[e + 1..];
        if rest == [] then Some([g[1..e]])
        else if StartsAt(rest, 0, ", ") then
          match ParseItems(rest[2..])
          case None => None
          case Some(tail) => Some([g[1..e]] + tail)
        else None
  }

  /** A string that opens with a back-tick and has another at `e`. */
  lemma QuotedHead(g: string, e: nat)
    requires 0 < e < |g| && g[0] == '`' && g[e] == '`'
    ensures g == "`" + g[1..e] + "`" + g[e + 1..]
  {
    assert g == g[..1] + g[1..e] + g[e..e + 1] + g[e + 1..];
  }

  /** The characters before the closing back-tick hold none. */
  lemma ItemFree(g: string, e: nat)
    requires 1 <= e <= |g| && e == RunEnd(g, 1, NotBacktick)
    ensures '`' !in g[1..e]
  {
    forall i | 0 <= i < e - 1 ensures g[1..e][i] != '`' {
      assert g[1..e][i] == g[1 + i];
    }
  }

  /** What the recogniser accepts is a quoted list of valid items. */
  lemma {:induction false} ParseItemsSound(g: string)
    requires ParseItems(g).Some?
    ensures ValidItems(ParseItems(g).value)
    ensures QuotedList(ParseItems(g).value) == g
    decreases |g|
  {
    var e := RunEnd(g, 1, NotBacktick);
    var rest := g[e + 1..];
    if rest == [] {
      ParseSoundOne(g, e);
    } else {
      var tail := ParseItems(rest[2..]).value;
      ParseItemsSound(rest[2..]);
      ParseSoundMore(g, e, tail);
    }
  }

  /** A group of one item is that item in back-ticks. */
  lemma ParseSoundOne(g: string, e: nat)
    requires 1 < e && e + 1 == |g| && g[0] == '`' && e == RunEnd(g, 1, NotBacktick)
    ensures ParseItems(g) == Some([g[1..e]])
    ensures ValidItems([g[1..e]]) && QuotedList([g[1..e]]) == g
  {
    ItemFree(g, e);
    QuotedHead(g, e);
    assert g[e + 1..] == [];
  }

  /** A group that goes on after its first item is that item followed by
      `, ` and the recognised rest. */
  lemma ParseSoundMore(g: string, e: nat, tail: seq<string>)
    requires 1 < e && e + 3 <= |g| && g[0] == '`' && e == RunEnd(g, 1, NotBacktick)
    requires ParseItems(g) == Some([g[1..e]] + tail)
    requires g[e + 1..][..2] == ", "
    requires ValidItems(tail) && QuotedList(tail) == g[e + 1..][2..]
    ensures ValidItems([g[1..e]] + tail) && QuotedList([g[1..e]] + tail) == g
  {
    var item, rest := g[1..e], g[e + 1..];
    var items := [item] + tail;
    assert ValidItems(items) by {
      ItemFree(g, e);
      forall i | 0 <= i < |items| ensures |items[i]| > 0 && '`' !in items[i] {
        if i > 0 { assert items[i] == tail[i - 1]; }
      }
    }
    assert QuotedList(items) == "`" + item + "`" + rest by {
      QuotedCons(item, tail, rest);
    }
    QuotedHead(g, e);
  }

  /** Prepending an item to a quoted list. */
  lemma QuotedCons(item: string, tail: seq<string>, rest: string)
    requires |tail| >= 1 && |rest| >= 2 && rest[..2] == ", " && QuotedList(tail) == rest[2..]
    ensures QuotedList([item] + tail) == "`" + item + "`" + rest
  {
    var h := "`" + item + "`";
    assert ([item] + tail)[1..] == tail;
    assert QuotedList([item] + tail) == h + ", " + rest[2..];
    assert rest == ", " + rest[2..] by {
      assert rest == rest[..2] + rest[2..];
    }
    ConcatAssoc(h, ", ", rest[2..]);
  }


  /** Every quoted list of valid items is recognised, with its items. */
  lemma {:induction false} ParseItemsComplete(items: seq<string>)
    requires ValidItems(items)
    ensures ParseItems(QuotedList(items)) == Some(items)
    decreases |items|
  {
    if |items| == 1 {
      ParseOneItem(items);
    } else {
      var more := items[1..];
      assert ValidItems(more) by {
        forall i | 0 <= i < |more| ensures |more[i]| > 0 && '`' !in more[i] {
          assert more[i] == items[i + 1];
        }
      }
      ParseItemsComplete(more);
      ParseMoreItems(items);
    }
  }

  /** A single quoted item is recognised. */
  lemma ParseOneItem(items: seq<string>)
    requires ValidItems(items) && |items| == 1
    ensures ParseItems(QuotedList(items)) == Some(items)
  {
    var x := items[0];
    QuotedPrefix(x, "");
    assert QuotedList(items) == "`" + x + "`" + "";
    assert items == [x];
  }

  /** The recogniser takes the first quoted item and goes on with the rest. */
  lemma ParseMoreItems(items: seq<string>)
    requires ValidItems(items) && |items| >= 2
    requires ParseItems(QuotedList(items[1..])) == Some(items[1..])
    ensures ParseItems(QuotedList(items)) == Some(items)
  {
    var x, more := items[0], items[1..];
    assert [x] + more == items;
    var q := QuotedList(more);
    var tail := ", " + q;
    var g := QuotedList(items);
    assert g == "`" + x + "`" + tail by {
      ConcatAssoc("`" + x + "`", ", ", q);
    }
    assert tail[2..] == q;
    assert RunEnd(g, 1, NotBacktick) == 1 + |x| && g[1..1 + |x|] == x && g[2 + |x|..] == tail by {
      QuotedPrefix(x, tail);
    }
    ParseItemsCons(g, x, tail, more);
  }

  /** The recogniser on a group that opens with the quoted item `x`
      followed by `, ` and a recognised rest. */
  lemma ParseItemsCons(g: string, x: string, tail: string, more: seq<string>)
    requires |x| > 0 && 2 + |x| <= |g| && g[0] == '`' && RunEnd(g, 1, NotBacktick) == 1 + |x|
    requires g[1..1 + |x|] == x && g[2 + |x|..] == tail
    requires StartsAt(tail, 0, ", ") && ParseItems(tail[2..]) == Some(more)
    ensures ParseItems(g) == Some([x] + more)
  {
  }

  /** In `` `x`tail `` the first item ends where `x` does. */
  lemma QuotedPrefix(x: string, tail: string)
    requires |x| > 0 && '`' !in x
    ensures var g := "`" + x + "`" + tail;
            RunEnd(g, 1, NotBacktick) == 1 + |x| && g[1..1 + |x|] == x && g[2 + |x|..] == tail
  {
    var g := "`" + x + "`" + tail;
    assert forall i :: 1 <= i < 1 + |x| ==> g[i] == x[i - 1];
    assert g[1 + |x|] == '`';
    RunEndUnique(g, 1, 1 + |x|, NotBacktick);
  }

  /** `pkg.replace(/`/g, "").trim()` */
  function CleanPackage(p: string): string {
    Trim(RemoveAll(p, '`'))
  }

  /** The cleaned pieces, in order. */
  function CleanAll(ps: seq<string>): (r: seq<string>)
    ensures |r| == |ps|
    ensures forall i :: 0 <= i < |ps| ==> r[i] == CleanPackage(ps[i])
  {
    if ps == [] then [] else [CleanPackage(ps[0])] + CleanAll(ps[1..])
  }

  /** The opening parenthesis of a package group is at `j`: a greedy
      non-empty prefix without line terminators, then `(group)` to the end. */
  predicate IsPackagesMatch(s: string, j: nat) {
    1 <= j && j + 2 <= |s| && j <= RunEnd(s, 0, IsDot)
    && s[j] == '(' && s[|s| - 1] == ')' && ParseItems(s[j + 1..|s| - 1]).Some?
  }

  /** The largest `j' <= j` at which a package group opens. */
  function LastPackagesOpen(s: string, j: nat): (r: Option<nat>)
    ensures r.Some? ==> r.value <= j && IsPackagesMatch(s, r.value)
    ensures r.Some? ==> forall j': nat :: r.value < j' <= j ==> !IsPackagesMatch(s, j')
    ensures r.None? ==> forall j': nat :: j' <= j ==> !IsPackagesMatch(s, j')
    decreases j
  {
    if j == 0 then None
    else if IsPackagesMatch(s, j) then Some(j)
    else LastPackagesOpen(s, j - 1)
  }

  /** In `` `x`tail ``, with no `, ` inside `x`, no separator starts before
      the end of `` `x` ``. */
  lemma QuotedNoSeparator(x: string, tail: string)
    requires !Contains(x, ", ")
    ensures forall j :: 0 <= j < |x| + 2 ==> !StartsAt("`" + x + "`" + tail, j, ", ")
  {
    var g := "`" + x + "`" + tail;
    assert g[0] == '`' && g[|x| + 1] == '`';
    forall j | 0 <= j < |x| + 2
      ensures !StartsAt(g, j, ", ")
    {
      if 1 <= j < |x| {
        SeparatorInside(x, tail, j);
      } else if j == |x| {
        NotStartsAtChar(g, j, ", ", 1);
      } else {
        NotStartsAtChar(g, j, ", ", 0);
      }
    }
  }

  /** A separator inside `` `x` `` would be one inside `x`. */
  lemma SeparatorInside(x: string, tail: string, j: nat)
    requires !Contains(x, ", ") && 1 <= j < |x|
    ensures !StartsAt("`" + x + "`" + tail, j, ", ")
  {
    var g := "`" + x + "`" + tail;
    assert !StartsAt(x, j - 1, ", ");
    assert g[j..j + 2] == x[j - 1..j + 1];
  }

  /** A quoted item cleans to its trimmed text. */
  lemma CleanQuoted(x: string)
    requires '`' !in x
    ensures CleanPackage("`" + x + "`") == Trim(x)
  {
    var tick := "`";
    assert RemoveAll(tick, '`') == [] by {
      assert tick[1..] == [];
    }
    RemoveAllAppend(tick + x, tick, '`');
    RemoveAllAppend(tick, x, '`');
    RemoveAllAbsent(x, '`');
    assert RemoveAll(tick + x + tick, '`') == x;
  }

  /** A lone quoted item is not split. */
  lemma SplitQuotedOne(x: string)
    requires !Contains(x, ", ")
    ensures Split("`" + x + "`", ", ") == ["`" + x + "`"]
  {
    var g := "`" + x + "`";
    QuotedNoSeparator(x, "");
    assert g + "" == g;
    assert IndexOf(g, ", ", 0).None?;
  }

  /** The first piece of a quoted list is its first quoted item. */
  lemma SplitQuotedCons(x: string, q: string)
    requires !Contains(x, ", ")
    ensures Split("`" + x + "`" + ", " + q, ", ") == ["`" + x + "`"] + Split(q, ", ")
  {
    var g := "`" + x + "`" + ", " + q;
    assert g == "`" + x + "`" + (", " + q);
    QuotedNoSeparator(x, ", " + q);
    assert g[|x| + 2..|x| + 4] == ", ";
    assert StartsAt(g, |x| + 2, ", ");
    var at := IndexOf(g, ", ", 0);
    assert at.Some?;
    assert at.value == |x| + 2;
    assert g[..|x| + 2] == "`" + x + "`";
    assert g[|x| + 4..] == q;
  }

  /** When no item holds `, `, the packages are the items, trimmed, in order
      (an item that does hold `, ` is cut in two by the `split`). */
  lemma {:induction false} PackagesOfItems(items: seq<string>)
    requires ValidItems(items)
    requires forall i :: 0 <= i < |items| ==> !Contains(items[i], ", ")
    ensures PackagesAre(QuotedList(items), items)
    decreases |items|
  {
    if |items| == 1 {
      CleanQuoted(items[0]);
      SplitQuotedOne(items[0]);
    } else {
      var rest := items[1..];
      assert ValidItems(rest) by {
        forall i | 0 <= i < |rest| ensures |rest[i]| > 0 && '`' !in rest[i] {
          assert rest[i] == items[i + 1];
        }
      }
      assert forall i :: 0 <= i < |rest| ==> !Contains(rest[i], ", ") by {
        assert forall i :: 0 <= i < |rest| ==> rest[i] == items[i + 1];
      }
      PackagesOfItems(rest);
      PackagesOfMoreItems(items);
    }
  }

  /** The cleaned pieces of the group `g` are the trimmed items. */
  predicate PackagesAre(g: string, items: seq<string>) {
    var ps := CleanAll(Split(g, ", "));
    |ps| == |items| && forall i :: 0 <= i < |items| ==> ps[i] == Trim(items[i])
  }

  /** The first quoted item cleans to itself, trimmed, and the rest of the
      pieces are those of the rest of the list. */
  lemma PackagesOfMoreItems(items: seq<string>)
    requires ValidItems(items) && |items| >= 2 && !Contains(items[0], ", ")
    requires PackagesAre(QuotedList(items[1..]), items[1..])
    ensures PackagesAre(QuotedList(items), items)
  {
    var x, rest := items[0], items[1..];
    var q := QuotedList(rest);
    var tailPs := CleanAll(Split(q, ", "));
    assert CleanAll(Split(QuotedList(items), ", ")) == [Trim(x)] + tailPs by {
      assert QuotedList(items) == "`" + x + "`" + ", " + q;
      SplitQuotedCons(x, q);
      CleanQuoted(x);
      CleanAllCons("`" + x + "`", Split(q, ", "));
    }
    TrimmedCons(items, tailPs);
  }

  lemma CleanAllCons(p: string, ps: seq<string>)
    ensures CleanAll([p] + ps) == [CleanPackage(p)] + CleanAll(ps)
  {
    assert ([p] + ps)[1..] == ps;
  }

  /** Prepending an item and its trimmed form keeps the two lists in step. */
  lemma TrimmedCons(items: seq<string>, tailPs: seq<string>)
    requires |items| >= 1 && |tailPs| == |items| - 1
    requires forall i :: 0 <= i < |items| - 1 ==> tailPs[i] == Trim(items[1..][i])
    ensures var ps := [Trim(items[0])] + tailPs;
            |ps| == |items| && forall i :: 0 <= i < |items| ==> ps[i] == Trim(items[i])
  {
    var ps := [Trim(items[0])] + tailPs;
    forall i | 0 <= i < |items| ensures ps[i] == Trim(items[i]) {
      if i > 0 {
        assert ps[i] == tailPs[i - 1] && items[i] == items[1..][i - 1];
      }
    }
  }

  datatype PackagesInfo = PackagesInfo(packages: seq<string>, remainingText: string)

  /** The group opened at `j` is the one the engine reports, and `r` holds the
      prefix and the group split on `, `, de-back-ticked and trimmed. */
  ghost predicate PackagesGroups(s: string, j: nat, r: PackagesInfo) {
    IsPackagesMatch(s, j)
    && (forall j': nat :: j < j' ==> !IsPackagesMatch(s, j'))
    && r.remainingText == s[..j]
    && r.packages == CleanAll(Split(s[j + 1..|s| - 1], ", "))
  }

  lemma PackagesWitness(s: string, j: nat, r: PackagesInfo)
    requires PackagesGroups(s, j, r)
    ensures exists j': nat :: PackagesGroups(s, j', r)
  {
  }

  /** `extractPackages`: the trailing `` (`a`, `b`) `` group, if the text ends
      with one, and the text before it. */
  function ExtractPackages(s: string): (r: PackagesInfo)
    ensures r.packages == [] <==> forall j: nat :: !IsPackagesMatch(s, j)
    ensures r.packages == [] ==> r.remainingText == s
    ensures r.packages != [] ==> exists j: nat :: PackagesGroups(s, j, r)
  {
    var top := RunEnd(s, 0, IsDot);
    match LastPackagesOpen(s, top)
    case None => PackagesInfo([], s)
    case Some(j) =>
      var r := PackagesInfo(CleanAll(Split(s[j + 1..|s| - 1], ", ")), s[..j]);
      PackagesWitness(s, j, r);
      r
  }

  // ---------------------------------------------------------------------
  // Stage 4: /^(?<prefix>.+?)(?:from (?<fromVersion>\S+))? ?(?:to (?<toVersion>\S+))?\s*$/
  // ---------------------------------------------------------------------

  /** `from (\S+)` at `k`, the token ending at `f`. */
  predicate FromOk(s: string, k: nat, f: nat) {
    StartsAt(s, k, "from ") && k + 5 < f <= RunEnd(s, k + 5, IsToken)
  }

  /** `to (\S+)` at `q`, the token ending at `t`. */
  predicate ToOk(s: string, q: nat, t: nat) {
    StartsAt(s, q, "to ") && q + 3 < t <= RunEnd(s, q + 3, IsToken)
  }

  /** `(?:to (\S+))?\s*$` matches from `q`, with the to-part `o`. */
  predicate ValidTo(s: string, q: nat, o: Option<nat>) {
    match o
    case None => q <= |s| && AllSpaceFrom(s, q)
    case Some(t) => ToOk(s, q, t) && AllSpaceFrom(s, t)
  }

  /** Rank of an optional group in backtracking order: a present group is
      tried before an absent one, a longer token before a shorter one. */
  function Key(o: Option<nat>): nat {
    match o
    case None => 0
    case Some(v) => v + 1
  }

  /** The first to-part that lets the text end in whitespace. */
  function ToChoice(s: string, q: nat): (r: Option<Option<nat>>)
    requires q <= |s|
    ensures r.Some? ==> ValidTo(s, q, r.value)
    ensures r.Some? ==> forall o :: Key(o) > Key(r.value) ==> !ValidTo(s, q, o)
    ensures r.None? ==> forall o :: !ValidTo(s, q, o)
  {
    if StartsAt(s, q, "to ") && q + 3 < RunEnd(s, q + 3, IsToken) && AllSpaceFrom(s, RunEnd(s, q + 3, IsToken)) then
      Some(Some(RunEnd(s, q + 3, IsToken)))
    else if AllSpaceFrom(s, q) then Some(None)
    else None
  }

  /** ` ?(?:to (\S+))?\s*$` matches from `p`, taking the space or not. */
  predicate ValidRest(s: string, p: nat, space: bool, o: Option<nat>) {
    p <= |s| && (space ==> p < |s| && s[p] == ' ') && ValidTo(s, if space then p + 1 else p, o)
  }

  /** Backtracking order after the from-part: the space first, then the to-part. */
  predicate RestBefore(a: (bool, Option<nat>), b: (bool, Option<nat>)) {
    (a.0 && !b.0) || (a.0 == b.0 && Key(a.1) > Key(b.1))
  }

  function RestChoice(s: string, p: nat): (r: Option<(bool, Option<nat>)>)
    requires p <= |s|
    ensures r.Some? ==> ValidRest(s, p, r.value.0, r.value.1)
    ensures r.Some? ==> forall sp, o :: RestBefore((sp, o), r.value) ==> !ValidRest(s, p, sp, o)
    ensures r.None? ==> forall sp, o :: !ValidRest(s, p, sp, o)
  {
    var withSpace := if p < |s| && s[p] == ' ' then ToChoice(s, p + 1) else None;
    if withSpace.Some? then Some((true, withSpace.value))
    else
      match ToChoice(s, p)
      case Some(o) => Some((false, o))
      case None => None
  }

  /** A parse of the part after the prefix: where the from-token ends, whether
      the optional space was taken, where the to-token ends. */
  datatype TailParse = TailParse(fromEnd: Option<nat>, space: bool, toEnd: Option<nat>)

  /** Where the optional space would be. */
  function AfterFrom(k: nat, tp: TailParse): nat {
    match tp.fromEnd
    case None => k
    case Some(f) => f
  }

  /** `tp` is a successful parse of the tail starting at `k`. */
  predicate ValidTail(s: string, k: nat, tp: TailParse) {
    k <= |s|
    && (tp.fromEnd.Some? ==> FromOk(s, k, tp.fromEnd.value))
    && ValidRest(s, AfterFrom(k, tp), tp.space, tp.toEnd)
  }

  /** The engine tries `a` before `b`. */
  predicate TailBefore(a: TailParse, b: TailParse) {
    Key(a.fromEnd) > Key(b.fromEnd)
    || (a.fromEnd == b.fromEnd && RestBefore((a.space, a.toEnd), (b.space, b.toEnd)))
  }

  /** The longest from-token end `f' <= f` after which the rest matches, and
      the rest's own first parse there. */
  function FromChoice(s: string, k: nat, f: nat): (r: Option<(nat, (bool, Option<nat>))>)
    requires f <= |s|
    ensures r.Some? ==> k + 5 < r.value.0 <= f && RestChoice(s, r.value.0) == Some(r.value.1)
    ensures r.Some? ==> forall f': nat, sp, o :: r.value.0 < f' <= f ==> !ValidRest(s, f', sp, o)
    ensures r.None? ==> forall f': nat, sp, o :: k + 5 < f' <= f ==> !ValidRest(s, f', sp, o)
    decreases f
  {
    if f <= k + 5 then None
    else
      match RestChoice(s, f)
      case Some(rest) => Some((f, rest))
      case None =>
        var r := FromChoice(s, k, f - 1);
        NoRestAbove(s, k, f, r);
        r
  }

  /** No rest fits at `f` nor between the choice found below it and `f - 1`:
      none fits up to `f`. */
  lemma NoRestAbove(s: string, k: nat, f: nat, r: Option<(nat, (bool, Option<nat>))>)
    requires forall sp, o :: !ValidRest(s, f, sp, o)
    requires r.Some? ==> r.value.0 <= f - 1 && forall f': nat, sp, o :: r.value.0 < f' <= f - 1 ==> !ValidRest(s, f', sp, o)
    requires r.None? ==> forall f': nat, sp, o :: k + 5 < f' <= f - 1 ==> !ValidRest(s, f', sp, o)
    ensures r.Some? ==> forall f': nat, sp, o :: r.value.0 < f' <= f ==> !ValidRest(s, f', sp, o)
    ensures r.None? ==> forall f': nat, sp, o :: k + 5 < f' <= f ==> !ValidRest(s, f', sp, o)
  {
  }

  /** The parse the engine reports for the tail at `k`. */
  function TailChoice(s: string, k: nat): (r: Option<TailParse>)
    requires k <= |s|
    ensures r.Some? ==> ValidTail(s, k, r.value)
    ensures r.Some? ==> forall tp :: TailBefore(tp, r.value) ==> !ValidTail(s, k, tp)
    ensures r.None? ==> forall tp :: !ValidTail(s, k, tp)
  {
    var viaFrom := if StartsAt(s, k, "from ") then FromChoice(s, k, RunEnd(s, k + 5, IsToken)) else None;
    if viaFrom.Some? then
      var (f, rest) := viaFrom.value;
      Some(TailParse(Some(f), rest.0, rest.1))
    else
      match RestChoice(s, k)
      case Some(rest) => Some(TailParse(None, rest.0, rest.1))
      case None => None
  }

  /** The prefix `s[..k]` is a legal `.+?` and the tail from `k` parses as `tp`. */
  predicate IsVersionsMatch(s: string, k: nat, tp: TailParse) {
    1 <= k <= RunEnd(s, 0, IsDot) && ValidTail(s, k, tp)
  }

  /** The shortest prefix `k' >= k` whose tail parses, with its first parse. */
  function LazyPrefix(s: string, k: nat): (r: Option<(nat, TailParse)>)
    requires 1 <= k
    ensures r.Some? ==> k <= r.value.0 && IsVersionsMatch(s, r.value.0, r.value.1)
    ensures r.Some? ==> forall tp: TailParse :: TailBefore(tp, r.value.1) ==> !ValidTail(s, r.value.0, tp)
    ensures r.Some? ==> forall k': nat, tp: TailParse :: k <= k' < r.value.0 ==> !IsVersionsMatch(s, k', tp)
    ensures r.None? ==> forall k': nat, tp: TailParse :: k <= k' ==> !IsVersionsMatch(s, k', tp)
    decreases |s| - k
  {
    if k > RunEnd(s, 0, IsDot) then None
    else
      match TailChoice(s, k)
      case Some(tp) => Some((k, tp))
      case None =>
        var r := LazyPrefix(s, k + 1);
        NoVersionsMatchBefore(s, k, r);
        r
  }

  /** No match at `k` and none from `k + 1` up to the next one found: none
      from `k` either. */
  lemma NoVersionsMatchBefore(s: string, k: nat, r: Option<(nat, TailParse)>)
    requires forall tp :: !ValidTail(s, k, tp)
    requires r.Some? ==> k + 1 <= r.value.0 && forall k': nat, tp: TailParse :: k + 1 <= k' < r.value.0 ==> !IsVersionsMatch(s, k', tp)
    requires r.None? ==> forall k': nat, tp: TailParse :: k + 1 <= k' ==> !IsVersionsMatch(s, k', tp)
    ensures r.Some? ==> forall k': nat, tp: TailParse :: k <= k' < r.value.0 ==> !IsVersionsMatch(s, k', tp)
    ensures r.None? ==> forall k': nat, tp: TailParse :: k <= k' ==> !IsVersionsMatch(s, k', tp)
  {
  }

  /** No prefix and tail match: the pattern fails on `s`. */
  ghost predicate NoVersionsMatch(s: string) {
    forall k: nat, tp: TailParse :: !IsVersionsMatch(s, k, tp)
  }

  /** The match the engine reports: the shortest prefix, then the first parse. */
  ghost predicate IsFirstVersionsMatch(s: string, k: nat, tp: TailParse) {
    IsVersionsMatch(s, k, tp)
    && (forall k': nat, tp': TailParse :: k' < k ==> !IsVersionsMatch(s, k', tp'))
    && (forall tp': TailParse :: TailBefore(tp', tp) ==> !ValidTail(s, k, tp'))
  }

  datatype VersionsInfo = VersionsInfo(fromVersion: Option<string>, toVersion: Option<string>, remainingText: string)

  /** Where `to ` starts in the parse `tp` of the tail at `k`. */
  function ToStart(k: nat, tp: TailParse): nat {
    AfterFrom(k, tp) + if tp.space then 1 else 0
  }

  /** The match at (`k`, `tp`) is the one the engine reports, and `r` holds
      the prefix and the two version tokens. */
  ghost predicate VersionsGroups(s: string, k: nat, tp: TailParse, r: VersionsInfo) {
    IsFirstVersionsMatch(s, k, tp)
    && r.remainingText == s[..k]
    && (match tp.fromEnd
        case None => r.fromVersion.None?
        case Some(f) => r.fromVersion == Some(s[k + 5..f]))
    && (match tp.toEnd
        case None => r.toVersion.None?
        case Some(t) => r.toVersion == Some(s[ToStart(k, tp) + 3..t]))
  }

  lemma VersionsWitness(s: string, k: nat, tp: TailParse, r: VersionsInfo)
    requires VersionsGroups(s, k, tp, r)
    ensures exists k': nat, tp': TailParse :: VersionsGroups(s, k', tp', r)
  {
  }

  /** `extractVersions`: the shortest non-empty prefix after which the text is
      `(from F)? ?(to T)?` and trailing whitespace, with F and T. */
  function ExtractVersions(s: string): (r: VersionsInfo)
    ensures NoVersionsMatch(s) ==> r == VersionsInfo(None, None, s)
    ensures !NoVersionsMatch(s) ==> exists k: nat, tp: TailParse :: VersionsGroups(s, k, tp, r)
  {
    match LazyPrefix(s, 1)
    case None => VersionsInfo(None, None, s)
    case Some((k, tp)) =>
      var from := match tp.fromEnd case None => None case Some(f) => Some(s[k + 5..f]);
      var to := match tp.toEnd case None => None case Some(t) => Some(s[ToStart(k, tp) + 3..t]);
      var r := VersionsInfo(from, to, s[..k]);
      assert IsFirstVersionsMatch(s, k, tp);
      VersionsWitness(s, k, tp, r);
      r
  }

  /** The from-token of a tail parse. */
  lemma FromTokenOfTail(s: string, k: nat, f: nat)
    requires FromOk(s, k, f)
    ensures var v := s[k + 5..f];
            |v| > 0 && (forall i :: 0 <= i < |v| ==> IsToken(v[i])) && StartsAt(s, k, "from " + v)
  {
    var v := s[k + 5..f];
    assert forall i :: 0 <= i < |v| ==> v[i] == s[k + 5 + i];
    assert s[k..f] == s[k..k + 5] + v;
  }

  /** The to-token of a tail parse. */
  lemma ToTokenOfTail(s: string, q: nat, t: nat)
    requires ToOk(s, q, t) && AllSpaceFrom(s, t)
    ensures var v := s[q + 3..t];
            |v| > 0 && (forall i :: 0 <= i < |v| ==> IsToken(v[i]))
            && StartsAt(s, q, "to " + v) && AllSpaceFrom(s, q + 3 + |v|)
  {
    var v := s[q + 3..t];
    assert forall i :: 0 <= i < |v| ==> v[i] == s[q + 3 + i];
    assert s[q..t] == s[q..q + 3] + v;
  }

  /** The to-part of a tail parse starts after the from-part and the space. */
  lemma TailTo(s: string, k: nat, tp: TailParse)
    requires ValidTail(s, k, tp)
    ensures ValidTo(s, ToStart(k, tp), tp.toEnd)
  {
  }

  /** A from-version is a non-empty whitespace-free token that follows `from `. */
  lemma FromVersionToken(s: string)
    ensures var v := ExtractVersions(s).fromVersion;
            v.Some? ==> |v.value| > 0 && (forall i :: 0 <= i < |v.value| ==> IsToken(v.value[i]))
                        && exists k: nat :: StartsAt(s, k, "from " + v.value)
  {
    match LazyPrefix(s, 1)
    case None =>
    case Some((k, tp)) =>
      if tp.fromEnd.Some? {
        FromTokenOfTail(s, k, tp.fromEnd.value);
      }
  }

  /** A to-version is a non-empty whitespace-free token that follows `to ` and
      after which only whitespace remains: `to <token>` is the last token. */
  lemma ToVersionLast(s: string)
    ensures var v := ExtractVersions(s).toVersion;
            v.Some? ==> |v.value| > 0 && (forall i :: 0 <= i < |v.value| ==> IsToken(v.value[i]))
                        && exists q: nat :: StartsAt(s, q, "to " + v.value) && AllSpaceFrom(s, q + 3 + |v.value|)
  {
    match LazyPrefix(s, 1)
    case None =>
    case Some((k, tp)) =>
      if tp.toEnd.Some? {
        var v := s[ToStart(k, tp) + 3..tp.toEnd.value];
        assert ExtractVersions(s).toVersion == Some(v);
        ToVersionOfTail(s, k, tp);
      }
  }

  /** The to-version a tail takes is a token run preceded by `to ` and
      followed only by whitespace. */
  lemma ToVersionOfTail(s: string, k: nat, tp: TailParse)
    requires ValidTail(s, k, tp) && tp.toEnd.Some?
    ensures var q := ToStart(k, tp);
            var v := s[q + 3..tp.toEnd.value];
            |v| > 0 && (forall i :: 0 <= i < |v| ==> IsToken(v[i]))
            && StartsAt(s, q, "to " + v) && AllSpaceFrom(s, q + 3 + |v|)
  {
    TailTo(s, k, tp);
    ToTokenOfTail(s, ToStart(k, tp), tp.toEnd.value);
  }

  // ---------------------------------------------------------------------
  // Stage 5: /Update (buildkite plugin |dependency |module |)(?<name>\S+)(monorepo|)/
  // ---------------------------------------------------------------------

  /** The qualifier alternatives, in the order the engine tries them. */
  const Qualifiers: seq<string> := ["buildkite plugin ", "dependency ", "module ", ""]

  /** Qualifier `q` is present at `p` and a whitespace-free character follows. */
  predicate QualifierFits(s: string, p: nat, q: string) {
    StartsAt(s, p, q) && p + |q| < |s| && IsToken(s[p + |q|])
  }

  /** The pattern matches at `i`: `Update ` followed by a whitespace-free
      character, which the empty qualifier then accepts. */
  predicate IsDependencyStart(s: string, i: nat) {
    StartsAt(s, i, "Update ") && QualifierFits(s, i + 7, "")
  }

  /** Index of the first qualifier that fits at `p`. */
  function QualifierChoice(s: string, p: nat): (m: nat)
    requires QualifierFits(s, p, "")
    ensures m < |Qualifiers| && QualifierFits(s, p, Qualifiers[m])
    ensures forall m' :: 0 <= m' < m ==> !QualifierFits(s, p, Qualifiers[m'])
  {
    if QualifierFits(s, p, Qualifiers[0]) then 0
    else if QualifierFits(s, p, Qualifiers[1]) then 1
    else if QualifierFits(s, p, Qualifiers[2]) then 2
    else 3
  }

  /** The first match start at or after `i`. */
  function FindDependencyFrom(s: string, i: nat): (r: Option<nat>)
    ensures r.Some? ==> i <= r.value && IsDependencyStart(s, r.value)
    ensures r.Some? ==> forall i': nat :: i <= i' < r.value ==> !IsDependencyStart(s, i')
    ensures r.None? ==> forall i': nat :: i <= i' ==> !IsDependencyStart(s, i')
    decreases |s| - i
  {
    if i >= |s| then None
    else if IsDependencyStart(s, i) then Some(i)
    else FindDependencyFrom(s, i + 1)
  }

  datatype DependencyInfo = DependencyInfo(dependency: Option<string>, remainingText: string)

  /** The match at `i` with qualifier `m` is the one the engine reports, and
      the name is the whole whitespace-free run after the qualifier (the
      trailing `(monorepo|)` can then only match empty). */
  ghost predicate DependencyGroups(s: string, i: nat, m: nat, r: DependencyInfo) {
    IsDependencyStart(s, i)
    && (forall i': nat :: i' < i ==> !IsDependencyStart(s, i'))
    && m < |Qualifiers| && QualifierFits(s, i + 7, Qualifiers[m])
    && (forall m' :: 0 <= m' < m ==> !QualifierFits(s, i + 7, Qualifiers[m']))
    && var p := i + 7 + |Qualifiers[m]|;
       r.dependency == Some(NameAt(s, p))
  }

  lemma DependencyWitness(s: string, i: nat, m: nat, r: DependencyInfo)
    requires DependencyGroups(s, i, m, r)
    ensures exists i': nat, m': nat :: DependencyGroups(s, i', m', r)
  {
  }

  /** The whitespace-free run that starts at `p`: what `\S+` takes. */
  function NameAt(s: string, p: nat): string
    requires p <= |s|
  {
    s[p..RunEnd(s, p, IsToken)]
  }

  /** The whitespace-free run at a whitespace-free character is non-empty
      and made of whitespace-free characters. */
  lemma TokenRunNonEmpty(s: string, p: nat)
    requires p < |s| && IsToken(s[p])
    ensures var name := NameAt(s, p);
            |name| > 0 && forall k :: 0 <= k < |name| ==> IsToken(name[k])
  {
    var e := RunEnd(s, p, IsToken);
    assert forall k :: 0 <= k < e - p ==> s[p..e][k] == s[p + k];
  }

  /** A whitespace-free run is its own trim. */
  lemma TokenRunTrim(s: string, p: nat)
    requires p <= |s|
    ensures Trim(NameAt(s, p)) == NameAt(s, p)
  {
    var e := RunEnd(s, p, IsToken);
    var name := s[p..e];
    assert name != [] ==> name[0] == s[p] && name[|name| - 1] == s[e - 1];
    TrimIdentity(name);
  }

  /** The record for the name that follows the qualifier chosen at `i`,
      trimmed. */
  function DependencyAt(s: string, i: nat): DependencyInfo
    requires IsDependencyStart(s, i)
  {
    var p := i + 7 + |Qualifiers[QualifierChoice(s, i + 7)]|;
    DependencyInfo(Some(Trim(NameAt(s, p))), "")
  }

  /** The match found from the start is the one the engine reports, and
      its name is a non-empty whitespace-free run. */
  lemma DependencyFound(s: string, i: nat)
    requires IsDependencyStart(s, i) && forall i': nat :: i' < i ==> !IsDependencyStart(s, i')
    ensures var r := DependencyAt(s, i);
            && |r.dependency.value| > 0 && (forall k :: 0 <= k < |r.dependency.value| ==> IsToken(r.dependency.value[k]))
            && exists i': nat, m': nat :: DependencyGroups(s, i', m', r)
  {
    DependencyName(s, i);
    DependencyMatch(s, i);
  }

  lemma DependencyName(s: string, i: nat)
    requires IsDependencyStart(s, i)
    ensures var r := DependencyAt(s, i);
            |r.dependency.value| > 0 && forall k :: 0 <= k < |r.dependency.value| ==> IsToken(r.dependency.value[k])
  {
    var m := QualifierChoice(s, i + 7);
    var p := i + 7 + |Qualifiers[m]|;
    TokenRunTrim(s, p);
    TokenRunNonEmpty(s, p);
  }

  lemma DependencyMatch(s: string, i: nat)
    requires IsDependencyStart(s, i) && forall i': nat :: i' < i ==> !IsDependencyStart(s, i')
    ensures exists i': nat, m': nat :: DependencyGroups(s, i', m', DependencyAt(s, i))
  {
    var r := DependencyAt(s, i);
    var m := QualifierChoice(s, i + 7);
    var p := i + 7 + |Qualifiers[m]|;
    DependencyUntrimmed(s, i);
    assert DependencyGroups(s, i, m, r);
    DependencyWitness(s, i, m, r);
  }

  /** The name is its own trim. */
  lemma DependencyUntrimmed(s: string, i: nat)
    requires IsDependencyStart(s, i)
    ensures DependencyAt(s, i).dependency == Some(NameAt(s, i + 7 + |Qualifiers[QualifierChoice(s, i + 7)]|))
  {
    var p := i + 7 + |Qualifiers[QualifierChoice(s, i + 7)]|;
    assert Trim(NameAt(s, p)) == NameAt(s, p) by { TokenRunTrim(s, p); }
  }

  /** `extractDependency`: the name after the first `Update `, or `null`; on
      a match nothing remains for a later stage. */
  function ExtractDependency(s: string): (r: DependencyInfo)
    ensures r.dependency.None? <==> forall i: nat :: !IsDependencyStart(s, i)
    ensures r.dependency.None? ==> r.remainingText == s
    ensures r.dependency.Some? ==> r.remainingText == "" && exists i: nat, m: nat :: DependencyGroups(s, i, m, r)
    ensures r.dependency.Some? ==>
              |r.dependency.value| > 0 && forall k :: 0 <= k < |r.dependency.value| ==> IsToken(r.dependency.value[k])
  {
    match FindDependencyFrom(s, 0)
    case None => DependencyInfo(None, s)
    case Some(i) =>
      DependencyFound(s, i);
      DependencyAt(s, i)
  }
}
