/** `extractUpdateInfo` (scans/extractUpdateInfo.ts and its two copies): the
    global scan for `-->(?<_line>[^\n]+Update[^\n]+)` over the dashboard body,
    and the five stages applied to each captured line. */
module Extractor {
  import opened Wrappers
  import opened Text
  import opened UpdateModel
  import opened Stages
  import opened Classify

  // ---------------------------------------------------------------------
  // Line selection
  // ---------------------------------------------------------------------

  /** `Update` occurs at some `i` with `lo < i` and at least one character
      between its end and `hi`. */
  predicate UpdateInside(s: string, lo: nat, hi: nat) {
    exists i: nat :: lo < i < hi - 6 && StartsAt(s, i, "Update")
  }

  /** Where the current line of `t` ends: its first `\n`, or the end. */
  function LineEnd(t: string): (e: nat)
    ensures e <= |t| && (e == |t| || t[e] == '\n')
    ensures forall i :: 0 <= i < e ==> t[i] != '\n'
  {
    RunEnd(t, 0, NotNewline)
  }

  /** The pattern matches at the start of `t`: `-->`, then the rest of the
      line holds `Update` with a character on each side. Both `[^\n]+` are
      greedy, so the match always runs to the end of the line. */
  predicate MatchHere(t: string) {
    StartsAt(t, 0, "-->") && UpdateInside(t, 3, LineEnd(t))
  }

  /** The `_line` captures of `text.matchAll(...)`, in order: the engine tries
      each position in turn and resumes after the end of each match. */
  function Captures(t: string): (r: seq<string>)
    decreases |t|
  {
    if t == [] then []
    else if MatchHere(t) then [t[3..LineEnd(t)]] + Captures(t[LineEnd(t)..])
    else Captures(t[1..])
  }

  /** Reference definition, line by line: a physical line is decided by its
      first `-->`; the text after it is selected when it holds `Update` with
      a character on each side. */
  function SelectLine(line: string): (r: seq<string>)
    ensures |r| <= 1
  {
    match IndexOf(line, "-->", 0)
    case None => []
    case Some(q) =>
      var rest := line[q + 3..];
      if UpdateInside(rest, 0, |rest|) then [rest] else []
  }

  function Concat(xs: seq<seq<string>>): seq<string> {
    if xs == [] then [] else xs[0] + Concat(xs[1..])
  }

  function SelectAll(lines: seq<string>): (r: seq<seq<string>>)
    ensures |r| == |lines|
    ensures forall i :: 0 <= i < |lines| ==> r[i] == SelectLine(lines[i])
  {
    if lines == [] then [] else [SelectLine(lines[0])] + SelectAll(lines[1..])
  }

  /** The selected lines of the body, in order: at most one per physical line. */
  function SelectedLines(text: string): seq<string> {
    Concat(SelectAll(Split(text, "\n")))
  }

  lemma UpdateInsideSuffix(s: string, a: nat, lo: nat, hi: nat)
    requires a <= |s|
    ensures UpdateInside(s[a..], lo, hi) <==> UpdateInside(s, a + lo, a + hi)
  {
    if UpdateInside(s[a..], lo, hi) {
      var i: nat :| lo < i < hi - 6 && StartsAt(s[a..], i, "Update");
      StartsAtSuffix(s, a, i, "Update");
    }
    if UpdateInside(s, a + lo, a + hi) {
      var j: nat :| a + lo < j < a + hi - 6 && StartsAt(s, j, "Update");
      StartsAtSuffix(s, a, j - a, "Update");
    }
  }

  lemma UpdateInsidePrefix(s: string, n: nat, lo: nat, hi: nat)
    requires hi <= n <= |s|
    ensures UpdateInside(s[..n], lo, hi) <==> UpdateInside(s, lo, hi)
  {
    if UpdateInside(s[..n], lo, hi) {
      var i: nat :| lo < i < hi - 6 && StartsAt(s[..n], i, "Update");
      StartsAtPrefix(s, n, i, "Update");
    }
    if UpdateInside(s, lo, hi) {
      var i: nat :| lo < i < hi - 6 && StartsAt(s, i, "Update");
      StartsAtPrefix(s, n, i, "Update");
    }
  }

  /** Widening the window keeps an occurrence. */
  lemma UpdateInsideWiden(s: string, lo: nat, lo': nat, hi: nat, hi': nat)
    requires lo <= lo' && hi' <= hi
    ensures UpdateInside(s, lo', hi') ==> UpdateInside(s, lo, hi)
  {
  }

  /** A line whose first character does not start a match selects what the
      line without that character selects: a later `-->` leaves a shorter
      rest, which holds `Update` only if the earlier rest did. */
  lemma SelectDropFirst(w: string)
    requires |w| >= 1 && !(StartsAt(w, 0, "-->") && UpdateInside(w, 3, |w|))
    ensures SelectLine(w) == SelectLine(w[1..])
  {
    var v := w[1..];
    if !StartsAt(w, 0, "-->") {
      forall j: nat ensures StartsAt(v, j, "-->") <==> StartsAt(w, j + 1, "-->") {
        StartsAtSuffix(w, 1, j, "-->");
      }
      var at, at' := IndexOf(w, "-->", 0), IndexOf(v, "-->", 0);
      if at'.Some? {
        assert StartsAt(w, at'.value + 1, "-->");
        assert at.Some?;
        assert at.value != 0;
        assert StartsAt(v, at.value - 1, "-->");
        assert at.value == at'.value + 1;
        assert w[at.value + 3..] == v[at'.value + 3..];
      } else {
        forall j: nat | 1 <= j ensures !StartsAt(w, j, "-->") {
          assert !StartsAt(v, j - 1, "-->");
        }
      }
    } else {
      UpdateInsideSuffix(w, 3, 0, |w| - 3);
      assert SelectLine(w) == [];
      match IndexOf(v, "-->", 0)
      case None =>
      case Some(q) =>
        var rest := v[q + 3..];
        assert rest == w[q + 4..];
        UpdateInsideSuffix(w, q + 4, 0, |rest|);
        UpdateInsideWiden(w, 3, q + 4, |w|, q + 4 + |rest|);
    }
  }

  /** The scan from the start of a line captures what the line selects, then
      continues after the line. */
  lemma {:induction false} LineCaptures(u: string)
    ensures Captures(u) == SelectLine(u[..LineEnd(u)]) + Captures(u[LineEnd(u)..])
    decreases |u|
  {
    if u == [] {
      assert IndexOf(u[..LineEnd(u)], "-->", 0).None?;
    } else if MatchHere(u) {
      MatchCaptures(u);
    } else if LineEnd(u) == 0 {
      NewlineCaptures(u);
    } else {
      var v := u[1..];
      assert LineEnd(v) == LineEnd(u) - 1 by { LineEndTail(u); }
      LineCaptures(v);
      SkipCaptures(u);
    }
  }

  /** A match at the start captures the rest of the line, which is what the
      line selects. */
  lemma MatchCaptures(u: string)
    requires MatchHere(u)
    ensures Captures(u) == SelectLine(u[..LineEnd(u)]) + Captures(u[LineEnd(u)..])
  {
    var e := LineEnd(u);
    var w := u[..e];
    assert StartsAt(w, 0, "-->") by { StartsAtPrefix(u, e, 0, "-->"); }
    assert IndexOf(w, "-->", 0) == Some(0);
    assert w[3..] == u[3..e];
    UpdateInsideSuffix(w, 3, 0, e - 3);
    UpdateInsidePrefix(u, e, 3, e);
  }

  /** At a `\n` the line is empty and selects nothing. */
  lemma NewlineCaptures(u: string)
    requires u != [] && LineEnd(u) == 0
    ensures Captures(u) == SelectLine(u[..LineEnd(u)]) + Captures(u[LineEnd(u)..])
  {
    assert u[..0] == [];
    assert IndexOf(u[..0], "-->", 0).None?;
    assert u[0..] == u;
    assert u[0] == '\n';
    NotStartsAtChar(u, 0, "-->", 0);
  }

  /** Inside a line, the line of the tail is one character shorter. */
  lemma LineEndTail(u: string)
    requires u != [] && LineEnd(u) > 0
    ensures LineEnd(u[1..]) == LineEnd(u) - 1
  {
    var e := LineEnd(u);
    RunEndInside(u, 0, 1, NotNewline);
    RunEndUnique(u[1..], 0, e - 1, NotNewline);
  }

  /** Where no match starts, the scan moves one character on; so does the
      line rule. */
  lemma SkipCaptures(u: string)
    requires u != [] && !MatchHere(u) && LineEnd(u) > 0
    requires LineEnd(u[1..]) == LineEnd(u) - 1
    requires Captures(u[1..]) == SelectLine(u[1..][..LineEnd(u[1..])]) + Captures(u[1..][LineEnd(u[1..])..])
    ensures Captures(u) == SelectLine(u[..LineEnd(u)]) + Captures(u[LineEnd(u)..])
  {
    var e := LineEnd(u);
    var v := u[1..];
    assert Captures(u) == Captures(v);
    SkipSelects(u);
    assert v[e - 1..] == u[e..];
  }

  /** Dropping a first character that starts no match leaves the line's
      selection unchanged. */
  lemma SkipSelects(u: string)
    requires u != [] && !MatchHere(u) && LineEnd(u) > 0
    ensures SelectLine(u[1..][..LineEnd(u) - 1]) == SelectLine(u[..LineEnd(u)])
  {
    var e := LineEnd(u);
    var w := u[..e];
    assert u[1..][..e - 1] == w[1..];
    assert !(StartsAt(w, 0, "-->") && UpdateInside(w, 3, |w|)) by {
      if StartsAt(w, 0, "-->") {
        StartsAtPrefix(u, e, 0, "-->");
        UpdateInsidePrefix(u, e, 3, e);
      }
    }
    SelectDropFirst(w);
  }

  lemma ConcatSelectCons(line: string, rest: seq<string>)
    ensures Concat(SelectAll([line] + rest)) == SelectLine(line) + Concat(SelectAll(rest))
  {
    var all := SelectAll([line] + rest);
    assert all == [SelectLine(line)] + SelectAll(rest);
    assert all[1..] == SelectAll(rest);
  }

  /** The global scan selects exactly the lines the line-by-line rule
      selects, in body order. */
  lemma {:induction false} CapturesSelected(t: string)
    ensures Captures(t) == SelectedLines(t)
    decreases |t|
  {
    if LineEnd(t) == |t| {
      LastLineSelected(t);
    } else {
      var e := LineEnd(t);
      var first, rest := SelectLine(t[..e]), t[e + 1..];
      CapturesSelected(rest);
      assert Captures(t) == first + Captures(rest) by { CapturesNextLine(t); }
      assert SelectedLines(t) == first + SelectedLines(rest) by { SelectedNextLine(t); }
    }
  }

  /** On the last line both sides select what that line selects. */
  lemma LastLineSelected(t: string)
    requires LineEnd(t) == |t|
    ensures Captures(t) == SelectedLines(t)
  {
    LineCaptures(t);
    assert t[..|t|] == t;
    assert t[|t|..] == [];
    assert '\n' !in t;
    SplitFree(t, '\n');
    ConcatSelectCons(t, []);
  }

  /** Past a line, the scan resumes after its `\n`, where nothing matches. */
  lemma CapturesNextLine(t: string)
    requires LineEnd(t) < |t|
    ensures var e := LineEnd(t);
            Captures(t) == SelectLine(t[..e]) + Captures(t[e + 1..])
  {
    var e := LineEnd(t);
    LineCaptures(t);
    var u := t[e..];
    assert Captures(u) == Captures(u[1..]) by {
      assert u[0] == '\n';
      NotStartsAtChar(u, 0, "-->", 0);
    }
    assert u[1..] == t[e + 1..];
  }

  /** The line-by-line rule takes the first line, then the rest. */
  lemma SelectedNextLine(t: string)
    requires LineEnd(t) < |t|
    ensures var e := LineEnd(t);
            SelectedLines(t) == SelectLine(t[..e]) + SelectedLines(t[e + 1..])
  {
    var e := LineEnd(t);
    var line, rest := t[..e], t[e + 1..];
    assert t == line + ['\n'] + rest;
    assert '\n' !in line;
    SplitFreeCons(line, '\n', rest);
    ConcatSelectCons(line, Split(rest, "\n"));
  }

  /** A line without `Update` anywhere (lock-file maintenance, the rebase-all
      checkbox) is never selected. */
  lemma NoUpdateNotSelected(line: string)
    requires forall i: nat :: !StartsAt(line, i, "Update")
    ensures SelectLine(line) == []
  {
    match IndexOf(line, "-->", 0)
    case None =>
    case Some(q) =>
      var rest := line[q + 3..];
      UpdateInsideSuffix(line, q + 3, 0, |rest|);
  }

  // ---------------------------------------------------------------------
  // The five stages on one line
  // ---------------------------------------------------------------------

  /** The record for one captured line: the stages run in a fixed order,
      each on the text the previous one left. With `infer`, a line without an
      explicit class gets the class `detectUpdateType` finds, when both
      versions are present and non-empty; an explicit class always wins. */
  function ParseLine(line: string, infer: bool): UpdateInfo {
    var pr := ExtractPullRequest(line);
    var ty := ExtractUpdateType(pr.remainingText);
    var pk := ExtractPackages(ty.remainingText);
    var vs := ExtractVersions(pk.remainingText);
    var dep := ExtractDependency(vs.remainingText);
    var detected :=
      if infer && Truthy(vs.fromVersion) && Truthy(vs.toVersion)
      then DetectUpdateType(vs.fromVersion.value, vs.toVersion.value)
      else None;
    UpdateInfo(
      dep.dependency,
      vs.fromVersion,
      vs.toVersion,
      if ty.updateType.Some? then ty.updateType else detected,
      pr.pullRequest,
      pk.packages)
  }

  /** The class the line states explicitly, before any inference. */
  function ExplicitType(line: string): Option<UpdateType> {
    ExtractUpdateType(ExtractPullRequest(line).remainingText).updateType
  }

  /** An explicit `(major|minor|patch)` always wins. */
  lemma ExplicitTypeWins(line: string, infer: bool)
    requires ExplicitType(line).Some?
    ensures ParseLine(line, infer).updateType == ExplicitType(line)
  {
  }

  /** Without inference the class is the explicit one; with it, a class the
      line does not state comes from comparing two present, non-empty
      versions. */
  lemma InferredType(line: string)
    ensures ParseLine(line, false).updateType == ExplicitType(line)
    ensures var r := ParseLine(line, true);
            ExplicitType(line).None? ==>
              if Truthy(r.fromVersion) && Truthy(r.toVersion)
              then r.updateType == DetectUpdateType(r.fromVersion.value, r.toVersion.value)
              else r.updateType.None?
  {
  }

  /** The copies with and without inference differ in the class alone. */
  lemma CopiesDifferOnlyInType(line: string)
    ensures ParseLine(line, false) == ParseLine(line, true).(updateType := ExplicitType(line))
  {
  }

  /** Every field of a record has the shape its stage guarantees. */
  lemma RecordShape(line: string, infer: bool)
    ensures var r := ParseLine(line, infer);
            && (r.pullRequest.Some? ==> |r.pullRequest.value| > 0 && AllDigits(r.pullRequest.value))
            && (r.dependency.Some? ==> |r.dependency.value| > 0 && NoSpace(r.dependency.value))
            && (r.fromVersion.Some? ==> |r.fromVersion.value| > 0 && NoSpace(r.fromVersion.value))
            && (r.toVersion.Some? ==> |r.toVersion.value| > 0 && NoSpace(r.toVersion.value))
  {
    var pr := ExtractPullRequest(line);
    var ty := ExtractUpdateType(pr.remainingText);
    var pk := ExtractPackages(ty.remainingText);
    FromVersionToken(pk.remainingText);
    ToVersionLast(pk.remainingText);
  }

  /** No whitespace in `s`. */
  predicate NoSpace(s: string) {
    forall i :: 0 <= i < |s| ==> IsToken(s[i])
  }

  /** One record per line, in order, `parse` being the per-line pipeline. */
  function ParseAll(lines: seq<string>, parse: string -> UpdateInfo): (r: seq<UpdateInfo>)
    ensures |r| == |lines|
  {
    if lines == [] then [] else [parse(lines[0])] + ParseAll(lines[1..], parse)
  }

  /** Record `i` is the record of line `i`. */
  lemma {:induction false} ParseAllAt(lines: seq<string>, parse: string -> UpdateInfo, i: nat)
    requires i < |lines|
    ensures ParseAll(lines, parse)[i] == parse(lines[i])
    decreases i
  {
    if i > 0 {
      ParseAllAt(lines[1..], parse, i - 1);
    }
  }

  lemma {:induction false} ParseAllAppend(a: seq<string>, b: seq<string>, parse: string -> UpdateInfo)
    ensures ParseAll(a + b, parse) == ParseAll(a, parse) + ParseAll(b, parse)
    decreases |a|
  {
    if a == [] {
      assert a + b == b;
    } else {
      assert (a + b)[0] == a[0];
      assert (a + b)[1..] == a[1..] + b;
      ParseAllAppend(a[1..], b, parse);
    }
  }

  /** The pipeline of one copy of `extractUpdateInfo`. */
  function Parser(infer: bool): string -> UpdateInfo {
    line => ParseLine(line, infer)
  }

  /** The records of a dashboard body: one per selected line, in order. */
  function Records(text: string, infer: bool): seq<UpdateInfo> {
    ParseAll(SelectedLines(text), Parser(infer))
  }

  /** The records of the copies without class inference, as a function of
      the body. */
  function PlainRecords(body: string): seq<UpdateInfo> {
    Records(body, false)
  }

  /** The records of the canonical copy, with class inference. */
  function InferredRecords(body: string): seq<UpdateInfo> {
    Records(body, true)
  }

  lemma CaptureStep(rest: string, matched: seq<string>)
    requires MatchHere(rest)
    ensures var e := LineEnd(rest);
            matched + Captures(rest) == (matched + [rest[3..e]]) + Captures(rest[e..])
  {
    var e := LineEnd(rest);
    assert Captures(rest) == [rest[3..e]] + Captures(rest[e..]);
  }

  lemma ParseAllSnoc(matched: seq<string>, line: string, parse: string -> UpdateInfo)
    ensures ParseAll(matched + [line], parse) == ParseAll(matched, parse) + [parse(line)]
  {
    ParseAllAppend(matched, [line], parse);
    assert [line][1..] == [];
  }

  /** The `matchAll` loop of `extractUpdateInfo`: each match's `_line` goes
      through the per-line pipeline and the record is pushed onto
      `pendingUpdates`. */
  method CollectRecords(text: string, parse: string -> UpdateInfo) returns (pending: seq<UpdateInfo>)
    ensures pending == ParseAll(Captures(text), parse)
  {
    pending := [];
    ghost var matched: seq<string> := [];
    var pos := 0;
    while pos < |text|
      invariant pos <= |text|
      invariant matched + Captures(text[pos..]) == Captures(text)
      invariant pending == ParseAll(matched, parse)
      decreases |text| - pos
    {
      var rest := text[pos..];
      if MatchHere(rest) {
        var e := LineEnd(rest);
        var line := rest[3..e];
        CaptureStep(rest, matched);
        assert rest[e..] == text[pos + e..];
        ParseAllSnoc(matched, line, parse);
        pending := pending + [parse(line)];
        matched := matched + [line];
        pos := pos + e;
      } else {
        assert rest[1..] == text[pos + 1..];
        pos := pos + 1;
      }
    }
    assert text[pos..] == [];
    assert matched + [] == matched;
  }

  /** `extractUpdateInfo`: one record per selected line of the body, in body
      order, each the line's record under the given inference setting. */
  method ExtractAll(text: string, infer: bool) returns (pending: seq<UpdateInfo>)
    ensures pending == Records(text, infer)
    ensures |pending| == |SelectedLines(text)|
    ensures forall i :: 0 <= i < |pending| ==> pending[i] == ParseLine(SelectedLines(text)[i], infer)
  {
    pending := CollectRecords(text, Parser(infer));
    CapturesSelected(text);
    forall i | 0 <= i < |pending|
      ensures pending[i] == ParseLine(SelectedLines(text)[i], infer)
    {
      ParseAllAt(SelectedLines(text), Parser(infer), i);
    }
  }

  /** The canonical `extractUpdateInfo` of scans/extractUpdateInfo.ts: the
      shared pipeline with class inference. Each record is the record the
      copy without inference gives, except that a line stating no class gets
      the class `detectUpdateType` finds for two present versions. */
  method ExtractUpdateInfo(text: string) returns (pending: seq<UpdateInfo>)
    ensures pending == Records(text, true)
    ensures |pending| == |SelectedLines(text)|
    ensures forall i :: 0 <= i < |pending| ==>
              var line, r := SelectedLines(text)[i], pending[i];
              && r.(updateType := ExplicitType(line)) == ParseLine(line, false)
              && (ExplicitType(line).Some? ==> r.updateType == ExplicitType(line))
              && (ExplicitType(line).None? && Truthy(r.fromVersion) && Truthy(r.toVersion) ==>
                    r.updateType == DetectUpdateType(r.fromVersion.value, r.toVersion.value))
  {
    pending := ExtractAll(text, true);
    forall i | 0 <= i < |pending|
      ensures var line, r := SelectedLines(text)[i], pending[i];
              && r.(updateType := ExplicitType(line)) == ParseLine(line, false)
              && (ExplicitType(line).Some? ==> r.updateType == ExplicitType(line))
              && (ExplicitType(line).None? && Truthy(r.fromVersion) && Truthy(r.toVersion) ==>
                    r.updateType == DetectUpdateType(r.fromVersion.value, r.toVersion.value))
    {
      var line := SelectedLines(text)[i];
      CopiesDifferOnlyInType(line);
      InferredType(line);
      if ExplicitType(line).Some? {
        ExplicitTypeWins(line, true);
      }
    }
  }

  /** The copies of `extractUpdateInfo` in listDependencies.ts and
      scan/scan.ts: the shared pipeline without class inference, so every
      class is the one the line states. */
  method ExtractWithoutInference(text: string) returns (pending: seq<UpdateInfo>)
    ensures pending == Records(text, false)
    ensures |pending| == |SelectedLines(text)|
    ensures forall i :: 0 <= i < |pending| ==> pending[i].updateType == ExplicitType(SelectedLines(text)[i])
  {
    pending := ExtractAll(text, false);
    forall i | 0 <= i < |pending|
      ensures pending[i].updateType == ExplicitType(SelectedLines(text)[i])
    {
      InferredType(SelectedLines(text)[i]);
    }
  }
}
