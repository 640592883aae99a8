/** String primitives with JavaScript semantics: the character classes the
    regular expressions use, `split`, `join`, `trim`, lower-casing and
    number formatting. Strings are sequences of UTF-16-like `char`s. */
module Text {
  import opened Wrappers

  /** `\s` in a JavaScript regular expression, and the set `String.prototype.trim`
      removes: the WhiteSpace and LineTerminator code points of ECMAScript. */
  predicate IsSpace(c: char) {
    c == '\t' || c == '\n' || c == '\U{000B}' || c == '\U{000C}' || c == '\r' || c == ' '
    || c == '\U{00A0}' || c == '\U{1680}' || ('\U{2000}' <= c <= '\U{200A}')
    || c == '\U{2028}' || c == '\U{2029}' || c == '\U{202F}' || c == '\U{205F}'
    || c == '\U{3000}' || c == '\U{FEFF}'
  }

  /** The characters `.` refuses without the `s` flag. */
  predicate IsLineTerminator(c: char) {
    c == '\n' || c == '\r' || c == '\U{2028}' || c == '\U{2029}'
  }

  /** `.` */
  predicate IsDot(c: char) { !IsLineTerminator(c) }

  /** `\S` */
  predicate IsToken(c: char) { !IsSpace(c) }

  /** `\d` */
  predicate IsDigit(c: char) { '0' <= c <= '9' }

  /** `[^\n]` */
  predicate NotNewline(c: char) { c != '\n' }

  lemma LineTerminatorIsSpace(c: char)
    ensures IsLineTerminator(c) ==> IsSpace(c)
  {}

  /** `p` occurs in `s` starting at index `k`. */
  predicate StartsAt(s: string, k: nat, p: string) {
    k + |p| <= |s| && s[k..k + |p|] == p
  }

  /** Where `p` occurs, each of its characters is in place. */
  lemma StartsAtChar(s: string, k: nat, p: string, j: nat)
    requires StartsAt(s, k, p) && j < |p|
    ensures s[k + j] == p[j]
  {
    assert s[k..k + |p|][j] == s[k + j];
  }

  /** A character out of place rules an occurrence out. */
  lemma NotStartsAtChar(s: string, k: nat, p: string, j: nat)
    requires j < |p| && k + j < |s| && s[k + j] != p[j]
    ensures !StartsAt(s, k, p)
  {
    if k + |p| <= |s| {
      assert s[k..k + |p|][j] != p[j];
    }
  }

  /** `p` at `i` in a suffix is `p` at `a + i` in the whole. */
  lemma StartsAtSuffix(s: string, a: nat, i: nat, p: string)
    requires a <= |s|
    ensures StartsAt(s[a..], i, p) <==> StartsAt(s, a + i, p)
  {
    if a + i + |p| <= |s| {
      assert s[a..][i..i + |p|] == s[a + i..a + i + |p|];
    }
  }

  /** `p` at `i` in a prefix that contains it is `p` at `i` in the whole. */
  lemma StartsAtPrefix(s: string, n: nat, i: nat, p: string)
    requires i + |p| <= n <= |s|
    ensures StartsAt(s[..n], i, p) <==> StartsAt(s, i, p)
  {
    assert s[..n][i..i + |p|] == s[i..i + |p|];
  }

  /** End of the longest run of characters in class `inRun` that starts at `k`:
      what a greedy `[class]*` starting at `k` consumes. */
  function RunEnd(s: string, k: nat, inRun: char -> bool): (r: nat)
    requires k <= |s|
    ensures k <= r <= |s|
    ensures forall i :: k <= i < r ==> inRun(s[i])
    ensures r == |s| || !inRun(s[r])
    decreases |s| - k
  {
    if k == |s| || !inRun(s[k]) then k else RunEnd(s, k + 1, inRun)
  }

  /** The two ensures of RunEnd determine it. */
  lemma RunEndUnique(s: string, k: nat, r: nat, inRun: char -> bool)
    requires k <= r <= |s|
    requires forall i :: k <= i < r ==> inRun(s[i])
    requires r == |s| || !inRun(s[r])
    ensures RunEnd(s, k, inRun) == r
  {
  }

  /** Starting a run later inside the same run ends it at the same place. */
  lemma RunEndInside(s: string, k: nat, j: nat, inRun: char -> bool)
    requires k <= |s|
    requires k <= j <= RunEnd(s, k, inRun)
    ensures RunEnd(s, j, inRun) == RunEnd(s, k, inRun)
  {
    RunEndUnique(s, j, RunEnd(s, k, inRun), inRun);
  }

  /** Every character from `k` on is whitespace: `\s*$` matches at `k`. */
  predicate AllSpaceFrom(s: string, k: nat) {
    forall i :: k <= i < |s| ==> IsSpace(s[i])
  }

  /** The first index `i >= from` at which `p` occurs. */
  function IndexOf(s: string, p: string, from: nat): (r: Option<nat>)
    ensures r.Some? ==> from <= r.value && StartsAt(s, r.value, p)
    ensures r.Some? ==> forall j :: from <= j < r.value ==> !StartsAt(s, j, p)
    ensures r.None? ==> forall j :: from <= j ==> !StartsAt(s, j, p)
    decreases |s| - from
  {
    if from + |p| > |s| then None
    else if StartsAt(s, from, p) then Some(from)
    else IndexOf(s, p, from + 1)
  }

  /** `s.includes(p)` */
  predicate Contains(s: string, p: string) {
    IndexOf(s, p, 0).Some?
  }

  /** `parts.join(sep)` */
  function Join(parts: seq<string>, sep: string): string {
    if |parts| == 0 then ""
    else if |parts| == 1 then parts[0]
    else parts[0] + sep + Join(parts[1..], sep)
  }

  /** `s.split(sep)` for a non-empty separator: the pieces between the
      non-overlapping occurrences of `sep`, found left to right. */
  function Split(s: string, sep: string): (r: seq<string>)
    requires |sep| > 0
    ensures |r| >= 1
    decreases |s|
  {
    match IndexOf(s, sep, 0)
    case None => [s]
    case Some(i) => [s[..i]] + Split(s[i + |sep|..], sep)
  }

  lemma JoinCons(head: string, rest: seq<string>, sep: string)
    requires |rest| >= 1
    ensures Join([head] + rest, sep) == head + sep + Join(rest, sep)
  {
    assert ([head] + rest)[1..] == rest;
  }

  /** Appending a part appends the separator and the part. */
  lemma {:induction false} JoinSnoc(parts: seq<string>, last: string, sep: string)
    requires |parts| >= 1
    ensures Join(parts + [last], sep) == Join(parts, sep) + sep + last
    decreases |parts|
  {
    if |parts| == 1 {
      assert (parts + [last])[1..] == [last];
    } else {
      assert (parts + [last])[1..] == parts[1..] + [last];
      JoinSnoc(parts[1..], last, sep);
    }
  }

  /** Splitting and joining with the same separator gives the string back. */
  lemma {:induction false} JoinSplit(s: string, sep: string)
    requires |sep| > 0
    ensures Join(Split(s, sep), sep) == s
    decreases |s|
  {
    var at := IndexOf(s, sep, 0);
    if at.Some? {
      var i := at.value;
      var head, rest := s[..i], s[i + |sep|..];
      assert Split(s, sep) == [head] + Split(rest, sep);
      JoinSplit(rest, sep);
      assert Join(Split(s, sep), sep) == head + sep + rest by {
        JoinCons(head, Split(rest, sep), sep);
      }
      assert s == head + sep + rest by {
        assert s[i..i + |sep|] == sep;
        assert s == s[..i] + s[i..i + |sep|] + rest;
      }
    } else {
      assert Split(s, sep) == [s];
    }
  }

  /** No piece of `s.split(sep)` contains the separator. */
  lemma {:induction false} SplitPiecesFree(s: string, sep: string)
    requires |sep| > 0
    ensures forall k :: 0 <= k < |Split(s, sep)| ==> !Contains(Split(s, sep)[k], sep)
    decreases |s|
  {
    match IndexOf(s, sep, 0)
    case None =>
      assert Split(s, sep) == [s];
    case Some(i) =>
      var rest := s[i + |sep|..];
      SplitPiecesFree(rest, sep);
      assert Split(s, sep) == [s[..i]] + Split(rest, sep);
      var head := s[..i];
      forall j: nat ensures !StartsAt(head, j, sep) {
        if j + |sep| <= i {
          StartsAtPrefix(s, i, j, sep);
        }
      }
  }

  /** A piece free of a one-character separator is not split. */
  lemma SplitFree(a: string, c: char)
    requires c !in a
    ensures Split(a, [c]) == [a]
  {
    forall j | 0 <= j < |a| ensures !StartsAt(a, j, [c]) {
      assert a[j] != c;
    }
  }

  /** The first piece of `a + [c] + rest` split on `c`, when `a` is free of `c`. */
  lemma SplitFreeCons(a: string, c: char, rest: string)
    requires c !in a
    ensures Split(a + [c] + rest, [c]) == [a] + Split(rest, [c])
  {
    var s := a + [c] + rest;
    assert StartsAt(s, |a|, [c]) by { assert s[|a|..|a| + 1] == [c]; }
    forall j | 0 <= j < |a| ensures !StartsAt(s, j, [c]) {
      assert s[j] == a[j] != c;
    }
    var at := IndexOf(s, [c], 0);
    assert at.Some?;
    assert at.value == |a|;
    assert s[..|a|] == a;
    assert s[|a| + 1..] == rest;
  }

  /** `s.replace(/c/g, "")`: every occurrence of `c` removed. */
  function RemoveAll(s: string, c: char): (r: string)
    ensures c !in r
    ensures forall x :: x in r ==> x in s
  {
    if s == [] then []
    else (if s[0] == c then [] else [s[0]]) + RemoveAll(s[1..], c)
  }

  lemma {:induction false} RemoveAllAbsent(s: string, c: char)
    requires c !in s
    ensures RemoveAll(s, c) == s
  {
    if s != [] {
      RemoveAllAbsent(s[1..], c);
    }
  }

  lemma {:induction false} RemoveAllAppend(a: string, b: string, c: char)
    ensures RemoveAll(a + b, c) == RemoveAll(a, c) + RemoveAll(b, c)
    decreases |a|
  {
    if a == [] {
      assert a + b == b;
    } else {
      var h := if a[0] == c then [] else [a[0]];
      var x, y := RemoveAll(a[1..], c), RemoveAll(b, c);
      assert RemoveAll(a + b, c) == h + (x + y) by {
        assert (a + b)[0] == a[0];
        assert (a + b)[1..] == a[1..] + b;
        RemoveAllAppend(a[1..], b, c);
      }
      assert RemoveAll(a, c) == h + x;
      ConcatAssoc(h, x, y);
    }
  }

  lemma ConcatAssoc(a: string, b: string, c: string)
    ensures a + b + c == a + (b + c)
  {
  }

  /** The end of `s[lo..hi]` once its trailing whitespace is dropped. */
  function TrimmedEnd(s: string, lo: nat, hi: nat): (r: nat)
    requires lo <= hi <= |s|
    ensures lo <= r <= hi
    ensures forall i :: r <= i < hi ==> IsSpace(s[i])
    ensures r == lo || !IsSpace(s[r - 1])
    decreases hi
  {
    if hi == lo || !IsSpace(s[hi - 1]) then hi else TrimmedEnd(s, lo, hi - 1)
  }

  /** `s.trim()`: leading and trailing whitespace removed. */
  function Trim(s: string): (r: string)
    ensures r == [] || (!IsSpace(r[0]) && !IsSpace(r[|r| - 1]))
    ensures exists a, b :: 0 <= a <= b <= |s| && r == s[a..b]
                           && (forall i :: 0 <= i < a ==> IsSpace(s[i]))
                           && (forall i :: b <= i < |s| ==> IsSpace(s[i]))
  {
    var a := RunEnd(s, 0, IsSpace);
    var b := TrimmedEnd(s, a, |s|);
    assert b > a ==> s[a..b][0] == s[a];
    s[a..b]
  }

  /** A string without leading or trailing whitespace is its own trim. */
  lemma TrimIdentity(s: string)
    requires s == [] || (!IsSpace(s[0]) && !IsSpace(s[|s| - 1]))
    ensures Trim(s) == s
  {
    if s != [] {
      assert RunEnd(s, 0, IsSpace) == 0;
      assert TrimmedEnd(s, 0, |s|) == |s|;
    }
    assert s[0..|s|] == s;
  }

  /** Lower-casing of one character; only ASCII letters are mapped. */
  function LowerChar(c: char): char {
    if 'A' <= c <= 'Z' then (c as int + 32) as char else c
  }

  /** `s.toLowerCase()`, restricted to ASCII letters. */
  function ToLower(s: string): (r: string)
    ensures |r| == |s|
    ensures forall i :: 0 <= i < |s| ==> r[i] == LowerChar(s[i])
  {
    if s == [] then [] else [LowerChar(s[0])] + ToLower(s[1..])
  }

  lemma ToLowerIdempotent(s: string)
    ensures ToLower(ToLower(s)) == ToLower(s)
  {
  }

  /** Decimal rendering of a natural number, as `${n}` does. */
  function NatToString(n: nat): (r: string)
    ensures |r| >= 1
    ensures forall i :: 0 <= i < |r| ==> IsDigit(r[i])
  {
    if n < 10 then [DigitChar(n)] else NatToString(n / 10) + [DigitChar(n % 10)]
  }

  function DigitChar(d: nat): (c: char)
    requires d < 10
    ensures IsDigit(c)
  {
    ('0' as int + d) as char
  }

  /** Value of a string of decimal digits. */
  function DigitsValue(s: string): nat
    requires forall i :: 0 <= i < |s| ==> IsDigit(s[i])
  {
    if s == [] then 0
    else
      assert IsDigit(s[|s| - 1]);
      10 * DigitsValue(s[..|s| - 1]) + (s[|s| - 1] as int - '0' as int)
  }

  /** A rendered number reads back as itself and is its own trim. */
  lemma NatToStringTrim(n: nat)
    ensures Trim(NatToString(n)) == NatToString(n)
  {
    var r := NatToString(n);
    assert IsDigit(r[0]) && IsDigit(r[|r| - 1]);
    TrimIdentity(r);
  }

  lemma {:induction false} NatToStringValue(n: nat)
    ensures DigitsValue(NatToString(n)) == n
  {
    var r := NatToString(n);
    if n >= 10 {
      NatToStringValue(n / 10);
      assert r[..|r| - 1] == NatToString(n / 10);
    }
  }
}
