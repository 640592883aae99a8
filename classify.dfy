/** `detectUpdateType` (scans/extractUpdateInfo.ts): the update class implied
    by a from-version and a to-version, read as dotted numeric triples. */
module Classify {
  import opened Wrappers
  import opened Text
  import opened UpdateModel

  /** `s` consists of decimal digits only (possibly none). */
  predicate AllDigits(s: string) {
    forall i :: 0 <= i < |s| ==> IsDigit(s[i])
  }

  /** `Number(piece)` for the forms the model accepts: after trimming,
      decimal digits (the empty string gives 0); anything else is `NaN`. */
  function NumberValue(piece: string): (r: Option<nat>)
    ensures r.Some? <==> AllDigits(Trim(piece))
  {
    var t := Trim(piece);
    if AllDigits(t) then Some(DigitsValue(t)) else None
  }

  /** `version.replace(/^v/, "")`: one leading `v` removed. */
  function StripV(version: string): (r: string)
    ensures |version| > 0 && version[0] == 'v' ==> version == "v" + r
    ensures (|version| == 0 || version[0] != 'v') ==> r == version
  {
    if |version| > 0 && version[0] == 'v' then version[1..] else version
  }

  /** `Number` of each piece, in order. */
  function NumberAll(pieces: seq<string>): (r: seq<Option<nat>>)
    ensures |r| == |pieces|
    ensures forall i :: 0 <= i < |pieces| ==> r[i] == NumberValue(pieces[i])
  {
    if pieces == [] then [] else [NumberValue(pieces[0])] + NumberAll(pieces[1..])
  }

  /** `parseVersion`: the dot-separated components as numbers. */
  function Components(version: string): (r: seq<Option<nat>>)
    ensures |r| >= 1
  {
    NumberAll(Split(StripV(version), "."))
  }

  /** The first three components exist and are numbers. */
  predicate Numeric3(version: string) {
    var c := Components(version);
    |c| >= 3 && c[0].Some? && c[1].Some? && c[2].Some?
  }

  /** Component `i` (0 major, 1 minor, 2 patch) of a numeric version. */
  function Part(version: string, i: nat): nat
    requires Numeric3(version) && i < 3
  {
    var c := Components(version);
    if i == 0 then c[0].value else if i == 1 then c[1].value else c[2].value
  }

  /** `detectUpdateType`: `null` unless both versions are numeric triples;
      otherwise the first of major, minor, patch whose to-component exceeds
      its from-component, each compared only when the earlier ones did not
      increase. */
  function DetectUpdateType(from: string, to: string): (r: Option<UpdateType>)
    ensures r.Some? ==> Numeric3(from) && Numeric3(to)
    ensures r == Some(Major) <==> Numeric3(from) && Numeric3(to) && Part(to, 0) > Part(from, 0)
    ensures r == Some(Minor) <==>
              Numeric3(from) && Numeric3(to) && Part(to, 0) <= Part(from, 0) && Part(to, 1) > Part(from, 1)
    ensures r == Some(Patch) <==>
              Numeric3(from) && Numeric3(to) && Part(to, 0) <= Part(from, 0) && Part(to, 1) <= Part(from, 1)
              && Part(to, 2) > Part(from, 2)
  {
    if !Numeric3(from) || !Numeric3(to) then None
    else if Part(to, 0) > Part(from, 0) then Some(Major)
    else if Part(to, 1) > Part(from, 1) then Some(Minor)
    else if Part(to, 2) > Part(from, 2) then Some(Patch)
    else None
  }

  /** Reference definition: the class of the most significant component in
      which two numeric triples differ. */
  function FirstDifference(from: string, to: string): Option<UpdateType>
    requires Numeric3(from) && Numeric3(to)
  {
    if Part(to, 0) != Part(from, 0) then Some(Major)
    else if Part(to, 1) != Part(from, 1) then Some(Minor)
    else if Part(to, 2) != Part(from, 2) then Some(Patch)
    else None
  }

  /** `to` is a strictly later version than `from` in the usual (lexicographic)
      numeric order. */
  predicate IsUpgrade(from: string, to: string)
    requires Numeric3(from) && Numeric3(to)
  {
    Part(to, 0) > Part(from, 0)
    || (Part(to, 0) == Part(from, 0) && Part(to, 1) > Part(from, 1))
    || (Part(to, 0) == Part(from, 0) && Part(to, 1) == Part(from, 1) && Part(to, 2) > Part(from, 2))
  }

  /** On an upgrade the class is the most significant changed component. */
  lemma UpgradeClass(from: string, to: string)
    requires Numeric3(from) && Numeric3(to) && IsUpgrade(from, to)
    ensures DetectUpdateType(from, to) == FirstDifference(from, to)
    ensures DetectUpdateType(from, to).Some?
  {
  }

  /** Comparing a version with itself finds no update. */
  lemma SameVersion(v: string)
    ensures DetectUpdateType(v, v).None?
  {
  }

  /** `a.b.c` in decimal. */
  function Triple(a: nat, b: nat, c: nat): string {
    NatToString(a) + "." + NatToString(b) + "." + NatToString(c)
  }

  lemma NumberOfRendered(n: nat)
    ensures NumberValue(NatToString(n)) == Some(n)
  {
    NatToStringTrim(n);
    NatToStringValue(n);
  }

  /** A rendered number holds no dot. */
  lemma DotFree(n: nat)
    ensures '.' !in NatToString(n)
  {
    var sn := NatToString(n);
    assert forall i :: 0 <= i < |sn| ==> IsDigit(sn[i]);
  }

  /** Three dot-free pieces joined by dots split back into those pieces. */
  lemma SplitThree(sa: string, sb: string, sc: string)
    requires '.' !in sa && '.' !in sb && '.' !in sc
    ensures Split(sa + "." + sb + "." + sc, ".") == [sa, sb, sc]
  {
    var rest := sb + "." + sc;
    assert sa + "." + sb + "." + sc == sa + "." + rest;
    SplitFreeCons(sa, '.', rest);
    SplitFreeCons(sb, '.', sc);
    SplitFree(sc, '.');
    assert Split(rest, ".") == [sb, sc];
  }

  /** `parseVersion` drops the optional `v` of a rendered triple. */
  lemma TripleStripped(a: nat, b: nat, c: nat, withV: bool)
    ensures StripV(if withV then "v" + Triple(a, b, c) else Triple(a, b, c)) == Triple(a, b, c)
  {
    var t := Triple(a, b, c);
    var sa := NatToString(a);
    assert forall i :: 0 <= i < |sa| ==> IsDigit(sa[i]);
    assert t[0] == sa[0];
    assert ("v" + t)[1..] == t;
  }

  /** A rendered triple, with or without a leading `v`, parses back to its
      three components. */
  lemma TripleComponents(a: nat, b: nat, c: nat, withV: bool)
    ensures var v := if withV then "v" + Triple(a, b, c) else Triple(a, b, c);
            Components(v) == [Some(a), Some(b), Some(c)]
  {
    var sa, sb, sc := NatToString(a), NatToString(b), NatToString(c);
    DotFree(a);
    DotFree(b);
    DotFree(c);
    SplitThree(sa, sb, sc);
    TripleStripped(a, b, c, withV);
    NumberOfRendered(a);
    NumberOfRendered(b);
    NumberOfRendered(c);
    var comps := NumberAll([sa, sb, sc]);
    assert comps == [Some(a), Some(b), Some(c)];
  }

  /** The parts of a rendered triple are its components. */
  lemma TripleParts(a: nat, b: nat, c: nat)
    ensures Numeric3(Triple(a, b, c))
    ensures Part(Triple(a, b, c), 0) == a && Part(Triple(a, b, c), 1) == b && Part(Triple(a, b, c), 2) == c
  {
    TripleComponents(a, b, c, false);
  }

  lemma RenderedTriples()
    ensures Triple(8, 57, 1) == "8.57.1" && Triple(9, 19, 0) == "9.19.0"
  {
    assert NatToString(57) == "57";
    assert NatToString(19) == "19";
  }

  /** `eslint from 8.57.1 to 9.19.0` is a major update. */
  lemma EslintMajor()
    ensures DetectUpdateType("8.57.1", "9.19.0") == Some(Major)
  {
    RenderedTriples();
    TripleParts(8, 57, 1);
    TripleParts(9, 19, 0);
  }

  /** Majors are not compared once they did not increase: a lower major with
      a higher minor (`2.0.0` to `1.5.0`, say) is reported as a minor update. */
  lemma DowngradeReadsAsMinor(a: nat, b: nat, c: nat, a': nat, b': nat, c': nat)
    requires a' < a && b' > b
    ensures DetectUpdateType(Triple(a, b, c), Triple(a', b', c')) == Some(Minor)
  {
    TripleParts(a, b, c);
    TripleParts(a', b', c');
  }
}
