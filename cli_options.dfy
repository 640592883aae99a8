/** Option handling shared by the commands: the `owner/repo` spec rule
    (scan/scan.ts, scans/scan/scan.ts and createRepoGroups.ts all apply it)
    and `z.boolean().catch(() => false)`. */
module CliOptions {
  import opened Wrappers
  import opened Text

  datatype RepoRef = RepoRef(owner: string, name: string)

  /** A part a valid spec can have on either side of its `/`. */
  predicate ValidPart(p: string) {
    p != "" && '/' !in p
  }

  /** `const [repoOwner, repoName, ...rest] = repo.split("/")`, rejected
      when either part is missing or empty or anything follows. */
  function ParseRepoSpec(spec: string): Option<RepoRef> {
    var parts := Split(spec, "/");
    if |parts| == 2 && parts[0] != "" && parts[1] != "" then Some(RepoRef(parts[0], parts[1]))
    else None
  }

  lemma NotContainsChar(a: string, c: char)
    requires !Contains(a, [c])
    ensures c !in a
  {
    if c in a {
      var j :| 0 <= j < |a| && a[j] == c;
      assert StartsAt(a, j, [c]);
    }
  }

  /** An accepted spec is two valid parts around a single `/`. */
  lemma ParseSound(spec: string)
    requires ParseRepoSpec(spec).Some?
    ensures var r := ParseRepoSpec(spec).value;
            ValidPart(r.owner) && ValidPart(r.name) && r.owner + "/" + r.name == spec
  {
    var parts := Split(spec, "/");
    JoinSplit(spec, "/");
    JoinCons(parts[0], parts[1..], "/");
    assert parts == [parts[0]] + [parts[1]];
    SplitPiecesFree(spec, "/");
    NotContainsChar(parts[0], '/');
    NotContainsChar(parts[1], '/');
  }

  /** Two valid parts around a `/` are accepted, and give those parts back. */
  lemma ParseComplete(owner: string, name: string)
    requires ValidPart(owner) && ValidPart(name)
    ensures ParseRepoSpec(owner + "/" + name) == Some(RepoRef(owner, name))
  {
    assert owner + "/" + name == owner + ['/'] + name;
    SplitFreeCons(owner, '/', name);
    SplitFree(name, '/');
  }

  /** The reference a spec contributes: its parse, if it is valid. */
  function KeptRef(spec: string): seq<RepoRef> {
    match ParseRepoSpec(spec)
    case Some(ref) => [ref]
    case None => []
  }

  /** `repos?.map(parse).filter((repo) => repo !== undefined)` on a given
      list: the accepted specs, in order. */
  function KeptSpecs(specs: seq<string>): (r: seq<RepoRef>)
    ensures |r| <= |specs|
  {
    if specs == [] then []
    else
      KeptRef(specs[0]) + KeptSpecs(specs[1..])
  }

  /** Keeping distributes over concatenation, so the kept specs appear in
      input order. */
  lemma {:induction false} KeptSpecsAppend(a: seq<string>, b: seq<string>)
    ensures KeptSpecs(a + b) == KeptSpecs(a) + KeptSpecs(b)
    decreases |a|
  {
    if a == [] {
      assert a + b == b;
    } else {
      assert (a + b)[0] == a[0];
      assert (a + b)[1..] == a[1..] + b;
      KeptSpecsAppend(a[1..], b);
    }
  }

  /** A reference is kept exactly when some spec parses to it. */
  lemma {:induction false} KeptSpecsMembers(specs: seq<string>)
    ensures forall r :: r in KeptSpecs(specs) <==> exists s :: s in specs && ParseRepoSpec(s) == Some(r)
    decreases |specs|
  {
    if specs != [] {
      KeptSpecsMembers(specs[1..]);
      assert specs == [specs[0]] + specs[1..];
    }
  }

  /** The reference list of `getOptions`: absent when no list was given. */
  function ReposToFilterBy(repos: Option<seq<string>>): (r: Option<seq<RepoRef>>)
    ensures r.Some? <==> repos.Some?
  {
    match repos
    case Some(specs) => Some(KeptSpecs(specs))
    case None => None
  }

  /** `${xs.join(", ")}` on an array of objects: each prints as
      `[object Object]`. */
  function ObjectsText(n: nat): (r: string)
    ensures n == 0 ==> r == ""
  {
    if n == 0 then "" else if n == 1 then ObjectString else ObjectsText(n - 1) + ", " + ObjectString
  }

  /** What `String(obj)` gives for a plain object. */
  const ObjectString := "[object Object]"

  /** The printed filter is `join(", ")` over `n` entries that each print
      as `[object Object]`, whatever the references hold. */
  lemma {:induction false} ObjectsTextJoin(n: nat)
    ensures ObjectsText(n) == Join(seq(n, _ => ObjectString), ", ")
  {
    if n > 1 {
      ObjectsTextJoin(n - 1);
      var front := seq(n - 1, _ => ObjectString);
      assert seq(n, _ => ObjectString) == front + [ObjectString];
      JoinSnoc(front, ObjectString, ", ");
    } else if n == 1 {
      assert seq(1, _ => ObjectString) == [ObjectString];
    }
  }

  /** A raw flag value before `z.boolean().catch(() => false)`. */
  datatype RawFlag = Missing | Flag(value: bool) | NotBoolean

  /** The flag is on only when it was given as `true`. */
  function CaughtFlag(f: RawFlag): (r: bool)
    ensures r <==> f == Flag(true)
  {
    match f
    case Flag(b) => b
    case _ => false
  }
}
