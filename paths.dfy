/** The parts of Python's pathlib that the pipeline relies on, over the
    string form of a path (pathlib's normalised `str(path)`). */
module Paths {

  type Path = string

  /** Python's `str.rfind` for one character: the index of the last `c`
      in `s`, or -1 when there is none. */
  function LastIndexOf(s: string, c: char): (i: int)
    ensures -1 <= i < |s|
    ensures i >= 0 ==> s[i] == c
    ensures forall j :: i < j < |s| ==> s[j] != c
    decreases |s|
  {
    if |s| == 0 then -1
    else if s[|s| - 1] == c then |s| - 1
    else LastIndexOf(s[..|s| - 1], c)
  }

  /** The postcondition of LastIndexOf pins the index down uniquely. */
  lemma LastIndexOfIs(s: string, c: char, k: int)
    requires -1 <= k < |s|
    requires k >= 0 ==> s[k] == c
    requires forall j :: k < j < |s| ==> s[j] != c
    ensures LastIndexOf(s, c) == k
  {
  }

  /** `PurePath.name`: the final component, everything after the last '/'. */
  function Name(p: Path): (n: string)
    ensures '/' !in n
  {
    p[LastIndexOf(p, '/') + 1..]
  }

  /** Position of the dot that starts the suffix of a name, if the name has
      one: pathlib takes the last dot, and only when it is neither the first
      nor the last character of the name. */
  function SuffixDot(n: string): (i: int)
  {
    LastIndexOf(n, '.')
  }

  predicate HasSuffixDot(n: string)
  {
    0 < SuffixDot(n) < |n| - 1
  }

  /** `PurePath.suffix`. */
  function Suffix(p: Path): (s: string)
    ensures s == [] || (|s| >= 2 && s[0] == '.' && '.' !in s[1..] && '/' !in s)
  {
    var n := Name(p);
    if HasSuffixDot(n) then n[SuffixDot(n)..] else ""
  }

  /** `PurePath.stem`. */
  function Stem(p: Path): (s: string)
    ensures '/' !in s
    ensures s == [] <==> Name(p) == []
  {
    var n := Name(p);
    if HasSuffixDot(n) then n[..SuffixDot(n)] else n
  }

  /** Stem and suffix split the name exactly. */
  lemma StemSuffixSplitName(p: Path)
    ensures Stem(p) + Suffix(p) == Name(p)
  {
  }

  /** Python's `str.lower`, on ASCII letters. */
  function LowerChar(c: char): (r: char)
  {
    if 'A' <= c <= 'Z' then (c as int + 32) as char else c
  }

  function Lower(s: string): (r: string)
    ensures |r| == |s|
    ensures forall i :: 0 <= i < |r| ==> !('A' <= r[i] <= 'Z')
    ensures forall i :: 0 <= i < |s| && !('A' <= s[i] <= 'Z') ==> r[i] == s[i]
  {
    seq(|s|, i requires 0 <= i < |s| => LowerChar(s[i]))
  }

  /** Lowering leaves a string without upper-case ASCII letters as it is. */
  lemma LowerOfLowercase(s: string)
    requires forall i :: 0 <= i < |s| ==> !('A' <= s[i] <= 'Z')
    ensures Lower(s) == s
  {
  }

  /** Lowering twice is lowering once. */
  lemma {:induction false} LowerIdempotent(s: string)
    ensures Lower(Lower(s)) == Lower(s)
  {
    LowerOfLowercase(Lower(s));
  }

  /** Python's `str.endswith`. */
  predicate EndsWith(s: string, tail: string)
  {
    |tail| <= |s| && s[|s| - |tail|..] == tail
  }

  /** `dir / name` for a name without '/': pathlib puts exactly one '/'
      between the two, and `Path(".") / name` is just `name`. */
  function Join(dir: Path, name: string): (r: Path)
    requires '/' !in name
    ensures EndsWith(r, name)
  {
    if dir == "" || dir == "." then name
    else if dir[|dir| - 1] == '/' then dir + name
    else dir + "/" + name
  }

  /** The last '/' of a string lies before any tail that holds none. */
  lemma {:induction false} LastIndexOfAppend(s: string, t: string, c: char)
    requires c !in t
    ensures LastIndexOf(s + t, c) == LastIndexOf(s, c)
  {
    var k := LastIndexOf(s, c);
    forall j | k < j < |s + t|
      ensures (s + t)[j] != c
    {
      if j >= |s| {
        assert (s + t)[j] == t[j - |s|];
      }
    }
    LastIndexOfIs(s + t, c, k);
  }

  /** Joining a name onto a directory makes that name the final component. */
  lemma {:induction false} NameOfJoin(dir: Path, name: string)
    requires '/' !in name
    ensures Name(Join(dir, name)) == name
  {
    var r := Join(dir, name);
    if dir == "" || dir == "." {
      LastIndexOfIs(r, '/', -1);
    } else if dir[|dir| - 1] == '/' {
      LastIndexOfAppend(dir, name, '/');
      assert dir + name == r;
    } else {
      LastIndexOfAppend(dir + "/", name, '/');
      assert dir + "/" + name == r;
    }
  }

  /** The suffix dot of `base + ext` is the first character of `ext`. */
  lemma {:induction false} DotOfExtended(base: string, ext: string)
    requires |ext| >= 2 && ext[0] == '.' && '.' !in ext[1..]
    ensures LastIndexOf(base + ext, '.') == |base|
  {
    var n := base + ext;
    forall j | |base| < j < |n|
      ensures n[j] != '.'
    {
      assert n[j] == ext[1..][j - |base| - 1];
    }
    LastIndexOfIs(n, '.', |base|);
  }

  /** Within a name `base + ext`, the suffix dot splits off `ext`. */
  lemma {:induction false} SplitExtended(base: string, ext: string)
    requires base != []
    requires |ext| >= 2 && ext[0] == '.' && '.' !in ext[1..]
    ensures HasSuffixDot(base + ext)
    ensures (base + ext)[..SuffixDot(base + ext)] == base
    ensures (base + ext)[SuffixDot(base + ext)..] == ext
  {
    DotOfExtended(base, ext);
    assert (base + ext)[..|base|] == base;
    assert (base + ext)[|base|..] == ext;
  }

  /** A name `base + ext` with a non-empty base and an extension of the
      form ".x…" (no other dot) has `base` for stem and `ext` for suffix,
      whatever dots `base` itself holds. */
  lemma {:induction false} StemOfExtended(dir: Path, base: string, ext: string)
    requires base != [] && '/' !in base
    requires |ext| >= 2 && ext[0] == '.' && '.' !in ext[1..] && '/' !in ext
    ensures '/' !in base + ext
    ensures Name(Join(dir, base + ext)) == base + ext
    ensures Stem(Join(dir, base + ext)) == base
    ensures Suffix(Join(dir, base + ext)) == ext
  {
    var n := base + ext;
    assert '/' !in n by {
      forall j | 0 <= j < |n| ensures n[j] != '/' {
        if j >= |base| { assert n[j] == ext[j - |base|]; }
      }
    }
    NameOfJoin(dir, n);
    SplitExtended(base, ext);
  }
}
