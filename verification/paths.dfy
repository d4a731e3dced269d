/** The three `os.path` functions (POSIX flavour) the toolkit uses to name
    its files: `basename`, `splitext` and two-argument `join`. */
module Paths {
  import opened Outcomes
  import opened PyStr

  /** `os.path.basename`: the text after the last '/'. */
  function Basename(p: string): (r: string)
    ensures '/' !in r
    ensures EndsWith(p, r)
    ensures |r| < |p| ==> p[|p| - |r| - 1] == '/'
    decreases |p|
  {
    if |p| == 0 || p[|p| - 1] == '/' then ""
    else
      var r := Basename(p[..|p| - 1]);
      r + [p[|p| - 1]]
  }

  /** A name without directories is its own base name. */
  lemma {:induction false} BasenameOfName(p: string)
    requires '/' !in p
    ensures Basename(p) == p
    decreases |p|
  {
    if |p| > 0 {
      BasenameOfName(p[..|p| - 1]);
      assert p == p[..|p| - 1] + [p[|p| - 1]];
    }
  }

  /** The index of the last `c` in `s`, if any. */
  function LastIndex(s: string, c: char): (r: Option<nat>)
    ensures r.Some? ==> r.value < |s| && s[r.value] == c && c !in s[r.value + 1..]
    ensures r.None? ==> c !in s
    decreases |s|
  {
    if |s| == 0 then None
    else if s[|s| - 1] == c then Some(|s| - 1)
    else
      var r := LastIndex(s[..|s| - 1], c);
      assert forall x :: x in s ==> x in s[..|s| - 1] || x == s[|s| - 1];
      if r.Some? then assert s[r.value + 1..] == s[..|s| - 1][r.value + 1..] + [s[|s| - 1]]; r
      else r
  }

  /** Every character of `s` is a dot. */
  predicate AllDots(s: string) {
    forall i :: 0 <= i < |s| ==> s[i] == '.'
  }

  /** The extension `os.path.splitext` splits off the final path component
      `b`: from its last dot, unless only dots come before that dot (a
      leading-dot name such as ".bashrc" has no extension). */
  function ExtOf(b: string): (ext: string)
    ensures EndsWith(b, ext)
    ensures |ext| > 0 ==> ext[0] == '.' && '.' !in ext[1..]
  {
    match LastIndex(b, '.')
    case None => ""
    case Some(d) => if AllDots(b[..d]) then "" else b[d..]
  }

  /** `os.path.splitext(p)`: `(root, ext)` with `root + ext == p`, the
      extension taken from the final component only. */
  function SplitExt(p: string): (r: (string, string))
    ensures r.0 + r.1 == p
    ensures '/' !in r.1
    ensures |r.1| > 0 ==> r.1[0] == '.' && '.' !in r.1[1..]
  {
    var b := Basename(p);
    var ext := ExtOf(b);
    EndsWithTransitive(p, b, ext);
    AbsentFromSuffix('/', b, ext);
    SplitAtSuffix(p, ext);
    (p[..|p| - |ext|], ext)
  }

  lemma SplitAtSuffix(p: string, e: string)
    requires EndsWith(p, e)
    ensures p[..|p| - |e|] + e == p
  {
    assert p == p[..|p| - |e|] + p[|p| - |e|..];
  }

  lemma EndsWithTransitive(p: string, b: string, e: string)
    requires EndsWith(p, b) && EndsWith(b, e)
    ensures EndsWith(p, e)
  {
    assert p[|p| - |e|..] == p[|p| - |b|..][|b| - |e|..];
  }

  lemma AbsentFromSuffix(c: char, b: string, e: string)
    requires EndsWith(b, e) && c !in b
    ensures c !in e
  {
  }

  /** The split is exactly posixpath's: the extension is empty precisely
      when the final component has no dot, or only dots before its last
      dot. */
  lemma SplitExtEmptyIff(p: string)
    ensures var b := Basename(p);
            SplitExt(p).1 == "" <==>
              ('.' !in b || AllDots(b[..LastIndex(b, '.').value]))
  {
    var b := Basename(p);
    match LastIndex(b, '.')
    case None =>
    case Some(d) =>
      assert b[d..][0] == '.';
  }

  /** `os.path.join(a, b)` for two components. */
  function PathJoin(a: string, b: string): (r: string)
    ensures EndsWith(r, b)
  {
    if StartsWith(b, "/") then b
    else if |a| == 0 || EndsWith(a, "/") then a + b
    else a + "/" + b
  }

  /** Joining a plain name (no '/') onto a directory names that file:
      its basename is the name. */
  lemma JoinBasename(a: string, b: string)
    requires |b| > 0 && '/' !in b
    ensures Basename(PathJoin(a, b)) == b
  {
    var r := PathJoin(a, b);
    assert !StartsWith(b, "/") by {
      assert b[0] in b;
    }
    BasenameOfSuffix(r, b);
  }

  /** A '/'-free suffix right after a '/' (or at the start) is the
      basename. */
  lemma {:induction false} BasenameOfSuffix(p: string, b: string)
    requires EndsWith(p, b) && '/' !in b
    requires |b| < |p| ==> p[|p| - |b| - 1] == '/'
    ensures Basename(p) == b
    decreases |b|
  {
    if |b| > 0 {
      var q := p[..|p| - 1];
      var b' := b[..|b| - 1];
      assert p[|p| - 1] == b[|b| - 1];
      assert p[|p| - 1] != '/' by {
        assert b[|b| - 1] in b;
      }
      assert EndsWith(q, b') by {
        assert q[|q| - |b'|..] == p[|p| - |b|..][..|b'|];
      }
      assert '/' !in b' by {
        AbsentFromPrefix('/', b, b');
      }
      BasenameOfSuffix(q, b');
      assert Basename(p) == Basename(q) + [p[|p| - 1]];
      assert b == b' + [p[|p| - 1]];
    }
  }

  lemma AbsentFromPrefix(c: char, b: string, e: string)
    requires StartsWith(b, e) && c !in b
    ensures c !in e
  {
  }

  /** `join(dir, name) + suffix` is `join(dir, name + suffix)` when the
      name does not start with '/'. */
  lemma JoinAppend(a: string, b: string, suffix: string)
    requires |b| > 0 && b[0] != '/'
    ensures PathJoin(a, b) + suffix == PathJoin(a, b + suffix)
  {
    assert !StartsWith(b, "/");
    assert !StartsWith(b + suffix, "/") by {
      assert (b + suffix)[0] == b[0];
    }
    if |a| == 0 || EndsWith(a, "/") {
      assert (a + b) + suffix == a + (b + suffix);
    } else {
      assert (a + "/" + b) + suffix == (a + "/") + (b + suffix);
    }
  }
}
