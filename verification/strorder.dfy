/** Python's ordering of `str` values (`<`, lexicographic by code point)
    and the `min`/`max` builtins over lists of strings. The DFXML date
    selection and the cross-volume date range are computed with these on
    ISO-like timestamp text. */
module StrOrder {
  import opened PyStr

  /** Python's `a < b` on strings. */
  predicate LexLess(a: string, b: string)
    decreases |a|
  {
    if |a| == 0 then |b| > 0
    else if |b| == 0 then false
    else if a[0] != b[0] then a[0] < b[0]
    else LexLess(a[1..], b[1..])
  }

  /** `a <= b`, i.e. `not (b < a)`. */
  predicate LexLe(a: string, b: string) {
    !LexLess(b, a)
  }

  lemma {:induction false} LexIrreflexive(a: string)
    ensures !LexLess(a, a)
    decreases |a|
  {
    if |a| > 0 {
      LexIrreflexive(a[1..]);
    }
  }

  lemma {:induction false} LexTransitive(a: string, b: string, c: string)
    requires LexLess(a, b) && LexLess(b, c)
    ensures LexLess(a, c)
    decreases |a|
  {
    if |a| > 0 && |b| > 0 && |c| > 0 && a[0] == b[0] && b[0] == c[0] {
      LexTransitive(a[1..], b[1..], c[1..]);
    }
  }

  lemma {:induction false} LexTotal(a: string, b: string)
    ensures a == b || LexLess(a, b) || LexLess(b, a)
    decreases |a|
  {
    if |a| > 0 && |b| > 0 && a[0] == b[0] {
      LexTotal(a[1..], b[1..]);
      if a[1..] == b[1..] {
        assert a == [a[0]] + a[1..] && b == [b[0]] + b[1..];
      }
    }
  }

  lemma LexAsymmetric(a: string, b: string)
    requires LexLess(a, b)
    ensures !LexLess(b, a)
  {
    if LexLess(b, a) {
      LexTransitive(a, b, a);
      LexIrreflexive(a);
    }
  }

  lemma LexLeTransitive(a: string, b: string, c: string)
    requires LexLe(a, b) && LexLe(b, c)
    ensures LexLe(a, c)
  {
    if LexLess(c, a) {
      LexTotal(a, b);
      if LexLess(a, b) {
        LexTransitive(c, a, b);
      }
    }
  }

  lemma LexLessLe(a: string, b: string, c: string)
    requires LexLess(a, b) && LexLe(b, c)
    ensures LexLess(a, c)
  {
    LexTotal(b, c);
    if LexLess(b, c) {
      LexTransitive(a, b, c);
    }
  }

  lemma LexLeLess(a: string, b: string, c: string)
    requires LexLe(a, b) && LexLess(b, c)
    ensures LexLess(a, c)
  {
    LexTotal(a, b);
    if LexLess(a, b) {
      LexTransitive(a, b, c);
    }
  }

  /** The empty string sorts before every other string. */
  lemma EmptyLeast(b: string)
    requires |b| > 0
    ensures LexLess("", b)
  {
  }

  /** Comparing two strings whose first parts have equal length compares
      the first parts, then the rest. */
  lemma {:induction false} LexConcat(p: string, q: string, p2: string, q2: string)
    requires |p| == |p2|
    ensures LexLess(p + q, p2 + q2) <==> LexLess(p, p2) || (p == p2 && LexLess(q, q2))
    decreases |p|
  {
    if |p| == 0 {
      assert p + q == q && p2 + q2 == q2;
    } else {
      assert (p + q)[0] == p[0] && (p2 + q2)[0] == p2[0];
      assert (p + q)[1..] == p[1..] + q && (p2 + q2)[1..] == p2[1..] + q2;
      LexConcat(p[1..], q, p2[1..], q2);
      if p[0] == p2[0] {
        assert p == p2 <==> p[1..] == p2[1..] by {
          assert p == [p[0]] + p[1..] && p2 == [p2[0]] + p2[1..];
        }
      }
    }
  }

  /** Truncating both sides to `[:n]` keeps a non-strict order. */
  lemma {:induction false} LexLeTake(a: string, b: string, n: nat)
    requires LexLe(a, b)
    ensures LexLe(Take(a, n), Take(b, n))
    decreases n
  {
    if n > 0 && |a| > 0 && |b| > 0 {
      assert Take(a, n)[0] == a[0] && Take(b, n)[0] == b[0];
      if a[0] == b[0] {
        LexLeTake(a[1..], b[1..], n - 1);
        assert Take(a, n)[1..] == Take(a[1..], n - 1);
        assert Take(b, n)[1..] == Take(b[1..], n - 1);
      }
    } else if n == 0 {
      LexIrreflexive("");
    }
  }

  /** Python `min` continued from a current best `cur`: an item replaces
      the best only when it is strictly smaller. */
  function MinFrom(cur: string, rest: seq<string>): (m: string)
    ensures m == cur || m in rest
    ensures LexLe(m, cur)
    ensures forall x :: x in rest ==> LexLe(m, x)
    decreases |rest|
  {
    if |rest| == 0 then LexIrreflexive(cur); cur
    else
      var next := if LexLess(rest[0], cur) then rest[0] else cur;
      var m := MinFrom(next, rest[1..]);
      assert LexLe(next, cur) by {
        if LexLess(rest[0], cur) { LexAsymmetric(rest[0], cur); } else { LexIrreflexive(cur); }
      }
      assert LexLe(next, rest[0]) by {
        if !LexLess(rest[0], cur) { LexIrreflexive(rest[0]); } else { LexIrreflexive(rest[0]); }
      }
      LexLeTransitive(m, next, cur);
      LexLeTransitive(m, next, rest[0]);
      assert forall x :: x in rest ==> x == rest[0] || x in rest[1..];
      m
  }

  /** Python `max` continued from a current best `cur`. */
  function MaxFrom(cur: string, rest: seq<string>): (m: string)
    ensures m == cur || m in rest
    ensures LexLe(cur, m)
    ensures forall x :: x in rest ==> LexLe(x, m)
    decreases |rest|
  {
    if |rest| == 0 then LexIrreflexive(cur); cur
    else
      var next := if LexLess(cur, rest[0]) then rest[0] else cur;
      var m := MaxFrom(next, rest[1..]);
      assert LexLe(cur, next) by {
        if LexLess(cur, rest[0]) { LexAsymmetric(cur, rest[0]); } else { LexIrreflexive(cur); }
      }
      assert LexLe(rest[0], next) by {
        LexIrreflexive(rest[0]);
      }
      LexLeTransitive(cur, next, m);
      LexLeTransitive(rest[0], next, m);
      assert forall x :: x in rest ==> x == rest[0] || x in rest[1..];
      m
  }

  /** Python's `min(xs)`: a member of `xs` no member is smaller than. */
  function Min(xs: seq<string>): (m: string)
    requires |xs| > 0
    ensures m in xs
    ensures forall x :: x in xs ==> LexLe(m, x)
  {
    MinFrom(xs[0], xs[1..])
  }

  /** Python's `max(xs)`: a member of `xs` no member is larger than. */
  function Max(xs: seq<string>): (m: string)
    requires |xs| > 0
    ensures m in xs
    ensures forall x :: x in xs ==> LexLe(x, m)
  {
    MaxFrom(xs[0], xs[1..])
  }

  lemma MinLeMax(xs: seq<string>)
    requires |xs| > 0
    ensures LexLe(Min(xs), Max(xs))
  {
  }
}
