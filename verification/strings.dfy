/** String facts the panel relies on: glob-style name matching and the
    ordering Python uses when it sorts strings. */
module Strings {

  predicate HasPrefix(s: string, p: string)
  {
    |p| <= |s| && s[..|p|] == p
  }

  predicate HasSuffix(s: string, x: string)
  {
    |x| <= |s| && s[|s| - |x|..] == x
  }

  /** A file name matched by the glob pattern `<prefix>*<ext>`: the name
      starts with `prefix`, ends with `ext`, and the two do not overlap
      (the `*` may match the empty string). */
  predicate MatchesGlob(name: string, prefix: string, ext: string)
  {
    |prefix| + |ext| <= |name| && HasPrefix(name, prefix) && HasSuffix(name, ext)
  }

  /** The part of a matched name that the `*` stood for. */
  function Wildcard(name: string, prefix: string, ext: string): (w: string)
    requires MatchesGlob(name, prefix, ext)
    ensures prefix + w + ext == name
  {
    var w := name[|prefix|..|name| - |ext|];
    assert name == name[..|prefix|] + w + name[|name| - |ext|..];
    w
  }

  /** Building a name from a prefix, a middle part and an extension yields a
      name the glob matches, whose wildcard part is that middle part. */
  lemma GlobRoundTrip(prefix: string, w: string, ext: string)
    ensures MatchesGlob(prefix + w + ext, prefix, ext)
    ensures Wildcard(prefix + w + ext, prefix, ext) == w
  {
    var name := prefix + w + ext;
    assert name[..|prefix|] == prefix;
    assert name[|name| - |ext|..] == ext;
    assert name[|prefix|..|name| - |ext|] == w;
  }

  /** Python's `<` on `str`: code points compared left to right, and a
      proper prefix is smaller than the longer string. */
  predicate LexLess(a: string, b: string)
  {
    if |a| == 0 then |b| != 0
    else if |b| == 0 then false
    else if a[0] != b[0] then a[0] < b[0]
    else LexLess(a[1..], b[1..])
  }

  lemma {:induction false} LexIrreflexive(a: string)
    ensures !LexLess(a, a)
  {
    if |a| > 0 {
      LexIrreflexive(a[1..]);
    }
  }

  lemma {:induction false} LexAsymmetric(a: string, b: string)
    ensures LexLess(a, b) ==> !LexLess(b, a)
  {
    if |a| > 0 && |b| > 0 && a[0] == b[0] {
      LexAsymmetric(a[1..], b[1..]);
    }
  }

  lemma {:induction false} LexTransitive(a: string, b: string, c: string)
    requires LexLess(a, b) && LexLess(b, c)
    ensures LexLess(a, c)
  {
    if |a| > 0 && a[0] == b[0] && b[0] == c[0] {
      LexTransitive(a[1..], b[1..], c[1..]);
    }
  }

  lemma {:induction false} LexTotal(a: string, b: string)
    ensures a == b || LexLess(a, b) || LexLess(b, a)
  {
    if |a| > 0 && |b| > 0 && a[0] == b[0] {
      LexTotal(a[1..], b[1..]);
      if a[1..] == b[1..] {
        assert a == [a[0]] + a[1..] && b == [b[0]] + b[1..];
      }
    }
  }

  /** Comparing two concatenations whose first parts have the same length
      compares the first parts, and the second parts only on a tie. */
  lemma {:induction false} LexConcat(a: string, b: string, c: string, d: string)
    requires |a| == |c|
    ensures LexLess(a + b, c + d) <==> LexLess(a, c) || (a == c && LexLess(b, d))
  {
    if |a| == 0 {
      assert a + b == b && c + d == d;
    } else {
      assert (a + b)[0] == a[0] && (c + d)[0] == c[0];
      assert (a + b)[1..] == a[1..] + b && (c + d)[1..] == c[1..] + d;
      LexConcat(a[1..], b, c[1..], d);
      if a[0] == c[0] && a[1..] == c[1..] {
        assert a == [a[0]] + a[1..] && c == [c[0]] + c[1..];
      }
    }
  }

  /** Strings sharing a prefix compare as their remainders do. */
  lemma SharedPrefixOrder(p: string, x: string, y: string)
    ensures LexLess(p + x, p + y) <==> LexLess(x, y)
  {
    LexConcat(p, x, p, y);
    LexIrreflexive(p);
  }

  /** If `a + x` sorts before `b + y` with `a` and `b` of one length, then
      `b` does not sort before `a`. */
  lemma HeadOrder(a: string, x: string, b: string, y: string)
    requires |a| == |b|
    requires LexLess(a + x, b + y)
    ensures !LexLess(b, a)
  {
    LexConcat(a, x, b, y);
    LexAsymmetric(a, b);
  }

  /** Every two elements, by position, are in strictly increasing order: the
      shape of `sorted(set)` in Python. */
  predicate StrictlyAscending(s: seq<string>)
  {
    forall i, j :: 0 <= i < j < |s| ==> LexLess(s[i], s[j])
  }

  predicate IsGreatest(m: string, s: set<string>)
  {
    m in s && forall x :: x in s && x != m ==> LexLess(x, m)
  }

  lemma {:induction false} GreatestExists(s: set<string>)
    requires s != {}
    ensures exists m :: IsGreatest(m, s)
    decreases |s|
  {
    var x :| x in s;
    if s == {x} {
      assert IsGreatest(x, s);
    } else {
      var rest := s - {x};
      GreatestExists(rest);
      var m :| IsGreatest(m, rest);
      LexTotal(x, m);
      if LexLess(m, x) {
        forall y | y in s && y != x
          ensures LexLess(y, x)
        {
          if y != m {
            LexTransitive(y, m, x);
          }
        }
        assert IsGreatest(x, s);
      } else {
        assert IsGreatest(m, s);
      }
    }
  }

  lemma GreatestUnique(s: set<string>)
    ensures forall m, n :: IsGreatest(m, s) && IsGreatest(n, s) ==> m == n
  {
    forall m, n | IsGreatest(m, s) && IsGreatest(n, s)
      ensures m == n
    {
      LexAsymmetric(m, n);
    }
  }

  /** The last element of `sorted(s)`. */
  function Greatest(s: set<string>): (m: string)
    requires s != {}
    ensures IsGreatest(m, s)
  {
    GreatestExists(s);
    GreatestUnique(s);
    var m :| IsGreatest(m, s);
    m
  }

  /** Python's `sorted(s)` for a set of strings: every element exactly once,
      in strictly increasing order. */
  function SortSet(s: set<string>): (r: seq<string>)
    ensures StrictlyAscending(r)
    ensures forall x :: x in r <==> x in s
    ensures |r| == |s|
    decreases |s|
  {
    if s == {} then []
    else
      var m := Greatest(s);
      var r := SortSet(s - {m});
      assert forall i :: 0 <= i < |r| ==> r[i] in s - {m};
      r + [m]
  }

  /** Two strictly ascending sequences holding the same strings are equal:
      a set has exactly one sorted listing. */
  lemma {:induction false} AscendingUnique(a: seq<string>, b: seq<string>)
    requires StrictlyAscending(a) && StrictlyAscending(b)
    requires forall x :: x in a <==> x in b
    ensures a == b
    decreases |a|
  {
    assert |a| > 0 <==> |b| > 0 by {
      if |a| > 0 {
        assert a[0] in b;
      }
      if |b| > 0 {
        assert b[0] in a;
      }
    }
    if |a| > 0 {
      var la, lb := a[|a| - 1], b[|b| - 1];
      assert lb in a && la in b;
      assert lb == la || LexLess(lb, la);
      assert la == lb || LexLess(la, lb);
      LexAsymmetric(la, lb);
      var a', b' := a[..|a| - 1], b[..|b| - 1];
      forall x
        ensures x in a' <==> x in b'
      {
        LexIrreflexive(x);
        if x in a' {
          var k :| 0 <= k < |a'| && a'[k] == x;
          assert LexLess(a[k], a[|a| - 1]);
          assert a[k] in a;
          var k' :| 0 <= k' < |b| && b[k'] == x;
          assert b'[k'] == x;
        }
        if x in b' {
          var k :| 0 <= k < |b'| && b'[k] == x;
          assert LexLess(b[k], b[|b| - 1]);
          assert b[k] in b;
          var k' :| 0 <= k' < |a| && a[k'] == x;
          assert a'[k'] == x;
        }
      }
      AscendingUnique(a', b');
      assert a == a' + [la] && b == b' + [lb];
    }
  }
}
