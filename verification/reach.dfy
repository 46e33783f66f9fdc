/**
 * Reachability along a sequence: every entry is a root or the target of an edge from an entry
 * that comes before it. The dependency walks load modules in such an order.
 */
module Reach {
  import opened Strings

  /** Entry `i` of `s` is one of `roots`, or `edge(s[i], s[j])` holds for some earlier entry `s[j]`. */
  predicate ReachedAt<T(==)>(edge: (T, T) -> bool, roots: seq<T>, s: seq<T>, i: nat)
    requires i < |s|
  {
    s[i] in roots || exists j :: 0 <= j < i && edge(s[i], s[j])
  }

  /** Every entry of `s` is reached from `roots`. */
  predicate Reached<T(==)>(edge: (T, T) -> bool, roots: seq<T>, s: seq<T>) {
    forall i :: 0 <= i < |s| ==> ReachedAt(edge, roots, s, i)
  }

  lemma ReachedWider<T>(edge: (T, T) -> bool, roots: seq<T>, roots': seq<T>, s: seq<T>)
    requires Reached(edge, roots, s)
    requires forall x :: x in roots ==> x in roots'
    ensures Reached(edge, roots', s)
  {
    forall i | 0 <= i < |s| ensures ReachedAt(edge, roots', s, i) {
      assert ReachedAt(edge, roots, s, i);
    }
  }

  /**
   * A root `n`, then entries reached from the targets `n` has edges to, then entries reached
   * from `roots`: all of it is reached from `roots`.
   */
  lemma ReachedCons<T>(edge: (T, T) -> bool, n: T, roots: seq<T>, next: seq<T>, s1: seq<T>, s2: seq<T>)
    requires n in roots
    requires forall m :: m in next ==> edge(m, n)
    requires Reached(edge, next, s1)
    requires Reached(edge, roots, s2)
    ensures Reached(edge, roots, [n] + s1 + s2)
  {
    var t := [n] + s1 + s2;
    forall i | 0 <= i < |t| ensures ReachedAt(edge, roots, t, i) {
      if i == 0 {
        assert t[0] == n;
      } else if i <= |s1| {
        assert ReachedAt(edge, next, s1, i - 1);
        assert t[i] == s1[i - 1] && t[0] == n;
        if s1[i - 1] !in next {
          var j :| 0 <= j < i - 1 && edge(s1[i - 1], s1[j]);
          assert t[1 + j] == s1[j];
        }
      } else {
        var k := i - 1 - |s1|;
        assert ReachedAt(edge, roots, s2, k);
        assert t[i] == s2[k];
        if s2[k] !in roots {
          var j :| 0 <= j < k && edge(s2[k], s2[j]);
          assert t[1 + |s1| + j] == s2[j];
        }
      }
    }
  }

  /**
   * Reached entries stay inside any set that holds the roots and is closed under edges: a
   * sequence reached from `roots` never leaves the reachable closure of `roots`.
   */
  lemma {:induction false} ReachedWithin<T>(edge: (T, T) -> bool, roots: seq<T>, s: seq<T>, closure: set<T>)
    requires forall x :: x in roots ==> x in closure
    requires forall m, n :: n in closure && edge(m, n) ==> m in closure
    requires Reached(edge, roots, s)
    ensures forall x :: x in s ==> x in closure
    decreases |s|
  {
    if s != [] {
      var p := s[..|s| - 1];
      assert Reached(edge, roots, p) by {
        forall i | 0 <= i < |p| ensures ReachedAt(edge, roots, p, i) {
          assert ReachedAt(edge, roots, s, i);
          assert p[i] == s[i];
          if s[i] !in roots {
            var j :| 0 <= j < i && edge(s[i], s[j]);
            assert p[j] == s[j];
          }
        }
      }
      ReachedWithin(edge, roots, p, closure);
      assert s == p + [s[|s| - 1]];
      assert ReachedAt(edge, roots, s, |s| - 1);
    }
  }

  /** The entries one step of a walk adds: the entry itself, those its sub-walk added, those added after. */
  lemma Segments<T>(l0: seq<T>, n: T, l1: seq<T>, l2: seq<T>, l3: seq<T>)
    requires l1 == l0 + [n] && IsPrefix(l1, l2) && IsPrefix(l2, l3)
    ensures l3[|l0|..] == [n] + l2[|l1|..] + l3[|l2|..]
  {
    assert l2 == l1 + l2[|l1|..];
    assert l3 == l2 + l3[|l2|..];
    assert l3 == l0 + ([n] + l2[|l1|..] + l3[|l2|..]);
  }

  /**
   * One step of a walk from `roots`: root `n` is added, a sub-walk from `n`'s targets `next`
   * adds more, and the rest of the walk adds more, each part reached from its own roots.
   */
  lemma ReachedStep<T>(edge: (T, T) -> bool, n: T, roots: seq<T>, next: seq<T>,
                       l0: seq<T>, l1: seq<T>, l2: seq<T>, l3: seq<T>)
    requires n in roots && forall m :: m in next ==> edge(m, n)
    requires l1 == l0 + [n] && IsPrefix(l1, l2) && IsPrefix(l2, l3)
    requires Reached(edge, next, l2[|l1|..])
    requires Reached(edge, roots, l3[|l2|..])
    ensures Reached(edge, roots, l3[|l0|..])
  {
    Segments(l0, n, l1, l2, l3);
    ReachedCons(edge, n, roots, next, l2[|l1|..], l3[|l2|..]);
  }

  /** The same step when the rest of the walk stopped at `x`: `x` is reached from `roots` as well. */
  lemma ReachedStepThen<T>(edge: (T, T) -> bool, n: T, roots: seq<T>, next: seq<T>,
                           l0: seq<T>, l1: seq<T>, l2: seq<T>, l3: seq<T>, x: T)
    requires n in roots && forall m :: m in next ==> edge(m, n)
    requires l1 == l0 + [n] && IsPrefix(l1, l2) && IsPrefix(l2, l3)
    requires Reached(edge, next, l2[|l1|..])
    requires Reached(edge, roots, l3[|l2|..] + [x])
    ensures Reached(edge, roots, l3[|l0|..] + [x])
  {
    Segments(l0, n, l1, l2, l3);
    ReachedCons(edge, n, roots, next, l2[|l1|..], l3[|l2|..] + [x]);
    assert [n] + l2[|l1|..] + (l3[|l2|..] + [x]) == l3[|l0|..] + [x];
  }

  /** A step whose sub-walk stopped at `x`: what it added, then `x`, is reached from `roots`. */
  lemma ReachedStop<T>(edge: (T, T) -> bool, n: T, roots: seq<T>, next: seq<T>,
                       l0: seq<T>, l1: seq<T>, l2: seq<T>, x: T)
    requires n in roots && forall m :: m in next ==> edge(m, n)
    requires l1 == l0 + [n] && IsPrefix(l1, l2)
    requires Reached(edge, next, l2[|l1|..] + [x])
    ensures Reached(edge, roots, l2[|l0|..] + [x])
  {
    Segments(l0, n, l1, l2, l2);
    ReachedCons(edge, n, roots, next, l2[|l1|..] + [x], []);
    assert [n] + (l2[|l1|..] + [x]) + [] == l2[|l0|..] + [x];
  }
}
