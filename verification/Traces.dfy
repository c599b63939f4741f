/**
 * Reordering of runs: two schedules of the same steps that agree on the order
 * of dependent steps end in the same state.
 */
module Traces {

  function Run<S, T>(step: (S, T) -> S, s: S, p: seq<T>): S
    decreases |p|
  {
    if p == [] then s else Run(step, step(s, p[0]), p[1..])
  }

  /** Steps that do not depend on each other can be swapped in any state. */
  ghost predicate Commuting<S(!new), T(!new)>(step: (S, T) -> S, dep: (T, T) -> bool) {
    forall s, a, b :: !dep(a, b) ==> step(step(s, a), b) == step(step(s, b), a)
  }

  /** Dependent steps of `p` occur in the order `before`. */
  ghost predicate KeepsOrder<T>(p: seq<T>, dep: (T, T) -> bool, before: (T, T) -> bool) {
    forall i, j | 0 <= i < j < |p| :: dep(p[i], p[j]) ==> before(p[i], p[j])
  }

  ghost predicate Sorted<T>(p: seq<T>, before: (T, T) -> bool) {
    forall i, j | 0 <= i < j < |p| :: before(p[i], p[j])
  }

  ghost predicate Asymmetric<T(!new)>(before: (T, T) -> bool) {
    forall a, b :: before(a, b) ==> !before(b, a)
  }

  ghost predicate Distinct<T>(p: seq<T>) {
    forall i, j | 0 <= i < j < |p| :: p[i] != p[j]
  }

  function Elements<T>(p: seq<T>): set<T> {
    set x | x in p
  }

  lemma {:induction false} RunConcat<S, T>(step: (S, T) -> S, s: S, p: seq<T>, q: seq<T>)
    ensures Run(step, s, p + q) == Run(step, Run(step, s, p), q)
    decreases |p|
  {
    if p == [] {
      assert p + q == q;
    } else {
      RunConcat(step, step(s, p[0]), p[1..], q);
      assert (p + q)[1..] == p[1..] + q;
    }
  }

  /** A step independent of all steps before it can be made first. */
  lemma {:induction false} MoveToFront<S(!new), T(!new)>(
      step: (S, T) -> S, dep: (T, T) -> bool, s: S, p: seq<T>, x: T, q: seq<T>)
    requires Commuting(step, dep)
    requires forall y | y in p :: !dep(y, x)
    ensures Run(step, s, p + [x] + q) == Run(step, step(s, x), p + q)
    decreases |p|
  {
    if p == [] {
      assert p + [x] + q == [x] + q;
      assert p + q == q;
    } else {
      var s' := step(s, p[0]);
      assert (p + [x] + q)[1..] == p[1..] + [x] + q;
      assert (p + q)[1..] == p[1..] + q;
      MoveToFront(step, dep, s', p[1..], x, q);
      assert step(s', x) == step(step(s, x), p[0]);
    }
  }

  /** Any schedule that keeps dependent steps in the order `before` does what
      the serial run in that order does. */
  lemma {:induction false} ReorderEquivalent<S(!new), T(!new)>(
      step: (S, T) -> S, dep: (T, T) -> bool, before: (T, T) -> bool, s: S, p: seq<T>, serial: seq<T>)
    requires Commuting(step, dep) && Asymmetric(before)
    requires Distinct(p) && Elements(p) == Elements(serial)
    requires KeepsOrder(p, dep, before) && Sorted(serial, before)
    ensures Run(step, s, p) == Run(step, s, serial)
    decreases |serial|
  {
    if serial == [] {
      assert forall i | 0 <= i < |p| :: p[i] in Elements(p);
    } else {
      var x := serial[0];
      assert x in Elements(p);
      var k :| 0 <= k < |p| && p[k] == x;
      var a, b := p[..k], p[k + 1..];
      assert p == a + [x] + b;
      forall y | y in a
        ensures !dep(y, x)
      {
        var i :| 0 <= i < k && p[i] == y;
        assert p[i] in Elements(serial);
        var m :| 0 <= m < |serial| && serial[m] == y;
        assert before(x, y);
      }
      MoveToFront(step, dep, s, a, x, b);
      RemoveKeepsOrder(p, k, dep, before);
      RestElements(p, k, serial, before);
      ReorderEquivalent(step, dep, before, step(s, x), a + b, serial[1..]);
    }
  }

  lemma RemoveKeepsOrder<T>(p: seq<T>, k: nat, dep: (T, T) -> bool, before: (T, T) -> bool)
    requires k < |p| && Distinct(p) && KeepsOrder(p, dep, before)
    ensures Distinct(p[..k] + p[k + 1..]) && KeepsOrder(p[..k] + p[k + 1..], dep, before)
  {
    var r := p[..k] + p[k + 1..];
    forall i, j | 0 <= i < j < |r|
      ensures r[i] != r[j] && (dep(r[i], r[j]) ==> before(r[i], r[j]))
    {
      var i', j' := if i < k then i else i + 1, if j < k then j else j + 1;
      assert r[i] == p[i'] && r[j] == p[j'];
    }
  }

  lemma RestElements<T(!new)>(p: seq<T>, k: nat, serial: seq<T>, before: (T, T) -> bool)
    requires k < |p| && Distinct(p) && Elements(p) == Elements(serial)
    requires serial != [] && p[k] == serial[0]
    requires Asymmetric(before) && Sorted(serial, before)
    ensures Elements(p[..k] + p[k + 1..]) == Elements(serial[1..])
  {
    var r := p[..k] + p[k + 1..];
    forall y
      ensures y in r <==> y in serial[1..]
    {
      if y in r {
        var i :| 0 <= i < |r| && r[i] == y;
        var i' := if i < k then i else i + 1;
        assert p[i'] == y && i' != k;
        assert y in Elements(serial);
      }
      if y in serial[1..] {
        var m :| 1 <= m < |serial| && serial[m] == y;
        assert before(serial[0], y) && y != serial[0];
        assert y in Elements(p);
        var i :| 0 <= i < |p| && p[i] == y;
        assert r[if i < k then i else i - 1] == y;
      }
    }
  }
}
