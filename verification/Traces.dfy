/** Finite runs of a step relation. */
module Traces {

  ghost predicate Trace<C(!new)>(moves: (C, C) -> bool, t: seq<C>) {
    t != [] && forall i | 0 <= i < |t| - 1 :: moves(t[i], t[i + 1])
  }

  /** From `c` there is a run to `d` of exactly `n` steps. */
  ghost predicate Reaches<C(!new)>(moves: (C, C) -> bool, c: C, n: nat, d: C) {
    exists t :: Trace(moves, t) && |t| == n + 1 && t[0] == c && t[n] == d
  }

  lemma None<C(!new)>(moves: (C, C) -> bool, c: C)
    ensures Reaches(moves, c, 0, c)
  {
    assert Trace(moves, [c]);
  }

  lemma One<C(!new)>(moves: (C, C) -> bool, c: C, d: C)
    requires moves(c, d)
    ensures Reaches(moves, c, 1, d)
  {
    assert Trace(moves, [c, d]);
  }

  lemma Compose<C(!new)>(moves: (C, C) -> bool, c: C, n: nat, d: C, m: nat, e: C)
    requires Reaches(moves, c, n, d) && Reaches(moves, d, m, e)
    ensures Reaches(moves, c, n + m, e)
  {
    var t :| Trace(moves, t) && |t| == n + 1 && t[0] == c && t[n] == d;
    var u :| Trace(moves, u) && |u| == m + 1 && u[0] == d && u[m] == e;
    var w := t + u[1..];
    assert forall i | n <= i < |w| :: w[i] == u[i - n];
    assert Trace(moves, w) && w[0] == c && w[n + m] == e;
  }

  ghost predicate Functional<C(!new)>(moves: (C, C) -> bool) {
    forall c, d, e :: moves(c, d) && moves(c, e) ==> d == e
  }

  /** Two runs of a functional relation from one point agree as far as both go. */
  lemma Agree<C(!new)>(moves: (C, C) -> bool, c: C, n: nat, d: C, m: nat, e: C)
    requires Functional(moves) && Reaches(moves, c, n, d) && Reaches(moves, c, m, e) && n <= m
    ensures Reaches(moves, d, m - n, e)
  {
    var t :| Trace(moves, t) && |t| == n + 1 && t[0] == c && t[n] == d;
    var u :| Trace(moves, u) && |u| == m + 1 && u[0] == c && u[m] == e;
    var i := 0;
    while i < n
      invariant 0 <= i <= n && t[i] == u[i]
    {
      assert moves(t[i], t[i + 1]) && moves(u[i], u[i + 1]);
      i := i + 1;
    }
    assert Trace(moves, u[n..]);
  }

  /** A run of a positive number of steps has a first step. */
  lemma First<C(!new)>(moves: (C, C) -> bool, c: C, n: nat, e: C) returns (d: C)
    requires n > 0 && Reaches(moves, c, n, e)
    ensures moves(c, d) && Reaches(moves, d, n - 1, e)
  {
    var t :| Trace(moves, t) && |t| == n + 1 && t[0] == c && t[n] == e;
    d := t[1];
    assert Trace(moves, t[1..]);
  }
}
