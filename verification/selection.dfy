/** Lists filtered and mapped in one pass, as the loops that append to a result do. */
module Selection {
  import opened Text

  /** [f(x) for x in xs if keep(x)] */
  function Pick<T, R>(xs: seq<T>, keep: T -> bool, f: T -> R): seq<R> {
    if xs == [] then []
    else
      var init, last := Pick(xs[..|xs| - 1], keep, f), xs[|xs| - 1];
      if keep(last) then init + [f(last)] else init
  }

  function Not<T>(keep: T -> bool): T -> bool {
    x => !keep(x)
  }

  function Any<T>(x: T): bool {
    true
  }

  function Same<T>(x: T): T {
    x
  }

  lemma {:induction false} PickJoins<T, R>(a: seq<T>, b: seq<T>, keep: T -> bool, f: T -> R)
    ensures Pick(a + b, keep, f) == Pick(a, keep, f) + Pick(b, keep, f)
  {
    if b == [] {
      assert a + b == a;
    } else {
      PickJoins(a, b[..|b| - 1], keep, f);
      assert (a + b)[..|a + b| - 1] == a + b[..|b| - 1];
    }
  }

  lemma {:induction false} PickNothing<T, R>(xs: seq<T>, keep: T -> bool, f: T -> R)
    requires forall i | 0 <= i < |xs| :: !keep(xs[i])
    ensures Pick(xs, keep, f) == []
  {
    if xs != [] {
      PickNothing(xs[..|xs| - 1], keep, f);
    }
  }

  /** [x for x in xs if keep(x)] */
  function Filter<T>(xs: seq<T>, keep: T -> bool): seq<T> {
    Pick(xs, keep, Same)
  }

  lemma {:induction false} FilterIff<T>(xs: seq<T>, keep: T -> bool, x: T)
    ensures x in Filter(xs, keep) <==> x in xs && keep(x)
  {
    if xs != [] {
      var init, last := xs[..|xs| - 1], xs[|xs| - 1];
      assert xs == init + [last];
      FilterIff(init, keep, x);
    }
  }

  lemma {:induction false} FilterDistinct<T>(xs: seq<T>, keep: T -> bool)
    requires Distinct(xs)
    ensures Distinct(Filter(xs, keep))
  {
    if xs != [] {
      var init, last := xs[..|xs| - 1], xs[|xs| - 1];
      FilterDistinct(init, keep);
      FilterIff(init, keep, last);
    }
  }

  /** The positions a filter keeps. */
  function Where<T>(xs: seq<T>, keep: T -> bool): seq<nat> {
    if xs == [] then []
    else
      var init, n := Where(xs[..|xs| - 1], keep), |xs| - 1;
      if keep(xs[n]) then init + [n] else init
  }

  lemma {:induction false} WhereIff<T>(xs: seq<T>, keep: T -> bool, i: nat)
    ensures i in Where(xs, keep) <==> i < |xs| && keep(xs[i])
  {
    if xs != [] {
      WhereIff(xs[..|xs| - 1], keep, i);
    }
  }

  lemma {:induction false} WhereIncreases<T>(xs: seq<T>, keep: T -> bool)
    ensures forall k | 0 <= k < |Where(xs, keep)| :: Where(xs, keep)[k] < |xs|
    ensures forall k, l | 0 <= k < l < |Where(xs, keep)| :: Where(xs, keep)[k] < Where(xs, keep)[l]
  {
    if xs != [] {
      WhereIncreases(xs[..|xs| - 1], keep);
    }
  }

  lemma {:induction false} PickWhere<T, R>(xs: seq<T>, keep: T -> bool, f: T -> R)
    ensures |Pick(xs, keep, f)| == |Where(xs, keep)|
    ensures forall k | 0 <= k < |Where(xs, keep)| ::
              Where(xs, keep)[k] < |xs| && Pick(xs, keep, f)[k] == f(xs[Where(xs, keep)[k]])
  {
    if xs != [] {
      PickWhere(xs[..|xs| - 1], keep, f);
    }
  }

  /** The positions whose elements are picked, in order. */
  lemma PickedAt<T, R>(xs: seq<T>, keep: T -> bool, f: T -> R) returns (at: seq<nat>)
    ensures |at| == |Pick(xs, keep, f)|
    ensures forall k | 0 <= k < |at| :: at[k] < |xs| && Pick(xs, keep, f)[k] == f(xs[at[k]])
    ensures forall k, l | 0 <= k < l < |at| :: at[k] < at[l]
    ensures forall i: nat :: i in at <==> i < |xs| && keep(xs[i])
  {
    at := Where(xs, keep);
    PickWhere(xs, keep, f);
    WhereIncreases(xs, keep);
    forall i: nat ensures i in at <==> i < |xs| && keep(xs[i]) {
      WhereIff(xs, keep, i);
    }
  }

  /** What is kept and what is not make up the whole list, with repeats. */
  lemma {:induction false} PickSplits<T, R>(xs: seq<T>, keep: T -> bool, f: T -> R)
    ensures multiset(Pick(xs, keep, f)) + multiset(Pick(xs, Not(keep), f)) == multiset(Pick(xs, Any, f))
  {
    if xs != [] {
      PickSplits(xs[..|xs| - 1], keep, f);
    }
  }

  /** At how many positions the predicate holds. */
  ghost function HowMany<T>(xs: seq<T>, holds: T -> bool): nat {
    |set i | 0 <= i < |xs| && holds(xs[i])|
  }

  lemma HowManyNext<T>(xs: seq<T>, holds: T -> bool)
    requires xs != []
    ensures var n := |xs| - 1; HowMany(xs, holds) == HowMany(xs[..n], holds) + if holds(xs[n]) then 1 else 0
  {
    var n := |xs| - 1;
    var was, now := set i | 0 <= i < n && holds(xs[..n][i]), set i | 0 <= i < |xs| && holds(xs[i]);
    assert now == was + if holds(xs[n]) then {n} else {};
  }

  lemma HowManyAgree<S, T>(xs: seq<S>, ys: seq<T>, f: S -> bool, g: T -> bool)
    requires |xs| == |ys| && forall i | 0 <= i < |xs| :: f(xs[i]) == g(ys[i])
    ensures HowMany(xs, f) == HowMany(ys, g)
  {
    assert (set i | 0 <= i < |xs| && f(xs[i])) == (set i | 0 <= i < |ys| && g(ys[i]));
  }
}
