/** Selecting positions: which elements of a list a filter keeps, in order. */
module Positions {
  /** The positions below n with a property, in ascending order. */
  ghost function Where(p: nat -> bool, n: nat): seq<nat> {
    if n == 0 then [] else if p(n - 1) then Where(p, n - 1) + [n - 1] else Where(p, n - 1)
  }

  lemma {:induction false} WhereMeaning(p: nat -> bool, n: nat)
    ensures forall s, t | 0 <= s < t < |Where(p, n)| :: Where(p, n)[s] < Where(p, n)[t]
    ensures forall j: nat :: j in Where(p, n) <==> j < n && p(j)
    ensures forall t | 0 <= t < |Where(p, n)| :: Where(p, n)[t] < n && p(Where(p, n)[t])
  {
    if n > 0 { WhereMeaning(p, n - 1); }
  }

  predicate Below(at: seq<nat>, n: nat) { forall i | 0 <= i < |at| :: at[i] < n }

  /** The elements at some positions. */
  function Pick<T>(s: seq<T>, at: seq<nat>): seq<T>
    requires Below(at, |s|)
  {
    if at == [] then [] else Pick(s, at[..|at| - 1]) + [s[at[|at| - 1]]]
  }

  lemma {:induction false} PickMeaning<T>(s: seq<T>, at: seq<nat>)
    requires Below(at, |s|)
    ensures |Pick(s, at)| == |at| && forall i | 0 <= i < |at| :: at[i] < |s| && Pick(s, at)[i] == s[at[i]]
  {
    if at != [] {
      PickMeaning(s, at[..|at| - 1]);
      assert at == at[..|at| - 1] + [at[|at| - 1]];
    }
  }

  lemma PickNext<T>(s: seq<T>, at: seq<nat>, n: nat)
    requires n < |s| && Below(at, |s|)
    ensures Below(at + [n], |s|) && Pick(s, at + [n]) == Pick(s, at) + [s[n]]
  {
    assert (at + [n])[..|at|] == at;
  }
}
