/** How many numbers fit below a bound. */
module Counting {
  import opened OrderedSeq

  function Below(n: nat): (s: set<nat>)
    ensures |s| == n && forall x: nat :: x in s <==> x < n
  {
    if n == 0 then {} else Below(n - 1) + {n - 1}
  }

  function Elements(s: seq<nat>): (r: set<nat>)
    ensures forall x: nat :: x in r <==> x in s
  {
    if s == [] then {} else {s[0]} + Elements(s[1..])
  }

  lemma {:induction false} ElementsSize(s: seq<nat>)
    requires NoDup(s)
    ensures |Elements(s)| == |s|
  {
    if s != [] {
      ElementsSize(s[1..]);
      assert s[0] !in Elements(s[1..]);
    }
  }

  lemma SubsetSize(a: set<nat>, b: set<nat>)
    requires a <= b
    ensures |b - a| == |b| - |a|
  {
    assert b == a + (b - a);
  }

  lemma SubsetFull(a: set<nat>, b: set<nat>)
    requires a <= b && |a| >= |b|
    ensures a == b
  {
    SubsetSize(a, b);
    assert b - a == {};
  }

  /** Distinct numbers below `n` are at most `n`. */
  lemma Fits(s: seq<nat>, n: nat)
    requires NoDup(s) && forall x | x in s :: x < n
    ensures |s| <= n
  {
    hide Below, Elements;
    ElementsSize(s);
    SubsetSize(Elements(s), Below(n));
  }

  /** Distinct numbers below `n` that leave one out are fewer. */
  lemma FitsWith(s: seq<nat>, n: nat, y: nat)
    requires NoDup(s) && (forall x | x in s :: x < n) && y < n && y !in s
    ensures |s| < n
  {
    Fits(s + [y], n);
  }

  /** The numbers from `j` up to `n`. */
  function From(j: nat, n: nat): (s: seq<nat>)
    requires j <= n
    ensures |s| == n - j && forall i | 0 <= i < |s| :: s[i] == j + i
    decreases n - j
  {
    if j == n then [] else [j] + From(j + 1, n)
  }
}
