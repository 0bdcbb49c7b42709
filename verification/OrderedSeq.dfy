/** Sequences kept in order: what a queue of nodes means to its users. */
module OrderedSeq {

  /** `cmp(a, b) < 0` puts `a` below `b`; on the elements of `s` it is a total preorder. */
  ghost predicate Preorder<T>(cmp: (T, T) -> int, s: set<T>) {
    && (forall a, b | a in s && b in s :: cmp(a, b) < 0 <==> cmp(b, a) > 0)
    && (forall a, b, c | a in s && b in s && c in s && cmp(a, b) >= 0 && cmp(b, c) >= 0 :: cmp(a, c) >= 0)
  }

  ghost predicate Ordered<T>(cmp: (T, T) -> int, s: seq<T>) {
    forall i, j | 0 <= i < j < |s| :: cmp(s[j], s[i]) >= 0
  }

  ghost predicate NoDup<T>(s: seq<T>) {
    forall i, j | 0 <= i < j < |s| :: s[i] != s[j]
  }

  /** `x` goes in front of the first element it is below. */
  function InsertBy<T>(cmp: (T, T) -> int, s: seq<T>, x: T): (r: seq<T>)
    ensures |r| == |s| + 1
  {
    if s == [] || cmp(x, s[0]) < 0 then [x] + s else [s[0]] + InsertBy(cmp, s[1..], x)
  }

  /** `s` without the first occurrence of `x`. */
  function Without<T(==)>(s: seq<T>, x: T): (r: seq<T>)
    ensures |r| == |s| - if x in s then 1 else 0
  {
    if s == [] then [] else if s[0] == x then s[1..] else [s[0]] + Without(s[1..], x)
  }

  /** Below everything that is not below `b`, if below `b`; not below anything `b` is not below, if not below `b`. */
  lemma Compare<T>(cmp: (T, T) -> int, s: set<T>, x: T, b: T, c: T)
    requires Preorder(cmp, s) && x in s && b in s && c in s && cmp(b, c) >= 0
    ensures cmp(x, b) >= 0 ==> cmp(x, c) >= 0
    ensures cmp(x, c) < 0 ==> cmp(x, b) < 0
  {
  }

  /** What is not below an element of an ordered sequence is not below anything in front of it. */
  lemma NotBelowPrefix<T>(cmp: (T, T) -> int, s: set<T>, all: seq<T>, k: nat, x: T)
    requires Preorder(cmp, s) && x in s && (forall e | e in all :: e in s) && Ordered(cmp, all)
    requires k < |all| && cmp(x, all[k]) >= 0
    ensures forall i | 0 <= i < k :: cmp(x, all[i]) >= 0
  {
    hide Preorder;
    forall i | 0 <= i < k ensures cmp(x, all[i]) >= 0 {
      Compare(cmp, s, x, all[k], all[i]);
    }
  }

  lemma {:induction false} InsertByAt<T>(cmp: (T, T) -> int, a: seq<T>, b: seq<T>, x: T)
    requires forall i | 0 <= i < |a| :: cmp(x, a[i]) >= 0
    requires b != [] ==> cmp(x, b[0]) < 0
    ensures InsertBy(cmp, a + b, x) == a + [x] + b
  {
    if a == [] {
      assert a + b == b;
    } else {
      assert (a + b)[1..] == a[1..] + b;
      InsertByAt(cmp, a[1..], b, x);
      assert a == [a[0]] + a[1..];
    }
  }

  /** Only the comparisons of `x` itself matter. */
  lemma {:induction false} InsertByAgree<T>(cmp: (T, T) -> int, cmp': (T, T) -> int, s: seq<T>, x: T)
    requires forall y | y in s :: cmp(x, y) == cmp'(x, y)
    ensures InsertBy(cmp, s, x) == InsertBy(cmp', s, x)
  {
    if s != [] { InsertByAgree(cmp, cmp', s[1..], x); }
  }

  lemma {:induction false} WithoutAt<T>(a: seq<T>, b: seq<T>, x: T)
    requires x !in a
    ensures Without(a + [x] + b, x) == a + b
  {
    if a == [] {
      assert a + [x] + b == [x] + b;
    } else {
      assert (a + [x] + b)[1..] == a[1..] + [x] + b;
      WithoutAt(a[1..], b, x);
      assert a == [a[0]] + a[1..];
    }
  }

  function InsertPos<T>(cmp: (T, T) -> int, s: seq<T>, x: T): (k: nat)
    ensures k <= |s|
  {
    if s == [] || cmp(x, s[0]) < 0 then 0 else 1 + InsertPos(cmp, s[1..], x)
  }

  lemma {:induction false} InsertBySplit<T>(cmp: (T, T) -> int, s: seq<T>, x: T)
    ensures var k := InsertPos(cmp, s, x);
      && InsertBy(cmp, s, x) == s[..k] + [x] + s[k..]
      && (forall i | 0 <= i < k :: cmp(x, s[i]) >= 0)
      && (k < |s| ==> cmp(x, s[k]) < 0)
  {
    if s != [] && cmp(x, s[0]) >= 0 {
      InsertBySplit(cmp, s[1..], x);
      var k := InsertPos(cmp, s[1..], x);
      assert s[..k + 1] + [x] + s[k + 1..] == [s[0]] + (s[1..][..k] + [x] + s[1..][k..]);
    }
  }

  lemma InsertByMember<T>(cmp: (T, T) -> int, s: seq<T>, x: T, y: T)
    ensures y in InsertBy(cmp, s, x) <==> y == x || y in s
  {
    InsertBySplit(cmp, s, x);
    var k := InsertPos(cmp, s, x);
    assert s == s[..k] + s[k..];
  }

  lemma InsertByNoDup<T>(cmp: (T, T) -> int, s: seq<T>, x: T)
    requires NoDup(s) && x !in s
    ensures NoDup(InsertBy(cmp, s, x))
  {
    InsertBySplit(cmp, s, x);
  }

  /** Inserting into an ordered sequence keeps it ordered. */
  lemma InsertByOrdered<T>(cmp: (T, T) -> int, s: seq<T>, x: T, all: set<T>)
    requires Preorder(cmp, all) && x in all && (forall e | e in s :: e in all) && Ordered(cmp, s)
    ensures Ordered(cmp, InsertBy(cmp, s, x))
  {
    hide Preorder;
    InsertBySplit(cmp, s, x);
    var k := InsertPos(cmp, s, x);
    var r := s[..k] + [x] + s[k..];
    forall i, j | 0 <= i < j < |r| ensures cmp(r[j], r[i]) >= 0 {
      if i == k {
        if j == k + 1 {
          Flip(cmp, all, x, s[k]);
        } else {
          Flip(cmp, all, x, s[k]);
          assert r[j] == s[j - 1];
          Compare(cmp, all, s[j - 1], s[k], x);
        }
      }
    }
  }

  lemma Flip<T>(cmp: (T, T) -> int, s: set<T>, a: T, b: T)
    requires Preorder(cmp, s) && a in s && b in s && cmp(a, b) < 0
    ensures cmp(b, a) >= 0
  {
  }

  lemma {:induction false} WithoutSplit<T>(s: seq<T>, x: T) returns (k: nat)
    requires x in s
    ensures k < |s| && s[k] == x && Without(s, x) == s[..k] + s[k + 1..]
  {
    if s[0] == x {
      k := 0;
    } else {
      var j := WithoutSplit(s[1..], x);
      k := j + 1;
      assert s[..k] + s[k + 1..] == [s[0]] + (s[1..][..j] + s[1..][j + 1..]);
    }
  }

  lemma WithoutMember<T>(s: seq<T>, x: T, y: T)
    requires x in s && NoDup(s)
    ensures y in Without(s, x) <==> y in s && y != x
  {
    hide Without;
    var k := WithoutSplit(s, x);
    assert s == s[..k] + [x] + s[k + 1..];
    assert y in s[..k] + s[k + 1..] <==> y in s[..k] || y in s[k + 1..];
  }

  lemma {:induction false} WithoutCommutes<T>(s: seq<T>, x: T, y: T)
    requires x != y
    ensures Without(Without(s, x), y) == Without(Without(s, y), x)
  {
    if s != [] && s[0] != x && s[0] != y {
      WithoutCommutes(s[1..], x, y);
      assert Without(s, x) == [s[0]] + Without(s[1..], x) && Without(s, y) == [s[0]] + Without(s[1..], y);
    }
  }

  lemma WithoutNoDup<T>(s: seq<T>, x: T)
    requires x in s && NoDup(s)
    ensures NoDup(Without(s, x))
  {
    var k := WithoutSplit(s, x);
  }

  lemma WithoutOrdered<T>(cmp: (T, T) -> int, s: seq<T>, x: T)
    requires x in s && Ordered(cmp, s)
    ensures Ordered(cmp, Without(s, x))
  {
    var k := WithoutSplit(s, x);
  }

  /** Removing an element keeps the others, in their order. */
  lemma WithoutKeeps<T>(cmp: (T, T) -> int, s: seq<T>, x: T)
    requires x in s && NoDup(s)
    ensures NoDup(Without(s, x)) && x !in Without(s, x)
    ensures Ordered(cmp, s) ==> Ordered(cmp, Without(s, x))
    ensures forall y :: y in Without(s, x) <==> y in s && y != x
  {
    hide Without, NoDup, Ordered;
    WithoutNoDup(s, x);
    if Ordered(cmp, s) { WithoutOrdered(cmp, s, x); }
    forall y ensures y in Without(s, x) <==> y in s && y != x { WithoutMember(s, x, y); }
  }
}
