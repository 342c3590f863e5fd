/** Facts about sequences that several components share: regrouping, slices, and lists of objects in
    which nothing occurs twice. */
module Sequences {
  datatype Option<V> = None | Some(value: V)

  lemma Regroup<T>(a: seq<T>, b: seq<T>, c: seq<T>)
    ensures (a + b) + c == a + (b + c)
  {
  }

  lemma AppendNothing<T>(s: seq<T>, t: seq<T>)
    requires |t| == 0
    ensures s + t == s
  {
  }

  // ---------------------------------------------------------------- slices

  lemma SubSlice<T>(w: seq<T>, lo: nat, hi: nat, i: nat, j: nat)
    requires lo <= hi <= |w| && i <= j <= hi - lo
    ensures w[lo..hi][i..j] == w[lo + i..lo + j]
  {
    var v := w[lo..hi];
    forall k | 0 <= k < j - i
      ensures v[i..j][k] == w[lo + i..lo + j][k]
    {
      assert v[i..j][k] == v[i + k];
    }
  }

  lemma SlicePrefix<T>(a: seq<T>, r: seq<T>, i: nat, j: nat)
    requires i <= j <= |a|
    ensures (a + r)[i..j] == a[i..j]
  {
  }

  lemma SliceAfter<T>(a: seq<T>, b: seq<T>, lo: nat, hi: nat)
    requires lo <= hi <= |b|
    ensures (a + b)[|a| + lo..|a| + hi] == b[lo..hi]
  {
  }

  lemma PrefixOfSum<T>(a: seq<T>, b: seq<T>, n: nat)
    requires |a| <= n <= |a| + |b|
    ensures (a + b)[..n] == a + b[..n - |a|]
  {
  }

  // ---------------------------------------------------------------- nothing twice

  /** No element twice. The pairs are not compared unless `Pair` asks for one. */
  ghost predicate Distinct<T>(s: seq<T>) {
    forall i: nat, j: nat {:trigger Pair(i, j)} :: i < j < |s| ==> s[i] != s[j]
  }

  predicate Pair(i: nat, j: nat) {
    true
  }

  /** The first element of two lists occurs only there. */
  lemma HeadOnce<T>(a: seq<T>, b: seq<T>)
    requires a != [] && Distinct(a + b)
    ensures a[0] !in a[1..] && a[0] !in b
  {
    var both := a + b;
    forall i | 0 <= i < |a[1..]|
      ensures a[1..][i] != a[0]
    {
      assert Pair(0, i + 1) && a[1..][i] == both[i + 1] && a[0] == both[0];
    }
    forall i | 0 <= i < |b|
      ensures b[i] != a[0]
    {
      assert Pair(0, |a| + i) && b[i] == both[|a| + i] && a[0] == both[0];
    }
  }

  /** So does the last element of the first list. */
  lemma LastOnce<T>(a: seq<T>, b: seq<T>)
    requires a != [] && Distinct(a + b)
    ensures a[|a| - 1] !in a[..|a| - 1] && a[|a| - 1] !in b
  {
    var both, last := a + b, |a| - 1;
    forall i | 0 <= i < last
      ensures a[..last][i] != a[last]
    {
      assert Pair(i, last) && a[..last][i] == both[i] && a[last] == both[last];
    }
    forall i | 0 <= i < |b|
      ensures b[i] != a[last]
    {
      assert Pair(last, |a| + i) && b[i] == both[|a| + i] && a[last] == both[last];
    }
  }

  /** Moving the first element of one list to the end of the other. */
  lemma FrontToBack<T>(a: seq<T>, b: seq<T>)
    requires a != [] && Distinct(a + b)
    ensures Distinct(a[1..] + (b + [a[0]]))
  {
    var both := a + b;
    var moved := a[1..] + (b + [a[0]]);
    assert moved == both[1..] + [both[0]];
    forall i: nat, j: nat | i < j < |moved|
      ensures moved[i] != moved[j]
    {
      assert Pair(i + 1, j + 1) && Pair(0, i + 1);
    }
  }

  /** Moving the first element of the second list to the end of the first. */
  lemma FrontToEnd<T>(a: seq<T>, b: seq<T>)
    requires b != [] && Distinct(a + b)
    ensures Distinct((a + [b[0]]) + b[1..])
    ensures b[0] !in a && b[0] !in b[1..]
  {
    var both := a + b;
    assert (a + [b[0]]) + b[1..] == both;
    forall i | 0 <= i < |a|
      ensures a[i] != b[0]
    {
      assert Pair(i, |a|) && a[i] == both[i] && b[0] == both[|a|];
    }
    forall i | 0 <= i < |b[1..]|
      ensures b[1..][i] != b[0]
    {
      assert Pair(|a|, |a| + 1 + i) && b[1..][i] == both[|a| + 1 + i] && b[0] == both[|a|];
    }
  }

  lemma NewAtEnd<T>(a: seq<T>, x: T)
    requires Distinct(a) && x !in a
    ensures Distinct((a + [x]) + [])
  {
    var longer := (a + [x]) + [];
    forall i: nat, j: nat | i < j < |longer|
      ensures longer[i] != longer[j]
    {
      assert Pair(i, j);
    }
  }

  lemma SecondAlone<T>(a: seq<T>, b: seq<T>)
    requires Distinct(a + b)
    ensures Distinct([] + b)
  {
    var both := a + b;
    forall i: nat, j: nat | i < j < |b|
      ensures b[i] != b[j]
    {
      assert Pair(|a| + i, |a| + j) && both[|a| + i] == b[i] && both[|a| + j] == b[j];
    }
    assert [] + b == b;
  }

  lemma PairsApart<T>(s: seq<T>)
    requires Distinct(s)
    ensures forall i, j :: 0 <= i < j < |s| ==> s[i] != s[j]
  {
    forall i: nat, j: nat | i < j < |s|
      ensures s[i] != s[j]
    {
      assert Pair(i, j);
    }
  }

  lemma AllApart<T>(s: seq<T>)
    requires forall i, j :: 0 <= i < j < |s| ==> s[i] != s[j]
    ensures Distinct(s)
  {
  }
}
