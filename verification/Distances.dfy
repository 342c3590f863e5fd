/** Where two words of equal length differ, and what a code of minimum distance four can do. */
module Distances {
  /** The positions at which u and v differ. */
  function Differ<T(==)>(u: seq<T>, v: seq<T>): (d: set<nat>)
    requires |u| == |v|
    ensures forall i :: i in d <==> 0 <= i < |u| && u[i] != v[i]
  {
    set i: nat | i < |u| && u[i] != v[i]
  }

  function Distance<T(==)>(u: seq<T>, v: seq<T>): nat
    requires |u| == |v|
  {
    |Differ(u, v)|
  }

  lemma UnionSize(a: set<nat>, b: set<nat>)
    ensures |a + b| <= |a| + |b|
  {
    assert a + b == (a - b) + b;
    assert |a - b| <= |a| by {
      SubsetSize(a - b, a);
    }
  }

  lemma {:induction false} SubsetSize(a: set<nat>, b: set<nat>)
    requires a <= b
    ensures |a| <= |b|
  {
    if a != {} {
      var x :| x in a;
      SubsetSize(a - {x}, b - {x});
    }
  }

  lemma Triangle<T>(u: seq<T>, r: seq<T>, v: seq<T>)
    requires |u| == |r| == |v|
    ensures Distance(u, v) <= Distance(r, u) + Distance(r, v)
  {
    assert Differ(u, v) <= Differ(r, u) + Differ(r, v);
    SubsetSize(Differ(u, v), Differ(r, u) + Differ(r, v));
    UnionSize(Differ(r, u), Differ(r, v));
  }

  /** Of two codewords at distance four or more, a word with one error has only one within reach of
      two errors: one error is corrected to the word sent and two errors are never taken for one. */
  lemma UniqueNearest<T>(u: seq<T>, v: seq<T>, r: seq<T>)
    requires |u| == |r| == |v|
    requires u != v ==> Distance(u, v) >= 4
    requires Distance(r, u) <= 1 && Distance(r, v) <= 2
    ensures u == v
  {
    Triangle(u, r, v);
  }

  /** Up to three positions below n lie among three different ones. */
  lemma CoveredByThree(s: set<nat>, n: nat) returns (i: nat, j: nat, k: nat)
    requires |s| <= 3 <= n && forall x :: x in s ==> x < n
    ensures i < j < k < n && s <= {i, j, k}
  {
    var t := PadToThree(s, n);
    var a :| a in t;
    var t1 := t - {a};
    assert |t1| == 2;
    var b :| b in t1;
    var t2 := t1 - {b};
    assert |t2| == 1;
    var c :| c in t2;
    assert |t2 - {c}| == 0;
    assert t == {a, b, c} + (t2 - {c});
    i, j, k := InOrder(a, b, c);
  }

  lemma {:induction false} PadToThree(s: set<nat>, n: nat) returns (t: set<nat>)
    requires |s| <= 3 <= n && forall x :: x in s ==> x < n
    ensures |t| == 3 && s <= t && forall x :: x in t ==> x < n
    decreases 3 - |s|
  {
    t := s;
    if |s| < 3 {
      var x := if 0 !in s then 0 else if 1 !in s then 1 else 2;
      if x in s {
        SubsetSize({0, 1, 2}, s);
        assert false;
      }
      t := PadToThree(s + {x}, n);
    }
  }

  lemma InOrder(a: nat, b: nat, c: nat) returns (i: nat, j: nat, k: nat)
    requires a != b && b != c && a != c
    ensures i < j < k && {i, j, k} == {a, b, c}
  {
    i := if a < b && a < c then a else if b < c then b else c;
    k := if a > b && a > c then a else if b > c then b else c;
    j := if a != i && a != k then a else if b != i && b != k then b else c;
  }
}
