/** The self-balancing tree of avl.cc and mem/utility.h as a value. The `balance` of a node is its
    cached height; a missing child counts as -1. */
module AvlSpec {
  import opened Sequences

  datatype Tree<V> = Nil | Node(key: int, val: V, bal: int, l: Tree<V>, r: Tree<V>)

  /** What insertion does with a key that is present: avl.cc overwrites, utility.h keeps. */
  datatype Policy = Overwrite | KeepFirst

  function Bal<V>(t: Tree<V>): int {
    if t.Nil? then -1 else t.bal
  }

  function Max(a: int, b: int): int {
    if a > b then a else b
  }

  function Difference<V>(t: Tree<V>): int {
    if t.Nil? then 0 else Bal(t.l) - Bal(t.r)
  }

  function RotateRight<V>(t: Tree<V>): Tree<V> {
    if t.Node? && t.l.Node? then t.l.(r := t.(l := t.l.r)) else t
  }

  function RotateLeft<V>(t: Tree<V>): Tree<V> {
    if t.Node? && t.r.Node? then t.r.(l := t.(r := t.r.l)) else t
  }

  function FixFB<V>(t: Tree<V>): Tree<V>
    requires t.Node?
  {
    t.(bal := Max(Bal(t.l), Bal(t.r)) + 1)
  }

  function Shifted<V>(t: Tree<V>, d: int): Tree<V>
    requires t.Node?
  {
    t.(bal := t.bal + d)
  }

  /** Cached heights adjusted at the left child, the node and the right child. */
  function Corrected<V>(t: Tree<V>, dl: int, d: int, dr: int): Tree<V>
    requires t.Node? && (dl != 0 ==> t.l.Node?) && (dr != 0 ==> t.r.Node?)
  {
    Node(t.key, t.val, t.bal + d,
         if dl != 0 then Shifted(t.l, dl) else t.l,
         if dr != 0 then Shifted(t.r, dr) else t.r)
  }

  /** Every node that balance_right dereferences exists. */
  predicate RightSafe<V>(t: Tree<V>) {
    t.Node? && t.r.Node? && (Difference(t.r) > 0 ==> t.r.l.Node?)
  }

  function BalanceRight<V>(t: Tree<V>): Tree<V>
    requires RightSafe(t)
  {
    if Difference(t.r) == 0 then Corrected(RotateLeft(t), 1, -1, 0)
    else if Difference(t.r) < 0 then Corrected(RotateLeft(t), -2, 0, 0)
    else Corrected(RotateLeft(t.(r := RotateRight(t.r))), -2, 1, -1)
  }

  /** Every node that balance_left dereferences exists. Its third case rotates the left child
      leftwards although that child leans left, so the child's right subtree may be missing. */
  predicate LeftSafe<V>(t: Tree<V>) {
    t.Node? && t.l.Node? && (Difference(t.l) > 0 && t.l.r.Nil? ==> t.l.l.Node?)
  }

  function BalanceLeft<V>(t: Tree<V>): Tree<V>
    requires LeftSafe(t)
  {
    if Difference(t.l) == 0 then Corrected(RotateRight(t), 0, -1, 1)
    else if Difference(t.l) < 0 then Corrected(RotateRight(t), 0, 0, -2)
    else Corrected(RotateRight(t.(l := RotateLeft(t.l))), -1, 1, -2)
  }

  // ---------------------------------------------------------------- safety

  /** Every cached height is at least that of a missing child. */
  ghost predicate Floor<V>(t: Tree<V>) {
    t.Node? ==> t.bal >= -1 && Floor(t.l) && Floor(t.r)
  }

  /** The cached heights that call balance_left guarantee the nodes it uses. */
  lemma LeftCallSafe<V>(t: Tree<V>)
    requires t.Node? && Floor(t.l) && Floor(t.r) && t.bal == Max(Bal(t.l), Bal(t.r)) + 1 && Difference(t) > 1
    ensures LeftSafe(t) && Floor(BalanceLeft(t))
  {
    var l := t.l;
    assert Bal(t.r) >= -1 && l.Node? && l.bal >= 1;
    assert Floor(l.l) && Floor(l.r) && Bal(l.l) >= -1 && Bal(l.r) >= -1;
    var u := BalanceLeft(t);
    if Difference(l) > 0 {
      if l.r.Node? {
        assert Floor(l.r.l) && Floor(l.r.r);
        assert u == Node(l.r.key, l.r.val, l.r.bal + 1,
                         Node(l.key, l.val, l.bal - 1, l.l, l.r.l), Node(t.key, t.val, t.bal - 2, l.r.r, t.r));
      } else {
        assert Floor(l.l.l) && Floor(l.l.r);
        assert u == Node(l.key, l.val, l.bal + 1, Shifted(l.l, -1), Node(t.key, t.val, t.bal - 2, Nil, t.r));
      }
    } else {
      assert u.l == l.l && u.r.l == l.r && u.r.r == t.r;
    }
  }

  /** The cached heights that call balance_right guarantee the nodes it uses. */
  lemma RightCallSafe<V>(t: Tree<V>)
    requires t.Node? && Floor(t.l) && Floor(t.r) && t.bal == Max(Bal(t.l), Bal(t.r)) + 1 && Difference(t) < -1
    ensures RightSafe(t) && Floor(BalanceRight(t))
  {
    var r := t.r;
    assert Bal(t.l) >= -1 && r.Node? && r.bal >= 1;
    assert Floor(r.l) && Floor(r.r) && Bal(r.l) >= -1 && Bal(r.r) >= -1;
    var u := BalanceRight(t);
    if Difference(r) > 0 {
      assert Floor(r.l.l) && Floor(r.l.r);
      assert u == Node(r.l.key, r.l.val, r.l.bal + 1,
                       Node(t.key, t.val, t.bal - 2, t.l, r.l.l), Node(r.key, r.val, r.bal - 1, r.l.r, r.r));
    } else {
      assert u.r == r.r && u.l.r == r.l && u.l.l == t.l;
    }
  }

  /** fixFB followed by the rebalancing that the cached heights ask for. */
  function Rebalance<V>(t: Tree<V>): (u: Tree<V>)
    requires t.Node? && Floor(t.l) && Floor(t.r)
    ensures u.Node? && Floor(u)
  {
    var f := FixFB(t);
    if Difference(f) > 1 then
      LeftCallSafe(f);
      BalanceLeft(f)
    else if Difference(f) < -1 then
      RightCallSafe(f);
      BalanceRight(f)
    else f
  }

  function Insert<V>(t: Tree<V>, k: int, v: V, p: Policy): (u: Tree<V>)
    requires Floor(t)
    ensures u.Node? && Floor(u)
  {
    if t.Nil? then Node(k, v, 0, Nil, Nil)
    else if k == t.key then if p.Overwrite? then t.(val := v) else t
    else if k < t.key then Rebalance(t.(l := Insert(t.l, k, v, p)))
    else Rebalance(t.(r := Insert(t.r, k, v, p)))
  }

  function Search<V>(t: Tree<V>, k: int): Option<V> {
    if t.Nil? then None
    else if t.key == k then Some(t.val)
    else if t.key > k then Search(t.l, k)
    else Search(t.r, k)
  }

  // ---------------------------------------------------------------- order and contents

  ghost predicate Below<V>(t: Tree<V>, k: int) {
    t.Node? ==> t.key < k && Below(t.l, k) && Below(t.r, k)
  }

  ghost predicate Above<V>(k: int, t: Tree<V>) {
    t.Node? ==> k < t.key && Above(k, t.l) && Above(k, t.r)
  }

  /** Every key lies between the keys of the nodes above it. */
  ghost predicate Ordered<V>(t: Tree<V>) {
    t.Node? ==> Ordered(t.l) && Ordered(t.r) && Below(t.l, t.key) && Above(t.key, t.r)
  }

  function Keys<V>(t: Tree<V>): seq<int> {
    if t.Nil? then [] else Keys(t.l) + [t.key] + Keys(t.r)
  }

  lemma {:induction false} BelowKeys<V>(t: Tree<V>, k: int)
    requires Below(t, k)
    ensures forall i :: 0 <= i < |Keys(t)| ==> Keys(t)[i] < k
  {
    if t.Node? {
      BelowKeys(t.l, k);
      BelowKeys(t.r, k);
    }
  }

  lemma {:induction false} AboveKeys<V>(k: int, t: Tree<V>)
    requires Above(k, t)
    ensures forall i :: 0 <= i < |Keys(t)| ==> k < Keys(t)[i]
  {
    if t.Node? {
      AboveKeys(k, t.l);
      AboveKeys(k, t.r);
    }
  }

  ghost predicate StrictlyIncreasing(s: seq<int>) {
    forall i, j :: 0 <= i < j < |s| ==> s[i] < s[j]
  }

  /** The order of the nodes makes the in-order sequence of keys strictly increasing. */
  lemma {:induction false} OrderedKeys<V>(t: Tree<V>)
    requires Ordered(t)
    ensures StrictlyIncreasing(Keys(t))
  {
    if t.Node? {
      OrderedKeys(t.l);
      OrderedKeys(t.r);
      BelowKeys(t.l, t.key);
      AboveKeys(t.key, t.r);
    }
  }

  lemma BelowTrans<V>(t: Tree<V>, k: int, k': int)
    requires Below(t, k) && k <= k'
    ensures Below(t, k')
  {
  }

  lemma AboveTrans<V>(k: int, k': int, t: Tree<V>)
    requires Above(k', t) && k <= k'
    ensures Above(k, t)
  {
  }

  /** For key k the two ordered trees give the same answers. */
  ghost predicate Same<V>(t: Tree<V>, u: Tree<V>, k: int) {
    && Ordered(t) && Ordered(u) && Keys(t) == Keys(u)
    && Search(t, k) == Search(u, k)
    && Below(t, k) == Below(u, k)
    && Above(k, t) == Above(k, u)
  }

  lemma RotateRightSame<V>(t: Tree<V>, k: int)
    requires Ordered(t)
    ensures Same(t, RotateRight(t), k)
  {
    if t.Node? && t.l.Node? {
      assert Ordered(t.l) && Below(t.l, t.key);
      AboveTrans(t.l.key, t.key, t.r);
    }
  }

  lemma RotateLeftSame<V>(t: Tree<V>, k: int)
    requires Ordered(t)
    ensures Same(t, RotateLeft(t), k)
  {
    if t.Node? && t.r.Node? {
      assert Ordered(t.r) && Above(t.key, t.r);
      BelowTrans(t.l, t.key, t.r.key);
    }
  }

  /** Cached heights do not matter for order and search. */
  lemma HeightsSame<V>(t: Tree<V>, u: Tree<V>, k: int)
    requires t.Node? && u.Node? && Ordered(t) && u.key == t.key && u.val == t.val
    requires u.l == t.l || (t.l.Node? && u.l.Node? && u.l == t.l.(bal := u.l.bal))
    requires u.r == t.r || (t.r.Node? && u.r.Node? && u.r == t.r.(bal := u.r.bal))
    ensures Same(t, u, k)
  {
  }

  lemma BalanceLeftSame<V>(t: Tree<V>, k: int)
    requires LeftSafe(t) && Ordered(t)
    ensures Same(t, BalanceLeft(t), k)
  {
    if Difference(t.l) <= 0 {
      RotateRightSame(t, k);
      HeightsSame(RotateRight(t), BalanceLeft(t), k);
    } else {
      RotateLeftSame(t.l, k);
      RotateLeftSame(t.l, t.key);
      var m := t.(l := RotateLeft(t.l));
      RotateRightSame(m, k);
      HeightsSame(RotateRight(m), BalanceLeft(t), k);
    }
  }

  lemma BalanceRightSame<V>(t: Tree<V>, k: int)
    requires RightSafe(t) && Ordered(t)
    ensures Same(t, BalanceRight(t), k)
  {
    if Difference(t.r) <= 0 {
      RotateLeftSame(t, k);
      HeightsSame(RotateLeft(t), BalanceRight(t), k);
    } else {
      RotateRightSame(t.r, k);
      RotateRightSame(t.r, t.key);
      var m := t.(r := RotateRight(t.r));
      RotateLeftSame(m, k);
      HeightsSame(RotateLeft(m), BalanceRight(t), k);
    }
  }

  /** Rebalancing never loses, adds or reorders an entry. */
  lemma RebalanceSame<V>(t: Tree<V>, k: int)
    requires t.Node? && Floor(t.l) && Floor(t.r) && Ordered(t)
    ensures Same(t, Rebalance(t), k)
  {
    var f := FixFB(t);
    HeightsSame(t, f, k);
    if Difference(f) > 1 {
      LeftCallSafe(f);
      BalanceLeftSame(f, k);
    } else if Difference(f) < -1 {
      RightCallSafe(f);
      BalanceRightSame(f, k);
    }
  }

  // ---------------------------------------------------------------- insertion refines a map

  function Updated<V>(was: Option<V>, v: V, p: Policy): Option<V> {
    if p.KeepFirst? && was.Some? then was else Some(v)
  }

  /** Insertion keeps the order and changes the answer for its own key only. */
  lemma {:induction false} InsertCorrect<V>(t: Tree<V>, k: int, v: V, p: Policy, j: int)
    requires Floor(t) && Ordered(t)
    ensures Ordered(Insert(t, k, v, p))
    ensures Below(Insert(t, k, v, p), j) <==> Below(t, j) && k < j
    ensures Above(j, Insert(t, k, v, p)) <==> Above(j, t) && j < k
    ensures Search(Insert(t, k, v, p), j) == if j == k then Updated(Search(t, k), v, p) else Search(t, j)
  {
    if t.Node? && k != t.key {
      if k < t.key {
        InsertCorrect(t.l, k, v, p, j);
        InsertCorrect(t.l, k, v, p, t.key);
        RebalanceSame(t.(l := Insert(t.l, k, v, p)), j);
      } else {
        InsertCorrect(t.r, k, v, p, j);
        InsertCorrect(t.r, k, v, p, t.key);
        RebalanceSame(t.(r := Insert(t.r, k, v, p)), j);
      }
    }
  }

  function Build<V>(ops: seq<(int, V)>, p: Policy): (t: Tree<V>)
    ensures Floor(t)
  {
    if ops == [] then Nil
    else Insert(Build(ops[..|ops| - 1], p), ops[|ops| - 1].0, ops[|ops| - 1].1, p)
  }

  /** The value that the calls of a run leave under a key: the last one, or the first one. */
  function Filed<V>(ops: seq<(int, V)>, k: int, p: Policy): Option<V> {
    if ops == [] then None
    else
      var earlier := Filed(ops[..|ops| - 1], k, p);
      if ops[|ops| - 1].0 != k then earlier else Updated(earlier, ops[|ops| - 1].1, p)
  }

  /** After any run of insertions: no rebalancing step touches a missing node (Build is total), the
      keys are strictly sorted, and a search returns the last (avl.cc) or the first (utility.h)
      value inserted under its key. */
  lemma {:induction false} BuildCorrect<V>(ops: seq<(int, V)>, p: Policy, k: int)
    ensures Ordered(Build(ops, p)) && StrictlyIncreasing(Keys(Build(ops, p)))
    ensures Search(Build(ops, p), k) == Filed(ops, k, p)
  {
    if ops != [] {
      var earlier := ops[..|ops| - 1];
      BuildCorrect(earlier, p, k);
      InsertCorrect(Build(earlier, p), ops[|ops| - 1].0, ops[|ops| - 1].1, p, k);
    }
    OrderedKeys(Build(ops, p));
  }

  // ---------------------------------------------------------------- height balance

  function Height<V>(t: Tree<V>): int {
    if t.Nil? then -1 else 1 + Max(Height(t.l), Height(t.r))
  }

  /** Height balanced, with exact cached heights. */
  ghost predicate Avl<V>(t: Tree<V>) {
    t.Node? ==>
      && Avl(t.l) && Avl(t.r)
      && t.bal == Height(t)
      && -1 <= Height(t.l) - Height(t.r) <= 1
  }

  /** In a balanced tree: does inserting k make it one higher? */
  predicate Grows<V>(t: Tree<V>, k: int) {
    if t.Nil? then true
    else k != t.key && Difference(t) == 0 && Grows(if k < t.key then t.l else t.r, k)
  }

  /** In a balanced tree: is k about to land under a left-leaning node, on its left, and to push
      that side up? This is when insertion reaches balance_left. */
  predicate TipsLeft<V>(t: Tree<V>, k: int) {
    && t.Node? && k != t.key
    && if k < t.key then TipsLeft(t.l, k) || (Difference(t) == 1 && Grows(t.l, k)) else TipsLeft(t.r, k)
  }

  /** No cached height is below the real one. */
  ghost predicate Covers<V>(t: Tree<V>) {
    t.Node? ==> t.bal >= Height(t) && Covers(t.l) && Covers(t.r)
  }

  /** A node without a right child has the cached height that fixFB would give it. */
  predicate Stub<V>(t: Tree<V>) {
    t.Node? && t.r.Nil? ==> t.bal == Bal(t.l) + 1
  }

  lemma AvlFacts<V>(t: Tree<V>)
    requires Avl(t)
    ensures Bal(t) == Height(t) >= -1 && Floor(t) && Covers(t) && Stub(t)
  {
  }

  lemma HeightFloor<V>(t: Tree<V>)
    ensures Height(t) >= -1
  {
  }

  /** What balance_left gives in its third case. */
  lemma LeftThirdCase<V>(t: Tree<V>)
    requires LeftSafe(t) && Difference(t.l) > 0
    ensures var l, u := t.l, BalanceLeft(t);
      if l.r.Node? then
        u == Node(l.r.key, l.r.val, l.r.bal + 1, Node(l.key, l.val, l.bal - 1, l.l, l.r.l),
                  Node(t.key, t.val, t.bal - 2, l.r.r, t.r))
      else
        u == Node(l.key, l.val, l.bal + 1, Shifted(l.l, -1), Node(t.key, t.val, t.bal - 2, Nil, t.r))
  {
  }

  /** balance_left cannot raise a cached height that is too low. */
  lemma LeftKeepsGap<V>(t: Tree<V>)
    requires t.Node? && Floor(t.l) && Floor(t.r) && t.bal == Max(Bal(t.l), Bal(t.r)) + 1 && Difference(t) > 1
    requires Stub(t.l) && LeftSafe(t) && Covers(BalanceLeft(t))
    ensures Covers(t.l) && Covers(t.r)
  {
    var l, u := t.l, BalanceLeft(t);
    HeightFloor(t.r);
    HeightFloor(l.r);
    assert Covers(u.l) && Covers(u.r);
    if Difference(l) > 0 {
      LeftThirdCase(t);
      assert l.r.Nil? ==> Height(u.l) == Height(l.l);
    } else {
      assert u.l == l.l && u.r.l == l.r && u.r.r == t.r;
    }
  }

  /** On a balanced subtree it makes one. */
  lemma LeftMakesGap<V>(t: Tree<V>)
    requires t.Node? && Floor(t.r) && t.bal == Max(Bal(t.l), Bal(t.r)) + 1 && Difference(t) > 1
    requires Avl(t.l) && LeftSafe(t)
    ensures !Covers(BalanceLeft(t))
  {
    var l, u := t.l, BalanceLeft(t);
    AvlFacts(l.l);
    AvlFacts(l.r);
    if Difference(l) > 0 {
      LeftThirdCase(t);
    } else {
      assert u.r.l == l.r;
    }
  }

  /** Neither can balance_right. */
  lemma RightKeepsGap<V>(t: Tree<V>)
    requires t.Node? && Floor(t.l) && Floor(t.r) && t.bal == Max(Bal(t.l), Bal(t.r)) + 1 && Difference(t) < -1
    requires RightSafe(t) && Covers(BalanceRight(t))
    ensures Covers(t.l) && Covers(t.r)
  {
    var r, u := t.r, BalanceRight(t);
    if Difference(r) > 0 {
      var m := r.l;
      assert u == Node(m.key, m.val, m.bal + 1, Node(t.key, t.val, t.bal - 2, t.l, m.l), Node(r.key, r.val, r.bal - 1, m.r, r.r));
      assert Covers(u.l) && Covers(u.r);
    } else {
      assert u.r == r.r && u.l.r == r.l && u.l.l == t.l;
      assert Covers(u.l) && Covers(u.r);
    }
  }

  /** One level of fixFB and rebalancing cannot hide a cached height that is too low below it. */
  lemma RebalanceKeepsGap<V>(t: Tree<V>)
    requires t.Node? && Floor(t.l) && Floor(t.r) && Stub(t.l) && Covers(Rebalance(t))
    ensures Covers(t.l) && Covers(t.r)
  {
    var f := FixFB(t);
    if Difference(f) > 1 {
      LeftCallSafe(f);
      LeftKeepsGap(f);
    } else if Difference(f) < -1 {
      RightCallSafe(f);
      RightKeepsGap(f);
    }
  }

  /** Insertion only leaves a node without a right child if fixFB set its cached height. */
  lemma {:induction false} InsertStub<V>(t: Tree<V>, k: int, v: V, p: Policy)
    requires Avl(t) && Floor(t)
    ensures Stub(Insert(t, k, v, p))
  {
    if t.Node? && k != t.key {
      AvlFacts(t.l);
      AvlFacts(t.r);
      if k < t.key {
        RebalanceStub(t.(l := Insert(t.l, k, v, p)));
      } else {
        InsertStub(t.r, k, v, p);
        RebalanceStub(t.(r := Insert(t.r, k, v, p)));
      }
    }
  }

  lemma RebalanceStub<V>(t: Tree<V>)
    requires t.Node? && Floor(t.l) && Floor(t.r) && Stub(t.r)
    ensures Stub(Rebalance(t))
  {
    var f := FixFB(t);
    if Difference(f) > 1 {
      LeftCallSafe(f);
    } else if Difference(f) < -1 {
      RightCallSafe(f);
    }
  }

  /** Where insertion calls it on a balanced tree, balance_right is right. */
  lemma BalanceRightAvl<V>(t: Tree<V>)
    requires t.Node? && Avl(t.l) && Avl(t.r) && t.bal == Height(t.r) + 1 && Height(t.r) == Height(t.l) + 2
    requires Difference(t.r) != 0
    ensures RightSafe(t) && Avl(BalanceRight(t)) && Height(BalanceRight(t)) == Height(t.r)
  {
    AvlFacts(t.l);
    AvlFacts(t.r);
    AvlFacts(t.r.l);
    AvlFacts(t.r.r);
    if Difference(t.r) > 0 {
      AvlFacts(t.r.l.l);
      AvlFacts(t.r.l.r);
    }
  }

  /** One level up from a child that is balanced again. */
  lemma RebalanceAvl<V>(t: Tree<V>)
    requires t.Node? && Avl(t.l) && Avl(t.r) && Floor(t.l) && Floor(t.r)
    requires -2 <= Height(t.l) - Height(t.r) <= 1
    requires Height(t.l) - Height(t.r) == -2 ==> Difference(t.r) != 0
    ensures Avl(Rebalance(t))
    ensures Height(Rebalance(t)) == if Height(t.l) - Height(t.r) == -2 then Height(t.r) else Height(t)
    ensures Height(t.l) - Height(t.r) != -2 ==> Rebalance(t) == FixFB(t)
  {
    AvlFacts(t.l);
    AvlFacts(t.r);
    if Height(t.l) - Height(t.r) == -2 {
      BalanceRightAvl(FixFB(t));
    }
  }

  /** An insertion that does not tip left keeps the tree balanced and its cached heights exact. */
  lemma {:induction false} InsertKeepsAvl<V>(t: Tree<V>, k: int, v: V, p: Policy)
    requires Avl(t) && Floor(t) && !TipsLeft(t, k)
    ensures Avl(Insert(t, k, v, p))
    ensures Height(Insert(t, k, v, p)) == Height(t) + (if Grows(t, k) then 1 else 0)
    ensures t.Node? && Grows(t, k) ==> Difference(Insert(t, k, v, p)) != 0
  {
    if t.Node? && k != t.key {
      AvlFacts(t.l);
      AvlFacts(t.r);
      if k < t.key {
        InsertKeepsAvl(t.l, k, v, p);
        AvlFacts(Insert(t.l, k, v, p));
        RebalanceAvl(t.(l := Insert(t.l, k, v, p)));
      } else {
        InsertKeepsAvl(t.r, k, v, p);
        AvlFacts(Insert(t.r, k, v, p));
        RebalanceAvl(t.(r := Insert(t.r, k, v, p)));
      }
    }
  }

  /** An insertion that tips left leaves some cached height too low. */
  lemma {:induction false} TippingLeavesGap<V>(t: Tree<V>, k: int, v: V, p: Policy)
    requires Avl(t) && Floor(t) && TipsLeft(t, k)
    ensures !Covers(Insert(t, k, v, p))
  {
    AvlFacts(t.l);
    AvlFacts(t.r);
    if k < t.key {
      var m := t.(l := Insert(t.l, k, v, p));
      InsertStub(t.l, k, v, p);
      if TipsLeft(t.l, k) {
        TippingLeavesGap(t.l, k, v, p);
        if Covers(Rebalance(m)) {
          RebalanceKeepsGap(m);
        }
      } else {
        InsertKeepsAvl(t.l, k, v, p);
        AvlFacts(m.l);
        var f := FixFB(m);
        LeftCallSafe(f);
        LeftMakesGap(f);
      }
    } else {
      TippingLeavesGap(t.r, k, v, p);
      var m := t.(r := Insert(t.r, k, v, p));
      if Covers(Rebalance(m)) {
        RebalanceKeepsGap(m);
      }
    }
  }

  /** From a balanced tree with exact cached heights, an insertion gives one again if and only if
      it does not tip a node to the left. */
  lemma InsertAvlIff<V>(t: Tree<V>, k: int, v: V, p: Policy)
    requires Avl(t) && Floor(t)
    ensures Avl(Insert(t, k, v, p)) <==> !TipsLeft(t, k)
  {
    if TipsLeft(t, k) {
      TippingLeavesGap(t, k, v, p);
      if Avl(Insert(t, k, v, p)) {
        AvlFacts(Insert(t, k, v, p));
      }
    } else {
      InsertKeepsAvl(t, k, v, p);
    }
  }

  /** Balanced with exact cached heights after every insertion of a run. */
  ghost predicate AlwaysAvl<V>(ops: seq<(int, V)>, p: Policy) {
    Avl(Build(ops, p)) && (ops != [] ==> AlwaysAvl(ops[..|ops| - 1], p))
  }

  /** No insertion of a run tips a node to the left. */
  ghost predicate NeverTips<V>(ops: seq<(int, V)>, p: Policy) {
    ops != [] ==> NeverTips(ops[..|ops| - 1], p) && !TipsLeft(Build(ops[..|ops| - 1], p), ops[|ops| - 1].0)
  }

  /** A run keeps the tree balanced throughout if and only if none of its insertions tips a node to the
      left. */
  lemma {:induction false} AlwaysAvlIff<V>(ops: seq<(int, V)>, p: Policy)
    ensures AlwaysAvl(ops, p) <==> NeverTips(ops, p)
  {
    if ops != [] {
      var n := |ops| - 1;
      AlwaysAvlIff(ops[..n], p);
      if AlwaysAvl(ops[..n], p) {
        InsertAvlIff(Build(ops[..n], p), ops[n].0, ops[n].1, p);
      }
    }
  }

  lemma {:induction false} NeverTipsOnTheRight<V>(t: Tree<V>, k: int)
    requires Below(t, k)
    ensures !TipsLeft(t, k)
  {
    if t.Node? {
      NeverTipsOnTheRight(t.r, k);
    }
  }

  /** Strictly increasing keys always give a height-balanced tree with exact cached heights. */
  lemma {:induction false} IncreasingKeysStayBalanced<V>(ops: seq<(int, V)>, p: Policy, bound: int)
    requires forall i, j :: 0 <= i < j < |ops| ==> ops[i].0 < ops[j].0
    requires forall i :: 0 <= i < |ops| ==> ops[i].0 < bound
    ensures Avl(Build(ops, p)) && Below(Build(ops, p), bound) && Ordered(Build(ops, p))
  {
    if ops != [] {
      var n := |ops| - 1;
      IncreasingKeysStayBalanced(ops[..n], p, ops[n].0);
      var t := Build(ops[..n], p);
      NeverTipsOnTheRight(t, ops[n].0);
      InsertAvlIff(t, ops[n].0, ops[n].1, p);
      BelowTrans(t, ops[n].0, bound);
      InsertCorrect(t, ops[n].0, ops[n].1, p, bound);
    }
  }

  /** Three decreasing keys already break the cached heights. */
  lemma DecreasingKeysBreak()
    ensures !Avl(Build([(3, 'c'), (2, 'b'), (1, 'a')], Overwrite))
  {
    var ops := [(3, 'c'), (2, 'b'), (1, 'a')];
    assert ops[..2] == [(3, 'c'), (2, 'b')] && ops[..2][..1] == [(3, 'c')];
    assert Build([(3, 'c')], Overwrite) == Node(3, 'c', 0, Nil, Nil);
    var t := Build(ops[..2], Overwrite);
    assert t == Node(3, 'c', 1, Node(2, 'b', 0, Nil, Nil), Nil);
    InsertAvlIff(t, 1, 'a', Overwrite);
  }

  // ---------------------------------------------------------------- what a call of balance_left leaves

  /** The node t over its left child l, by where the child leans. In the last two cases the child is turned the
      wrong way; if it has no right child it is not turned at all. */
  lemma BalanceLeftCases<V>(t: Tree<V>, l: Tree<V>, d: int)
    requires t.Node? && l.Node? && t.l == l && d == Bal(l.l) - Bal(l.r) && (d > 0 && l.r.Nil? ==> l.l.Node?)
    ensures d == 0 ==> BalanceLeft(t) == Node(l.key, l.val, l.bal - 1, l.l, Node(t.key, t.val, t.bal + 1, l.r, t.r))
    ensures d < 0 ==> BalanceLeft(t) == Node(l.key, l.val, l.bal, l.l, Node(t.key, t.val, t.bal - 2, l.r, t.r))
    ensures d > 0 && l.r.Node? ==> BalanceLeft(t) == Node(l.r.key, l.r.val, l.r.bal + 1,
      Node(l.key, l.val, l.bal - 1, l.l, l.r.l), Node(t.key, t.val, t.bal - 2, l.r.r, t.r))
    ensures d > 0 && l.r.Nil? ==> BalanceLeft(t) == Node(l.key, l.val, l.bal + 1,
      Node(l.l.key, l.l.val, l.l.bal - 1, l.l.l, l.l.r), Node(t.key, t.val, t.bal - 2, Nil, t.r))
  {
  }

  lemma BalanceRightCases<V>(t: Tree<V>, r: Tree<V>, d: int)
    requires t.Node? && r.Node? && t.r == r && d == Bal(r.l) - Bal(r.r) && (d > 0 ==> r.l.Node?)
    ensures d == 0 ==> BalanceRight(t) == Node(r.key, r.val, r.bal - 1, Node(t.key, t.val, t.bal + 1, t.l, r.l), r.r)
    ensures d < 0 ==> BalanceRight(t) == Node(r.key, r.val, r.bal, Node(t.key, t.val, t.bal - 2, t.l, r.l), r.r)
    ensures d > 0 ==> BalanceRight(t) == Node(r.l.key, r.l.val, r.l.bal + 1,
      Node(t.key, t.val, t.bal - 2, t.l, r.l.l), Node(r.key, r.val, r.bal - 1, r.l.r, r.r))
  {
  }

  /** A cached height is one more than the larger of the children's, that of a missing child -1. */
  lemma CachedHeight<V>(t: Tree<V>)
    requires t.Node?
    ensures FixFB(t).bal == 1 + (if Bal(t.l) > Bal(t.r) then Bal(t.l) else Bal(t.r))
    ensures FixFB(t) == t.(bal := FixFB(t).bal) && Bal<V>(Nil) == -1 && Bal(t) == t.bal
  {
  }

  /** What the third of three keys leaves that tips the tree left: here the shape is balanced and the cached
      heights are not those of the tree. */
  lemma ThirdKeyDown()
    ensures Insert(Node(3, 'c', 1, Node(2, 'b', 0, Nil, Nil), Nil), 1, 'a', Overwrite)
      == Node(2, 'b', 2, Node(1, 'a', -1, Nil, Nil), Node(3, 'c', 0, Nil, Nil))
  {
    var l := Node(2, 'b', 1, Node(1, 'a', 0, Nil, Nil), Nil);
    assert Insert(Node(2, 'b', 0, Nil, Nil), 1, 'a', Overwrite) == l;
    BalanceLeftCases(Node(3, 'c', 2, l, Nil), l, 1);
  }

  /** The exact heights can come back: the next smaller key restores them. */
  lemma FourthKeyRestores()
    ensures Avl(Build([(3, 'c'), (2, 'b'), (1, 'a'), (0, 'z')], Overwrite))
  {
    var ops := [(3, 'c'), (2, 'b'), (1, 'a'), (0, 'z')];
    assert ops[..3][..2] == [(3, 'c'), (2, 'b')] && ops[..3][..2][..1] == [(3, 'c')];
    assert Build([(3, 'c')], Overwrite) == Node(3, 'c', 0, Nil, Nil);
    assert Build(ops[..3][..2], Overwrite) == Node(3, 'c', 1, Node(2, 'b', 0, Nil, Nil), Nil);
    ThirdKeyDown();
    FourthKeyDown(Build(ops[..3], Overwrite));
  }

  lemma FourthKeyDown(t: Tree<char>)
    requires t == Node(2, 'b', 2, Node(1, 'a', -1, Nil, Nil), Node(3, 'c', 0, Nil, Nil))
    ensures Avl(Insert(t, 0, 'z', Overwrite))
  {
    var l := Node(1, 'a', 1, Node(0, 'z', 0, Nil, Nil), Nil);
    assert Insert(t.l, 0, 'z', Overwrite) == l;
    assert Insert(t, 0, 'z', Overwrite) == Node(2, 'b', 2, l, t.r);
    assert Height(l) == 1 && Height(t.r) == 0;
  }

  /** Here neither is balanced. */
  lemma ThirdKeyBetween()
    ensures Insert(Node(3, 'c', 1, Node(1, 'a', 0, Nil, Nil), Nil), 2, 'b', Overwrite)
      == Node(1, 'a', 1, Nil, Node(3, 'c', 0, Node(2, 'b', 0, Nil, Nil), Nil))
  {
    var l := Node(1, 'a', 1, Nil, Node(2, 'b', 0, Nil, Nil));
    assert Insert(Node(1, 'a', 0, Nil, Nil), 2, 'b', Overwrite) == l;
    BalanceLeftCases(Node(3, 'c', 2, l, Nil), l, -1);
  }

  // ---------------------------------------------------------------- which value is filed

  lemma {:induction false} LastIsFiled<V>(ops: seq<(int, V)>, k: int, i: nat)
    requires i < |ops| && ops[i].0 == k && forall m :: i < m < |ops| ==> ops[m].0 != k
    ensures Filed(ops, k, Overwrite) == Some(ops[i].1)
  {
    if i < |ops| - 1 {
      LastIsFiled(ops[..|ops| - 1], k, i);
    }
  }

  lemma {:induction false} FirstIsFiled<V>(ops: seq<(int, V)>, k: int, i: nat)
    requires i < |ops| && ops[i].0 == k && forall m :: 0 <= m < i ==> ops[m].0 != k
    ensures Filed(ops, k, KeepFirst) == Some(ops[i].1)
  {
    if i < |ops| - 1 {
      FirstIsFiled(ops[..|ops| - 1], k, i);
    } else {
      NoneIsFiled(ops[..i], k, KeepFirst);
    }
  }

  lemma {:induction false} NoneIsFiled<V>(ops: seq<(int, V)>, k: int, p: Policy)
    requires forall m :: 0 <= m < |ops| ==> ops[m].0 != k
    ensures Filed(ops, k, p) == None
  {
    if ops != [] {
      NoneIsFiled(ops[..|ops| - 1], k, p);
    }
  }
}
