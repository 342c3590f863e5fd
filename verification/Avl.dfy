/** The self-balancing tree of avl.cc and mem/utility.h on the heap. A C parameter of type
    pointer-to-pointer becomes a parameter and a result: the pointer before and after. */
module Avl {
  import opened AvlSpec
  import opened Sequences

  class AvlNode<V> {
    var data: V
    const key: int
    var left: AvlNode?<V>
    var right: AvlNode?<V>
    var balance: int

    ghost var Repr: set<AvlNode<V>>
    ghost var tree: Tree<V>

    static ghost function TreeOf(n: AvlNode?<V>): Tree<V>
      reads n
    {
      if n == null then Nil else n.tree
    }

    static ghost function ReprOf(n: AvlNode?<V>): set<AvlNode<V>>
      reads n
    {
      if n == null then {} else n.Repr
    }

    ghost predicate Valid()
      reads this, Repr
      ensures Valid() ==> this in Repr
    {
      && this in Repr
      && (left != null ==> left in Repr && left.Repr <= Repr && this !in left.Repr && left.Valid())
      && (right != null ==> right in Repr && right.Repr <= Repr && this !in right.Repr && right.Valid())
      && ReprOf(left) !! ReprOf(right)
      && tree == Node(key, data, balance, TreeOf(left), TreeOf(right))
    }

    constructor (key: int, item: V)
      ensures Valid() && Repr == {this} && tree == Node(key, item, 0, Nil, Nil)
    {
      this.key, data, left, right, balance := key, item, null, null, 0;
      Repr, tree := {this}, Node(key, item, 0, Nil, Nil);
    }

    /** The node is again what its fields say. */
    ghost method Settle()
      requires left != null ==> left.Valid() && this !in left.Repr
      requires right != null ==> right.Valid() && this !in right.Repr
      requires ReprOf(left) !! ReprOf(right)
      modifies `Repr, `tree
      ensures Valid() && Repr == {this} + ReprOf(left) + ReprOf(right)
      ensures tree == Node(key, data, balance, TreeOf(left), TreeOf(right))
    {
      Repr := {this} + ReprOf(left) + ReprOf(right);
      tree := Node(key, data, balance, TreeOf(left), TreeOf(right));
    }

    /** rotate_right. */
    static method RotateRight(pivot: AvlNode<V>) returns (top: AvlNode<V>)
      requires pivot.Valid()
      modifies pivot, pivot.left
      ensures top.Valid() && top.Repr <= old(pivot.Repr)
      ensures top.tree == AvlSpec.RotateRight(old(pivot.tree))
    {
      top := pivot;
      if pivot.left != null {
        top := pivot.left;
        pivot.left := top.right;
        pivot.Settle();
        top.right := pivot;
        top.Settle();
      }
    }

    /** rotate_left. */
    static method RotateLeft(pivot: AvlNode<V>) returns (top: AvlNode<V>)
      requires pivot.Valid()
      modifies pivot, pivot.right
      ensures top.Valid() && top.Repr <= old(pivot.Repr)
      ensures top.tree == AvlSpec.RotateLeft(old(pivot.tree))
    {
      top := pivot;
      if pivot.right != null {
        top := pivot.right;
        pivot.right := top.left;
        pivot.Settle();
        top.left := pivot;
        top.Settle();
      }
    }

    /** balance += d. */
    method Add(d: int)
      requires Valid()
      modifies `balance, `tree
      ensures Valid() && tree == Shifted(old(tree), d)
    {
      balance := balance + d;
      tree := tree.(bal := balance);
    }

    /** The cached heights that a rotation corrects. */
    method Correct(dl: int, d: int, dr: int)
      requires Valid() && (dl != 0 ==> tree.l.Node?) && (dr != 0 ==> tree.r.Node?)
      modifies Repr
      ensures Valid() && Repr == old(Repr) && tree == Corrected(old(tree), dl, d, dr)
    {
      balance := balance + d;
      if dl != 0 {
        left.Add(dl);
      }
      if dr != 0 {
        right.Add(dr);
      }
      tree := Node(key, data, balance, TreeOf(left), TreeOf(right));
    }

    /** difference. */
    static method Difference(n: AvlNode?<V>) returns (d: int)
      requires n != null ==> n.Valid()
      ensures d == AvlSpec.Difference(TreeOf(n))
    {
      if n == null {
        return 0;
      }
      var l, r := -1, -1;
      if n.left != null {
        l := n.left.balance;
      }
      if n.right != null {
        r := n.right.balance;
      }
      d := l - r;
    }

    /** fixFB. */
    method FixFB()
      requires Valid()
      modifies `balance, `tree
      ensures Valid() && tree == AvlSpec.FixFB(old(tree))
    {
      var l, r := -1, -1;
      if left != null {
        l := left.balance;
      }
      if right != null {
        r := right.balance;
      }
      if l > r {
        balance := l + 1;
      } else {
        balance := r + 1;
      }
      tree := tree.(bal := balance);
    }

    /** The inner rotation of a double one. */
    method TurnLeftChild()
      requires Valid() && left != null
      modifies Repr
      ensures Valid() && Repr <= old(Repr) && tree == old(tree).(l := AvlSpec.RotateLeft(old(tree).l))
    {
      left := RotateLeft(left);
      Settle();
    }

    method TurnRightChild()
      requires Valid() && right != null
      modifies Repr
      ensures Valid() && Repr <= old(Repr) && tree == old(tree).(r := AvlSpec.RotateRight(old(tree).r))
    {
      right := RotateRight(right);
      Settle();
    }

    /** balance_right. */
    static method BalanceRight(t: AvlNode<V>) returns (top: AvlNode<V>)
      requires t.Valid() && RightSafe(t.tree)
      modifies t.Repr
      ensures top.Valid() && top.Repr <= old(t.Repr) && top.tree == AvlSpec.BalanceRight(old(t.tree))
    {
      var d := Difference(t.right);
      if d == 0 {
        top := RotateLeft(t);
        top.Correct(1, -1, 0);
      } else if d < 0 {
        top := RotateLeft(t);
        top.Correct(-2, 0, 0);
      } else {
        t.TurnRightChild();
        top := RotateLeft(t);
        top.Correct(-2, 1, -1);
      }
    }

    /** balance_left. */
    static method BalanceLeft(t: AvlNode<V>) returns (top: AvlNode<V>)
      requires t.Valid() && LeftSafe(t.tree)
      modifies t.Repr
      ensures top.Valid() && top.Repr <= old(t.Repr) && top.tree == AvlSpec.BalanceLeft(old(t.tree))
    {
      var d := Difference(t.left);
      if d == 0 {
        top := RotateRight(t);
        top.Correct(0, -1, 1);
      } else if d < 0 {
        top := RotateRight(t);
        top.Correct(0, 0, -2);
      } else {
        t.TurnLeftChild();
        top := RotateRight(t);
        top.Correct(-1, 1, -2);
      }
    }

    /** The end of insert_avl_node: fix the cached height, then rebalance. */
    static method Rebalance(t: AvlNode<V>) returns (top: AvlNode<V>)
      requires t.Valid() && Floor(t.tree.l) && Floor(t.tree.r)
      modifies t.Repr
      ensures top.Valid() && top.Repr <= old(t.Repr) && top.tree == AvlSpec.Rebalance(old(t.tree))
    {
      t.FixFB();
      top := t;
      var d := Difference(t);
      if d > 1 {
        LeftCallSafe(t.tree);
        top := BalanceLeft(t);
      } else if d < -1 {
        RightCallSafe(t.tree);
        top := BalanceRight(t);
      }
    }

    /** insert_avl_node, the recursive call on the left subtree. */
    method InsertLeft(item: V, k: int, p: Policy)
      requires Valid() && Floor(tree.l)
      modifies Repr
      ensures Valid() && fresh(Repr - old(Repr))
      ensures tree == old(tree).(l := AvlSpec.Insert(old(tree).l, k, item, p))
      decreases Repr, 0
    {
      left := Insert(left, item, k, p);
      Settle();
    }

    /** insert_avl_node, the recursive call on the right subtree. */
    method InsertRight(item: V, k: int, p: Policy)
      requires Valid() && Floor(tree.r)
      modifies Repr
      ensures Valid() && fresh(Repr - old(Repr))
      ensures tree == old(tree).(r := AvlSpec.Insert(old(tree).r, k, item, p))
      decreases Repr, 0
    {
      right := Insert(right, item, k, p);
      Settle();
    }

    /** insert_avl_node. */
    static method Insert(t: AvlNode?<V>, item: V, key: int, p: Policy) returns (top: AvlNode<V>)
      requires t != null ==> t.Valid()
      requires Floor(TreeOf(t))
      modifies ReprOf(t)
      ensures top.Valid() && fresh(top.Repr - old(ReprOf(t)))
      ensures top.tree == AvlSpec.Insert(old(TreeOf(t)), key, item, p)
      decreases ReprOf(t), 1
    {
      if t == null {
        top := new AvlNode(key, item);
      } else if key == t.key {
        top := t;
        if p == Overwrite {
          t.data := item;
          t.Settle();
        }
      } else if key < t.key {
        t.InsertLeft(item, key, p);
        top := Rebalance(t);
      } else {
        t.InsertRight(item, key, p);
        top := Rebalance(t);
      }
    }

    /** search_node. */
    function Search(k: int): (r: Option<V>)
      requires Valid()
      reads this, Repr
      ensures r == AvlSpec.Search(tree, k)
      decreases Repr
    {
      if key == k then Some(data)
      else if key > k then if left == null then None else left.Search(k)
      else if right == null then None else right.Search(k)
    }
  }

  /** The tree handle of avl.cc. */
  class AvlTree<V> {
    var root: AvlNode?<V>
    const policy: Policy

    /** The calls that filed an entry, in order. */
    ghost var calls: seq<(int, V)>

    ghost predicate Valid()
      reads this, root, AvlNode.ReprOf(root)
    {
      (root != null ==> root.Valid()) && AvlNode.TreeOf(root) == Build(calls, policy)
    }

    constructor (policy: Policy)
      ensures Valid() && calls == [] && this.policy == policy && AvlNode.ReprOf(root) == {}
    {
      root, calls, this.policy := null, [], policy;
    }

    method Insert(item: V, key: int)
      requires Valid()
      modifies this, AvlNode.ReprOf(root)
      ensures Valid() && calls == old(calls) + [(key, item)]
      ensures fresh(AvlNode.ReprOf(root) - old(AvlNode.ReprOf(root)))
    {
      root := AvlNode.Insert(root, item, key, policy);
      calls := calls + [(key, item)];
      assert calls[..|calls| - 1] == old(calls);
    }

    /** A run of insertions. */
    method InsertAll(entries: seq<(int, V)>)
      requires Valid()
      modifies this, AvlNode.ReprOf(root)
      ensures Valid() && calls == old(calls) + entries
      ensures fresh(AvlNode.ReprOf(root) - old(AvlNode.ReprOf(root)))
    {
      for i := 0 to |entries|
        invariant Valid() && calls == old(calls) + entries[..i]
        invariant fresh(AvlNode.ReprOf(root) - old(AvlNode.ReprOf(root)))
      {
        Insert(entries[i].1, entries[i].0);
        assert entries[..i + 1] == entries[..i] + [entries[i]];
      }
      assert entries[..|entries|] == entries;
    }

    /** After any run of insertions the search finds what the policy says it should. */
    method Search(key: int) returns (r: Option<V>)
      requires Valid()
      ensures r == Filed(calls, key, policy)
    {
      BuildCorrect(calls, policy, key);
      if root == null {
        r := None;
      } else {
        r := root.Search(key);
      }
    }
  }
}
