/** The 5-way search tree of b_ary.c on the heap: nodes are updated in place and split upwards. */
module BTree {
  import opened Atoms
  import opened BTreeSpec

  class TreeNode {
    var size: int
    // The arrays embedded in the C record; cell 0 of data is never used.
    var data: seq<Atom?>
    var child: seq<TreeNode?>

    ghost var Repr: set<TreeNode>
    ghost var tree: Tree

    ghost predicate Shape()
      reads this
    {
      && 0 <= size <= MAX
      && |data| == MAX + 1 && |child| == MAX + 2
      && tree.Node? && Formed(tree)
      && data[1..size + 1] == tree.es
    }

    ghost predicate Valid()
      reads this, Repr
      ensures Valid() ==> this in Repr
      decreases Repr, 0
    {
      this in Repr && Shape() && Forest(child[..size + 1], tree.kids, Repr - {this})
    }

    /** The subtrees below the pointers ks are the values ts, and no two share a node. */
    static ghost predicate Forest(ks: seq<TreeNode?>, ts: seq<Tree>, R: set<TreeNode>)
      reads R
      decreases R, 1
    {
      && |ks| == |ts|
      && (forall i :: 0 <= i < |ks| ==>
            var k := ks[i];
            if k == null then ts[i] == Empty
            else k in R && k.Repr <= R && k.Valid() && k.tree == ts[i])
      && (forall i, j :: 0 <= i < j < |ks| && ks[i] != null && ks[j] != null ==> ks[i].Repr !! ks[j].Repr)
    }

    static ghost function Footprint(ks: seq<TreeNode?>): set<TreeNode>
      reads set k: TreeNode | k in ks
    {
      set i, o | 0 <= i < |ks| && ks[i] != null && o in ks[i].Repr :: o
    }

    static lemma ForestSlice(ks: seq<TreeNode?>, ts: seq<Tree>, R: set<TreeNode>, lo: nat, hi: nat)
      requires Forest(ks, ts, R) && lo <= hi <= |ks|
      ensures Forest(ks[lo..hi], ts[lo..hi], Footprint(ks[lo..hi]))
      ensures Footprint(ks[lo..hi]) <= R
    {
      var ks' := ks[lo..hi];
      assert forall i {:trigger ks'[i]} :: 0 <= i < |ks'| ==> ks'[i] == ks[lo + i];
    }

    /** The two parts of a forest share no node. */
    static lemma ForestApart(ks: seq<TreeNode?>, ts: seq<Tree>, R: set<TreeNode>, m: nat)
      requires Forest(ks, ts, R) && m <= |ks|
      ensures Footprint(ks[..m]) !! Footprint(ks[m..])
    {
      var l, r := ks[..m], ks[m..];
      forall o | o in Footprint(l) ensures o !in Footprint(r) {
        var i :| 0 <= i < |l| && l[i] != null && o in l[i].Repr;
        forall j | 0 <= j < |r| && r[j] != null ensures o !in r[j].Repr {
          assert l[i] == ks[i] && r[j] == ks[m + j];
        }
      }
    }

    static lemma ForestHalves(ks: seq<TreeNode?>, ts: seq<Tree>, R: set<TreeNode>, m: nat)
      requires Forest(ks, ts, R) && m <= |ks|
      ensures Forest(ks[..m], ts[..m], Footprint(ks[..m]))
      ensures Forest(ks[m..], ts[m..], Footprint(ks[m..]))
      ensures Footprint(ks[..m]) <= R && Footprint(ks[m..]) <= R
      ensures Footprint(ks[..m]) !! Footprint(ks[m..])
    {
      ForestApart(ks, ts, R, m);
      assert Forest(ks[..m], ts[..m], Footprint(ks[..m])) && Footprint(ks[..m]) <= R by {
        ForestSlice(ks, ts, R, 0, m);
      }
      assert Forest(ks[m..], ts[m..], Footprint(ks[m..])) && Footprint(ks[m..]) <= R by {
        ForestSlice(ks, ts, R, m, |ks|);
      }
    }

    static lemma ForestInsert(ks: seq<TreeNode?>, ts: seq<Tree>, R: set<TreeNode>, i: nat, k: TreeNode?)
      requires Forest(ks, ts, R) && i <= |ks|
      requires k != null ==> k.Valid() && k.Repr !! R
      ensures Forest(Inserted(ks, i, k), Inserted(ts, i, if k == null then Empty else k.tree),
                     if k == null then R else R + k.Repr)
    {
    }

    /** A node straight from the allocator: the contents of its arrays are arbitrary. */
    constructor Raw()
      ensures size == 0 && |data| == MAX + 1 && |child| == MAX + 2
    {
      size := 0;
      data := seq(MAX + 1, _ => null);
      child := seq(MAX + 2, _ => null);
      Repr := {};
      tree := Empty;
    }

    /** b_create: an empty leaf. */
    constructor ()
      ensures Valid() && Repr == {this} && tree == FRESH
    {
      size := 0;
      data := seq(MAX + 1, _ => null);
      child := seq(MAX + 2, _ => null);
      Repr := {this};
      tree := FRESH;
    }

    /** What cell j of a destination d holds once n cells of s from sLo were copied to dLo. */
    static ghost predicate Moved<T>(was: seq<T>, now: seq<T>, dLo: int, s: seq<T>, sLo: int, n: int) {
      && |now| == |was|
      && 0 <= sLo <= sLo + n <= |s|
      && forall j :: 0 <= j < |was| ==> now[j] == if dLo <= j < dLo + n then s[j - dLo + sLo] else was[j]
    }

    static lemma Widened<T>(was: seq<T>, now: seq<T>, lo: nat, n: nat, i: nat, x: T)
      requires lo + n < |was| == |now| && i <= n
      requires forall j :: lo <= j < lo + i ==> now[j] == was[j]
      requires forall j :: lo + i < j <= lo + n ==> now[j] == was[j - 1]
      ensures now[lo + i := x][lo..lo + n + 1] == Inserted(was[lo..lo + n], i, x)
    {
    }

    /** b_copy, ascending loop. */
    static method CopyUp(p: TreeNode, pLo: int, q: TreeNode, qLo: int, qHi: int)
      requires |p.data| == |q.data| == MAX + 1 && |p.child| == |q.child| == MAX + 2
      requires 0 <= qLo < pLo && qLo <= qHi && qHi - qLo + pLo <= MAX
      modifies q`data, q`child
      ensures Moved(old(q.data), q.data, qLo, old(p.data), pLo, qHi - qLo + 1)
      ensures Moved(old(q.child), q.child, qLo, old(p.child), pLo, qHi - qLo + 1)
    {
      var i := qLo;
      while i <= qHi
        invariant qLo <= i <= qHi + 1
        invariant Moved(old(q.data), q.data, qLo, old(p.data), pLo, i - qLo)
        invariant Moved(old(q.child), q.child, qLo, old(p.child), pLo, i - qLo)
        invariant p != q ==> p.data == old(p.data) && p.child == old(p.child)
      {
        q.data := q.data[i := p.data[i - qLo + pLo]];
        q.child := q.child[i := p.child[i - qLo + pLo]];
        i := i + 1;
      }
    }

    /** b_copy, descending loop. */
    static method CopyDown(p: TreeNode, pHi: int, q: TreeNode, qLo: int, qHi: int)
      requires |p.data| == |q.data| == MAX + 1 && |p.child| == |q.child| == MAX + 2
      requires 0 <= pHi <= qHi <= MAX && 0 <= qLo <= qHi && 0 <= qLo - qHi + pHi
      modifies q`data, q`child
      ensures Moved(old(q.data), q.data, qLo, old(p.data), qLo - qHi + pHi, qHi - qLo + 1)
      ensures Moved(old(q.child), q.child, qLo, old(p.child), qLo - qHi + pHi, qHi - qLo + 1)
    {
      var i := qHi;
      while i >= qLo
        invariant qLo - 1 <= i <= qHi
        invariant Moved(old(q.data), q.data, i + 1, old(p.data), i + 1 - qHi + pHi, qHi - i)
        invariant Moved(old(q.child), q.child, i + 1, old(p.child), i + 1 - qHi + pHi, qHi - i)
        invariant p != q ==> p.data == old(p.data) && p.child == old(p.child)
      {
        q.data := q.data[i := p.data[i - qHi + pHi]];
        q.child := q.child[i := p.child[i - qHi + pHi]];
        i := i - 1;
      }
    }

    /** b_copy: move a range of cells within a node or to another one; the direction of the loop
        makes overlapping ranges safe. Ranges of unequal length and empty ones do nothing. */
    static method Copy(p: TreeNode, pLo: int, pHi: int, q: TreeNode, qLo: int, qHi: int)
      requires |p.data| == |q.data| == MAX + 1 && |p.child| == |q.child| == MAX + 2
      requires pHi - pLo == qHi - qLo && qLo <= qHi ==> 0 <= pLo && pHi <= MAX && 0 <= qLo && qHi <= MAX
      modifies q`data, q`child
      ensures pHi - pLo == qHi - qLo && qLo <= qHi ==>
        && Moved(old(q.data), q.data, qLo, old(p.data), pLo, qHi - qLo + 1)
        && Moved(old(q.child), q.child, qLo, old(p.child), pLo, qHi - qLo + 1)
      ensures !(pHi - pLo == qHi - qLo && qLo <= qHi) ==> q.data == old(q.data) && q.child == old(q.child)
    {
      if pHi - pLo == qHi - qLo && qLo <= qHi {
        if qLo < pLo {
          CopyUp(p, pLo, q, qLo, qHi);
        } else {
          CopyDown(p, pHi, q, qLo, qHi);
        }
      }
    }

    /** b_scanNode: binary search for the last atom whose key is at most the given one. */
    method Scan(key: nat) returns (found: bool, low: int)
      requires Shape() && Sorted(tree.es)
      ensures low == Rank(tree.es, key) && found == Hit(tree.es, key)
    {
      low := 0;
      var high := size;
      ghost var es := tree.es;
      assert forall i :: 1 <= i <= size ==> data[i] == es[i - 1];
      while low < high
        invariant 0 <= low <= high <= size
        invariant low > 0 ==> es[low - 1].key <= key
        invariant high < size ==> key < es[high].key
      {
        var middle := (low + high + 1) / 2;
        if key < data[middle].key {
          high := middle - 1;
        } else {
          low := middle;
        }
      }
      RankUnique(es, key, low);
      found := low != 0 && data[low].key == key;
    }

    method Locate(key: nat) returns (found: bool, low: int)
      requires Valid() && Sorted(InOrder(tree))
      ensures low == Rank(tree.es, key) && found == Hit(tree.es, key)
    {
      AtomsSorted(tree.es, tree.kids);
      found, low := Scan(key);
    }

    lemma ChildAt(i: int)
      requires Valid() && 0 <= i <= size
      ensures child[i] == null ==> tree.kids[i] == Empty
      ensures child[i] != null ==> child[i].Valid() && child[i].tree == tree.kids[i] && child[i].Repr < Repr
    {
      assert child[..size + 1][i] == child[i];
    }

    /** The node after a split or a plain insertion, given what its arrays and subtrees are. */
    ghost method Settle(es: seq<Atom>, ks: seq<TreeNode?>, ts: seq<Tree>, R: set<TreeNode>)
      requires 0 <= size <= MAX && |data| == MAX + 1 && |child| == MAX + 2
      requires data[1..size + 1] == es && child[..size + 1] == ks
      requires this !in R && Forest(ks, ts, R) && Formed(Node(es, ts))
      modifies `tree, `Repr
      ensures Valid() && Repr == R + {this} && tree == Node(es, ts)
    {
      tree := Node(es, ts);
      Repr := R + {this};
      assert Repr - {this} == R;
    }

    /** The two nodes after a split, given what their arrays and subtrees are. */
    ghost method SettleHalves(es1: seq<Atom>, ks1: seq<TreeNode?>, ts1: seq<Tree>, R1: set<TreeNode>, r: TreeNode,
                              es2: seq<Atom>, ks2: seq<TreeNode?>, ts2: seq<Tree>, R2: set<TreeNode>)
      requires size == ORDER && |data| == MAX + 1 && |child| == MAX + 2
      requires r.size == ORDER && |r.data| == MAX + 1 && |r.child| == MAX + 2
      requires Forest(ks1, ts1, R1) && Forest(ks2, ts2, R2) && R1 !! R2
      requires data[1..ORDER + 1] == es1 && child[..ORDER + 1] == ks1 && Formed(Node(es1, ts1))
      requires r.data[1..ORDER + 1] == es2 && r.child[..ORDER + 1] == ks2 && Formed(Node(es2, ts2))
      requires {this, r} !! R1 + R2 && r != this
      modifies `tree, `Repr, r`tree, r`Repr
      ensures Valid() && Repr == R1 + {this} && tree == Node(es1, ts1)
      ensures r.Valid() && r.Repr == R2 + {r} && r.tree == Node(es2, ts2)
    {
      Settle(es1, ks1, ts1, R1);
      r.Settle(es2, ks2, ts2, R2);
    }

    /** b_addData, the cells of a node with room. */
    method Open(a: Atom, index: int, rp: TreeNode?)
      requires 0 <= index <= size < MAX && |data| == MAX + 1 && |child| == MAX + 2
      modifies `size, `data, `child
      ensures size == old(size) + 1 && |data| == MAX + 1 && |child| == MAX + 2
      ensures data[1..size + 1] == Inserted(old(data[1..size + 1]), index, a)
      ensures child[..size + 1] == Inserted(old(child[..size + 1]), index + 1, rp)
    {
      ghost var d, c := data, child;
      if index < size {
        Copy(this, index + 1, size, this, index + 2, size + 1);
      }
      Widened(d, data, 1, size, index, a);
      Widened(c, child, 0, size + 1, index + 1, rp);
      size := size + 1;
      data := data[index + 1 := a];
      child := child[index + 1 := rp];
    }

    /** b_addData on a node with room. */
    method AddToRoom(a: Atom, index: int, rp: TreeNode?)
      requires Valid() && 0 <= index <= size < MAX
      requires rp != null ==> rp.Valid() && rp.Repr !! Repr
      modifies this
      ensures Valid() && Repr == old(Repr) + (if rp == null then {} else rp.Repr)
      ensures One(tree) == AddData(old(tree).es, old(tree).kids, index, a, if rp == null then Empty else rp.tree)
    {
      ghost var es, ks, ts, R := tree.es, child[..size + 1], tree.kids, Repr - {this};
      ghost var right := if rp == null then Empty else rp.tree;
      ForestInsert(ks, ts, R, index + 1, rp);
      AddDataFormed(es, ts, index, a, right);
      Open(a, index, rp);
      Settle(Inserted(es, index, a), Inserted(ks, index + 1, rp), Inserted(ts, index + 1, right),
             if rp == null then R else R + rp.Repr);
    }

    /** The cells d and c, cut between two nodes of ORDER atoms and the atom promoted above them. */
    ghost predicate CutAt(r: TreeNode, promoted: Atom?, d: seq<Atom?>, c: seq<TreeNode?>)
      reads this, r
    {
      && |d| == MAX + 1 && |c| == MAX + 2
      && size == r.size == ORDER && |data| == |r.data| == MAX + 1 && |child| == |r.child| == MAX + 2
      && data[1..ORDER + 1] == d[..ORDER] && promoted == d[ORDER] && r.data[1..ORDER + 1] == d[ORDER + 1..]
      && child[..ORDER + 1] == c[..ORDER + 1] && r.child[..ORDER + 1] == c[ORDER + 1..]
    }

    /** b_addData on a full node, the atom belongs left of the cut. */
    method SplitLow(a: Atom, index: int, rp: TreeNode?, r: TreeNode) returns (promoted: Atom?)
      requires 0 <= index < ORDER && r != this && size == r.size == ORDER
      requires |data| == |r.data| == MAX + 1 && |child| == |r.child| == MAX + 2
      modifies `data, `child, r`data, r`child
      ensures CutAt(r, promoted, Inserted(old(data[1..]), index, a), Inserted(old(child[..MAX + 1]), index + 1, rp))
    {
      Copy(this, ORDER + 1, MAX, r, 1, ORDER);
      promoted := data[ORDER];
      r.child := r.child[0 := child[ORDER]];
      Copy(this, index + 1, ORDER - 1, this, index + 2, ORDER);
      data := data[index + 1 := a];
      child := child[index + 1 := rp];
    }

    /** b_addData on a full node, the atom is the one promoted. */
    method SplitMiddle(a: Atom, index: int, rp: TreeNode?, r: TreeNode) returns (promoted: Atom?)
      requires index == ORDER && r != this && size == r.size == ORDER
      requires |data| == |r.data| == MAX + 1 && |child| == |r.child| == MAX + 2
      modifies r`data, r`child
      ensures CutAt(r, promoted, Inserted(old(data[1..]), index, a), Inserted(old(child[..MAX + 1]), index + 1, rp))
    {
      Copy(this, ORDER + 1, MAX, r, 1, ORDER);
      promoted := a;
      r.child := r.child[0 := rp];
    }

    /** b_addData on a full node, the atom belongs right of the cut. */
    method SplitHigh(a: Atom, index: int, rp: TreeNode?, r: TreeNode) returns (promoted: Atom?)
      requires ORDER < index <= MAX && r != this && size == r.size == ORDER
      requires |data| == |r.data| == MAX + 1 && |child| == |r.child| == MAX + 2
      modifies r`data, r`child
      ensures CutAt(r, promoted, Inserted(old(data[1..]), index, a), Inserted(old(child[..MAX + 1]), index + 1, rp))
    {
      r.child := r.child[0 := child[ORDER + 1]];
      promoted := data[ORDER + 1];
      Copy(this, ORDER + 2, index, r, 1, index - ORDER - 1);
      r.data := r.data[index - ORDER := a];
      r.child := r.child[index - ORDER := rp];
      Copy(this, index + 1, MAX, r, index - ORDER + 1, ORDER);
      assert index == ORDER + 1 || index == MAX;
      HighAtoms(data, index, a, r.data, Inserted(data[1..], index, a));
      HighChildren(child, index, rp, r.child, Inserted(child[..MAX + 1], index + 1, rp));
    }

    /** The cells of the right half, one by one. */
    static lemma HighAtoms<T>(was: seq<T>, index: int, a: T, now: seq<T>, d: seq<T>)
      requires |was| == |now| == MAX + 1 && (index == ORDER + 1 || index == MAX) && d == Inserted(was[1..], index, a)
      requires index == MAX ==> now[1] == was[MAX] && now[ORDER] == a
      requires index == ORDER + 1 ==> now[1] == a && now[ORDER] == was[MAX]
      ensures now[1..ORDER + 1] == d[ORDER + 1..] && was[1..ORDER + 1] == d[..ORDER] && was[ORDER + 1] == d[ORDER]
    {
      assert d[ORDER + 1] == now[1] && d[ORDER + 2] == now[2];
    }

    static lemma HighChildren<T>(was: seq<T>, index: int, rp: T, now: seq<T>, c: seq<T>)
      requires |was| == |now| == MAX + 2 && (index == ORDER + 1 || index == MAX) && c == Inserted(was[..MAX + 1], index + 1, rp)
      requires now[0] == was[ORDER + 1]
      requires index == MAX ==> now[1] == was[MAX] && now[ORDER] == rp
      requires index == ORDER + 1 ==> now[1] == rp && now[ORDER] == was[MAX]
      ensures now[..ORDER + 1] == c[ORDER + 1..] && was[..ORDER + 1] == c[..ORDER + 1]
    {
      assert c[ORDER + 1] == now[0] && c[ORDER + 2] == now[1] && c[ORDER + 3] == now[2];
    }

    /** b_addData, the cells of a full node: the three cases of the split all cut the widened
        arrays at the same place. */
    method SplitCells(a: Atom, index: int, rp: TreeNode?, r: TreeNode) returns (promoted: Atom?)
      requires 0 <= index <= size == MAX && r != this
      requires |data| == |r.data| == MAX + 1 && |child| == |r.child| == MAX + 2
      modifies `size, `data, `child, r`size, r`data, r`child
      ensures CutAt(r, promoted, Inserted(old(data[1..]), index, a), Inserted(old(child[..MAX + 1]), index + 1, rp))
    {
      r.size := ORDER;
      size := ORDER;
      if index < ORDER {
        promoted := SplitLow(a, index, rp, r);
      } else if index == ORDER {
        promoted := SplitMiddle(a, index, rp, r);
      } else {
        promoted := SplitHigh(a, index, rp, r);
      }
    }

    /** What the two halves of a full node will hold, and the nodes they will own. */
    lemma SplitPlan(a: Atom, index: int, rp: TreeNode?, right: Tree)
      returns (es': seq<Atom>, ks': seq<TreeNode?>, ts': seq<Tree>, R1: set<TreeNode>, R2: set<TreeNode>)
      requires Valid() && 0 <= index <= size == MAX
      requires if rp == null then right == Empty else rp.Valid() && rp.Repr !! Repr && right == rp.tree
      ensures |es'| == MAX + 1 && es' == Inserted(data[1..], index, a)
      ensures |ks'| == |ts'| == MAX + 2 && ks' == Inserted(child[..MAX + 1], index + 1, rp)
      ensures Forest(ks'[..ORDER + 1], ts'[..ORDER + 1], R1) && Forest(ks'[ORDER + 1..], ts'[ORDER + 1..], R2)
      ensures R1 !! R2 && R1 + R2 <= Repr - {this} + (if rp == null then {} else rp.Repr)
      ensures Formed(Node(es'[..ORDER], ts'[..ORDER + 1])) && Formed(Node(es'[ORDER + 1..], ts'[ORDER + 1..]))
      ensures AddData(tree.es, tree.kids, index, a, right)
           == Two(Node(es'[..ORDER], ts'[..ORDER + 1]), es'[ORDER], Node(es'[ORDER + 1..], ts'[ORDER + 1..]))
    {
      var es, ks, ts := tree.es, child[..size + 1], tree.kids;
      assert data[1..] == es && child[..MAX + 1] == ks;
      es', ks', ts' := Inserted(es, index, a), Inserted(ks, index + 1, rp), Inserted(ts, index + 1, right);
      var R := if rp == null then Repr - {this} else Repr - {this} + rp.Repr;
      ForestInsert(ks, ts, Repr - {this}, index + 1, rp);
      AddDataFormed(es, ts, index, a, right);
      ForestHalves(ks', ts', R, ORDER + 1);
      R1, R2 := Footprint(ks'[..ORDER + 1]), Footprint(ks'[ORDER + 1..]);
    }

    /** b_addData on a full node. */
    method AddAndSplit(a: Atom, index: int, rp: TreeNode?) returns (r: TreeNode, promoted: Atom)
      requires Valid() && 0 <= index <= size == MAX
      requires rp != null ==> rp.Valid() && rp.Repr !! Repr
      modifies this
      ensures Valid() && r.Valid() && Repr !! r.Repr && fresh(r)
      ensures Repr <= old(Repr) + (if rp == null then {} else rp.Repr)
      ensures r.Repr <= {r} + old(Repr) + (if rp == null then {} else rp.Repr)
      ensures Two(tree, promoted, r.tree)
           == AddData(old(tree).es, old(tree).kids, index, a, if rp == null then Empty else rp.tree)
    {
      ghost var right := if rp == null then Empty else rp.tree;
      ghost var es', ks', ts', R1, R2 := SplitPlan(a, index, rp, right);
      r := new TreeNode.Raw();
      promoted := SplitCells(a, index, rp, r);
      SettleHalves(es'[..ORDER], ks'[..ORDER + 1], ts'[..ORDER + 1], R1, r,
                   es'[ORDER + 1..], ks'[ORDER + 1..], ts'[ORDER + 1..], R2);
    }

    /** b_addData. */
    method AddAtom(a: Atom, index: int, rp: TreeNode?) returns (r: TreeNode?, promoted: Atom?)
      requires Valid() && 0 <= index <= size
      requires rp != null ==> rp.Valid() && rp.Repr !! Repr
      modifies this
      ensures Valid() && Repr <= old(Repr) + (if rp == null then {} else rp.Repr)
      ensures r != null ==> r.Valid() && Repr !! r.Repr && promoted != null && fresh(r)
      ensures r != null ==> r.Repr <= {r} + old(Repr) + (if rp == null then {} else rp.Repr)
      ensures AddData(old(tree).es, old(tree).kids, index, a, if rp == null then Empty else rp.tree)
           == if r == null then One(tree) else Two(tree, promoted, r.tree)
    {
      if size < MAX {
        AddToRoom(a, index, rp);
        r, promoted := null, null;
      } else {
        r, promoted := AddAndSplit(a, index, rp);
      }
    }

    /** The new root that b_insert builds over the two halves of the old one. */
    method Crown(left: TreeNode, promoted: Atom, right: TreeNode)
      requires Valid() && tree == FRESH && Repr == {this}
      requires left.Valid() && right.Valid() && left.Repr !! right.Repr && this !in left.Repr + right.Repr
      modifies this
      ensures Valid() && Repr == {this} + left.Repr + right.Repr
      ensures tree == Node([promoted], [left.tree, right.tree])
    {
      size := 1;
      child := child[0 := left];
      data := data[1 := promoted];
      child := child[1 := right];
      ghost var ks, R := [left, right], left.Repr + right.Repr;
      assert child[..2] == ks && data[1..2] == [promoted];
      Settle([promoted], ks, [left.tree, right.tree], R);
    }

    /** After child i was changed in place the node is again what its cells say. */
    ghost method ChildChanged(i: int, R: set<TreeNode>, ts: seq<Tree>)
      requires Shape() && this !in R && 0 <= i <= size && child[i] != null && child[i].tree.Node? && Formed(child[i].tree)
      requires |ts| == size + 1 && ts == tree.kids[i := child[i].tree] && Forest(child[..size + 1], ts, R)
      modifies `tree, `Repr
      ensures Valid() && Repr == R + {this} && tree == Node(old(tree).es, ts)
    {
      tree := Node(tree.es, ts);
      Repr := R + {this};
      assert Repr - {this} == R;
    }

    /** b_recursiveInsert, the call on a child: the subtrees beside it are not touched. */
    static method InsertBeside(ghost ks: seq<TreeNode?>, ghost ts: seq<Tree>, ghost R: set<TreeNode>,
                               ghost i: nat, c: TreeNode, a: Atom)
      returns (r: TreeNode?, promoted: Atom?)
      requires c.Valid() && Forest(ks, ts, R) && i < |ks| && ks[i] == c && Sorted(InOrder(c.tree))
      modifies c.Repr
      ensures Forest(ks, ts[i := c.tree], R - old(c.Repr) + c.Repr)
      ensures c.Valid() && fresh(c.Repr - old(c.Repr)) && fresh((R - old(c.Repr) + c.Repr) - R)
      ensures r != null ==> r.Valid() && promoted != null && fresh(r.Repr - R) && (R - old(c.Repr) + c.Repr) !! r.Repr
      ensures InsertBelow(old(c.tree), a) == if r == null then One(c.tree) else Two(c.tree, promoted, r.tree)
      decreases R, 4
    {
      r, promoted := c.InsertAtom(a);
      forall j | 0 <= j < |ks| && j != i && ks[j] != null
        ensures ks[j].Valid() && unchanged(ks[j]) && ks[j].Repr !! old(c.Repr)
      {
        assert ks[j] in old(ks[j].Repr) && old(ks[j].Repr) !! old(c.Repr);
      }
      assert old(c.Repr) <= R;
    }

    /** b_recursiveInsert, the descent into a child. */
    method InsertInChild(a: Atom, index: int) returns (r: TreeNode?, promoted: Atom?, ghost k: Tree)
      requires Valid() && 0 <= index <= size && child[index] != null && Sorted(InOrder(tree.kids[index]))
      modifies Repr
      ensures Valid() && fresh(Repr - old(Repr))
      ensures r != null ==> r.Valid() && Repr !! r.Repr && promoted != null && fresh(r.Repr - old(Repr))
      ensures old(tree).kids[index].Node? && tree == Node(old(tree).es, old(tree).kids[index := k])
      ensures InsertBelow(old(tree).kids[index], a) == if r == null then One(k) else Two(k, promoted, r.tree)
      decreases Repr, 0
    {
      var c := child[index];
      ghost var ks, ts, R, C := child[..size + 1], tree.kids, Repr - {this}, c.Repr;
      ChildAt(index);
      assert ks[index] == c;
      r, promoted := InsertBeside(ks, ts, R, index, c, a);
      k := c.tree;
      assert child[..size + 1] == ks && Shape();
      ChildChanged(index, R - C + c.Repr, ts[index := k]);
    }

    /** b_recursiveInsert, filing what the child promoted. */
    method FilePromoted(right: TreeNode, up: Atom) returns (r: TreeNode?, promoted: Atom?)
      requires Valid() && Sorted(tree.es) && right.Valid() && right.Repr !! Repr
      modifies this
      ensures Valid() && Repr <= old(Repr) + right.Repr
      ensures r != null ==> r.Valid() && Repr !! r.Repr && promoted != null && fresh(r) && r.Repr <= {r} + old(Repr) + right.Repr
      ensures AddData(old(tree).es, old(tree).kids, Rank(old(tree).es, up.key), up, right.tree)
           == if r == null then One(tree) else Two(tree, promoted, r.tree)
    {
      var found, index := Scan(up.key);
      r, promoted := AddAtom(up, index, right);
    }

    /** b_recursiveInsert at an inner node: insert in the child, then file what it promoted. */
    method Descend(a: Atom, index: int) returns (r: TreeNode?, promoted: Atom?)
      requires Valid() && Sorted(tree.es) && 0 <= index <= size
      requires child[index] != null && Sorted(InOrder(tree.kids[index]))
      modifies Repr
      ensures Valid() && fresh(Repr - old(Repr))
      ensures r != null ==> r.Valid() && Repr !! r.Repr && promoted != null && fresh(r.Repr - old(Repr))
      ensures old(tree).kids[index].Node?
      ensures Absorbed(old(tree).es, old(tree).kids, index, InsertBelow(old(tree).kids[index], a))
           == if r == null then One(tree) else Two(tree, promoted, r.tree)
      decreases Repr, 1
    {
      ghost var k;
      r, promoted, k := InsertInChild(a, index);
      if r != null {
        r, promoted := FilePromoted(r, promoted);
      }
    }

    /** b_recursiveInsert, the key not being in the node itself. */
    method InsertAt(a: Atom, index: int) returns (r: TreeNode?, promoted: Atom?)
      requires Valid() && Sorted(tree.es) && 0 <= index <= size && index == Rank(tree.es, a.key) && !Hit(tree.es, a.key)
      requires Sorted(InOrder(tree.kids[index]))
      modifies Repr
      ensures Valid() && fresh(Repr - old(Repr))
      ensures r != null ==> r.Valid() && Repr !! r.Repr && promoted != null && fresh(r.Repr - old(Repr))
      ensures InsertBelow(old(tree), a) == if r == null then One(tree) else Two(tree, promoted, r.tree)
      decreases Repr, 2
    {
      if child[index] == null {
        r, promoted := AddAtom(a, index, null);
      } else {
        r, promoted := Descend(a, index);
      }
    }

    /** b_recursiveInsert. */
    method InsertAtom(a: Atom) returns (r: TreeNode?, promoted: Atom?)
      requires Valid() && Sorted(InOrder(tree))
      modifies Repr
      ensures Valid() && fresh(Repr - old(Repr))
      ensures r != null ==> r.Valid() && Repr !! r.Repr && promoted != null && fresh(r.Repr - old(Repr))
      ensures InsertBelow(old(tree), a) == if r == null then One(tree) else Two(tree, promoted, r.tree)
      decreases Repr, 3
    {
      AtomsSorted(tree.es, tree.kids);
      var found, index := Scan(a.key);
      r, promoted := null, null;
      if !found {
        SidesEnclose(tree.es, tree.kids, a.key);
        r, promoted := InsertAt(a, index);
      }
    }
  }

  /** A tree handle: the root pointer that b_insert may redirect. */
  class OrderedIndex {
    var root: TreeNode
    ghost var height: nat
    /** The atoms filed so far, by key. */
    ghost var contents: map<nat, Atom>

    ghost predicate Valid()
      reads this, root, root.Repr
    {
      root.Valid() && SearchTree(root.tree, height) && Files(contents, InOrder(root.tree))
    }

    constructor ()
      ensures Valid() && fresh(root) && root.Repr == {root} && contents == map[]
    {
      root := new TreeNode();
      height, contents := 1, map[];
      new;
      assert Weave([], [Empty]) == [];
    }

    /** The root to use after the old one may have been split. */
    method NewRoot(left: TreeNode, promoted: Atom?, r: TreeNode?) returns (top: TreeNode)
      requires left.Valid()
      requires r != null ==> r.Valid() && promoted != null && left.Repr !! r.Repr
      ensures top.Valid() && fresh(top.Repr - left.Repr - (if r == null then {} else r.Repr))
      ensures top.tree == if r == null then left.tree else Node([promoted], [left.tree, r.tree])
    {
      top := left;
      if r != null {
        top := new TreeNode();
        top.Crown(left, promoted, r);
      }
    }

    /** b_insert, up to redirecting the root pointer. */
    method InsertAtRoot(a: Atom) returns (top: TreeNode)
      requires root.Valid() && Sorted(InOrder(root.tree))
      modifies root.Repr
      ensures top.Valid() && fresh(top.Repr - old(root.Repr))
      ensures top.tree == BTreeSpec.Insert(old(root.tree), a)
    {
      var r, promoted := root.InsertAtom(a);
      top := NewRoot(root, promoted, r);
    }

    /** b_insert. */
    method Insert(a: Atom)
      requires Valid()
      modifies this, root.Repr
      ensures Valid() && fresh(root.Repr - old(root.Repr))
      ensures contents == if a.key in old(contents) then old(contents) else old(contents)[a.key := a]
    {
      ghost var t := root.tree;
      ghost var h := InsertFiled(t, a, height, contents);
      var top := InsertAtRoot(a);
      root := top;
      height := h;
      contents := FiledIfAbsent(contents, a);
    }

    /** b_Find. */
    method Find(key: nat) returns (a: Atom?)
      requires Valid()
      ensures a == if key in contents then contents[key] else null
    {
      var p: TreeNode := root;
      assert FilesAt(contents, InOrder(p.tree), key);
      FindIsLookup(p.tree, key);
      var found, index := p.Locate(key);
      while !found
        invariant p.Valid() && Sorted(InOrder(p.tree))
        invariant BTreeSpec.Find(p.tree, key) == if key in contents then contents[key] else null
        invariant index == Rank(p.tree.es, key) && found == Hit(p.tree.es, key)
        decreases p.Repr, !found
      {
        LookupBelow(p.tree.es, p.tree.kids, key);
        p.ChildAt(index);
        if p.child[index] == null {
          return null;
        }
        p := p.child[index];
        found, index := p.Locate(key);
      }
      a := p.data[index];
    }
  }
}
