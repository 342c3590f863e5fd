/** The 5-way search tree of b_ary.c as a value, and what insertion does to it. */
module BTreeSpec {
  import opened Atoms

  const ORDER := 2
  const MAX := 2 * ORDER

  /** `Empty` stands for a null child pointer. */
  datatype Tree = Empty | Node(es: seq<Atom>, kids: seq<Tree>)

  /** What inserting below a node hands back to the node above it. */
  datatype Grown = One(t: Tree) | Two(left: Tree, promoted: Atom, right: Tree)

  // ---------------------------------------------------------------- sequences of atoms

  ghost predicate Sorted(s: seq<Atom>) {
    forall i, j :: 0 <= i < j < |s| ==> s[i].key < s[j].key
  }

  ghost predicate Below(s: seq<Atom>, k: nat) {
    forall i :: 0 <= i < |s| ==> s[i].key < k
  }

  ghost predicate Above(k: nat, s: seq<Atom>) {
    forall i :: 0 <= i < |s| ==> k < s[i].key
  }

  /** Number of leading atoms whose key is at most k. */
  function Rank(s: seq<Atom>, k: nat): (r: nat)
    ensures r <= |s|
    ensures r > 0 ==> s[r - 1].key <= k
    ensures r < |s| ==> k < s[r].key
  {
    if s == [] || k < s[0].key then 0 else 1 + Rank(s[1..], k)
  }

  /** In a sorted sequence the rank is the only cut between "at most k" and "above k". */
  lemma {:induction false} RankUnique(s: seq<Atom>, k: nat, r: nat)
    requires Sorted(s) && r <= |s|
    requires r > 0 ==> s[r - 1].key <= k
    requires r < |s| ==> k < s[r].key
    ensures Rank(s, k) == r
  {
    if r > 0 {
      assert s[0].key <= s[r - 1].key;
      RankUnique(s[1..], k, r - 1);
    }
  }

  predicate Hit(s: seq<Atom>, k: nat) {
    var r := Rank(s, k);
    r > 0 && s[r - 1].key == k
  }

  /** The reference table: keep the first atom of every key, in key order. */
  function InsertIfAbsent(s: seq<Atom>, a: Atom): (s': seq<Atom>) {
    var r := Rank(s, a.key);
    if Hit(s, a.key) then s else Inserted(s, r, a)
  }

  function Lookup(s: seq<Atom>, k: nat): (a: Atom?) {
    if Hit(s, k) then s[Rank(s, k) - 1] else null
  }

  // ---------------------------------------------------------------- shape and order of trees

  /** All leaves at the same depth h, every node holding ORDER to MAX atoms. */
  ghost predicate Balanced(t: Tree, h: nat)
    decreases t
  {
    match t
    case Empty => h == 0
    case Node(es, kids) =>
      && h > 0
      && ORDER <= |es| <= MAX
      && |kids| == |es| + 1
      && forall i :: 0 <= i < |kids| ==> Balanced(kids[i], h - 1)
  }

  /** The root is exempt from the lower bound on atoms. */
  ghost predicate BalancedRoot(t: Tree, h: nat) {
    && t.Node?
    && h > 0
    && |t.es| <= MAX
    && |t.kids| == |t.es| + 1
    && (t.es == [] ==> h == 1)
    && forall i :: 0 <= i < |t.kids| ==> Balanced(t.kids[i], h - 1)
  }

  /** One more child than atoms, at every node. */
  ghost predicate Formed(t: Tree) {
    match t
    case Empty => true
    case Node(es, kids) => |kids| == |es| + 1 && forall i :: 0 <= i < |kids| ==> Formed(kids[i])
  }

  ghost function InOrder(t: Tree): seq<Atom>
    decreases t
  {
    match t
    case Empty => []
    case Node(es, kids) => Weave(es, kids)
  }

  /** Children and atoms in turn, a child first. */
  ghost function Weave(es: seq<Atom>, kids: seq<Tree>): seq<Atom>
    decreases kids
  {
    if kids == [] then []
    else if es == [] then InOrder(kids[0])
    else InOrder(kids[0]) + ([es[0]] + Weave(es[1..], kids[1..]))
  }

  ghost predicate FormedAll(kids: seq<Tree>) {
    forall i :: 0 <= i < |kids| ==> Formed(kids[i])
  }

  // ---------------------------------------------------------------- the operations on values

  function Inserted<T>(s: seq<T>, i: nat, x: T): seq<T>
    requires i <= |s|
  {
    s[..i] + [x] + s[i..]
  }

  /** Put atom a and the subtree to its right behind child i; split a node that overflows. */
  function AddData(es: seq<Atom>, kids: seq<Tree>, i: nat, a: Atom, right: Tree): Grown
    requires |kids| == |es| + 1 && i <= |es|
  {
    var es', kids' := Inserted(es, i, a), Inserted(kids, i + 1, right);
    if |es| < MAX then One(Node(es', kids'))
    else Two(Node(es'[..ORDER], kids'[..ORDER + 1]), es'[ORDER],
             Node(es'[ORDER + 1..], kids'[ORDER + 1..]))
  }

  function InsertBelow(t: Tree, a: Atom): Grown
    requires t.Node? && Formed(t)
    decreases t
  {
    var r := Rank(t.es, a.key);
    if Hit(t.es, a.key) then One(t)
    else if t.kids[r].Empty? then AddData(t.es, t.kids, r, a, Empty)
    else Absorbed(t.es, t.kids, r, InsertBelow(t.kids[r], a))
  }

  /** The node once its child i came back as g. */
  function Absorbed(es: seq<Atom>, kids: seq<Tree>, i: nat, g: Grown): Grown
    requires |kids| == |es| + 1 && i <= |es|
  {
    match g
    case One(k) => One(Node(es, kids[i := k]))
    case Two(l, p, r) => AddData(es, kids[i := l], Rank(es, p.key), p, r)
  }

  function Insert(root: Tree, a: Atom): Tree
    requires root.Node? && Formed(root)
  {
    match InsertBelow(root, a)
    case One(t) => t
    case Two(l, p, r) => Node([p], [l, r])
  }

  function Find(t: Tree, k: nat): Atom?
    requires Formed(t)
    decreases t
  {
    if t.Empty? then null
    else if Hit(t.es, k) then t.es[Rank(t.es, k) - 1]
    else Find(t.kids[Rank(t.es, k)], k)
  }

  // ---------------------------------------------------------------- cutting the in-order sequence

  lemma {:induction false} Cut(es: seq<Atom>, kids: seq<Tree>, i: nat)
    requires |kids| == |es| + 1 && i < |es|
    ensures Weave(es, kids)
         == Weave(es[..i], kids[..i + 1]) + ([es[i]] + Weave(es[i + 1..], kids[i + 1..]))
    decreases i
  {
    if i > 0 {
      Cut(es[1..], kids[1..], i - 1);
      assert es[1..][..i - 1] == es[..i][1..] && kids[1..][..i] == kids[..i + 1][1..];
      assert es[1..][i..] == es[i + 1..] && kids[1..][i..] == kids[i + 1..];
    }
  }

  ghost function Left(es: seq<Atom>, kids: seq<Tree>, i: nat): seq<Atom>
    requires |kids| == |es| + 1 && i <= |es|
  {
    if i == 0 then [] else Weave(es[..i - 1], kids[..i]) + [es[i - 1]]
  }

  ghost function Right(es: seq<Atom>, kids: seq<Tree>, i: nat): seq<Atom>
    requires |kids| == |es| + 1 && i <= |es|
  {
    if i == |es| then [] else [es[i]] + Weave(es[i + 1..], kids[i + 1..])
  }

  lemma RightOf(es: seq<Atom>, kids: seq<Tree>, i: nat)
    requires |kids| == |es| + 1 && i <= |es|
    ensures Weave(es[i..], kids[i..]) == InOrder(kids[i]) + Right(es, kids, i)
  {
    assert i < |es| ==> es[i..][1..] == es[i + 1..] && kids[i..][1..] == kids[i + 1..];
  }

  lemma LeftOf(es: seq<Atom>, kids: seq<Tree>, i: nat)
    requires |kids| == |es| + 1 && i <= |es|
    ensures Weave(es, kids) == Left(es, kids, i) + Weave(es[i..], kids[i..])
  {
    if i > 0 {
      Cut(es, kids, i - 1);
    } else {
      assert es[0..] == es && kids[0..] == kids;
    }
  }

  /** Everything left of child i, child i, everything right of it. */
  lemma Around(es: seq<Atom>, kids: seq<Tree>, i: nat)
    requires |kids| == |es| + 1 && i <= |es|
    ensures Weave(es, kids) == Left(es, kids, i) + (InOrder(kids[i]) + Right(es, kids, i))
  {
    LeftOf(es, kids, i);
    RightOf(es, kids, i);
  }

  /** Replacing child i leaves both sides alone. */
  lemma SidesKept(es: seq<Atom>, kids: seq<Tree>, i: nat, k: Tree)
    requires |kids| == |es| + 1 && i <= |es|
    ensures Left(es, kids[i := k], i) == Left(es, kids, i)
    ensures Right(es, kids[i := k], i) == Right(es, kids, i)
  {
    assert kids[i := k][..i] == kids[..i];
    assert kids[i := k][i + 1..] == kids[i + 1..];
  }

  /** The part of a node up to and including child i. */
  lemma Prefix(es: seq<Atom>, kids: seq<Tree>, i: nat)
    requires |kids| == |es| + 1 && i <= |es|
    ensures Weave(es[..i], kids[..i + 1]) == Left(es, kids, i) + InOrder(kids[i])
  {
    var es1, kids1 := es[..i], kids[..i + 1];
    Around(es1, kids1, i);
    assert i > 0 ==> es1[..i - 1] == es[..i - 1] && kids1[..i] == kids[..i];
    assert Right(es1, kids1, i) == [];
  }

  lemma InsertedParts<T>(s: seq<T>, i: nat, x: T)
    requires i <= |s|
    ensures Inserted(s, i, x)[..i] == s[..i]
    ensures Inserted(s, i, x)[i] == x
    ensures Inserted(s, i, x)[i..] == [x] + s[i..]
    ensures Inserted(s, i, x)[i + 1..] == s[i..]
  {
  }

  /** The part of a node right of atom i once its child there is another tree. */
  lemma Suffix(es: seq<Atom>, kids: seq<Tree>, i: nat, right: Tree)
    requires |kids| == |es| + 1 && i <= |es|
    ensures Weave(es[i..], [right] + kids[i + 1..]) == InOrder(right) + Right(es, kids, i)
  {
    var kids1 := [right] + kids[i + 1..];
    assert i < |es| ==> es[i..][1..] == es[i + 1..] && kids1[1..] == kids[i + 1..];
  }

  lemma AddDataInOrder(es: seq<Atom>, kids: seq<Tree>, i: nat, a: Atom, right: Tree)
    requires |kids| == |es| + 1 && i <= |es|
    ensures Weave(Inserted(es, i, a), Inserted(kids, i + 1, right))
         == (Left(es, kids, i) + InOrder(kids[i])) + ([a] + (InOrder(right) + Right(es, kids, i)))
  {
    var es', kids' := Inserted(es, i, a), Inserted(kids, i + 1, right);
    Cut(es', kids', i);
    InsertedParts(es, i, a);
    InsertedParts(kids, i + 1, right);
    Prefix(es, kids, i);
    Suffix(es, kids, i, right);
  }

  ghost function GrownInOrder(g: Grown): seq<Atom> {
    match g
    case One(t) => InOrder(t)
    case Two(l, p, r) => InOrder(l) + ([p] + InOrder(r))
  }

  lemma RegroupFive<T>(l: seq<T>, m: seq<T>, a: T, n: seq<T>, r: seq<T>)
    ensures (l + m) + ([a] + (n + r)) == l + ((m + ([a] + n)) + r)
  {
  }

  /** Cutting an overfull node in two does not change the sequence of its atoms. */
  lemma AddDataUncut(es: seq<Atom>, kids: seq<Tree>, i: nat, a: Atom, right: Tree)
    requires |kids| == |es| + 1 && i <= |es|
    ensures GrownInOrder(AddData(es, kids, i, a, right)) == Weave(Inserted(es, i, a), Inserted(kids, i + 1, right))
  {
    if |es| >= MAX {
      Cut(Inserted(es, i, a), Inserted(kids, i + 1, right), ORDER);
    }
  }

  /** Splitting or not, adding an atom only adds that atom. */
  lemma AddDataGrown(es: seq<Atom>, kids: seq<Tree>, i: nat, a: Atom, right: Tree)
    requires |kids| == |es| + 1 && i <= |es|
    ensures GrownInOrder(AddData(es, kids, i, a, right))
         == Left(es, kids, i) + ((InOrder(kids[i]) + ([a] + InOrder(right))) + Right(es, kids, i))
  {
    AddDataUncut(es, kids, i, a, right);
    AddDataInOrder(es, kids, i, a, right);
    RegroupFive(Left(es, kids, i), InOrder(kids[i]), a, InOrder(right), Right(es, kids, i));
  }

  // ---------------------------------------------------------------- order

  lemma SortedParts(l: seq<Atom>, m: seq<Atom>, r: seq<Atom>)
    requires Sorted(l + (m + r))
    ensures Sorted(l) && Sorted(m) && Sorted(r)
    ensures forall i, j :: 0 <= i < |l| && 0 <= j < |m| ==> l[i].key < m[j].key
    ensures forall i, j :: 0 <= i < |l| && 0 <= j < |r| ==> l[i].key < r[j].key
    ensures forall i, j :: 0 <= i < |m| && 0 <= j < |r| ==> m[i].key < r[j].key
  {
    var s := l + (m + r);
    assert forall x {:trigger l[x]} :: 0 <= x < |l| ==> l[x] == s[x];
    assert forall x {:trigger m[x]} :: 0 <= x < |m| ==> m[x] == s[|l| + x];
    assert forall x {:trigger r[x]} :: 0 <= x < |r| ==> r[x] == s[|l| + |m| + x];
  }

  lemma {:induction false} AtomsSorted(es: seq<Atom>, kids: seq<Tree>)
    requires |kids| == |es| + 1 && Sorted(Weave(es, kids))
    ensures Sorted(es)
    ensures forall i :: 0 <= i < |es| ==> es[i] in Weave(es, kids)
  {
    if es != [] {
      var rest := Weave(es[1..], kids[1..]);
      SortedParts(InOrder(kids[0]), [es[0]], rest);
      AtomsSorted(es[1..], kids[1..]);
      forall i | 0 < i < |es| ensures es[0].key < es[i].key && es[i] in rest {
        assert es[i] == es[1..][i - 1];
        var j :| 0 <= j < |rest| && rest[j] == es[i];
        assert [es[0]][0].key < rest[j].key;
      }
    }
  }

  /** The atoms on the two sides of the child chosen by the scan enclose the key. */
  lemma SidesEnclose(es: seq<Atom>, kids: seq<Tree>, k: nat)
    requires |kids| == |es| + 1 && Sorted(Weave(es, kids)) && !Hit(es, k)
    ensures var i := Rank(es, k);
      && Below(Left(es, kids, i), k)
      && Above(k, Right(es, kids, i))
      && Sorted(InOrder(kids[i]))
  {
    var i := Rank(es, k);
    Around(es, kids, i);
    var l, r := Left(es, kids, i), Right(es, kids, i);
    SortedParts(l, InOrder(kids[i]), r);
    if i > 0 {
      assert l[|l| - 1] == es[i - 1];
    }
    if i < |es| {
      assert r[0] == es[i];
    }
  }

  lemma SortedJoin(l: seq<Atom>, a: Atom, r: seq<Atom>)
    requires Sorted(l) && Sorted(r) && Below(l, a.key) && Above(a.key, r)
    ensures Sorted(l + [a] + r)
  {
  }

  lemma RankParts(s: seq<Atom>, k: nat)
    requires Sorted(s) && !Hit(s, k)
    ensures Below(s[..Rank(s, k)], k) && Above(k, s[Rank(s, k)..])
  {
    var r := Rank(s, k);
    forall i | 0 <= i < r ensures s[i].key < k {
      assert i < r - 1 ==> s[i].key < s[r - 1].key;
    }
    forall i | r <= i < |s| ensures k < s[i].key {
      assert r < i ==> s[r].key < s[i].key;
    }
  }

  lemma InsertKeepsSorted(s: seq<Atom>, a: Atom)
    requires Sorted(s)
    ensures Sorted(InsertIfAbsent(s, a))
  {
    if !Hit(s, a.key) {
      var r := Rank(s, a.key);
      RankParts(s, a.key);
      assert s == s[..r] + ([] + s[r..]);
      SortedParts(s[..r], [], s[r..]);
      SortedJoin(s[..r], a, s[r..]);
    }
  }

  /** The rank of a key in an enclosed part gives its rank in the whole. */
  lemma RankInside(l: seq<Atom>, m: seq<Atom>, r: seq<Atom>, k: nat)
    requires Sorted(l + (m + r)) && Below(l, k) && Above(k, r)
    ensures Rank(l + (m + r), k) == |l| + Rank(m, k)
    ensures Hit(l + (m + r), k) == Hit(m, k)
  {
    var s, q := l + (m + r), Rank(m, k);
    assert q < |m| ==> s[|l| + q] == m[q];
    assert q == |m| && r != [] ==> s[|l| + q] == r[0];
    assert q > 0 ==> s[|l| + q - 1] == m[q - 1];
    assert q == 0 && l != [] ==> s[|l| - 1] == l[|l| - 1];
    RankUnique(s, k, |l| + q);
  }

  lemma Splice<T>(l: seq<T>, m: seq<T>, r: seq<T>, q: nat, a: T)
    requires q <= |m|
    ensures Inserted(l + (m + r), |l| + q, a) == l + (Inserted(m, q, a) + r)
  {
    var s := l + (m + r);
    assert s[..|l| + q] == l + m[..q];
    assert s[|l| + q..] == m[q..] + r;
  }

  /** Inserting into the enclosed part is inserting into the whole. */
  lemma InsertInside(l: seq<Atom>, m: seq<Atom>, r: seq<Atom>, a: Atom)
    requires Sorted(l + (m + r)) && Below(l, a.key) && Above(a.key, r)
    ensures InsertIfAbsent(l + (m + r), a) == l + (InsertIfAbsent(m, a) + r)
  {
    RankInside(l, m, r, a.key);
    if !Hit(m, a.key) {
      Splice(l, m, r, Rank(m, a.key), a);
    }
  }

  /** An atom of the node is found in the in-order sequence. */
  lemma HitHere(es: seq<Atom>, kids: seq<Tree>, k: nat)
    requires |kids| == |es| + 1 && Sorted(Weave(es, kids)) && Hit(es, k)
    ensures Hit(Weave(es, kids), k)
    ensures Lookup(Weave(es, kids), k) == es[Rank(es, k) - 1]
  {
    var i := Rank(es, k) - 1;
    var s := Weave(es, kids);
    Cut(es, kids, i);
    var l, r := Weave(es[..i], kids[..i + 1]), Weave(es[i + 1..], kids[i + 1..]);
    SortedParts(l, [es[i]], r);
    assert s[|l|] == es[i];
    assert r != [] ==> s[|l| + 1] == r[0] && [es[i]][0].key < r[0].key;
    RankUnique(s, k, |l| + 1);
  }

  lemma LookupInside(l: seq<Atom>, m: seq<Atom>, r: seq<Atom>, k: nat)
    requires Sorted(l + (m + r)) && Below(l, k) && Above(k, r)
    ensures Lookup(l + (m + r), k) == Lookup(m, k)
  {
    RankInside(l, m, r, k);
    assert Hit(m, k) ==> (l + (m + r))[|l| + Rank(m, k) - 1] == m[Rank(m, k) - 1];
  }

  /** A key that is not in the node is in the node's sequence just when it is in the scanned child. */
  lemma LookupBelow(es: seq<Atom>, kids: seq<Tree>, k: nat)
    requires |kids| == |es| + 1 && Sorted(Weave(es, kids)) && !Hit(es, k)
    ensures Sorted(InOrder(kids[Rank(es, k)]))
    ensures Lookup(Weave(es, kids), k) == Lookup(InOrder(kids[Rank(es, k)]), k)
  {
    var i := Rank(es, k);
    SidesEnclose(es, kids, k);
    Around(es, kids, i);
    LookupInside(Left(es, kids, i), InOrder(kids[i]), Right(es, kids, i), k);
  }

  /** Looking up through the scans of the nodes is looking up in the sorted sequence. */
  lemma {:induction false} FindIsLookup(t: Tree, k: nat)
    requires Formed(t) && Sorted(InOrder(t))
    ensures Find(t, k) == Lookup(InOrder(t), k)
    decreases t
  {
    if t.Node? {
      if Hit(t.es, k) {
        HitHere(t.es, t.kids, k);
      } else {
        LookupBelow(t.es, t.kids, k);
        FindIsLookup(t.kids[Rank(t.es, k)], k);
      }
    }
  }

  /** The promoted atom belongs where the child was split: the second scan agrees with the first. */
  lemma PromotedRank(es: seq<Atom>, kids: seq<Tree>, i: nat, l: seq<Atom>, p: Atom, r: seq<Atom>)
    requires |kids| == |es| + 1 && i <= |es| && Sorted(es)
    requires Sorted(Left(es, kids, i) + ((l + ([p] + r)) + Right(es, kids, i)))
    ensures Rank(es, p.key) == i
  {
    var left, m, right := Left(es, kids, i), l + ([p] + r), Right(es, kids, i);
    SortedParts(left, m, right);
    assert m[|l|] == p;
    assert i > 0 ==> left[|left| - 1] == es[i - 1];
    assert i < |es| ==> right[0] == es[i];
    RankUnique(es, p.key, i);
  }

  /** What the node does with the subtrees its child came back as. */
  lemma Absorb(es: seq<Atom>, kids: seq<Tree>, a: Atom, g: Grown)
    requires |kids| == |es| + 1 && Sorted(Weave(es, kids)) && !Hit(es, a.key)
    requires GrownInOrder(g) == InsertIfAbsent(InOrder(kids[Rank(es, a.key)]), a)
    ensures g.Two? ==> Rank(es, g.promoted.key) == Rank(es, a.key)
    ensures GrownInOrder(Absorbed(es, kids, Rank(es, a.key), g)) == InsertIfAbsent(Weave(es, kids), a)
  {
    var i := Rank(es, a.key);
    var left, m, right := Left(es, kids, i), InOrder(kids[i]), Right(es, kids, i);
    SidesEnclose(es, kids, a.key);
    Around(es, kids, i);
    InsertInside(left, m, right, a);
    match g
    case One(k) =>
      SidesKept(es, kids, i, k);
      Around(es, kids[i := k], i);
    case Two(l, p, r) =>
      InsertKeepsSorted(Weave(es, kids), a);
      AtomsSorted(es, kids);
      PromotedRank(es, kids, i, InOrder(l), p, InOrder(r));
      SidesKept(es, kids, i, l);
      AddDataGrown(es, kids[i := l], i, p, r);
  }

  /** Insertion below a node is insertion into the sorted sequence of its atoms. */
  lemma {:induction false} InsertBelowInOrder(t: Tree, a: Atom)
    requires t.Node? && Formed(t) && Sorted(InOrder(t))
    ensures GrownInOrder(InsertBelow(t, a)) == InsertIfAbsent(InOrder(t), a)
    decreases t
  {
    var i := Rank(t.es, a.key);
    if Hit(t.es, a.key) {
      HitHere(t.es, t.kids, a.key);
    } else if t.kids[i].Empty? {
      var g := Two(Empty, a, Empty);
      assert GrownInOrder(g) == InsertIfAbsent([], a);
      Absorb(t.es, t.kids, a, g);
      assert t.kids[i := Empty] == t.kids;
    } else {
      SidesEnclose(t.es, t.kids, a.key);
      InsertBelowInOrder(t.kids[i], a);
      Absorb(t.es, t.kids, a, InsertBelow(t.kids[i], a));
    }
  }

  // ---------------------------------------------------------------- shape

  lemma BalancedFormed(t: Tree, h: nat)
    requires Balanced(t, h)
    ensures Formed(t)
    decreases t
  {
    if t.Node? {
      forall i | 0 <= i < |t.kids| ensures Formed(t.kids[i]) {
        BalancedFormed(t.kids[i], h - 1);
      }
    }
  }

  ghost predicate BalancedAll(kids: seq<Tree>, h: nat) {
    forall i :: 0 <= i < |kids| ==> Balanced(kids[i], h)
  }

  ghost predicate BalancedGrown(g: Grown, h: nat, min: nat) {
    match g
    case One(t) => t.Node? && h > 0 && min <= |t.es| <= MAX && |t.kids| == |t.es| + 1 && BalancedAll(t.kids, h - 1)
    case Two(l, _, r) => Balanced(l, h) && Balanced(r, h)
  }

  lemma AddDataBalanced(es: seq<Atom>, kids: seq<Tree>, i: nat, a: Atom, right: Tree, h: nat)
    requires |kids| == |es| + 1 && i <= |es| <= MAX && BalancedAll(kids, h) && Balanced(right, h)
    ensures BalancedGrown(AddData(es, kids, i, a, right), h + 1, |es|)
  {
    var kids' := Inserted(kids, i + 1, right);
    assert BalancedAll(kids', h);
  }

  /** A node stays balanced when its child comes back as one or two balanced trees. */
  lemma AbsorbBalanced(es: seq<Atom>, kids: seq<Tree>, i: nat, g: Grown, h: nat)
    requires |kids| == |es| + 1 && i < |kids| && |es| <= MAX && BalancedAll(kids, h)
    requires BalancedGrown(g, h, ORDER)
    ensures BalancedGrown(Absorbed(es, kids, i, g), h + 1, |es|)
  {
    match g
    case One(k) =>
      assert BalancedAll(kids[i := k], h);
    case Two(l, p, r) =>
      assert BalancedAll(kids[i := l], h);
      AddDataBalanced(es, kids[i := l], Rank(es, p.key), p, r, h);
  }

  /** Every leaf keeps its depth, every node its number of atoms between ORDER and MAX. */
  lemma {:induction false} InsertBelowBalanced(t: Tree, a: Atom, h: nat)
    requires t.Node? && Formed(t) && h > 0 && |t.es| <= MAX && BalancedAll(t.kids, h - 1)
    requires Sorted(InOrder(t))
    ensures BalancedGrown(InsertBelow(t, a), h, |t.es|)
    decreases t
  {
    var i := Rank(t.es, a.key);
    if !Hit(t.es, a.key) {
      if t.kids[i].Empty? {
        AddDataBalanced(t.es, t.kids, i, a, Empty, h - 1);
      } else {
        LookupBelow(t.es, t.kids, a.key);
        InsertBelowBalanced(t.kids[i], a, h - 1);
        AbsorbBalanced(t.es, t.kids, i, InsertBelow(t.kids[i], a), h - 1);
      }
    }
  }

  // ---------------------------------------------------------------- whole runs

  /** What holds of the root after every run. */
  ghost predicate SearchTree(t: Tree, h: nat) {
    BalancedRoot(t, h) && Formed(t) && Sorted(InOrder(t))
  }

  const FRESH := Node([], [Empty])

  ghost predicate FormedGrown(g: Grown) {
    match g
    case One(t) => t.Node? && Formed(t)
    case Two(l, _, r) => l.Node? && r.Node? && Formed(l) && Formed(r)
  }

  lemma AddDataFormed(es: seq<Atom>, kids: seq<Tree>, i: nat, a: Atom, right: Tree)
    requires |kids| == |es| + 1 && i <= |es| && FormedAll(kids) && Formed(right)
    ensures FormedGrown(AddData(es, kids, i, a, right))
  {
    assert FormedAll(Inserted(kids, i + 1, right));
  }

  lemma AbsorbFormed(es: seq<Atom>, kids: seq<Tree>, i: nat, g: Grown)
    requires |kids| == |es| + 1 && i <= |es| && FormedAll(kids) && FormedGrown(g)
    ensures FormedGrown(Absorbed(es, kids, i, g))
  {
    match g
    case One(k) =>
      assert FormedAll(kids[i := k]);
    case Two(l, p, r) =>
      AddDataFormed(es, kids[i := l], Rank(es, p.key), p, r);
  }

  lemma {:induction false} InsertBelowFormed(t: Tree, a: Atom)
    requires t.Node? && Formed(t)
    ensures FormedGrown(InsertBelow(t, a))
    decreases t
  {
    var i := Rank(t.es, a.key);
    if !Hit(t.es, a.key) {
      if t.kids[i].Empty? {
        AddDataFormed(t.es, t.kids, i, a, Empty);
      } else {
        InsertBelowFormed(t.kids[i], a);
        AbsorbFormed(t.es, t.kids, i, InsertBelow(t.kids[i], a));
      }
    }
  }

  function Build(atoms: seq<Atom>): (t: Tree)
    ensures t.Node? && Formed(t)
  {
    if atoms == [] then FRESH
    else
      var t, a := Build(atoms[..|atoms| - 1]), atoms[|atoms| - 1];
      InsertBelowFormed(t, a);
      Insert(t, a)
  }

  lemma NewRootInOrder(l: Tree, p: Atom, r: Tree)
    ensures InOrder(Node([p], [l, r])) == GrownInOrder(Two(l, p, r))
  {
    assert [p][1..] == [] && [l, r][1..] == [r];
    assert Weave([], [r]) == InOrder(r);
  }

  lemma RootBalanced(t: Tree, a: Atom, h: nat)
    requires SearchTree(t, h)
    ensures InsertBelow(t, a).One? ==> BalancedRoot(InsertBelow(t, a).t, h)
    ensures InsertBelow(t, a).Two? ==> BalancedRoot(Insert(t, a), h + 1)
  {
    InsertBelowBalanced(t, a, h);
    assert BalancedAll(t.kids, h - 1);
  }

  /** One insertion keeps the search tree and adds the atom to the sorted table if its key is new. */
  lemma InsertCorrect(t: Tree, a: Atom, h: nat) returns (h': nat)
    requires SearchTree(t, h)
    ensures Insert(t, a).Node? && h <= h' <= h + 1
    ensures SearchTree(Insert(t, a), h')
    ensures InOrder(Insert(t, a)) == InsertIfAbsent(InOrder(t), a)
  {
    InsertBelowInOrder(t, a);
    InsertBelowFormed(t, a);
    RootBalanced(t, a, h);
    InsertKeepsSorted(InOrder(t), a);
    var g := InsertBelow(t, a);
    h' := if g.One? then h else h + 1;
    if g.Two? {
      NewRootInOrder(g.left, g.promoted, g.right);
    }
  }

  /** The first atom of a run that carries key k. */
  function FirstWith(atoms: seq<Atom>, k: nat): (a: Atom?) {
    if atoms == [] then null
    else
      var earlier := FirstWith(atoms[..|atoms| - 1], k);
      if earlier != null then earlier
      else if atoms[|atoms| - 1].key == k then atoms[|atoms| - 1] else null
  }

  /** Where a key stands after another one was inserted. */
  lemma RankAfterInsert(s: seq<Atom>, a: Atom, k: nat)
    requires Sorted(s) && !Hit(s, a.key)
    ensures var s', r, q := InsertIfAbsent(s, a), Rank(s, a.key), Rank(s, k);
      && |s'| == |s| + 1
      && (k < a.key ==> Rank(s', k) == q <= r && (q > 0 ==> s'[q - 1] == s[q - 1]))
      && (k >= a.key ==> Rank(s', k) == q + 1 > r && s'[q] == if q > r then s[q - 1] else a)
  {
    var s', r, q := InsertIfAbsent(s, a), Rank(s, a.key), Rank(s, k);
    InsertKeepsSorted(s, a);
    if k < a.key {
      RankMonotone(s, k, a.key);
      assert q > 0 ==> s'[q - 1] == s[q - 1];
      assert s'[q] == if q < r then s[q] else a;
      RankUnique(s', k, q);
    } else {
      RankMonotone(s, a.key, k);
      assert s'[q] == if q > r then s[q - 1] else a;
      assert q < |s| ==> s'[q + 1] == s[q];
      RankUnique(s', k, q + 1);
    }
  }

  lemma LookupAfterInsert(s: seq<Atom>, a: Atom, k: nat)
    requires Sorted(s)
    ensures Lookup(InsertIfAbsent(s, a), k)
         == if Lookup(s, k) != null then Lookup(s, k) else if a.key == k then a else null
  {
    if !Hit(s, a.key) {
      RankAfterInsert(s, a, k);
    }
  }

  lemma RankMonotone(s: seq<Atom>, k: nat, k': nat)
    requires k <= k'
    ensures Rank(s, k) <= Rank(s, k')
  {
  }

  /** After any run of insertions the root is a search tree and finds, for every key, the first
      atom inserted under it. */
  lemma {:induction false} BuildCorrect(atoms: seq<Atom>) returns (h: nat)
    ensures SearchTree(Build(atoms), h)
    ensures forall k: nat :: Find(Build(atoms), k) == FirstWith(atoms, k)
  {
    if atoms == [] {
      h := 1;
      assert Weave([], [Empty]) == [];
    } else {
      var earlier, a := atoms[..|atoms| - 1], atoms[|atoms| - 1];
      var h0 := BuildCorrect(earlier);
      h := InsertCorrect(Build(earlier), a, h0);
      forall k: nat ensures Find(Build(atoms), k) == FirstWith(atoms, k) {
        FindIsLookup(Build(atoms), k);
        FindIsLookup(Build(earlier), k);
        LookupAfterInsert(InOrder(Build(earlier)), a, k);
      }
    }
  }

  // ---------------------------------------------------------------- the table as a map

  ghost predicate FilesAt(m: map<nat, Atom>, s: seq<Atom>, k: nat) {
    Lookup(s, k) == if k in m then m[k] else null
  }

  /** m maps every key of the table s to its atom. */
  ghost predicate Files(m: map<nat, Atom>, s: seq<Atom>) {
    forall k: nat :: FilesAt(m, s, k)
  }

  function FiledIfAbsent(m: map<nat, Atom>, a: Atom): map<nat, Atom> {
    if a.key in m then m else m[a.key := a]
  }

  lemma FilesAtInserted(m: map<nat, Atom>, s: seq<Atom>, a: Atom, k: nat)
    requires Sorted(s) && FilesAt(m, s, k)
    ensures FilesAt(FiledIfAbsent(m, a), InsertIfAbsent(s, a), k)
  {
    LookupAfterInsert(s, a, k);
  }

  lemma FilesInserted(m: map<nat, Atom>, s: seq<Atom>, a: Atom)
    requires Sorted(s) && Files(m, s)
    ensures Files(FiledIfAbsent(m, a), InsertIfAbsent(s, a))
  {
    forall k: nat ensures FilesAt(FiledIfAbsent(m, a), InsertIfAbsent(s, a), k) {
      FilesAtInserted(m, s, a, k);
    }
  }

  lemma InsertFiled(t: Tree, a: Atom, h: nat, m: map<nat, Atom>) returns (h': nat)
    requires SearchTree(t, h) && Files(m, InOrder(t))
    ensures SearchTree(Insert(t, a), h') && Files(FiledIfAbsent(m, a), InOrder(Insert(t, a)))
  {
    h' := InsertCorrect(t, a, h);
    FilesInserted(m, InOrder(t), a);
  }

  /** What `FirstWith` is. */
  lemma {:induction false} FirstWithIs(atoms: seq<Atom>, k: nat, i: nat)
    requires i < |atoms| && atoms[i].key == k && forall m :: 0 <= m < i ==> atoms[m].key != k
    ensures FirstWith(atoms, k) == atoms[i]
  {
    if i < |atoms| - 1 {
      FirstWithIs(atoms[..|atoms| - 1], k, i);
    } else {
      FirstWithNone(atoms[..i], k);
    }
  }

  lemma {:induction false} FirstWithNone(atoms: seq<Atom>, k: nat)
    requires forall m :: 0 <= m < |atoms| ==> atoms[m].key != k
    ensures FirstWith(atoms, k) == null
  {
    if atoms != [] {
      FirstWithNone(atoms[..|atoms| - 1], k);
    }
  }
}
