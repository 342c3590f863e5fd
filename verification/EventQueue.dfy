/** The event list of list.c: a singly linked queue with a tail pointer, and the operations that
    reorder it. */
module EventQueue {
  import opened Sequences

  /** A record. The fields that the list operations only read are constants. */
  class Node {
    const time: int
    const thread: int
    const which_sign: int
    const wait: int
    var sright: int
    var next: Node?

    constructor (time: int, thread: int, which_sign: int, wait: int)
      ensures this.time == time && this.thread == thread && this.which_sign == which_sign && this.wait == wait
      ensures next == null && sright == 0
    {
      this.time, this.thread, this.which_sign, this.wait := time, thread, which_sign, wait;
      next, sright := null, 0;
    }
  }

  /** The i-th node, or null behind the last. */
  ghost function At(s: seq<Node>, i: nat): Node? {
    if i < |s| then s[i] else null
  }

  ghost predicate Linked(s: seq<Node>)
    reads s
  {
    forall i :: 0 <= i < |s| ==> s[i].next == At(s, i + 1)
  }

  lemma WithoutDistinct(s: seq<Node>, i: nat)
    requires i < |s| && Distinct(s)
    ensures Distinct(Without(s, i))
  {
    PairsApart(s);
    AllApart(Without(s, i));
  }

  // ---------------------------------------------------------------- moving one node

  /** s with its i-th element taken out. */
  function Without<T>(s: seq<T>, i: nat): (r: seq<T>)
    requires i < |s|
    ensures |r| == |s| - 1
  {
    s[..i] + s[i + 1..]
  }

  lemma WithoutAt<T>(s: seq<T>, i: nat)
    requires i < |s|
    ensures forall k :: 0 <= k < |s| - 1 ==> Without(s, i)[k] == s[if k < i then k else k + 1]
  {
  }

  /** s with its i-th element moved to index j. */
  function Moved<T>(s: seq<T>, i: nat, j: nat): (r: seq<T>)
    requires i < |s| && j < |s|
    ensures |r| == |s|
  {
    Without(s, i)[..j] + [s[i]] + Without(s, i)[j..]
  }

  /** Where the a-th element of s is in Moved(s, i, j). */
  function PlaceOf(i: nat, j: nat, a: nat): nat {
    if a == i then j
    else
      var b := if a < i then a else a - 1;
      if b < j then b else b + 1
  }

  lemma PlaceCorrect<T>(s: seq<T>, i: nat, j: nat, a: nat)
    requires i < |s| && j < |s| && a < |s|
    ensures PlaceOf(i, j, a) < |s| && Moved(s, i, j)[PlaceOf(i, j, a)] == s[a]
  {
  }

  lemma MovedSame<T>(s: seq<T>, i: nat, j: nat)
    requires i < |s| && j < |s|
    ensures multiset(Moved(s, i, j)) == multiset(s)
  {
    var w := Without(s, i);
    assert s == s[..i] + [s[i]] + s[i + 1..];
    assert multiset(s) == multiset(s[..i]) + multiset{s[i]} + multiset(s[i + 1..]);
    assert multiset(w) == multiset(s[..i]) + multiset(s[i + 1..]);
    assert w == w[..j] + w[j..];
    assert multiset(w) == multiset(w[..j]) + multiset(w[j..]);
    assert multiset(Moved(s, i, j)) == multiset(w[..j]) + multiset{s[i]} + multiset(w[j..]);
    Between(multiset(s[..i]), multiset(s[i + 1..]), multiset{s[i]});
    Between(multiset(w[..j]), multiset(w[j..]), multiset{s[i]});
  }

  lemma Between<T>(a: multiset<T>, b: multiset<T>, x: multiset<T>)
    ensures a + x + b == (a + b) + x
  {
  }

  lemma MovedOthers<T>(s: seq<T>, i: nat, j: nat)
    requires i < |s| && j < |s|
    ensures Without(Moved(s, i, j), j) == Without(s, i)
  {
    var w := Without(s, i);
    assert Moved(s, i, j)[..j] == w[..j] && Moved(s, i, j)[j + 1..] == w[j..];
  }

  lemma PlaceInOrder(i: nat, j: nat, a: nat, b: nat)
    requires a < b && a != i && b != i
    ensures PlaceOf(i, j, a) < PlaceOf(i, j, b)
  {
  }

  /** Moving a node keeps all nodes, and the order of all but the moved one. */
  lemma MovedKeeps<T>(s: seq<T>, i: nat, j: nat)
    requires i < |s| && j < |s|
    ensures multiset(Moved(s, i, j)) == multiset(s)
    ensures Without(Moved(s, i, j), j) == Without(s, i) && Moved(s, i, j)[j] == s[i]
    ensures forall a, b :: 0 <= a < b < |s| && a != i && b != i ==> PlaceOf(i, j, a) < PlaceOf(i, j, b)
  {
    MovedSame(s, i, j);
    MovedOthers(s, i, j);
    PlaceCorrect(s, i, j, i);
    forall a: nat, b: nat | a < b < |s| && a != i && b != i
      ensures PlaceOf(i, j, a) < PlaceOf(i, j, b)
    {
      PlaceInOrder(i, j, a, b);
    }
  }

  // ---------------------------------------------------------------- what the operations look for

  /** Node i is the first of a thread. */
  ghost predicate FirstOf(s: seq<Node>, thread: int, i: nat) {
    i < |s| && s[i].thread == thread && forall k :: 0 <= k < i ==> s[k].thread != thread
  }

  /** The nodes up to i belong to the thread and time of the first. */
  ghost predicate OneGroup(s: seq<Node>, i: nat) {
    i < |s| && forall k :: 0 <= k <= i ==> s[k].thread == s[0].thread && s[k].time == s[0].time
  }

  /** Of the nodes before i one is waiting. */
  ghost predicate SomeWait(s: seq<Node>, i: nat) {
    i <= |s| && exists k :: 0 <= k < i && s[k].wait == 1
  }

  /** The search of `find_next` reaches node i: nothing before it ends the search. */
  ghost predicate Reaches(s: seq<Node>, which: int, i: nat) {
    && 1 <= i <= |s|
    && forall k :: 1 <= k < i ==> s[k].which_sign != which && OneGroup(s, k) && !(s[k].wait == 1 && SomeWait(s, k))
  }

  /** Node i is the one that `find_next` moves to the front. */
  ghost predicate Wanted(s: seq<Node>, which: int, i: nat) {
    Reaches(s, which, i) && i < |s| && OneGroup(s, i) && !(s[i].wait == 1 && SomeWait(s, i)) && s[i].which_sign == which
  }

  /** At node i `find_next` gives up because two nodes wait. */
  ghost predicate Blocked(s: seq<Node>, which: int, i: nat) {
    Reaches(s, which, i) && i < |s| && OneGroup(s, i) && s[i].wait == 1 && SomeWait(s, i)
  }

  /** The node behind which `frontRegVal` puts the first: the first waiting one, if the first does
      not wait itself, and else the last. */
  ghost predicate Behind(s: seq<Node>, i: nat) {
    && 1 <= i < |s|
    && (forall k :: 1 <= k < i ==> !(s[k].wait == 1 && s[0].wait != 1))
    && ((s[i].wait == 1 && s[0].wait != 1) || i == |s| - 1)
  }

  class Queue {
    var head: Node?
    var tail: Node?
    ghost var spine: seq<Node>

    constructor ()
      ensures Valid() && spine == []
    {
      head, tail, spine := null, null, [];
    }

    /** The chain of next pointers from the head is the spine; the tail is its last node. */
    ghost predicate Valid()
      reads this, spine
    {
      head == At(spine, 0) && Linked(spine) && Distinct(spine) && (spine != [] ==> tail == spine[|spine| - 1])
    }

    method Pop() returns (node: Node)
      requires Valid() && spine != []
      modifies this
      ensures Valid() && node == old(spine)[0] && spine == old(spine)[1..]
    {
      PairsApart(spine);
      node := head;
      head := node.next;
      spine := spine[1..];
      AllApart(spine);
    }

    method Push(item: Node)
      requires Valid() && item !in spine
      modifies this, item, spine
      ensures Valid() && spine == old(spine) + [item]
    {
      PairsApart(spine);
      item.next := null;
      if head == null {
        head := item;
      } else {
        tail.next := item;
      }
      tail := item;
      spine := spine + [item];
      AllApart(spine);
    }

    method Front(item: Node)
      requires Valid() && item !in spine
      modifies this, item
      ensures Valid() && spine == [item] + old(spine)
    {
      PairsApart(spine);
      if head == null {
        tail := item;
        item.next := null;
      } else {
        item.next := head;
      }
      head := item;
      spine := [item] + spine;
      AllApart(spine);
    }

    /** Takes out the first node of a thread. */
    method Search(thread: int) returns (node: Node?)
      requires Valid() && spine != []
      modifies this, spine
      ensures Valid()
      ensures node == null ==> spine == old(spine) && forall k :: 0 <= k < |spine| ==> spine[k].thread != thread
      ensures node != null ==> exists i: nat :: FirstOf(old(spine), thread, i) && node == old(spine)[i] && spine == Without(old(spine), i)
    {
      var cur := head;
      if cur.thread == thread {
        assert FirstOf(spine, thread, 0);
        head := cur.next;
        if cur == tail {
          tail := cur.next;
        }
        WithoutDistinct(spine, 0);
        spine := Without(spine, 0);
        return cur;
      }
      var prev := cur;
      cur := cur.next;
      ghost var i := 1;
      while cur != null
        invariant 1 <= i <= |spine| && prev == spine[i - 1] && cur == At(spine, i)
        invariant Valid() && spine == old(spine)
        invariant forall k :: 0 <= k < i ==> spine[k].thread != thread
        decreases |spine| - i
      {
        if cur.thread == thread {
          assert FirstOf(spine, thread, i);
          Unlink(prev, cur, i);
          return cur;
        }
        prev := cur;
        cur := cur.next;
        i := i + 1;
      }
      node := null;
    }

    /** Takes out the node behind prev. */
    method Unlink(prev: Node, cur: Node, ghost i: nat)
      requires Valid() && 1 <= i < |spine| && prev == spine[i - 1] && cur == spine[i]
      modifies this`tail, this`spine, prev`next
      ensures Valid() && spine == Without(old(spine), i)
    {
      if cur == tail {
        tail := prev;
      }
      ghost var s := spine;
      PairsApart(s);
      WithoutDistinct(s, i);
      WithoutAt(s, i);
      prev.next := cur.next;
      spine := Without(s, i);
    }

    /** Moves the wanted node, if there is one, to the front: 0 if it did or is blocked, 1 if there is
        no candidate. */
    method FindNext(which: int) returns (r: int)
      requires Valid() && spine != []
      modifies this, spine
      ensures Valid() && (r == 0 || r == 1)
      ensures r == 0 ==> Raised(old(spine), spine, which) || (spine == old(spine) && Stuck(spine, which))
      ensures r == 1 ==> spine == old(spine) && Fruitless(spine, which)
    {
      var cur, prev;
      ghost var i;
      r, prev, cur, i := Seek(which);
      if cur != null {
        Raise(prev, cur, i);
        assert Wanted(old(spine), which, i) && spine == Moved(old(spine), i, 0);
      }
    }

    /** The search of `find_next`: the wanted node and the one before it, or null. */
    method Seek(which: int) returns (r: int, prev: Node, cur: Node?, ghost i: nat)
      requires Valid() && spine != []
      ensures cur != null ==> r == 0 && Wanted(spine, which, i) && prev == spine[i - 1] && cur == spine[i]
      ensures cur == null ==> r == 0 || r == 1
      ensures cur == null && r == 0 ==> Stuck(spine, which)
      ensures cur == null && r == 1 ==> Fruitless(spine, which)
    {
      cur := head;
      prev := head;
      var thrid, time := cur.thread, cur.time;
      if cur.next == null {
        assert Reaches(spine, which, 1);
        return 1, prev, null, 1;
      }
      cur := cur.next;
      var waiting := prev.wait == 1;
      i := 1;
      while cur != null
        invariant 1 <= i <= |spine| && prev == spine[i - 1] && cur == At(spine, i)
        invariant thrid == spine[0].thread && time == spine[0].time
        invariant waiting <==> SomeWait(spine, i)
        invariant Reaches(spine, which, i)
        invariant OneGroup(spine, i - 1)
        decreases |spine| - i
      {
        if cur.thread != thrid || cur.time != time {
          assert !OneGroup(spine, i);
          return 1, prev, null, i;
        }
        assert OneGroup(spine, i);
        if waiting && cur.wait == 1 {
          assert Blocked(spine, which, i);
          return 0, prev, null, i;
        }
        if cur.which_sign == which {
          return 0, prev, cur, i;
        }
        SomeWaitStep(spine, i);
        prev := cur;
        cur := cur.next;
        waiting := waiting || prev.wait == 1;
        i := i + 1;
      }
      r := 1;
    }

    /** Takes out the node behind prev and puts it in front. */
    method Raise(prev: Node, cur: Node, ghost i: nat)
      requires Valid() && 1 <= i < |spine| && prev == spine[i - 1] && cur == spine[i]
      modifies this, prev, cur
      ensures Valid() && spine == Moved(old(spine), i, 0)
    {
      ghost var s := spine;
      Unlink(prev, cur, i);
      LeftOut(s, i);
      Front(cur);
      MovedToFront(s, i);
    }

    /** Moves the first node behind the first waiting one, or to the end. */
    method FrontRegVal()
      requires Valid()
      modifies this, spine
      ensures Valid()
      ensures |old(spine)| < 2 ==> spine == old(spine)
      ensures |old(spine)| >= 2 ==> exists i: nat :: Behind(old(spine), i) && spine == Moved(old(spine), 0, i)
    {
      var first := head;
      if first == null || first.next == null {
        return;
      }
      ghost var s := spine;
      var cur, prev := first.next, first;
      ghost var i := 1;
      while cur != null && !(cur.wait == 1 && first.wait != 1)
        invariant 1 <= i <= |spine| && cur == At(spine, i) && prev == spine[i - 1]
        invariant forall k :: 1 <= k < i ==> !(spine[k].wait == 1 && spine[0].wait != 1)
        decreases |spine| - i
      {
        prev := cur;
        cur := cur.next;
        i := i + 1;
      }
      if cur != null {
        assert Behind(s, i);
        Sink(first, cur, i);
      } else {
        assert Behind(s, i - 1);
        Sink(first, prev, i - 1);
      }
    }

    /** Takes out the first node and puts it behind another one. */
    method Sink(first: Node, after: Node, ghost i: nat)
      requires Valid() && 1 <= i < |spine| && first == spine[0] && after == spine[i]
      modifies this, first`next, after`next
      ensures Valid() && spine == Moved(old(spine), 0, i)
    {
      ghost var s := spine;
      PairsApart(s);
      head := first.next;
      var t := after.next;
      after.next := first;
      first.next := t;
      if after == tail {
        tail := first;
      }
      spine := Sunk(s, i);
      SunkDistinct(s, i);
      forall k | 0 <= k < |spine|
        ensures spine[k].next == At(spine, k + 1)
      {
        SunkAt(s, i, k);
        if k + 1 < |spine| {
          SunkAt(s, i, k + 1);
        }
      }
    }

    /** Moves the first node one back, unless it waits less than 2 or was moved too often. */
    method ShiftRight() returns (r: int)
      requires Valid()
      modifies this, spine
      ensures Valid()
      ensures |old(spine)| < 2 ==> r == 1
      ensures |old(spine)| >= 2 ==> old(spine)[0].sright == old(spine[0].sright) + 1
      ensures |old(spine)| >= 2 ==> (r == 0 <==> old(spine)[0].sright <= 300 && old(spine)[0].wait >= 2)
      ensures r == 0 ==> |old(spine)| >= 2 && spine == Moved(old(spine), 0, 1)
      ensures r != 0 ==> r == 1 && spine == old(spine)
    {
      if head == null || head.next == null {
        return 1;
      }
      var first := head;
      first.sright := first.sright + 1;
      if first.sright > 300 || first.wait < 2 {
        return 1;
      }
      Sink(first, first.next, 1);
      return 0;
    }

    /** Exchanges the first two nodes. */
    method Swap() returns (r: int)
      requires Valid() && spine != []
      modifies this, spine
      ensures Valid()
      ensures |old(spine)| == 1 ==> r == 0 && spine == old(spine)
      ensures |old(spine)| >= 2 ==> r == 3 && spine == Moved(old(spine), 0, 1)
    {
      if head.next == null {
        return 0;
      }
      ghost var s := spine;
      PairsApart(s);
      var prev := head;
      if tail == prev.next {
        tail := prev;
      }
      head := prev.next;
      prev.next := head.next;
      head.next := prev;
      spine := Sunk(s, 1);
      SunkDistinct(s, 1);
      forall k | 0 <= k < |spine|
        ensures spine[k].next == At(spine, k + 1)
      {
        SunkAt(s, 1, k);
        if k + 1 < |spine| {
          SunkAt(s, 1, k + 1);
        }
      }
      r := 3;
    }
  }

  /** s with its first node behind its i-th. */
  ghost function Sunk(s: seq<Node>, i: nat): (r: seq<Node>)
    requires 1 <= i < |s|
    ensures |r| == |s| && r == Moved(s, 0, i)
  {
    assert Without(s, 0)[..i] == s[1..i + 1] && Without(s, 0)[i..] == s[i + 1..];
    s[1..i + 1] + [s[0]] + s[i + 1..]
  }

  lemma SunkAt(s: seq<Node>, i: nat, k: nat)
    requires 1 <= i < |s| && k < |s|
    ensures Sunk(s, i)[k] == if k < i then s[k + 1] else if k == i then s[0] else s[k]
  {
  }

  lemma SunkDistinct(s: seq<Node>, i: nat)
    requires 1 <= i < |s| && Distinct(s)
    ensures Distinct(Sunk(s, i))
  {
    var t := Sunk(s, i);
    PairsApart(s);
    forall a, b | 0 <= a < b < |t|
      ensures t[a] != t[b]
    {
      SunkAt(s, i, a);
      SunkAt(s, i, b);
    }
    AllApart(t);
  }

  ghost predicate Raised(s: seq<Node>, t: seq<Node>, which: int) {
    exists i: nat :: Wanted(s, which, i) && t == Moved(s, i, 0)
  }

  ghost predicate Stuck(s: seq<Node>, which: int) {
    exists i: nat :: Blocked(s, which, i)
  }

  /** The search ends before any wanted or blocking node: at the end, or at another group. */
  ghost predicate Fruitless(s: seq<Node>, which: int) {
    exists i: nat :: Reaches(s, which, i) && (i == |s| || !OneGroup(s, i))
  }

  lemma SomeWaitStep(s: seq<Node>, i: nat)
    requires i < |s|
    ensures SomeWait(s, i + 1) <==> SomeWait(s, i) || s[i].wait == 1
  {
    if SomeWait(s, i + 1) && s[i].wait != 1 {
      var k :| 0 <= k < i + 1 && s[k].wait == 1;
      assert k < i;
    }
  }

  lemma MovedToFront(s: seq<Node>, i: nat)
    requires i < |s|
    ensures Moved(s, i, 0) == [s[i]] + Without(s, i)
  {
  }

  lemma LeftOut(s: seq<Node>, i: nat)
    requires i < |s| && Distinct(s)
    ensures s[i] !in Without(s, i)
  {
    PairsApart(s);
  }

  // ---------------------------------------------------------------- what the outcomes mean

  /** `find_next` moved the first node of the wanted sign up to which all nodes belong to the thread and time of
      the first and no two of them wait. */
  lemma RaisedMeans(s: seq<Node>, t: seq<Node>, which: int) returns (i: nat)
    requires Raised(s, t, which)
    ensures 1 <= i < |s| && |t| == |s| && t[0] == s[i] && t[1..] == s[..i] + s[i + 1..] && s[i].which_sign == which
    ensures forall k :: 1 <= k < i ==> s[k].which_sign != which
    ensures forall k :: 0 <= k <= i ==> s[k].thread == s[0].thread && s[k].time == s[0].time
    ensures forall a, b :: 0 <= a < b <= i ==> !(s[a].wait == 1 && s[b].wait == 1)
  {
    i :| Wanted(s, which, i) && t == Moved(s, i, 0);
    forall a, b | 0 <= a < b <= i
      ensures !(s[a].wait == 1 && s[b].wait == 1)
    {
      if s[a].wait == 1 {
        assert SomeWait(s, b);
      }
    }
    assert Moved(s, i, 0)[1..] == Without(s, i);
  }

  /** `find_next` gave up at a second waiting node, before any of the wanted sign. */
  lemma StuckMeans(s: seq<Node>, which: int) returns (a: nat, b: nat)
    requires Stuck(s, which)
    ensures a < b < |s| && s[a].wait == 1 && s[b].wait == 1 && forall k :: 1 <= k < b ==> s[k].which_sign != which
    ensures forall k :: 0 <= k <= b ==> s[k].thread == s[0].thread && s[k].time == s[0].time
  {
    b :| Blocked(s, which, b);
    a :| 0 <= a < b && s[a].wait == 1;
  }

  /** `find_next` found no node of the wanted sign in the leading group, in which no two nodes wait. */
  lemma FruitlessMeans(s: seq<Node>, which: int) returns (i: nat)
    requires Fruitless(s, which) && s != []
    ensures 1 <= i <= |s| && forall k :: 1 <= k < i ==> s[k].which_sign != which
    ensures forall k :: 0 <= k < i ==> s[k].thread == s[0].thread && s[k].time == s[0].time
    ensures i < |s| ==> s[i].thread != s[0].thread || s[i].time != s[0].time
    ensures forall a, b :: 0 <= a < b < i ==> !(s[a].wait == 1 && s[b].wait == 1)
  {
    i :| Reaches(s, which, i) && (i == |s| || !OneGroup(s, i));
    forall k | 0 <= k < i
      ensures s[k].thread == s[0].thread && s[k].time == s[0].time
    {
      if k > 0 {
        assert OneGroup(s, k);
      }
    }
    forall a, b | 0 <= a < b < i
      ensures !(s[a].wait == 1 && s[b].wait == 1)
    {
      if s[a].wait == 1 {
        assert SomeWait(s, b);
      }
    }
  }

  /** Where `frontRegVal` puts the first node. */
  lemma BehindMeans(s: seq<Node>, i: nat)
    requires Behind(s, i)
    ensures 1 <= i < |s|
    ensures s[0].wait == 1 ==> i == |s| - 1
    ensures s[0].wait != 1 ==> (forall k :: 1 <= k < i ==> s[k].wait != 1) && (s[i].wait == 1 || i == |s| - 1)
  {
  }

  lemma FirstOfMeans(s: seq<Node>, thread: int, i: nat)
    requires FirstOf(s, thread, i)
    ensures i < |s| && s[i].thread == thread && forall k :: 0 <= k < i ==> s[k].thread != thread
  {
  }
}
