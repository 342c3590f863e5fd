/** The send side of the socket layer in bw_socket.c: a fixed array in front of a list of chunks, over
    a socket that takes any prefix it likes. */
module SendBuffer {
  import opened Words
  import opened Sequences

  const CMD_BUFSIZE: nat := 10240
  const SEND_MAX: nat := 500
  const NODE_SIZE: nat := 1024
  const PLI_QUIT: Byte := 1
  const PLI_RETRY: Byte := 30

  /** A chunk: `count` bytes of `data` from `start` on. */
  class BufNode {
    var data: seq<Byte>
    var start: nat
    var count: nat

    constructor ()
      ensures |data| == NODE_SIZE && start == 0 && count == 0
    {
      data := seq(NODE_SIZE, _ => 0);
      start, count := 0, 0;
    }

    ghost predicate Valid()
      reads this
    {
      |data| == NODE_SIZE && start + count <= NODE_SIZE
    }

    ghost function Content(): seq<Byte>
      requires Valid()
      reads this
    {
      data[start..start + count]
    }

    /** Writes bytes behind the content. */
    method Fill(buf: seq<Byte>)
      requires Valid() && start + count + |buf| <= NODE_SIZE
      modifies this
      ensures Valid() && start == old(start) && Content() == old(Content()) + buf
    {
      ghost var before := Content();
      for i := 0 to |buf|
        invariant Valid() && start == old(start) && count == old(count) + i && Content() == before + buf[..i]
      {
        data := data[start + count := buf[i]];
        count := count + 1;
        assert Content() == before + buf[..i] + [buf[i]];
      }
      assert buf[..|buf|] == buf;
    }

    /** Starts over with new content. */
    method Load(buf: seq<Byte>)
      requires Valid() && |buf| <= NODE_SIZE
      modifies this
      ensures Valid() && start == 0 && Content() == buf
    {
      start, count := 0, 0;
      Fill(buf);
    }

    method Consume(n: nat)
      requires Valid() && n <= count
      modifies this
      ensures Valid() && count == old(count) - n
      ensures old(Content()) == old(data[start..start + n]) + Content()
    {
      start := start + n;
      count := count - n;
    }
  }

  ghost predicate AllValid(nodes: seq<BufNode>)
    reads nodes
  {
    forall i :: 0 <= i < |nodes| ==> nodes[i].Valid()
  }

  /** The bytes of a list of chunks. */
  ghost function Queued(nodes: seq<BufNode>): seq<Byte>
    requires AllValid(nodes)
    reads nodes
  {
    if nodes == [] then [] else nodes[0].Content() + Queued(nodes[1..])
  }

  lemma {:induction false} QueuedLast(nodes: seq<BufNode>, n: BufNode)
    requires AllValid(nodes) && n.Valid()
    ensures AllValid(nodes + [n]) && Queued(nodes + [n]) == Queued(nodes) + n.Content()
  {
    if nodes == [] {
      assert nodes + [n] == [n];
      assert [n][1..] == [];
    } else {
      assert (nodes + [n])[1..] == nodes[1..] + [n];
      QueuedLast(nodes[1..], n);
    }
  }

  /** Moves a[lo..hi] to the front. */
  method ShiftDown(a: array<Byte>, lo: nat, hi: nat)
    requires lo <= hi <= a.Length
    modifies a
    ensures a[..hi - lo] == old(a[lo..hi])
  {
    var counter := 0;
    for i := lo to hi
      invariant counter == i - lo
      invariant forall k :: 0 <= k < counter ==> a[k] == old(a[lo + k])
      invariant forall k :: i <= k < hi ==> a[k] == old(a[k])
    {
      a[counter] := a[i];
      counter := counter + 1;
    }
  }

  class Socket {
    const rerv: array<Byte>
    var num: nat
    var active: seq<BufNode>
    var heap: seq<BufNode>
    ghost var nodes: set<BufNode>

    constructor ()
      ensures Valid() && Pending() == [] && fresh(rerv) && fresh(nodes)
    {
      rerv := new Byte[CMD_BUFSIZE];
      num, active, heap, nodes := 0, [], [], {};
    }

    /** The array has its size, no chunk is in two places, and all chunks are among `nodes`. */
    ghost predicate Shape()
      reads this, nodes
    {
      && rerv.Length == CMD_BUFSIZE && num <= CMD_BUFSIZE
      && (forall i :: 0 <= i < |active| ==> active[i] in nodes)
      && (forall i :: 0 <= i < |heap| ==> heap[i] in nodes)
      && AllValid(active) && AllValid(heap) && Distinct(active + heap)
    }

    /** The bytes that wait to be sent, in order. */
    ghost function Pending(): seq<Byte>
      requires Shape()
      reads this, nodes, rerv
    {
      rerv[..num] + Queued(active)
    }

    /** Chunks are queued only behind a full array. */
    ghost predicate Valid()
      reads this, nodes
    {
      Shape() && (active != [] ==> num == CMD_BUFSIZE)
    }

    /** copyPacket. */
    method CopyPacket(buf: seq<Byte>)
      requires rerv.Length == CMD_BUFSIZE && num + |buf| <= CMD_BUFSIZE
      modifies this`num, rerv
      ensures num == old(num) + |buf| && rerv[..num] == old(rerv[..num]) + buf
    {
      ghost var before := rerv[..num];
      for idx := 0 to |buf|
        invariant num == old(num) + idx && rerv[..num] == before + buf[..idx]
      {
        rerv[num] := buf[idx];
        num := num + 1;
        assert rerv[..num] == rerv[..num - 1] + [buf[idx]];
        assert buf[..idx + 1] == buf[..idx] + [buf[idx]];
      }
      assert buf[..|buf|] == buf;
    }

    /** send_socket_nfd: the socket takes `slen` bytes of the array, or refuses with -1. What it took
        is returned; the rest moves to the front. */
    method SendSocketNfd(slen: int) returns (all: bool, ghost out: seq<Byte>)
      requires rerv.Length == CMD_BUFSIZE && num <= CMD_BUFSIZE && -1 <= slen <= num
      modifies this`num, rerv
      ensures num <= old(num) && out + rerv[..num] == old(rerv[..num])
      ensures |out| == if slen == -1 then 0 else slen
      ensures all <==> slen == old(num)
    {
      ghost var before := rerv[..num];
      if slen == -1 {
        return false, [];
      }
      out := before[..slen];
      if slen == num {
        num := 0;
        return true, out;
      }
      ShiftDown(rerv, slen, num);
      num := num - slen;
      assert before == before[..slen] + before[slen..];
      all := false;
    }

    /** The first chunk goes back to the heap, its bytes into the array. */
    method MoveWhole()
      requires Shape() && active != [] && num + active[0].count <= CMD_BUFSIZE
      modifies this`num, this`active, this`heap, rerv
      ensures Shape() && Pending() == old(Pending()) && active == old(active)[1..]
    {
      var node := active[0];
      ghost var before, part, rest := rerv[..num], node.Content(), Queued(active[1..]);
      Recycle();
      CopyPacket(node.data[node.start..node.start + node.count]);
      Regroup(before, part, rest);
    }

    method Recycle()
      requires Shape() && active != []
      modifies this`active, this`heap
      ensures Shape() && active == old(active)[1..]
    {
      FrontToBack(active, heap);
      heap := heap + [active[0]];
      active := active[1..];
    }

    /** The part of the first chunk that still fits goes into the array. */
    method MovePart()
      requires Shape() && active != [] && num + active[0].count > CMD_BUFSIZE
      modifies this`num, rerv, nodes
      ensures Shape() && Pending() == old(Pending()) && num == CMD_BUFSIZE && active == old(active)
    {
      var node := active[0];
      var n := CMD_BUFSIZE - num;
      HeadOnce(active, heap);
      ghost var before, rest := rerv[..num], Queued(active[1..]);
      CopyPacket(node.data[node.start..node.start + n]);
      ghost var part := node.data[node.start..node.start + n];
      node.Consume(n);
      assert Queued(active[1..]) == rest;
      Regroup(before, part, node.Content() + rest);
      Regroup(part, node.Content(), rest);
    }

    /** packed: chunks move into the array while it has room. */
    method Packed()
      requires Shape()
      modifies this`num, this`active, this`heap, rerv, nodes
      ensures Shape() && Pending() == old(Pending())
      ensures active != [] ==> num == CMD_BUFSIZE
    {
      while active != [] && num < CMD_BUFSIZE
        invariant Shape() && Pending() == old(Pending())
        decreases |active|, CMD_BUFSIZE - num
      {
        if active[0].count <= CMD_BUFSIZE - num {
          MoveWhole();
        } else {
          MovePart();
        }
      }
    }

    /** The last chunk takes what fits; what does not is returned. */
    method FillLast(buf: seq<Byte>) returns (rest: seq<Byte>)
      requires Shape() && active != []
      modifies nodes
      ensures Shape() && |rest| <= |buf| && rest == buf[|buf| - |rest|..]
      ensures Queued(active) == old(Queued(active)) + buf[..|buf| - |rest|]
    {
      var node := active[|active| - 1];
      var room := NODE_SIZE - (node.start + node.count);
      var n := if room > |buf| then |buf| else room;
      ghost var init := active[..|active| - 1];
      LastOnce(active, heap);
      assert active == init + [node];
      QueuedLast(init, node);
      ghost var before, part := Queued(init), node.Content();
      node.Fill(buf[..n]);
      assert Queued(init) == before;
      QueuedLast(init, node);
      Regroup(before, part, buf[..n]);
      rest := buf[n..];
    }

    /** A node from the heap, or a new one. */
    method TakeNode() returns (node: BufNode)
      requires Shape()
      modifies this`heap, this`nodes
      ensures AllValid(active) && AllValid(heap)
      ensures node.Valid() && node !in active && node !in heap && Distinct((active + [node]) + heap)
      ensures (forall i :: 0 <= i < |active| ==> active[i] in nodes) && (forall i :: 0 <= i < |heap| ==> heap[i] in nodes)
      ensures node in nodes && old(nodes) <= nodes && fresh(nodes - old(nodes))
    {
      if heap != [] {
        node := heap[0];
        FrontToEnd(active, heap);
        heap := heap[1..];
      } else {
        node := new BufNode();
        nodes := nodes + {node};
        assert active + heap == active;
        NewAtEnd(active, node);
      }
    }

    method AppendNode(buf: seq<Byte>)
      requires Shape() && |buf| <= NODE_SIZE
      modifies this`active, this`heap, this`nodes, nodes
      ensures Shape() && Queued(active) == old(Queued(active)) + buf
      ensures old(nodes) <= nodes && fresh(nodes - old(nodes))
    {
      var node := TakeNode();
      node.Load(buf);
      assert Queued(active) == old(Queued(active));
      QueuedLast(active, node);
      active := active + [node];
    }

    /** Further chunks for bytes that no chunk has room for. */
    method AppendNodes(buf: seq<Byte>)
      requires Shape()
      modifies this`active, this`heap, this`nodes, nodes
      ensures Shape() && Queued(active) == old(Queued(active)) + buf
      ensures old(nodes) <= nodes && fresh(nodes - old(nodes))
    {
      var at := 0;
      assert buf[..0] == [];
      while at < |buf|
        invariant at <= |buf| && Shape()
        invariant Queued(active) == old(Queued(active)) + buf[..at]
        invariant old(nodes) <= nodes && fresh(nodes - old(nodes))
        decreases |buf| - at
      {
        var n := if NODE_SIZE > |buf| - at then |buf| - at else NODE_SIZE;
        AppendNode(buf[at..at + n]);
        Regroup(old(Queued(active)), buf[..at], buf[at..at + n]);
        assert buf[..at] + buf[at..at + n] == buf[..at + n];
        at := at + n;
      }
      assert buf[..|buf|] == buf;
    }

    /** add_node: the last chunk takes what fits, the rest goes into further chunks. */
    method AddNode(buf: seq<Byte>)
      requires Shape()
      modifies this`active, this`heap, this`nodes, nodes
      ensures Shape() && Queued(active) == old(Queued(active)) + buf
      ensures old(nodes) <= nodes && fresh(nodes - old(nodes))
    {
      if active == [] {
        AppendNodes(buf);
      } else {
        var rest := FillLast(buf);
        ghost var at := |buf| - |rest|;
        ghost var before := old(Queued(active));
        assert Queued(active) == before + buf[..at];
        AppendNodes(rest);
        Regroup(before, buf[..at], rest);
        assert buf == buf[..at] + rest;
      }
    }

    /** Bytes join the array, of which the socket then takes a prefix. */
    method TrySend(buf: seq<Byte>, oracle: int) returns (ghost out: seq<Byte>)
      requires Shape() && num + |buf| <= CMD_BUFSIZE && (active != [] ==> buf == [])
      modifies this`num, rerv
      ensures Shape() && out + Pending() == old(Pending()) + buf
      ensures |out| == Taken(oracle, old(num) + |buf|)
    {
      ghost var before, queued := rerv[..num], Queued(active);
      CopyPacket(buf);
      var slen := if oracle < 0 then -1 else Least(oracle, num);
      var all;
      all, out := SendSocketNfd(slen);
      Joined(out, rerv[..num], queued, before, buf);
    }

    /** Bytes join the array when no chunk is queued. */
    method Append(buf: seq<Byte>)
      requires Shape() && active == [] && num + |buf| <= CMD_BUFSIZE
      modifies this`num, rerv
      ensures Shape() && Pending() == old(Pending()) + buf && num == old(num) + |buf|
    {
      CopyPacket(buf);
    }

    /** handle_buf: the first n bytes of a command join what is pending. Below SEND_MAX they only wait
        in the array; otherwise the socket is tried once and takes as many bytes as the oracle says, or
        none. What it took is returned. */
    method HandleBuf(cmd: seq<Byte>, n: nat, oracle: int) returns (ghost out: seq<Byte>)
      requires Valid() && 0 < |cmd| && n <= |cmd|
      modifies this, rerv, nodes
      ensures Valid() && out + Pending() == old(Pending()) + cmd[..n]
      ensures |out| == if Tries(cmd[0], old(num) + n) then Taken(oracle, Least(CMD_BUFSIZE, old(num) + n)) else 0
      ensures old(nodes) <= nodes && fresh(nodes - old(nodes))
    {
      if !Tries(cmd[0], num + n) {
        Append(cmd[..n]);
        return [];
      }
      var idx := Least(CMD_BUFSIZE - num, n);
      out := TrySend(cmd[..idx], oracle);
      if active != [] {
        Packed();
      }
      ghost var pending := Pending();
      Rest(cmd[idx..n]);
      assert cmd[..n] == cmd[..idx] + cmd[idx..n];
      Regroup(out, pending, cmd[idx..n]);
      Regroup(old(Pending()), cmd[..idx], cmd[idx..n]);
    }

    /** What the array did not take before the socket was tried. */
    method Rest(buf: seq<Byte>)
      requires Valid()
      modifies this, rerv, nodes
      ensures Valid() && Pending() == old(Pending()) + buf
      ensures old(nodes) <= nodes && fresh(nodes - old(nodes))
    {
      var idx := 0;
      var room := CMD_BUFSIZE - num;
      if room > 0 && buf != [] && active == [] {
        idx := Least(room, |buf|);
        Append(buf[..idx]);
      }
      ghost var before := old(Pending());
      assert Pending() == before + buf[..idx];
      if idx < |buf| {
        Queue(buf[idx..]);
      }
      assert buf == buf[..idx] + buf[idx..];
      Regroup(before, buf[..idx], buf[idx..]);
    }

    method Queue(buf: seq<Byte>)
      requires Shape() && num == CMD_BUFSIZE
      modifies this, rerv, nodes
      ensures Valid() && Pending() == old(Pending()) + buf
      ensures old(nodes) <= nodes && fresh(nodes - old(nodes))
    {
      ghost var before, queued := rerv[..num], Queued(active);
      AddNode(buf);
      Regroup(before, queued, buf);
    }

    /** A command is sent: a retry has no bytes of its own, a quit first discards what is pending. */
    method SendCommand(cmd: seq<Byte>, oracle: int) returns (ghost out: seq<Byte>)
      requires Valid() && 0 < |cmd|
      modifies this, rerv, nodes
      ensures Valid() && out + Pending() == (if cmd[0] == PLI_QUIT then [] else old(Pending())) + Payload(cmd)
      ensures var filled := (if cmd[0] == PLI_QUIT then 0 else old(num)) + |Payload(cmd)|;
              |out| == if Tries(cmd[0], filled) then Taken(oracle, Least(CMD_BUFSIZE, filled)) else 0
      ensures old(nodes) <= nodes && fresh(nodes - old(nodes))
    {
      var ind := |cmd|;
      if cmd[0] == PLI_RETRY {
        ind := 0;
      }
      if cmd[0] == PLI_QUIT {
        Discard();
      }
      out := HandleBuf(cmd, ind, oracle);
    }

    method Discard()
      requires Valid()
      modifies this`num, this`active
      ensures Valid() && Pending() == [] && num == 0
    {
      SecondAlone(active, heap);
      num := 0;
      active := [];
    }

    /** Every run of commands, whatever the socket accepts: the bytes it took since the last quit and
        the bytes still pending are together the bytes of all commands since then, in order. */
    method Run(cmds: seq<seq<Byte>>, oracles: seq<int>) returns (ghost wire: seq<Byte>)
      requires Valid() && Pending() == [] && |oracles| == |cmds|
      requires forall i :: 0 <= i < |cmds| ==> 0 < |cmds[i]|
      modifies this, rerv, nodes
      ensures Valid() && wire + Pending() == Since(cmds)
      ensures old(nodes) <= nodes && fresh(nodes - old(nodes))
    {
      wire := [];
      assert cmds[..0] == [];
      for i := 0 to |cmds|
        invariant Valid() && wire + Pending() == Since(cmds[..i])
        invariant old(nodes) <= nodes && fresh(nodes - old(nodes))
      {
        ghost var pending := Pending();
        var out := SendCommand(cmds[i], oracles[i]);
        assert cmds[..i + 1][..i] == cmds[..i];
        if cmds[i][0] == PLI_QUIT {
          wire := out;
        } else {
          Regroup(wire, out, Pending());
          Regroup(wire, pending, Payload(cmds[i]));
          wire := wire + out;
        }
      }
      assert cmds[..|cmds|] == cmds;
    }

    /** The array holds as much of what is pending as it can. */
    lemma Filled()
      requires Valid()
      ensures num == Least(CMD_BUFSIZE, |Pending()|)
    {
    }

    /** A retry sends at least k bytes, or all that are pending, if the socket takes k at a time. */
    method TryAgain(k: nat, oracle: int, ghost wire: seq<Byte>, ghost left: nat) returns (ghost longer: seq<Byte>)
      requires Valid() && 1 <= k <= CMD_BUFSIZE && oracle >= k && |Pending()| <= left + k
      modifies this, rerv, nodes
      ensures Valid() && longer + Pending() == wire + old(Pending()) && |Pending()| <= left
      ensures old(nodes) <= nodes && fresh(nodes - old(nodes))
    {
      Filled();
      ghost var before := Pending();
      var out := SendCommand(Retry(), oracle);
      AppendNothing(before, Payload(Retry()));
      Regroup(wire, out, Pending());
      longer := wire + out;
    }

    /** Nothing is kept for ever: retries over a socket that takes at least k bytes at a time send all
        that is pending, in order, after one call for every k bytes. */
    method Drain(k: nat, oracles: seq<int>) returns (ghost wire: seq<Byte>)
      requires Valid() && 1 <= k <= CMD_BUFSIZE && forall i :: 0 <= i < |oracles| ==> oracles[i] >= k
      requires k * |oracles| >= |Pending()|
      modifies this, rerv, nodes
      ensures Valid() && Pending() == [] && wire == old(Pending())
      ensures old(nodes) <= nodes && fresh(nodes - old(nodes))
    {
      wire := [];
      ghost var all := Pending();
      TimesIs(k, |oracles|);
      for i := 0 to |oracles|
        invariant Valid() && wire + Pending() == all && |Pending()| <= Times(k, |oracles| - i)
        invariant old(nodes) <= nodes && fresh(nodes - old(nodes))
      {
        wire := TryAgain(k, oracles[i], wire, Times(k, |oracles| - i - 1));
      }
      AppendNothing(wire, Pending());
    }
  }

  function Times(k: nat, n: nat): nat {
    if n == 0 then 0 else Times(k, n - 1) + k
  }

  lemma {:induction false} TimesIs(k: nat, n: nat)
    ensures Times(k, n) == k * n
  {
    if n > 0 {
      TimesIs(k, n - 1);
    }
  }

  /** A command that only tries to send. */
  function Retry(): seq<Byte> {
    [PLI_RETRY]
  }

  /** Whether a command makes the socket be tried: a retry and a quit do, any other once enough is pending. */
  predicate Tries(first: Byte, filled: nat) {
    first == PLI_RETRY || first == PLI_QUIT || filled >= SEND_MAX
  }

  /** How many of the offered bytes the socket takes; below zero it refuses. */
  function Taken(oracle: int, offered: nat): nat {
    if oracle < 0 then 0 else Least(oracle, offered)
  }

  /** The bytes that a command adds to the stream. */
  function Payload(cmd: seq<Byte>): seq<Byte>
    requires 0 < |cmd|
  {
    if cmd[0] == PLI_RETRY then [] else cmd
  }

  /** The bytes of all commands since the last quit, which counts itself. */
  function Since(cmds: seq<seq<Byte>>): seq<Byte>
    requires forall i :: 0 <= i < |cmds| ==> 0 < |cmds[i]|
  {
    if cmds == [] then []
    else
      var cmd := cmds[|cmds| - 1];
      if cmd[0] == PLI_QUIT then cmd else Since(cmds[..|cmds| - 1]) + Payload(cmd)
  }

  lemma Joined(out: seq<Byte>, after: seq<Byte>, queued: seq<Byte>, before: seq<Byte>, buf: seq<Byte>)
    requires out + after == before + buf && (buf == [] || queued == [])
    ensures out + (after + queued) == (before + queued) + buf
  {
    Regroup(out, after, queued);
    assert buf == [] ==> before + buf == before && (before + queued) + buf == before + queued;
    assert queued == [] ==> before + queued == before && (before + buf) + queued == before + buf;
  }

  function Least(a: nat, b: nat): nat {
    if a > b then b else a
  }

  /** Which commands make the socket be tried, and how much it takes. */
  lemma TriesListed(first: Byte, filled: nat, oracle: int)
    ensures Tries(first, filled) <==> first == 1 || first == 30 || filled >= 500
    ensures oracle < 0 ==> Taken(oracle, filled) == 0
    ensures 0 <= oracle <= filled ==> Taken(oracle, filled) == oracle
    ensures oracle > filled ==> Taken(oracle, filled) == filled
  {
  }
}
