/** The cache crossbar side of the I/O bridge model (iob.cc, cpx.cc): packets to the cores are announced
    with a request and follow one call later; each core grants two outstanding requests. */
module CpxLink {
  import opened Sequences

  const CORES: nat := 8

  /** A packet for a core. */
  datatype Packet = Packet(cpu: nat, body: int)

  /** A packet with its delays: request not sent (1) or sent (2). */
  class Cpx {
    var packet: Packet
    var req_sent: nat
    var req_wait: nat
    var cpx_wait: nat

    constructor ()
    {
    }

    /** Every translation sets the delays like this, from a random number. */
    method Xlation(packet: Packet, random: nat)
      modifies this
      ensures this.packet == packet && Fresh() && req_wait == random % 8
    {
      this.packet := packet;
      req_sent := 1;
      req_wait := random % 8;
      cpx_wait := req_wait + 1;
    }

    /** As it comes from a translation. */
    ghost predicate Fresh()
      reads this
    {
      req_sent == 1 && cpx_wait == req_wait + 1 <= 8
    }

    /** Before its request: the data delay is one more than the request delay, unless both ran out. */
    ghost predicate Waiting()
      reads this
    {
      req_sent == 1 && req_wait <= 7 && (cpx_wait == req_wait + 1 || (req_wait == 0 && cpx_wait == 0))
    }

    /** After its request: the data are due at the next call. */
    ghost predicate Requested()
      reads this
    {
      req_sent == 2 && cpx_wait == 1
    }

    method GetReq()
      requires Waiting() && req_wait == 0
      modifies this
      ensures Requested() && packet == old(packet)
    {
      req_sent := 2;
      if cpx_wait == 0 {
        cpx_wait := 1;
      }
    }

    method DecWait()
      requires Waiting() || Requested()
      modifies this
      ensures packet == old(packet) && req_sent == old(req_sent)
      ensures req_wait == Less(old(req_wait)) && cpx_wait == Less(old(cpx_wait))
    {
      if req_wait > 0 {
        req_wait := req_wait - 1;
      }
      if cpx_wait > 0 {
        cpx_wait := cpx_wait - 1;
      }
    }

    /** How many calls until the packet has left, if its core is not busy. */
    ghost function Work(): nat
      reads this
    {
      if req_sent == 2 then 1 else if req_wait == 0 then 2 else req_wait + 1
    }

    /** The delays run; then the packet may ask for its core, unless that is busy, or its data are due. */
    method Advance(busy: bool) returns (asks: bool, due: bool)
      requires Waiting() || Requested()
      modifies this
      ensures packet == old(packet) && due == old(Requested()) && (due ==> req_sent == 2)
      ensures asks <==> !busy && old(Waiting()) && old(req_wait) <= 1
      ensures old(Waiting()) ==> if asks then Requested() else Waiting()
      ensures Work() == old(Work()) - (if due || (busy && old(req_wait) <= 1) then 0 else 1)
    {
      DecWait();
      asks := req_wait == 0 && req_sent == 1 && !busy;
      if asks {
        GetReq();
      }
      due := cpx_wait == 0 && req_sent == 2;
    }
  }

  ghost function Packets(s: seq<Cpx>): (r: seq<Packet>)
    reads s
    ensures |r| == |s|
  {
    if s == [] then [] else [s[0].packet] + Packets(s[1..])
  }

  /** How many calls until all packets have left, if no core is busy. */
  ghost function Load(s: seq<Cpx>): nat
    reads s
  {
    if s == [] then 0 else s[0].Work() + Load(s[1..])
  }

  function Less(n: nat): nat {
    if n == 0 then 0 else n - 1
  }

  /** The load that a packet brings along. */
  function Delay(random: nat): (d: nat)
    ensures 2 <= d <= 8
  {
    if random % 8 == 0 then 2 else random % 8 + 1
  }

  function Delays(arrivals: seq<(Packet, nat)>): nat {
    if arrivals == [] then 0 else Delays(arrivals[..|arrivals| - 1]) + Delay(arrivals[|arrivals| - 1].1)
  }

  /** All packets but the first are as they arrived. */
  ghost predicate RestFresh(s: seq<Cpx>)
    reads s
  {
    forall i :: 1 <= i < |s| ==> s[i].Fresh() && s[i].packet.cpu < CORES
  }

  /** What arrives before a call: which cores grant, and packets with their random delays. */
  datatype Input = Input(grant: seq<bool>, arrivals: seq<(Packet, nat)>)

  /** What the wires show after a call. */
  datatype Output = Output(req: Option<nat>, data: Option<Packet>)

  /** Every core has at most two requests outstanding. */
  ghost predicate Credits(q: seq<nat>) {
    |q| == CORES && forall i :: 0 <= i < CORES ==> q[i] <= 2
  }

  /** The outstanding requests after grants: a grant to a core without any is ignored. */
  function Granted(q: seq<nat>, grant: seq<bool>): (r: seq<nat>)
    requires |q| == |grant| == CORES
    ensures |r| == CORES
  {
    seq(CORES, i requires 0 <= i < CORES => if grant[i] && q[i] > 0 then q[i] - 1 else q[i])
  }

  /** No core is busy. */
  ghost predicate Free(q: seq<nat>) {
    forall i :: 0 <= i < |q| ==> q[i] < 2
  }

  /** One more for the core that was asked. */
  function Charged(q: seq<nat>, req: Option<nat>): (r: seq<nat>)
    requires |q| == CORES
    ensures |r| == CORES
  {
    if req != None && req.value < CORES then q[req.value := q[req.value] + 1] else q
  }

  class Iob {
    var qsel: seq<nat>
    var req: Option<nat>
    var pkt_vld: bool
    var next_req: bool
    var next_cpx: bool
    var list: seq<Cpx>
    var heap: seq<Cpx>
    var wires: Output
    ghost var nodes: set<Cpx>

    constructor ()
      ensures Valid() && list == [] && !Due() && fresh(nodes) && qsel == seq(CORES, _ => 0)
    {
      qsel := seq(CORES, _ => 0);
      req, pkt_vld, next_req, next_cpx := None, false, false, false;
      list, heap, nodes := [], [], {};
      wires := Output(None, None);
    }

    ghost predicate Shape()
      reads this
    {
      && Credits(qsel)
      && (forall i :: 0 <= i < |list| ==> list[i] in nodes) && (forall i :: 0 <= i < |heap| ==> heap[i] in nodes)
      && Distinct(list + heap)
    }

    /** The first packet's request is out and its data come with the next call. */
    ghost predicate Due()
      reads this, list
    {
      list != [] && list[0].req_sent == 2
    }

    /** Between calls: nothing is pending on the wires, no core has more than two requests, all packets
        but the first are untouched, and the first waits or is requested. */
    ghost predicate Valid()
      reads this, nodes
    {
      Shape() && Quiet()
    }

    ghost predicate Quiet()
      reads this, list
    {
      && !pkt_vld && req == None
      && (next_req <==> wires.req != None) && (next_cpx <==> wires.data != None)
      && (list != [] ==> RestFresh(list) && list[0].packet.cpu < CORES && (list[0].Waiting() || list[0].Requested()))
    }

    /** grant_check. */
    method GrantCheck(grant: seq<bool>)
      requires Credits(qsel) && |grant| == CORES
      modifies this`qsel
      ensures qsel == Granted(old(qsel), grant) && Credits(qsel)
    {
      ghost var q := qsel;
      for idx := 0 to CORES
        invariant |qsel| == CORES
        invariant forall i :: 0 <= i < idx ==> qsel[i] == Granted(q, grant)[i]
        invariant forall i :: idx <= i < CORES ==> qsel[i] == q[i]
      {
        if grant[idx] && qsel[idx] > 0 {
          qsel := qsel[idx := qsel[idx] - 1];
        }
      }
    }

    /** A packet from the heap, or a new one. */
    method TakeCpx() returns (c: Cpx)
      requires Shape()
      modifies this`heap, this`nodes
      ensures c !in list && c !in heap && Distinct((list + [c]) + heap)
      ensures (forall i :: 0 <= i < |list| ==> list[i] in nodes) && (forall i :: 0 <= i < |heap| ==> heap[i] in nodes)
      ensures c in nodes && old(nodes) <= nodes && fresh(nodes - old(nodes))
    {
      if heap != [] {
        c := heap[0];
        FrontToEnd(list, heap);
        heap := heap[1..];
      } else {
        c := new Cpx();
        nodes := nodes + {c};
        assert list + heap == list;
        NewAtEnd(list, c);
      }
    }

    /** A packet arrives at the end of the list. */
    method Append(packet: Packet, random: nat)
      requires Valid() && packet.cpu < CORES
      modifies this`list, this`heap, this`nodes, nodes
      ensures Valid() && Packets(list) == old(Packets(list)) + [packet] && Due() == old(Due())
      ensures Load(list) == old(Load(list)) + Delay(random)
      ensures old(nodes) <= nodes && fresh(nodes - old(nodes))
    {
      var c := TakeCpx();
      c.Xlation(packet, random);
      assert Packets(list) == old(Packets(list)) && Load(list) == old(Load(list));
      Enqueue(c);
    }

    method Enqueue(c: Cpx)
      requires Credits(qsel) && Distinct((list + [c]) + heap) && c in nodes
      requires (forall i :: 0 <= i < |list| ==> list[i] in nodes) && (forall i :: 0 <= i < |heap| ==> heap[i] in nodes)
      requires Quiet() && c.Fresh() && c.packet.cpu < CORES
      modifies this`list
      ensures Valid() && list == old(list) + [c] && Due() == old(Due())
      ensures Packets(list) == old(Packets(list)) + [c.packet] && Load(list) == old(Load(list)) + c.Work()
    {
      PacketsLast(list, c);
      list := list + [c];
    }

    /** Between handling and driving: the first packet's data are to be driven, or its request, or
        neither. */
    ghost predicate Handled()
      reads this, nodes
    {
      && Shape() && (next_cpx <==> wires.data != None)
      && (req == None ==> (next_req <==> wires.req != None)) && (req != None ==> next_req && list != [] && !pkt_vld)
      && (pkt_vld ==> list != [] && list[0].req_sent == 2)
      && (list != [] ==> RestFresh(list) && list[0].packet.cpu < CORES)
      && (list != [] && !pkt_vld ==>
            if req == None then list[0].Waiting() else list[0].Requested() && req == Some(list[0].packet.cpu))
    }

    /** The first packet cannot ask for its core, which has two requests outstanding. */
    ghost predicate Blocked(q: seq<nat>)
      reads this, list
    {
      list != [] && list[0].req_sent == 1 && list[0].req_wait <= 1 && list[0].packet.cpu < |q| && q[list[0].packet.cpu] == 2
    }

    /** The first packet's delays run. */
    method AdvanceFirst() returns (asks: bool, due: bool)
      requires Valid() && list != []
      modifies list[0]
      ensures Shape() && RestFresh(list) && list[0].packet == old(list[0].packet) && Packets(list) == old(Packets(list))
      ensures due == old(Due()) && (due ==> list[0].req_sent == 2) && (asks ==> !due && qsel[list[0].packet.cpu] < 2)
      ensures !due ==> if asks then list[0].Requested() else list[0].Waiting()
      ensures Load(list) == old(Load(list)) - (if due || old(Blocked(qsel)) then 0 else 1)
    {
      var c := list[0];
      HeadOnce(list, heap);
      ghost var rest := list[1..];
      ghost var others, load := Packets(rest), Load(rest);
      asks, due := c.Advance(qsel[c.packet.cpu] == 2);
      assert Packets(rest) == others && Load(rest) == load;
      assert forall i :: 1 <= i < |list| ==> list[i] == rest[i - 1];
    }

    /** handle_cpx: the first packet's delays run; its request goes out unless its core has two
        outstanding; when its data are due they are marked valid. */
    method HandleCpx()
      requires Valid() && list != []
      modifies this`req, this`next_req, this`pkt_vld, this`qsel, list[0]
      ensures Handled() && list == old(list) && Packets(list) == old(Packets(list)) && pkt_vld == old(Due())
      ensures list[0].packet == old(list[0].packet) && qsel == Charged(old(qsel), req)
      ensures Load(list) == old(Load(list)) - (if pkt_vld || old(Blocked(qsel)) then 0 else 1)
    {
      var asks, due := AdvanceFirst();
      if asks {
        Ask(list[0].packet.cpu);
      }
      pkt_vld := due;
    }

    method Ask(cpu: nat)
      requires Credits(qsel) && cpu < CORES && qsel[cpu] < 2
      modifies this`req, this`next_req, this`qsel
      ensures Credits(qsel) && req == Some(cpu) && next_req && qsel == Charged(old(qsel), req)
    {
      req := Some(cpu);
      next_req := true;
      qsel := qsel[cpu := qsel[cpu] + 1];
    }

    /** drive_cpx: valid data are driven for one call, then the wires are cleared. */
    method DriveCpx()
      requires Handled()
      modifies this`list, this`heap, this`pkt_vld, this`next_cpx, this`wires
      ensures Handled() && !pkt_vld
      ensures wires.req == old(wires.req) && wires.data == if old(pkt_vld) then Some(old(list[0].packet)) else None
      ensures list == if old(pkt_vld) then old(list)[1..] else old(list)
    {
      if pkt_vld {
        var c := list[0];
        FrontToBack(list, heap);
        list := list[1..];
        pkt_vld, next_cpx := false, true;
        heap := heap + [c];
        wires := wires.(data := Some(c.packet));
        assert forall i :: 0 <= i < |list| ==> list[i] == old(list)[i + 1];
      } else if next_cpx {
        next_cpx := false;
        wires := wires.(data := None);
      }
    }

    /** drive_req: a request is driven for one call, then the wires are cleared. */
    method DriveReq()
      requires Handled() && !pkt_vld
      modifies this`req, this`next_req, this`wires
      ensures Valid() && wires.data == old(wires.data) && wires.req == old(req)
      ensures Due() <==> wires.req != None
    {
      if next_req {
        wires := wires.(req := req);
        next_req := req != None;
        req := None;
      }
    }

    method Arrive(arrivals: seq<(Packet, nat)>)
      requires Valid() && forall i :: 0 <= i < |arrivals| ==> arrivals[i].0.cpu < CORES
      modifies this`list, this`heap, this`nodes, nodes
      ensures Valid() && Packets(list) == old(Packets(list)) + Arrived(arrivals) && Due() == old(Due())
      ensures Load(list) == old(Load(list)) + Delays(arrivals)
      ensures old(nodes) <= nodes && fresh(nodes - old(nodes))
    {
      for i := 0 to |arrivals|
        invariant Valid() && Packets(list) == old(Packets(list)) + Arrived(arrivals[..i]) && Due() == old(Due())
        invariant Load(list) == old(Load(list)) + Delays(arrivals[..i])
        invariant old(nodes) <= nodes && fresh(nodes - old(nodes))
      {
        Append(arrivals[i].0, arrivals[i].1);
        assert arrivals[..i + 1][..i] == arrivals[..i];
      }
      assert arrivals[..|arrivals|] == arrivals;
    }

    /** The first packet is requested exactly if the last request was for its core. */
    ghost predicate Asked(last: Option<nat>)
      reads this, list
    {
      (Due() <==> last != None) && (Due() ==> last == Some(list[0].packet.cpu))
    }

    /** The load once the data that are valid have been driven. */
    ghost function Left(): int
      reads this, list
    {
      Load(list) - (if pkt_vld then 1 else 0)
    }

    /** do_iob: packets arrive, grants are checked, the first packet is handled. */
    method DoIob(input: Input)
      requires Valid() && GoodInput(input)
      modifies this`list, this`heap, this`nodes, this`req, this`next_req, this`pkt_vld, this`qsel, nodes
      ensures Handled() && Packets(list) == old(Packets(list)) + Arrived(input.arrivals) && pkt_vld == old(Due())
      ensures qsel == Charged(Granted(old(qsel), input.grant), req)
      ensures Free(Granted(old(qsel), input.grant)) ==> Left() == Less(old(Load(list)) + Delays(input.arrivals))
      ensures old(nodes) <= nodes && fresh(nodes - old(nodes))
    {
      Arrive(input.arrivals);
      GrantAndHandle(input.grant);
    }

    method GrantAndHandle(grant: seq<bool>)
      requires Valid() && |grant| == CORES
      modifies this`req, this`next_req, this`pkt_vld, this`qsel, nodes
      ensures Handled() && Packets(list) == old(Packets(list)) && pkt_vld == old(Due())
      ensures qsel == Charged(Granted(old(qsel), grant), req)
      ensures Free(Granted(old(qsel), grant)) ==> Left() == Less(old(Load(list)))
    {
      GrantCheck(grant);
      HandleAny();
    }

    method HandleAny()
      requires Valid()
      modifies this`req, this`next_req, this`pkt_vld, this`qsel, nodes
      ensures Handled() && list == old(list) && Packets(list) == old(Packets(list)) && pkt_vld == old(Due())
      ensures qsel == Charged(old(qsel), req)
      ensures Free(old(qsel)) ==> Left() == Less(old(Load(list)))
    {
      if list != [] {
        HandleCpx();
      }
    }

    /** Data and request are driven. */
    method Drive() returns (out: Output)
      requires Handled()
      modifies this`list, this`heap, this`pkt_vld, this`next_cpx, this`next_req, this`req, this`wires
      ensures Valid() && Asked(out.req) && out.req == old(req)
      ensures out.data == if old(pkt_vld) then Some(old(list[0].packet)) else None
      ensures Emitted(out) + Packets(list) == old(Packets(list)) && Load(list) == old(Left())
    {
      DriveCpx();
      DriveReq();
      out := wires;
    }

    /** One call in the core clock domain. */
    method Call(input: Input) returns (out: Output)
      requires Valid() && GoodInput(input)
      modifies this, nodes
      ensures Valid() && Asked(out.req)
      ensures out.data == if old(Due()) then Some(old(list[0].packet)) else None
      ensures Emitted(out) + Packets(list) == old(Packets(list)) + Arrived(input.arrivals)
      ensures qsel == Charged(Granted(old(qsel), input.grant), out.req)
      ensures Free(Granted(old(qsel), input.grant)) ==> Load(list) == Less(old(Load(list)) + Delays(input.arrivals))
      ensures old(nodes) <= nodes && fresh(nodes - old(nodes))
    {
      ghost var before := Packets(list);
      DoIob(input);
      assert pkt_vld ==> Packets(list)[0] == before[0];
      out := Drive();
    }

    /** What holds after a run of calls with a trace of what the wires showed. */
    ghost predicate Ran(inputs: seq<Input>, trace: seq<Output>)
      reads this, nodes
    {
      && Valid() && |trace| == |inputs| && (AllGood(inputs))
      && Protocol(trace) && Asked(LastReq(trace))
      && Delivered(trace) + Packets(list) == ArrivedIn(inputs)
      && WithinCredits(inputs, trace) && qsel == Outstanding(inputs, trace)
    }

    /** One more call. */
    method Continue(input: Input, ghost inputs: seq<Input>, trace: seq<Output>, ghost all: seq<Input>) returns (longer: seq<Output>)
      requires Ran(inputs, trace) && GoodInput(input) && all == inputs + [input]
      modifies this, nodes
      ensures Ran(all, longer)
      ensures old(nodes) <= nodes && fresh(nodes - old(nodes))
    {
      ghost var packets := Packets(list);
      var out := Call(input);
      Extended(inputs, trace, input, out);
      Regrouped(Delivered(trace), Emitted(out), Packets(list), packets, Arrived(input.arrivals));
      longer := trace + [out];
    }

    /** Every run of calls, whatever is granted and whenever packets arrive: each packet's data are
        driven exactly one call after its request, packets leave in the order of their arrival, none is
        lost, and no core is ever asked more than twice without granting. */
    method Run(inputs: seq<Input>) returns (trace: seq<Output>)
      requires Valid() && list == [] && qsel == seq(CORES, _ => 0)
      requires AllGood(inputs)
      modifies this, nodes
      ensures Ran(inputs, trace)
      ensures forall lo: nat, hi: nat, c: nat :: lo <= hi <= |inputs| && c < CORES ==>
        |Asking(trace, lo, hi, c)| <= 2 + |Granting(inputs, lo, hi, c)|
    {
      trace := RunOn(inputs, [], []);
      assert [] + inputs == inputs;
      forall lo: nat, hi: nat, c: nat | lo <= hi <= |inputs| && c < CORES
        ensures |Asking(trace, lo, hi, c)| <= 2 + |Granting(inputs, lo, hi, c)|
      {
        NeverThree(inputs, trace, lo, hi, c);
      }
    }

    /** One call in which every core grants and nothing arrives: the load falls by one. */
    method Step(ghost all: seq<Packet>, trace: seq<Output>) returns (longer: seq<Output>)
      requires Valid() && Delivered(trace) + Packets(list) == all
      modifies this, nodes
      ensures Valid() && |longer| == |trace| + 1 && Delivered(longer) + Packets(list) == all && Load(list) == Less(old(Load(list)))
      ensures old(nodes) <= nodes && fresh(nodes - old(nodes))
    {
      ghost var packets := Packets(list);
      var out := Call(Grants());
      longer := trace + [out];
      assert longer[..|trace|] == trace;
      Regroup(Delivered(trace), Emitted(out), Packets(list));
    }

    /** Nothing waits for ever: once every core grants, all packets have left after eight calls for each
        that was pending. */
    method Drain(n: nat) returns (trace: seq<Output>)
      requires Valid() && n >= 8 * |list|
      modifies this, nodes
      ensures Valid() && list == [] && |trace| == n && Delivered(trace) == old(Packets(list))
    {
      trace := [];
      LoadBound(list);
      ghost var all := Packets(list);
      for i := 0 to n
        invariant Valid() && |trace| == i && Load(list) <= n - i && Delivered(trace) + Packets(list) == all
        invariant old(nodes) <= nodes && fresh(nodes - old(nodes))
      {
        trace := Step(all, trace);
      }
      LoadBound(list);
    }

    method RunOn(inputs: seq<Input>, ghost done: seq<Input>, trace: seq<Output>) returns (longer: seq<Output>)
      requires Ran(done, trace) && AllGood(inputs)
      modifies this, nodes
      ensures Ran(done + inputs, longer)
      ensures old(nodes) <= nodes && fresh(nodes - old(nodes))
      decreases |inputs|
    {
      if inputs == [] {
        AppendNothing(done, inputs);
        return trace;
      }
      ghost var further := done + [inputs[0]];
      var next := Continue(inputs[0], done, trace, further);
      Regroup(done, [inputs[0]], inputs[1..]);
      assert [inputs[0]] + inputs[1..] == inputs;
      longer := RunOn(inputs[1..], further, next);
    }
  }

  /** A call in which every core grants and nothing arrives. */
  function Grants(): Input {
    Input(seq(CORES, _ => true), [])
  }

  lemma {:induction false} LoadBound(s: seq<Cpx>)
    requires forall i :: 0 <= i < |s| ==> s[i].Waiting() || s[i].Requested()
    ensures |s| <= Load(s) <= 8 * |s|
  {
    if s != [] {
      LoadBound(s[1..]);
    }
  }

  ghost predicate GoodInput(input: Input) {
    |input.grant| == CORES && forall i :: 0 <= i < |input.arrivals| ==> input.arrivals[i].0.cpu < CORES
  }

  ghost predicate AllGood(inputs: seq<Input>) {
    forall t :: 0 <= t < |inputs| ==> GoodInput(inputs[t])
  }

  function LastReq(trace: seq<Output>): Option<nat> {
    if trace == [] then None else trace[|trace| - 1].req
  }

  /** The requests to each core that the wires showed, less the grants that were credited. */
  ghost function Outstanding(inputs: seq<Input>, trace: seq<Output>): (q: seq<nat>)
    requires |trace| == |inputs| && AllGood(inputs)
    ensures |q| == CORES
  {
    if inputs == [] then seq(CORES, _ => 0)
    else
      var n := |inputs| - 1;
      assert AllGood(inputs[..n]) && GoodInput(inputs[n]);
      Charged(Granted(Outstanding(inputs[..n], trace[..n]), inputs[n].grant), trace[n].req)
  }

  /** At no time more than two. */
  ghost predicate WithinCredits(inputs: seq<Input>, trace: seq<Output>)
    requires |trace| == |inputs| && AllGood(inputs)
  {
    && Credits(Outstanding(inputs, trace))
    && (inputs != [] ==> WithinCredits(inputs[..|inputs| - 1], trace[..|trace| - 1]))
  }

  lemma Extended(inputs: seq<Input>, trace: seq<Output>, input: Input, out: Output)
    requires |trace| == |inputs| && (AllGood(inputs)) && GoodInput(input)
    requires Protocol(trace) && Follows(LastReq(trace), out.data) && WithinCredits(inputs, trace)
    requires Credits(Charged(Granted(Outstanding(inputs, trace), input.grant), out.req))
    ensures Protocol(trace + [out]) && LastReq(trace + [out]) == out.req
    ensures Delivered(trace + [out]) == Delivered(trace) + Emitted(out)
    ensures ArrivedIn(inputs + [input]) == ArrivedIn(inputs) + Arrived(input.arrivals)
    ensures WithinCredits(inputs + [input], trace + [out])
    ensures Outstanding(inputs + [input], trace + [out]) == Charged(Granted(Outstanding(inputs, trace), input.grant), out.req)
  {
    assert (trace + [out])[..|trace|] == trace && (inputs + [input])[..|inputs|] == inputs;
  }

  function Arrived(arrivals: seq<(Packet, nat)>): seq<Packet> {
    if arrivals == [] then [] else Arrived(arrivals[..|arrivals| - 1]) + [arrivals[|arrivals| - 1].0]
  }

  function ArrivedIn(inputs: seq<Input>): seq<Packet> {
    if inputs == [] then [] else ArrivedIn(inputs[..|inputs| - 1]) + Arrived(inputs[|inputs| - 1].arrivals)
  }

  function Emitted(out: Output): seq<Packet> {
    if out.data == None then [] else [out.data.value]
  }

  function Delivered(trace: seq<Output>): seq<Packet> {
    if trace == [] then [] else Delivered(trace[..|trace| - 1]) + Emitted(trace[|trace| - 1])
  }

  /** Data follow a request, and only a request, by one call, and go to the core that was asked. */
  ghost predicate Protocol(trace: seq<Output>) {
    trace != [] ==> Protocol(trace[..|trace| - 1]) && Follows(LastReq(trace[..|trace| - 1]), trace[|trace| - 1].data)
  }

  lemma {:induction false} ProtocolAt(trace: seq<Output>, t: nat)
    requires Protocol(trace) && t < |trace|
    ensures Follows(if t == 0 then None else trace[t - 1].req, trace[t].data)
  {
    if t < |trace| - 1 {
      ProtocolAt(trace[..|trace| - 1], t);
    }
  }

  predicate Follows(req: Option<nat>, data: Option<Packet>) {
    (data != None <==> req != None) && (data != None ==> req == Some(data.value.cpu))
  }

  // ---------------------------------------------------------------- credits on the wires

  /** The calls from lo to hi that showed a request to core c. */
  function Asking(trace: seq<Output>, lo: nat, hi: nat, c: nat): set<nat>
    requires lo <= hi <= |trace|
  {
    set t: nat | lo <= t < hi && trace[t].req == Some(c)
  }

  /** The calls from lo to hi before which core c granted. */
  function Granting(inputs: seq<Input>, lo: nat, hi: nat, c: nat): set<nat>
    requires lo <= hi <= |inputs| && AllGood(inputs) && c < CORES
  {
    set t: nat | lo <= t < hi && inputs[t].grant[c]
  }

  lemma AskingStep(trace: seq<Output>, lo: nat, hi: nat, c: nat)
    requires lo < hi <= |trace|
    ensures |Asking(trace, lo, hi, c)| == |Asking(trace, lo, hi - 1, c)| + (if trace[hi - 1].req == Some(c) then 1 else 0)
  {
    assert Asking(trace, lo, hi, c) == Asking(trace, lo, hi - 1, c) + (if trace[hi - 1].req == Some(c) then {hi - 1} else {});
  }

  lemma GrantingStep(inputs: seq<Input>, lo: nat, hi: nat, c: nat)
    requires lo < hi <= |inputs| && AllGood(inputs) && c < CORES
    ensures |Granting(inputs, lo, hi, c)| == |Granting(inputs, lo, hi - 1, c)| + (if inputs[hi - 1].grant[c] then 1 else 0)
  {
    assert Granting(inputs, lo, hi, c) == Granting(inputs, lo, hi - 1, c) + (if inputs[hi - 1].grant[c] then {hi - 1} else {});
  }

  /** The credits after the first n calls. */
  ghost function CreditsAt(inputs: seq<Input>, trace: seq<Output>, n: nat): (q: seq<nat>)
    requires |trace| == |inputs| && AllGood(inputs) && n <= |inputs|
    ensures |q| == CORES
  {
    Outstanding(inputs[..n], trace[..n])
  }

  lemma CreditsStep(inputs: seq<Input>, trace: seq<Output>, n: nat)
    requires |trace| == |inputs| && AllGood(inputs) && 0 < n <= |inputs|
    ensures CreditsAt(inputs, trace, n) == Charged(Granted(CreditsAt(inputs, trace, n - 1), inputs[n - 1].grant), trace[n - 1].req)
  {
    assert inputs[..n][..n - 1] == inputs[..n - 1] && trace[..n][..n - 1] == trace[..n - 1];
  }

  /** In the calls from lo to hi, what was requested of a core is covered by what it granted and by the change
      of its credits. */
  lemma {:induction false} WindowBalance(inputs: seq<Input>, trace: seq<Output>, lo: nat, hi: nat, c: nat)
    requires |trace| == |inputs| && AllGood(inputs) && lo <= hi <= |inputs| && c < CORES
    ensures CreditsAt(inputs, trace, lo)[c] + |Asking(trace, lo, hi, c)|
      <= CreditsAt(inputs, trace, hi)[c] + |Granting(inputs, lo, hi, c)|
    decreases hi
  {
    if lo < hi {
      WindowBalance(inputs, trace, lo, hi - 1, c);
      AskingStep(trace, lo, hi, c);
      GrantingStep(inputs, lo, hi, c);
      CreditsStep(inputs, trace, hi);
    } else {
      assert Asking(trace, lo, hi, c) == {};
    }
  }

  lemma {:induction false} CreditsBefore(inputs: seq<Input>, trace: seq<Output>, hi: nat)
    requires |trace| == |inputs| && AllGood(inputs) && hi <= |inputs| && WithinCredits(inputs, trace)
    ensures WithinCredits(inputs[..hi], trace[..hi])
    decreases |inputs|
  {
    var n := |inputs|;
    if hi == n {
      assert inputs[..hi] == inputs && trace[..hi] == trace;
    } else {
      CreditsBefore(inputs[..n - 1], trace[..n - 1], hi);
      assert inputs[..n - 1][..hi] == inputs[..hi] && trace[..n - 1][..hi] == trace[..hi];
    }
  }

  /** In any window of a run a core is asked at most twice more than it grants: the calls whose wires show a
      request to it are at most two more than the calls before which it granted. */
  lemma NeverThree(inputs: seq<Input>, trace: seq<Output>, lo: nat, hi: nat, c: nat)
    requires |trace| == |inputs| && AllGood(inputs) && WithinCredits(inputs, trace) && lo <= hi <= |inputs| && c < CORES
    ensures |Asking(trace, lo, hi, c)| <= 2 + |Granting(inputs, lo, hi, c)|
    ensures |set t: nat | lo <= t < hi && trace[t].req == Some(c)| <= 2 + |set t: nat | lo <= t < hi && inputs[t].grant[c]|
  {
    CreditsBefore(inputs, trace, hi);
    WindowBalance(inputs, trace, lo, hi, c);
  }

  lemma Regrouped(d: seq<Packet>, e: seq<Packet>, after: seq<Packet>, before: seq<Packet>, a: seq<Packet>)
    requires e + after == before + a
    ensures (d + e) + after == (d + before) + a
  {
    assert (d + e) + after == d + (e + after);
    assert d + (before + a) == (d + before) + a;
  }

  lemma {:induction false} PacketsLast(s: seq<Cpx>, c: Cpx)
    ensures Packets(s + [c]) == Packets(s) + [c.packet] && Load(s + [c]) == Load(s) + c.Work()
  {
    if s == [] {
      assert s + [c] == [c];
      assert [c][1..] == [];
    } else {
      assert (s + [c])[1..] == s[1..] + [c];
      PacketsLast(s[1..], c);
    }
  }
}
