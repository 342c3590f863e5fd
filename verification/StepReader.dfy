/** The reader of the simulator's replies (bw_socket.c): text arrives in arbitrary pieces, is cut into
    lines, and each call of which_data asks for the next STEP line of one thread or the next register
    value. Lines that the call did not ask for are kept in lists; no line is lost, repeated or overtaken
    by a later one of its kind. */
module StepReader {
  import opened Sequences

  const THREADS: nat := 32

  // ---------------------------------------------------------------- lines

  /** The length of the first line with its newline, zero when no line is complete. */
  function LineEnd(s: string): (n: nat)
    ensures n <= |s|
  {
    if s == [] then 0
    else if s[0] == '\n' then 1
    else
      var n := LineEnd(s[1..]);
      if n == 0 then 0 else n + 1
  }

  function Lines(s: string): seq<string>
    decreases |s|
  {
    var n := LineEnd(s);
    if n == 0 then [] else [s[..n]] + Lines(s[n..])
  }

  predicate IsLine(l: string) {
    |l| > 0 && l[|l| - 1] == '\n' && forall k | 0 <= k < |l| - 1 :: l[k] != '\n'
  }

  predicate AllLines(ls: seq<string>) {
    forall l | l in ls :: IsLine(l)
  }

  function Join(ls: seq<string>): string {
    if ls == [] then "" else ls[0] + Join(ls[1..])
  }

  lemma {:induction false} LineEndOfLine(l: string, rest: string)
    requires IsLine(l)
    ensures LineEnd(l + rest) == |l|
  {
    assert (l + rest)[0] == l[0];
    if |l| > 1 {
      assert (l + rest)[1..] == l[1..] + rest;
      LineEndOfLine(l[1..], rest);
    }
  }

  lemma {:induction false} LineEndIsLine(s: string)
    requires LineEnd(s) > 0
    ensures IsLine(s[..LineEnd(s)])
  {
    var n := LineEnd(s);
    if s[0] != '\n' {
      LineEndIsLine(s[1..]);
      assert s[..n] == [s[0]] + s[1..][..n - 1];
    }
  }

  lemma FirstLine(l: string, rest: string)
    requires IsLine(l)
    ensures Lines(l + rest) == [l] + Lines(rest)
  {
    LineEndOfLine(l, rest);
    assert (l + rest)[..|l|] == l && (l + rest)[|l|..] == rest;
  }

  /** A line ends at the next newline. */
  lemma LineAtNewline(l: string, rest: string)
    requires '\n' !in l
    ensures Lines((l + "\n") + rest) == [l + "\n"] + Lines(rest)
  {
    FirstLine(l + "\n", rest);
  }

  /** Text without a newline is no line yet. */
  lemma {:induction false} NoLineYet(s: string)
    requires '\n' !in s
    ensures Lines(s) == []
  {
    NoNewline(s);
  }

  lemma {:induction false} NoNewline(s: string)
    requires '\n' !in s
    ensures LineEnd(s) == 0
  {
    if s != [] {
      NoNewline(s[1..]);
    }
  }

  /** Reading lines one by one is splitting the whole text. */
  lemma {:induction false} LinesOfJoin(ls: seq<string>, rest: string)
    requires AllLines(ls)
    ensures Lines(Join(ls) + rest) == ls + Lines(rest)
  {
    if ls == [] {
      assert Join(ls) + rest == rest;
    } else {
      var text := Join(ls[1..]) + rest;
      Regroup(ls[0], Join(ls[1..]), rest);
      FirstLine(ls[0], text);
      LinesOfJoin(ls[1..], rest);
      Regroup([ls[0]], ls[1..], Lines(rest));
      assert [ls[0]] + ls[1..] == ls;
    }
  }

  lemma {:induction false} JoinMore(ls: seq<string>, l: string)
    ensures Join(ls + [l]) == Join(ls) + l
  {
    if ls == [] {
      assert ls + [l] == [l] && [l][1..] == [];
    } else {
      assert (ls + [l])[1..] == ls[1..] + [l];
      JoinMore(ls[1..], l);
    }
  }

  // ---------------------------------------------------------------- kinds of line

  predicate StartsWith(l: string, prefix: string) {
    |prefix| <= |l| && l[..|prefix|] == prefix
  }

  predicate IsStep(l: string) {
    StartsWith(l, "STEP: ")
  }

  predicate IsValue(l: string) {
    !IsStep(l) && StartsWith(l, "regval")
  }

  function Skipped(l: string, i: nat): (j: nat)
    requires i <= |l|
    ensures i <= j <= |l|
    decreases |l| - i
  {
    if i < |l| && l[i] in " \t," then Skipped(l, i + 1) else i
  }

  function Decimal(l: string, i: nat, sum: nat): nat
    requires i <= |l|
    decreases |l| - i
  {
    if i < |l| && '0' <= l[i] <= '9' then Decimal(l, i + 1, 10 * sum + (l[i] as int - '0' as int)) else sum
  }

  /** The thread number that follows the word STEP. */
  function ThreadOf(l: string): nat
    requires IsStep(l)
  {
    Decimal(l, Skipped(l, 6), 0)
  }

  /** A number in decimal. */
  function Digits(n: nat): (s: string)
    ensures s != [] && forall k :: 0 <= k < |s| ==> '0' <= s[k] <= '9'
  {
    if n < 10 then ["0123456789"[n]] else Digits(n / 10) + ["0123456789"[n % 10]]
  }

  /** What the digits a make of the number read before them. */
  function ReadOn(a: string, sum: nat): nat
    requires forall k :: 0 <= k < |a| ==> '0' <= a[k] <= '9'
  {
    if a == [] then sum else 10 * ReadOn(a[..|a| - 1], sum) + (a[|a| - 1] as int - '0' as int)
  }

  lemma {:induction false} ReadDigits(n: nat)
    ensures ReadOn(Digits(n), 0) == n
  {
    if n < 10 {
      assert Digits(n)[..0] == [];
    } else {
      var a := Digits(n / 10);
      ReadDigits(n / 10);
      assert Digits(n)[..|a|] == a;
    }
  }

  lemma {:induction false} DecimalReads(l: string, i: nat, a: string, sum: nat)
    requires i + |a| <= |l| && l[i..i + |a|] == a && forall k :: 0 <= k < |a| ==> '0' <= a[k] <= '9'
    ensures Decimal(l, i, sum) == Decimal(l, i + |a|, ReadOn(a, sum))
    decreases |a|
  {
    if a != [] {
      var n := |a| - 1;
      assert l[i..i + n] == a[..n] && l[i + n] == a[n];
      DecimalReads(l, i, a[..n], sum);
    }
  }

  predicate AllSkipped(s: string) {
    forall k :: 0 <= k < |s| ==> s[k] in " \t,"
  }

  lemma {:induction false} SkippedOver(l: string, i: nat, s: string)
    requires i + |s| < |l| && l[i..i + |s|] == s && AllSkipped(s) && l[i + |s|] !in " \t,"
    ensures Skipped(l, i) == i + |s|
    decreases |s|
  {
    if s != [] {
      assert l[i] == s[0] && l[i + 1..i + 1 + |s[1..]|] == s[1..];
      SkippedOver(l, i + 1, s[1..]);
    }
  }

  lemma ThreadOfParts(l: string, n: nat, s: string, at: nat)
    requires IsStep(l) && AllSkipped(s) && at == 6 + |s| && at + |Digits(n)| <= |l|
    requires l[6..at] == s && l[at..at + |Digits(n)|] == Digits(n)
    requires at + |Digits(n)| < |l| ==> !('0' <= l[at + |Digits(n)|] <= '9')
    ensures ThreadOf(l) == n
  {
    assert l[at] == Digits(n)[0];
    SkippedOver(l, 6, s);
    DecimalReads(l, at, Digits(n), 0);
    ReadDigits(n);
  }

  /** The parts of a text. */
  lemma PartsOfText(p: string, s: string, d: string, rest: string, l: string)
    requires l == p + (s + (d + rest))
    ensures |l| == |p| + |s| + |d| + |rest| && l[..|p|] == p && l[|p|..|p| + |s|] == s && l[|p| + |s|..|p| + |s| + |d|] == d
    ensures rest != [] ==> l[|p| + |s| + |d|] == rest[0]
  {
    var u := d + rest;
    var t := s + u;
    SliceAfter(p, t, 0, |s|);
    SliceAfter(p, t, |s|, |s| + |d|);
    SliceAfter(s, u, 0, |d|);
    assert t[0..|s|] == s && u[0..|d|] == d;
    assert rest != [] ==> u[|d|] == rest[0] && t[|s| + |d|] == rest[0];
  }

  /** A STEP line that was written for a thread is read as one for that thread, whatever follows the number. */
  lemma ThreadOfWritten(n: nat, s: string, rest: string)
    requires AllSkipped(s) && (rest == [] || !('0' <= rest[0] <= '9'))
    ensures var l := "STEP: " + (s + (Digits(n) + rest));
      IsStep(l) && ThreadOf(l) == n
  {
    var l := "STEP: " + (s + (Digits(n) + rest));
    PartsOfText("STEP: ", s, Digits(n), rest, l);
    ThreadOfParts(l, n, s, 6 + |s|);
  }

  lemma LineOfThreadTen()
    ensures IsStep("STEP: 10 x\n") && ThreadOf("STEP: 10 x\n") == 10
  {
    ThreadOfWritten(10, "", " x\n");
    assert Digits(10) == "10";
    assert "STEP: " + ("" + ("10" + " x\n")) == "STEP: 10 x\n";
  }

  /** What is a STEP line and what a register value. */
  lemma KindsOfLine(rest: string)
    ensures IsStep("STEP: " + rest) && !IsValue("STEP: " + rest)
    ensures IsValue("regval" + rest) && !IsStep("regval" + rest)
  {
    assert ("STEP: " + rest)[..6] == "STEP: " && ("regval" + rest)[..6] == "regval";
    assert ("regval" + rest)[0] == 'r' && ("STEP: " + rest)[0] == 'S';
  }

  predicate StepOf(t: nat, l: string) {
    IsStep(l) && ThreadOf(l) == t
  }

  /** The lists of the reader have room for 32 threads. */
  predicate Proper(ls: seq<string>) {
    forall l | l in ls && IsStep(l) :: ThreadOf(l) < THREADS
  }

  // ---------------------------------------------------------------- queues

  function Steps(t: nat, ls: seq<string>): seq<string> {
    if ls == [] then []
    else (if StepOf(t, ls[0]) then [ls[0]] else []) + Steps(t, ls[1..])
  }

  function Values(ls: seq<string>): seq<string> {
    if ls == [] then []
    else (if IsValue(ls[0]) then [ls[0]] else []) + Values(ls[1..])
  }

  lemma {:induction false} StepsSum(t: nat, a: seq<string>, b: seq<string>)
    ensures Steps(t, a + b) == Steps(t, a) + Steps(t, b)
  {
    if a == [] {
      assert a + b == b;
    } else {
      assert (a + b)[1..] == a[1..] + b;
      StepsSum(t, a[1..], b);
    }
  }

  lemma {:induction false} ValuesSum(a: seq<string>, b: seq<string>)
    ensures Values(a + b) == Values(a) + Values(b)
  {
    if a == [] {
      assert a + b == b;
    } else {
      assert (a + b)[1..] == a[1..] + b;
      ValuesSum(a[1..], b);
    }
  }

  lemma StepsMore(t: nat, a: seq<string>, l: string)
    ensures Steps(t, a + [l]) == Steps(t, a) + (if StepOf(t, l) then [l] else [])
  {
    StepsSum(t, a, [l]);
    assert [l][1..] == [];
  }

  lemma ValuesMore(a: seq<string>, l: string)
    ensures Values(a + [l]) == Values(a) + (if IsValue(l) then [l] else [])
  {
    ValuesSum(a, [l]);
    assert [l][1..] == [];
  }

  lemma StepsElsewhere(t: nat, a: seq<string>, l: string)
    requires !StepOf(t, l)
    ensures Steps(t, a + [l]) == Steps(t, a)
  {
    StepsMore(t, a, l);
    AppendNothing(Steps(t, a), []);
  }

  lemma ValuesElsewhere(a: seq<string>, l: string)
    requires !IsValue(l)
    ensures Values(a + [l]) == Values(a)
  {
    ValuesMore(a, l);
    AppendNothing(Values(a), []);
  }

  lemma {:induction false} NoSteps(t: nat, a: seq<string>)
    requires forall l | l in a :: !StepOf(t, l)
    ensures Steps(t, a) == []
  {
    if a != [] {
      NoSteps(t, a[1..]);
    }
  }

  lemma StepsBefore(t: nat, l: string, b: seq<string>)
    ensures Steps(t, [l] + b) == (if StepOf(t, l) then [l] else []) + Steps(t, b)
  {
    assert ([l] + b)[1..] == b;
  }

  /** Taking the first line of a thread out of a list leaves the other threads' lines as they were. */
  lemma Unlinked(t: nat, u: nat, a: seq<string>, l: string, b: seq<string>)
    requires StepOf(t, l) && forall k | k in a :: !StepOf(t, k)
    ensures Steps(u, a + ([l] + b)) == (if u == t then [l] else []) + Steps(u, a + b)
  {
    StepsSum(u, a, [l] + b);
    StepsSum(u, a, b);
    StepsBefore(u, l, b);
    if u == t {
      NoSteps(u, a);
    }
  }

  /** What was handed over of each kind, followed by what is kept of it, is what was read of it. */
  ghost predicate StepsInOrder(delivered: seq<string>, active: seq<string>, taken: seq<string>) {
    forall t: nat :: Steps(t, delivered) + Steps(t, active) == Steps(t, taken)
  }

  ghost predicate ValuesInOrder(values: seq<string>, regs: seq<string>, taken: seq<string>) {
    values + regs == Values(taken)
  }

  ghost predicate Counted(vld: seq<nat>, active: seq<string>) {
    |vld| == THREADS && forall t: nat | t < THREADS :: vld[t] == |Steps(t, active)|
  }

  lemma StepHandedOver(delivered: seq<string>, active: seq<string>, taken: seq<string>, l: string)
    requires StepsInOrder(delivered, active, taken) && IsStep(l) && Steps(ThreadOf(l), active) == []
    ensures StepsInOrder(delivered + [l], active, taken + [l])
  {
    forall t: nat
      ensures Steps(t, delivered + [l]) + Steps(t, active) == Steps(t, taken + [l])
    {
      assert Steps(t, delivered) + Steps(t, active) == Steps(t, taken);
      if t == ThreadOf(l) {
        StepsMore(t, delivered, l);
        StepsMore(t, taken, l);
        AppendNothing(Steps(t, delivered), Steps(t, active));
        AppendNothing(Steps(t, delivered + [l]), Steps(t, active));
      } else {
        StepsElsewhere(t, delivered, l);
        StepsElsewhere(t, taken, l);
      }
    }
  }

  lemma StepKept(delivered: seq<string>, active: seq<string>, taken: seq<string>, l: string, vld: seq<nat>)
    requires StepsInOrder(delivered, active, taken) && Counted(vld, active) && IsStep(l) && ThreadOf(l) < THREADS
    ensures StepsInOrder(delivered, active + [l], taken + [l])
    ensures Counted(vld[ThreadOf(l) := vld[ThreadOf(l)] + 1], active + [l])
  {
    forall t: nat
      ensures Steps(t, delivered) + Steps(t, active + [l]) == Steps(t, taken + [l])
      ensures |Steps(t, active + [l])| == |Steps(t, active)| + (if t == ThreadOf(l) then 1 else 0)
    {
      StepsMore(t, active, l);
      StepsMore(t, taken, l);
      assert Steps(t, delivered) + Steps(t, active) == Steps(t, taken);
    }
  }

  lemma StepFromList(delivered: seq<string>, taken: seq<string>, vld: seq<nat>, a: seq<string>, l: string, b: seq<string>)
    requires StepsInOrder(delivered, a + ([l] + b), taken) && Counted(vld, a + ([l] + b)) && IsStep(l)
    requires ThreadOf(l) < THREADS && vld[ThreadOf(l)] > 0
    requires forall k | k in a :: !StepOf(ThreadOf(l), k)
    ensures StepsInOrder(delivered + [l], a + b, taken)
    ensures Counted(vld[ThreadOf(l) := vld[ThreadOf(l)] - 1], a + b)
  {
    forall t: nat
      ensures Steps(t, delivered + [l]) + Steps(t, a + b) == Steps(t, taken)
      ensures |Steps(t, a + b)| == |Steps(t, a + ([l] + b))| - (if t == ThreadOf(l) then 1 else 0)
    {
      Unlinked(ThreadOf(l), t, a, l, b);
      StepsMore(t, delivered, l);
      var one := if t == ThreadOf(l) then [l] else [];
      Regroup(Steps(t, delivered), one, Steps(t, a + b));
      assert Steps(t, delivered) + Steps(t, a + ([l] + b)) == Steps(t, taken);
    }
  }

  lemma StepUnlinked(delivered: seq<string>, taken: seq<string>, vld: seq<nat>, active: seq<string>, i: nat)
    requires StepsInOrder(delivered, active, taken) && Counted(vld, active) && i < |active| && IsStep(active[i])
    requires ThreadOf(active[i]) < THREADS && vld[ThreadOf(active[i])] > 0
    requires forall k | 0 <= k < i :: !StepOf(ThreadOf(active[i]), active[k])
    ensures StepsInOrder(delivered + [active[i]], active[..i] + active[i + 1..], taken)
    ensures Counted(vld[ThreadOf(active[i]) := vld[ThreadOf(active[i])] - 1], active[..i] + active[i + 1..])
  {
    Parted(active, i);
    StepFromList(delivered, taken, vld, active[..i], active[i], active[i + 1..]);
  }

  lemma NoStepRead(delivered: seq<string>, active: seq<string>, taken: seq<string>, l: string)
    requires StepsInOrder(delivered, active, taken) && !IsStep(l)
    ensures StepsInOrder(delivered, active, taken + [l])
  {
    forall t: nat
      ensures Steps(t, delivered) + Steps(t, active) == Steps(t, taken + [l])
    {
      StepsMore(t, taken, l);
      assert Steps(t, delivered) + Steps(t, active) == Steps(t, taken);
    }
  }

  /** The lines read and the text not yet read make up the text received. */
  ghost predicate Framed(received: string, taken: seq<string>, data: string) {
    received == Join(taken) + data && AllLines(taken) && Proper(Lines(data))
  }

  lemma LineRead(received: string, taken: seq<string>, l: string, rest: string)
    requires Framed(received, taken, l + rest) && IsLine(l)
    ensures Framed(received, taken + [l], rest) && (IsStep(l) ==> ThreadOf(l) < THREADS)
  {
    JoinMore(taken, l);
    Regroup(Join(taken), l, rest);
    FirstLine(l, rest);
    assert Lines(l + rest)[0] == l;
  }

  lemma Parted(a: seq<string>, i: nat)
    requires i < |a|
    ensures a == a[..i] + ([a[i]] + a[i + 1..])
  {
  }

  lemma SomeKept(t: nat, active: seq<string>)
    requires Steps(t, active) != []
    ensures exists k :: 0 <= k < |active| && StepOf(t, active[k])
  {
    if forall k | 0 <= k < |active| :: !StepOf(t, active[k]) {
      NoSteps(t, active);
    }
  }

  datatype Event = Nothing | Stepped(line: string) | Value(line: string)

  /** What one call asks for: a STEP line of a thread, also a register value or not, and whether both
      contexts of the thread are in use, when a STEP line cannot be taken. */
  datatype Request = Request(thread: nat, wantsValue: bool, full: bool)

  lemma StillNone(q: Request, active: seq<string>, l: string)
    requires q.full || Steps(q.thread, active) == []
    requires q.full || !StepOf(q.thread, l)
    ensures q.full || Steps(q.thread, active + [l]) == []
  {
    if !q.full {
      StepsElsewhere(q.thread, active, l);
    }
  }

  class Reader {
    /** Text received and not yet read. */
    var data: string
    /** STEP lines read for threads that had not asked, and how many there are of each thread. */
    var strActive: seq<string>
    var vld: seq<nat>
    /** Register values read by calls that had not asked for one. */
    var regvalList: seq<string>
    ghost var received: string
    ghost var taken: seq<string>
    ghost var delivered: seq<string>
    ghost var values: seq<string>

    ghost predicate Valid()
      reads this
    {
      Framed(received, taken, data) && Consistent(taken)
    }

    constructor ()
      ensures Valid() && received == "" && delivered == [] && values == []
    {
      data, received := "", "";
      strActive, taken, delivered, regvalList, values := [], [], [], [], [];
      vld := seq(THREADS, _ => 0);
    }

    /** Nothing is lost, repeated or overtaken, at any time: the STEP lines of a thread that were handed
        over, then the ones kept, then the ones still in the text are those of the text received, in
        its order, wherever the text was cut when it arrived; and the same of the register values. */
    lemma Conserved(t: nat)
      requires Valid()
      ensures Steps(t, delivered) + Steps(t, strActive) + Steps(t, Lines(data)) == Steps(t, Lines(received))
      ensures values + regvalList + Values(Lines(data)) == Values(Lines(received))
    {
      LinesOfJoin(taken, data);
      StepsSum(t, taken, Lines(data));
      ValuesSum(taken, Lines(data));
      assert Steps(t, delivered) + Steps(t, strActive) == Steps(t, taken);
    }

    /** read_socket_nfd: more text, cut anywhere. */
    method Receive(piece: string)
      requires Valid() && Proper(Lines(data + piece))
      modifies this`data, this`received
      ensures Valid() && received == old(received) + piece
    {
      assert Join(taken) + data + piece == Join(taken) + (data + piece);
      data := data + piece;
      received := received + piece;
    }

    /** The place of the first line kept for a thread. */
    method FindKept(thread: nat) returns (i: nat)
      requires Steps(thread, strActive) != []
      ensures i < |strActive| && StepOf(thread, strActive[i])
      ensures forall k | 0 <= k < i :: !StepOf(thread, strActive[k])
    {
      i := 0;
      SomeKept(thread, strActive);
      while !StepOf(thread, strActive[i])
        invariant i < |strActive|
        invariant forall k | 0 <= k < i :: !StepOf(thread, strActive[k])
        invariant exists k :: i <= k < |strActive| && StepOf(thread, strActive[k])
        decreases |strActive| - i
      {
        i := i + 1;
      }
    }

    /** data_in_list: the first line kept for a thread. */
    method DataInList(thread: nat) returns (l: string)
      requires Valid() && thread < THREADS && vld[thread] > 0
      modifies this`strActive, this`vld, this`delivered
      ensures Valid() && StepOf(thread, l) && delivered == old(delivered) + [l]
    {
      var i := FindKept(thread);
      l := strActive[i];
      StepUnlinked(delivered, taken, vld, strActive, i);
      strActive := strActive[..i] + strActive[i + 1..];
      vld := vld[thread := vld[thread] - 1];
      delivered := delivered + [l];
    }

    /** Takes the next complete line off the text. */
    method NextLine() returns (l: string)
      requires Framed(received, taken, data) && LineEnd(data) > 0
      modifies this`data, this`taken
      ensures Framed(received, taken, data) && (IsStep(l) ==> ThreadOf(l) < THREADS)
      ensures taken == old(taken) + [l] && |data| < |old(data)|
    {
      var n := LineEnd(data);
      l := data[..n];
      LineEndIsLine(data);
      assert data == l + data[n..];
      LineRead(received, taken, l, data[n..]);
      data := data[n..];
      taken := taken + [l];
    }

    ghost predicate Consistent(read: seq<string>)
      reads this
    {
      Counted(vld, strActive) && StepsInOrder(delivered, strActive, read) && ValuesInOrder(values, regvalList, read)
    }

    /** thread_match: a STEP line is handed over or kept. */
    method OneStep(q: Request, l: string, ghost read: seq<string>) returns (r: Event)
      requires Consistent(read) && IsStep(l) && ThreadOf(l) < THREADS && Unserved(q)
      modifies this`strActive, this`vld, this`delivered
      ensures Consistent(read + [l])
      ensures HandedOver(q, r, old(delivered), old(values))
      ensures r.Nothing? ==> Unserved(q)
    {
      ValuesElsewhere(read, l);
      if ThreadOf(l) == q.thread && !q.full {
        StepHandedOver(delivered, strActive, read, l);
        delivered := delivered + [l];
        return Stepped(l);
      }
      ghost var was := strActive;
      KeepStep(l, read);
      StillNone(q, was, l);
      return Nothing;
    }

    method KeepStep(l: string, ghost read: seq<string>)
      requires Counted(vld, strActive) && StepsInOrder(delivered, strActive, read) && IsStep(l) && ThreadOf(l) < THREADS
      modifies this`strActive, this`vld
      ensures strActive == old(strActive) + [l]
      ensures Counted(vld, strActive) && StepsInOrder(delivered, strActive, read + [l])
    {
      StepKept(delivered, strActive, read, l, vld);
      strActive := strActive + [l];
      vld := vld[ThreadOf(l) := vld[ThreadOf(l)] + 1];
    }

    /** A register value is handed over or kept, any other line ignored. */
    method OneOther(q: Request, l: string, ghost read: seq<string>) returns (r: Event)
      requires Consistent(read) && !IsStep(l) && Unserved(q)
      modifies this`regvalList, this`values
      ensures Consistent(read + [l])
      ensures HandedOver(q, r, old(delivered), old(values))
      ensures r.Nothing? ==> Unserved(q)
    {
      ValuesMore(read, l);
      NoStepRead(delivered, strActive, read, l);
      if IsValue(l) && q.wantsValue {
        values := values + [l];
        return Value(l);
      }
      if IsValue(l) {
        Regroup(values, regvalList, [l]);
        regvalList := regvalList + [l];
      }
      return Nothing;
    }

    /** One line of the text: handed over, kept or ignored. */
    method OneLine(q: Request) returns (r: Event)
      requires Valid() && LineEnd(data) > 0 && Unserved(q)
      modifies this
      ensures Valid() && received == old(received) && |data| < |old(data)|
      ensures HandedOver(q, r, old(delivered), old(values))
      ensures r.Nothing? ==> Unserved(q)
    {
      ghost var read := taken;
      var l := NextLine();
      if IsStep(l) {
        r := OneStep(q, l, read);
      } else {
        r := OneOther(q, l, read);
      }
    }

    /** Nothing of what a call asks for is kept. */
    ghost predicate Unserved(q: Request)
      reads this
    {
      (q.full || Steps(q.thread, strActive) == []) && (q.wantsValue ==> regvalList == [])
    }

    ghost predicate HandedOver(q: Request, r: Event, oldDelivered: seq<string>, oldValues: seq<string>)
      reads this
    {
      delivered == oldDelivered + (if r.Stepped? then [r.line] else [])
      && values == oldValues + (if r.Value? then [r.line] else [])
      && (r.Stepped? ==> !q.full && StepOf(q.thread, r.line))
      && (r.Value? ==> q.wantsValue && IsValue(r.line))
    }

    /** which_data: what a call hands over is the next line of its kind. A call comes back with nothing
        only when nothing of what it asked for has arrived. */
    method WhichData(q: Request) returns (r: Event)
      requires Valid() && q.thread < THREADS
      modifies this
      ensures Valid() && received == old(received)
      ensures HandedOver(q, r, old(delivered), old(values))
      ensures r.Nothing? ==> Lines(data) == [] && Unserved(q)
    {
      if q.wantsValue && regvalList != [] {
        r := Value(regvalList[0]);
        ValueIs(Values(taken), |values|, taken);
        values := values + [regvalList[0]];
        regvalList := regvalList[1..];
        return;
      }
      if vld[q.thread] > 0 && !q.full {
        var l := DataInList(q.thread);
        return Stepped(l);
      }
      r := Nothing;
      while r.Nothing? && LineEnd(data) > 0
        invariant Valid() && received == old(received) && HandedOver(q, r, old(delivered), old(values))
        invariant r.Nothing? ==> Unserved(q)
        decreases |data|
      {
        r := OneLine(q);
      }
    }
  }

  lemma {:induction false} ValueIs(vs: seq<string>, i: nat, ls: seq<string>)
    requires vs == Values(ls) && i < |vs|
    ensures IsValue(vs[i])
  {
    if IsValue(ls[0]) {
      if i > 0 {
        ValueIs(vs[1..], i - 1, ls[1..]);
      }
    } else {
      ValueIs(vs, i, ls[1..]);
    }
  }
}
