/** Message queues between processes with selective receive (kernel/ipc.c). */
module Messages {
  import opened Hardware

  const PROCESSES := 16
  const DEPTH := 16
  const MAX_BYTES := 256

  type Tag = k: nat | k < 0x1_0000

  datatype Message = Message(sender: int, kind: nat, data: seq<Byte>)

  type Queue = seq<Message>

  /** The filters of ipc_receive_typed: negative means any; the type is compared in 16 bits. */
  predicate Matches(m: Message, sender: int, kind: int) {
    (sender < 0 || m.sender == sender) && (kind < 0 || m.kind == kind % 0x1_0000)
  }

  /** The position of the first message that matches; the length if none does. */
  function FirstMatch(q: Queue, sender: int, kind: int): (i: nat)
    ensures i <= |q| && (i < |q| ==> Matches(q[i], sender, kind))
            && forall j :: 0 <= j < i ==> !Matches(q[j], sender, kind)
  {
    if q == [] then 0
    else if Matches(q[0], sender, kind) then 0
    else
      assert forall j :: 1 <= j < |q| ==> q[1..][j - 1] == q[j];
      1 + FirstMatch(q[1..], sender, kind)
  }

  function Without(q: Queue, i: nat): Queue
    requires i < |q|
  {
    q[..i] + q[i + 1..]
  }

  /** The messages that process `pid` did not send, in order. */
  function NotFrom(q: Queue, pid: int): (r: Queue)
    ensures |r| <= |q|
  {
    if q == [] then []
    else
      var r := NotFrom(q[..|q| - 1], pid);
      if q[|q| - 1].sender != pid then r + [q[|q| - 1]] else r
  }

  // ---------------------------------------------------------------- channels

  /** Messages of one sender and one type, in order. */
  function Channel(q: Queue, sender: int, kind: nat): Queue {
    if q == [] then []
    else
      var r := Channel(q[..|q| - 1], sender, kind);
      if q[|q| - 1].sender == sender && q[|q| - 1].kind == kind then r + [q[|q| - 1]] else r
  }

  lemma {:induction false} ChannelSum(p: Queue, q: Queue, sender: int, kind: nat)
    ensures Channel(p + q, sender, kind) == Channel(p, sender, kind) + Channel(q, sender, kind)
    decreases |q|
  {
    if q == [] {
      assert p + q == p;
    } else {
      assert (p + q)[..|p + q| - 1] == p + q[..|q| - 1];
      ChannelSum(p, q[..|q| - 1], sender, kind);
    }
  }

  lemma {:induction false} ChannelNone(q: Queue, sender: int, kind: nat)
    requires forall i :: 0 <= i < |q| ==> !(q[i].sender == sender && q[i].kind == kind)
    ensures Channel(q, sender, kind) == []
  {
    if q != [] { ChannelNone(q[..|q| - 1], sender, kind); }
  }

  lemma ChannelOne(m: Message, sender: int, kind: nat)
    ensures Channel([m], sender, kind) == if m.sender == sender && m.kind == kind then [m] else []
  {
    assert [m][..0] == [];
    assert Channel([], sender, kind) == [];
  }

  /** A selective receive takes the oldest message of its channel and leaves the other channels alone. */
  lemma ReceiveTakesOldest(q: Queue, from: int, want: int, sender: int, kind: nat)
    requires FirstMatch(q, from, want) < |q|
    ensures var i := FirstMatch(q, from, want);
            Channel(q, sender, kind) == Channel([q[i]], sender, kind) + Channel(Without(q, i), sender, kind)
  {
    var i := FirstMatch(q, from, want);
    if q[i].sender == sender && q[i].kind == kind { ChannelNone(q[..i], sender, kind); }
    ChannelOne(q[i], sender, kind);
    Split(q, i, sender, kind);
    Rearrange(Channel(q[..i], sender, kind), Channel([q[i]], sender, kind), Channel(q[i + 1..], sender, kind));
  }

  lemma Rearrange(a: Queue, m: Queue, b: Queue)
    requires a == [] || m == []
    ensures a + m + b == m + (a + b)
  {}

  lemma Split(q: Queue, i: nat, sender: int, kind: nat)
    requires i < |q|
    ensures Channel(q, sender, kind)
            == Channel(q[..i], sender, kind) + Channel([q[i]], sender, kind) + Channel(q[i + 1..], sender, kind)
    ensures Channel(Without(q, i), sender, kind) == Channel(q[..i], sender, kind) + Channel(q[i + 1..], sender, kind)
  {
    assert q == q[..i] + [q[i]] + q[i + 1..];
    ChannelSum(q[..i] + [q[i]], q[i + 1..], sender, kind);
    ChannelSum(q[..i], [q[i]], sender, kind);
    ChannelSum(q[..i], q[i + 1..], sender, kind);
  }

  lemma {:induction false} NotFromChannel(q: Queue, pid: int, sender: int, kind: nat)
    ensures Channel(NotFrom(q, pid), sender, kind) == if sender == pid then [] else Channel(q, sender, kind)
  {
    if q != [] {
      NotFromChannel(q[..|q| - 1], pid, sender, kind);
      var r := NotFrom(q[..|q| - 1], pid);
      ChannelSum(r, [q[|q| - 1]], sender, kind);
      ChannelOne(q[|q| - 1], sender, kind);
    }
  }

  /** Closing keeps exactly the messages of other senders. */
  lemma {:induction false} NotFromKeeps(q: Queue, pid: int, m: Message)
    ensures m in NotFrom(q, pid) <==> m in q && m.sender != pid
  {
    if q != [] {
      NotFromKeeps(q[..|q| - 1], pid, m);
      assert q == q[..|q| - 1] + [q[|q| - 1]];
    }
  }

  // ---------------------------------------------------------------- runs

  datatype Request =
    | Send(sender: int, target: int, kind: Tag, data: seq<Byte>, exist: set<int>)
    | Receive(t: int, from: int, want: int, max: nat)
    | CloseOwner(pid: int)

  /** A request with its answer: the code and, of a receive, the message taken (if any). */
  datatype Step = Step(request: Request, code: int, taken: Queue)

  /** What the step appends to the queue of `t`. */
  function Sent(s: Step, t: int): Queue {
    if s.request.Send? && s.request.target == t && s.code > 0
    then [Message(s.request.sender, s.request.kind, s.request.data)] else []
  }

  /** What the step hands to process `t`. */
  function Taken(s: Step, t: int): Queue { if s.request.Receive? && s.request.t == t then s.taken else [] }

  /** One step as the queue of process `t` sees it. */
  ghost predicate Moves(q: Queue, q': Queue, s: Step, t: int) {
    match s.request
    case Send(_, _, _, _, _) => q' == q + Sent(s, t)
    case Receive(_, from, want, _) =>
      if Taken(s, t) == [] then q' == q
      else var i := FirstMatch(q, from, want); i < |q| && Taken(s, t) == [q[i]] && q' == Without(q, i)
    case CloseOwner(pid) => q' == if !(0 <= pid < PROCESSES) then q else if t == pid then [] else NotFrom(q, pid)
  }

  ghost predicate MovesAll(qs: seq<Queue>, qs': seq<Queue>, s: Step) {
    |qs| == |qs'| && forall t :: 0 <= t < |qs| ==> Moves(qs[t], qs'[t], s, t)
  }

  /** The step closes the sender or the receiver of the channel. */
  predicate Closes(s: Step, sender: int, t: int) {
    s.request.CloseOwner? && 0 <= s.request.pid < PROCESSES && (s.request.pid == sender || s.request.pid == t)
  }

  /** What process `t` accepted of a channel, over the whole run. */
  function Accepted(trace: seq<Step>, t: int, sender: int, kind: nat): Queue {
    if trace == [] then [] else
    Accepted(trace[..|trace| - 1], t, sender, kind) + Channel(Sent(trace[|trace| - 1], t), sender, kind)
  }

  /** What process `t` received of a channel, over the whole run. */
  function Delivered(trace: seq<Step>, t: int, sender: int, kind: nat): Queue {
    if trace == [] then [] else
    Delivered(trace[..|trace| - 1], t, sender, kind) + Channel(Taken(trace[|trace| - 1], t), sender, kind)
  }

  /** The part of a run after the last step that closed the sender or the receiver. */
  function SinceClosed(trace: seq<Step>, t: int, sender: int): seq<Step> {
    if trace == [] || Closes(trace[|trace| - 1], sender, t) then []
    else SinceClosed(trace[..|trace| - 1], t, sender) + [trace[|trace| - 1]]
  }

  /** `part` is `all` with some messages left out. */
  predicate Sub(part: Queue, all: Queue) {
    || part == []
    || (all != [] && part[|part| - 1] == all[|all| - 1] && Sub(part[..|part| - 1], all[..|all| - 1]))
    || (all != [] && Sub(part, all[..|all| - 1]))
  }

  lemma {:induction false} SubShorter(part: Queue, all: Queue)
    requires part != [] && Sub(part, all)
    ensures Sub(part[..|part| - 1], all)
  {
    if |part| > 1 {
      var last := part[..|part| - 1];
      if Sub(part, all[..|all| - 1]) { SubShorter(part, all[..|all| - 1]); }
    }
  }

  lemma {:induction false} SubPrefix(part: Queue, more: Queue, all: Queue)
    requires Sub(part + more, all)
    ensures Sub(part, all)
    decreases |more|
  {
    if more == [] {
      assert part + more == part;
    } else {
      assert (part + more)[..|part + more| - 1] == part + more[..|more| - 1];
      SubShorter(part + more, all);
      SubPrefix(part, more[..|more| - 1], all);
    }
  }

  /** One message at most is sent by a step. */
  lemma SubSent(part: Queue, all: Queue, s: Step, t: int, sender: int, kind: nat)
    requires Sub(part, all)
    ensures var more := Channel(Sent(s, t), sender, kind); Sub(part + more, all + more)
  {
    var more := Channel(Sent(s, t), sender, kind);
    if Sent(s, t) != [] { ChannelOne(Sent(s, t)[0], sender, kind); }
    if more == [] {
      assert part + more == part && all + more == all;
    } else {
      assert (part + more)[..|part|] == part && (all + more)[..|all|] == all;
    }
  }

  lemma Regroup(a: Queue, b: Queue, c: Queue)
    ensures (a + b) + c == a + (b + c)
  {}

  /** Unless the step closes one of its two sides, a channel gains what is sent and loses what is taken. */
  lemma ChannelMoves(q: Queue, q': Queue, s: Step, t: int, sender: int, kind: nat)
    requires Moves(q, q', s, t)
    ensures Closes(s, sender, t) ==> Channel(q', sender, kind) == []
    ensures !Closes(s, sender, t) ==>
              Channel(q, sender, kind) + Channel(Sent(s, t), sender, kind)
              == Channel(Taken(s, t), sender, kind) + Channel(q', sender, kind)
  {
    match s.request
    case Send(_, _, _, _, _) => ChannelSum(q, Sent(s, t), sender, kind);
    case Receive(_, from, want, _) => if Taken(s, t) != [] { ReceiveTakesOldest(q, from, want, sender, kind); }
    case CloseOwner(pid) => NotFromChannel(q, pid, sender, kind);
  }

  /** The queues over a run. */
  ghost predicate IsRun(qss: seq<seq<Queue>>, trace: seq<Step>, t: int) {
    && |qss| == |trace| + 1
    && (forall i :: 0 <= i < |trace| ==> MovesAll(qss[i], qss[i + 1], trace[i]))
    && 0 <= t < |qss[0]| && qss[0][t] == []
  }

  lemma ClosedInOrder(delivered: Queue, was: Queue, accepted: Queue)
    requires Sub(delivered + was, accepted)
    ensures Sub(delivered + [] + [], accepted + [])
  {
    SubPrefix(delivered, was, accepted);
    assert delivered + [] + [] == delivered && accepted + [] == accepted;
  }

  /** Over any run and any filters: what is received of one sender and type, followed by what is waiting, is in the
      order in which it was accepted, and nothing is in it twice. */
  lemma {:induction false} ChannelOrder(qss: seq<seq<Queue>>, trace: seq<Step>, t: int, sender: int, kind: nat)
    requires IsRun(qss, trace, t)
    ensures t < |qss[|trace|]|
    ensures Sub(Delivered(trace, t, sender, kind) + Channel(qss[|trace|][t], sender, kind),
                Accepted(trace, t, sender, kind))
    decreases |trace|
  {
    if trace != [] {
      var n := |trace| - 1;
      var s := trace[n];
      ChannelOrder(qss[..n + 1], trace[..n], t, sender, kind);
      assert MovesAll(qss[n], qss[n + 1], s);
      ChannelMoves(qss[n][t], qss[n + 1][t], s, t, sender, kind);
      var was, now := Channel(qss[n][t], sender, kind), Channel(qss[n + 1][t], sender, kind);
      var sent, taken, delivered := Channel(Sent(s, t), sender, kind), Channel(Taken(s, t), sender, kind),
          Delivered(trace[..n], t, sender, kind);
      if Closes(s, sender, t) {
        ClosedInOrder(delivered, was, Accepted(trace[..n], t, sender, kind));
      } else {
        SubSent(delivered + was, Accepted(trace[..n], t, sender, kind), s, t, sender, kind);
        Regroup(delivered, was, sent);
        Regroup(delivered, taken, now);
      }
    }
  }

  /** Since the sender or the receiver was closed last, nothing of a channel is lost: what was accepted is what was
      received, followed by what is waiting. Closing either side drops what was waiting of the channel. */
  lemma {:induction false} NoneLost(qss: seq<seq<Queue>>, trace: seq<Step>, t: int, sender: int, kind: nat)
    requires IsRun(qss, trace, t)
    ensures t < |qss[|trace|]|
    ensures var since := SinceClosed(trace, t, sender);
            Accepted(since, t, sender, kind)
                == Delivered(since, t, sender, kind) + Channel(qss[|trace|][t], sender, kind)
    decreases |trace|
  {
    if trace != [] {
      var n := |trace| - 1;
      var s := trace[n];
      NoneLost(qss[..n + 1], trace[..n], t, sender, kind);
      assert MovesAll(qss[n], qss[n + 1], s);
      ChannelMoves(qss[n][t], qss[n + 1][t], s, t, sender, kind);
      if !Closes(s, sender, t) {
        var before := SinceClosed(trace[..n], t, sender);
        assert (before + [s])[..|before|] == before;
        var delivered := Delivered(before, t, sender, kind);
        Regroup(delivered, Channel(qss[n][t], sender, kind), Channel(Sent(s, t), sender, kind));
        Regroup(delivered, Channel(Taken(s, t), sender, kind), Channel(qss[n + 1][t], sender, kind));
      }
    }
  }

  // ---------------------------------------------------------------- the queues

  class Ipc {
    const slots: array2<Message>
    const counts: array<nat>
    const lastSender: array<int>

    ghost predicate Valid()
      reads slots, counts
    {
      && slots.Length0 == PROCESSES && slots.Length1 == DEPTH && counts.Length == PROCESSES
      && lastSender.Length == PROCESSES
      && (forall t :: 0 <= t < PROCESSES ==> counts[t] <= DEPTH)
      && forall t, i :: 0 <= t < PROCESSES && 0 <= i < counts[t] ==> slots[t, i].data != []
    }

    /** The messages waiting for process `t`, oldest first. */
    ghost function Waiting(t: int): (q: Queue)
      reads slots, counts
      requires Valid() && 0 <= t < PROCESSES
      ensures |q| == counts[t]
    {
      seq(counts[t], i requires 0 <= i < counts[t] && Valid() reads slots, counts => slots[t, i])
    }

    /** The queues of all processes. */
    ghost function Queues(): (qs: seq<Queue>)
      reads slots, counts
      requires Valid()
      ensures |qs| == PROCESSES && forall t :: 0 <= t < PROCESSES ==> qs[t] == Waiting(t)
    {
      seq(PROCESSES, t requires 0 <= t < PROCESSES && Valid() reads slots, counts => Waiting(t))
    }

    constructor ()
      ensures Valid() && fresh(slots) && fresh(counts) && fresh(lastSender)
              && forall t :: 0 <= t < PROCESSES ==> Waiting(t) == []
    {
      slots := new Message[PROCESSES, DEPTH]((_, _) => Message(-1, 0, []));
      counts := new nat[PROCESSES](_ => 0);
      lastSender := new int[PROCESSES](_ => -1);
    }

    /** ipc_send_typed; `data` is empty for a null pointer or size zero. */
    method Send(sender: int, target: int, kind: Tag, data: seq<Byte>, exist: set<int>) returns (code: int)
      requires Valid()
      modifies slots, counts
      ensures Valid()
      ensures var ok := && 0 <= sender < PROCESSES && 0 <= target < PROCESSES && sender in exist && target in exist
                        && 0 < |data| <= MAX_BYTES && old(counts[..])[target] < DEPTH;
              && code == (if ok then |data| else -1)
              && forall t :: 0 <= t < PROCESSES ==>
                   Waiting(t) == if ok && t == target then old(Waiting(t)) + [Message(sender, kind, data)]
                                 else old(Waiting(t))
    {
      if !(0 <= sender < PROCESSES) || !(0 <= target < PROCESSES) || sender !in exist || target !in exist { return -1; }
      if |data| == 0 || |data| > MAX_BYTES { return -1; }
      if counts[target] == DEPTH { return -1; }
      slots[target, counts[target]] := Message(sender, kind, data);
      counts[target] := counts[target] + 1;
      return |data|;
    }

    // The scan of ipc_receive_typed.
    method Find(t: int, sender: int, kind: int) returns (i: nat)
      requires Valid() && 0 <= t < PROCESSES
      ensures i == FirstMatch(Waiting(t), sender, kind)
    {
      ghost var q := Waiting(t);
      i := 0;
      while i < counts[t] && !Matches(slots[t, i], sender, kind)
        invariant 0 <= i <= counts[t] && forall j :: 0 <= j < i ==> !Matches(q[j], sender, kind)
      {
        i := i + 1;
      }
      OnlyFirst(q, sender, kind, i);
    }

    // Close the gap at position `i`.
    method Remove(t: int, i: nat)
      requires Valid() && 0 <= t < PROCESSES && i < counts[t]
      modifies slots, counts
      ensures Valid()
              && forall u :: 0 <= u < PROCESSES ==> Waiting(u) == if u == t then Without(old(Waiting(t)), i)
                                                                  else old(Waiting(u))
    {
      var k := i;
      while k + 1 < counts[t]
        invariant i <= k < counts[t] && counts[..] == old(counts[..])
        invariant forall u, j :: 0 <= u < PROCESSES && 0 <= j < DEPTH ==>
                    slots[u, j] == if u == t && i <= j < k then old(slots[u, j + 1]) else old(slots[u, j])
      {
        slots[t, k] := slots[t, k + 1];
        k := k + 1;
      }
      counts[t] := counts[t] - 1;
    }

    /** ipc_receive_typed: the first message that matches is taken out, the others keep their order. */
    method Receive(t: int, sender: int, kind: int, out: array<Byte>, max: nat) returns (code: int, m: Message)
      requires Valid() && max <= out.Length
      modifies slots, counts, lastSender, out
      ensures Valid()
      ensures !(0 <= t < PROCESSES) || max == 0 ==>
                code == -1 && forall u :: 0 <= u < PROCESSES ==> Waiting(u) == old(Waiting(u))
      ensures 0 <= t < PROCESSES && max > 0 ==>
                var q := old(Waiting(t));
                var i := FirstMatch(q, sender, kind);
                if i == |q| then code == 0 && forall u :: 0 <= u < PROCESSES ==> Waiting(u) == old(Waiting(u))
                else
                  && m == q[i] && code > 0 && code == (if |m.data| < max then |m.data| else max)
                  && out[..code] == m.data[..code] && lastSender[t] == m.sender
                  && forall u :: 0 <= u < PROCESSES ==> Waiting(u) == if u == t then Without(q, i) else old(Waiting(u))
    {
      m := Message(-1, 0, []);
      if !(0 <= t < PROCESSES) || max == 0 { return -1, m; }
      var i := Find(t, sender, kind);
      if i == counts[t] { return 0, m; }
      m := slots[t, i];
      Remove(t, i);
      lastSender[t] := m.sender;
      code := if |m.data| < max then |m.data| else max;
      CopyOut(out, m.data, code);
    }

    static method CopyOut(out: array<Byte>, data: seq<Byte>, n: nat)
      requires n <= |data| && n <= out.Length
      modifies out
      ensures out[..n] == data[..n]
    {
      for k := 0 to n
        invariant out[..k] == data[..k]
      {
        out[k] := data[k];
      }
    }

    // Drop the messages of `pid` from one queue, moving the others up.
    method Purge(t: int, pid: int)
      requires Valid() && 0 <= t < PROCESSES
      modifies slots, counts
      ensures Valid()
              && forall u :: 0 <= u < PROCESSES ==> Waiting(u) == if u == t then NotFrom(old(Waiting(t)), pid)
                                                                  else old(Waiting(u))
    {
      ghost var q := Waiting(t);
      var n, put, i := counts[t], 0, 0;
      assert q[..0] == [];
      while i < n
        invariant 0 <= put <= i <= n == |q| && counts[..] == old(counts[..]) && put == |NotFrom(q[..i], pid)|
        invariant forall u, j :: 0 <= u < PROCESSES && 0 <= j < DEPTH && !(u == t && j < put) ==>
                    slots[u, j] == old(slots[u, j])
        invariant forall j :: 0 <= j < put ==> slots[t, j] == NotFrom(q[..i], pid)[j] && slots[t, j].data != []
      {
        assert q[..i + 1][..i] == q[..i];
        assert slots[t, i] == q[i];
        if slots[t, i].sender != pid {
          slots[t, put] := slots[t, i];
          put := put + 1;
        }
        i := i + 1;
      }
      assert q[..n] == q;
      counts[t] := put;
    }

    /** ipc_close_owner: the process' own queue is emptied, and exactly the messages it sent disappear from the
        others. */
    method CloseOwner(pid: int)
      requires Valid()
      modifies slots, counts, lastSender
      ensures Valid()
      ensures forall t :: 0 <= t < PROCESSES ==>
                Waiting(t) == if !(0 <= pid < PROCESSES) then old(Waiting(t))
                              else if t == pid then []
                              else NotFrom(old(Waiting(t)), pid)
    {
      if !(0 <= pid < PROCESSES) { return; }
      counts[pid] := 0;
      lastSender[pid] := -1;
      for t := 0 to PROCESSES
        invariant Valid()
        invariant forall u :: 0 <= u < PROCESSES ==>
                    Waiting(u) == if u == pid then []
                                  else if u < t then NotFrom(old(Waiting(u)), pid)
                                  else old(Waiting(u))
      {
        Purge(t, pid);
      }
    }

    /** One request, and what it did to every queue. */
    method Handle(request: Request) returns (s: Step)
      requires Valid()
      modifies slots, counts, lastSender
      ensures Valid() && s.request == request && MovesAll(old(Queues()), Queues(), s)
    {
      match request {
        case Send(sender, target, kind, data, exist) =>
          var code := Send(sender, target, kind, data, exist);
          s := Step(request, code, []);
        case Receive(t, from, want, max) =>
          var out := new Byte[max](_ => 0);
          var code, m := Receive(t, from, want, out, max);
          s := Step(request, code, if code > 0 then [m] else []);
        case CloseOwner(pid) =>
          CloseOwner(pid);
          s := Step(request, 0, []);
      }
    }
  }

  /** Any number of requests, starting with empty queues. */
  method Serve(requests: seq<Request>) returns (ipc: Ipc, trace: seq<Step>)
    ensures ipc.Valid() && |trace| == |requests| && forall i :: 0 <= i < |trace| ==> trace[i].request == requests[i]
    ensures forall t, sender: int, kind: nat :: 0 <= t < PROCESSES ==>
              Sub(Delivered(trace, t, sender, kind) + Channel(ipc.Waiting(t), sender, kind),
                  Accepted(trace, t, sender, kind))
    ensures forall t, sender: int, kind: nat :: 0 <= t < PROCESSES ==>
              var since := SinceClosed(trace, t, sender);
              Accepted(since, t, sender, kind)
                  == Delivered(since, t, sender, kind) + Channel(ipc.Waiting(t), sender, kind)
  {
    ipc := new Ipc();
    trace := [];
    ghost var qss := [ipc.Queues()];
    for n := 0 to |requests|
      invariant ipc.Valid() && fresh(ipc.slots) && fresh(ipc.counts) && fresh(ipc.lastSender)
      invariant |trace| == n && |qss| == n + 1 && qss[n] == ipc.Queues()
      invariant forall i :: 0 <= i < n ==> trace[i].request == requests[i]
      invariant |qss[0]| == PROCESSES && forall t :: 0 <= t < PROCESSES ==> qss[0][t] == []
      invariant forall i :: 0 <= i < n ==> MovesAll(qss[i], qss[i + 1], trace[i])
    {
      var s := ipc.Handle(requests[n]);
      trace, qss := trace + [s], qss + [ipc.Queues()];
    }
    forall t, sender: int, kind: nat | 0 <= t < PROCESSES
      ensures Sub(Delivered(trace, t, sender, kind) + Channel(ipc.Waiting(t), sender, kind),
                  Accepted(trace, t, sender, kind))
      ensures var since := SinceClosed(trace, t, sender);
              Accepted(since, t, sender, kind)
                  == Delivered(since, t, sender, kind) + Channel(ipc.Waiting(t), sender, kind)
    {
      ChannelOrder(qss, trace, t, sender, kind);
      NoneLost(qss, trace, t, sender, kind);
    }
  }

  lemma OnlyFirst(q: Queue, sender: int, kind: int, i: nat)
    requires i <= |q|
             && (forall j :: 0 <= j < i ==> !Matches(q[j], sender, kind)) && (i < |q| ==> Matches(q[i], sender, kind))
    ensures FirstMatch(q, sender, kind) == i
  {}
}
