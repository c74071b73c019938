/** The two-level round-robin scheduler (kernel/process.c): who runs next, what a run of user code may do to the
    process table, and how long a process or thread can wait. */
module Scheduling {

  const MAX_PROCESSES := 16
  const MAX_THREADS := 32

  datatype ProcState = Unused | Ready | Running | Exited | Stopped
  datatype ThreadState = Free | Runnable | OnCpu | Done

  /** `cr3` is 0 for a thread without an address space; `wake` is 0 for one that does not sleep. */
  datatype Thread = Thread(state: ThreadState, cr3: nat, wake: nat)

  /** `cursor` is where the next scan of the threads starts; `lives` counts how often the
      slot was filled or emptied. */
  datatype Proc = Proc(state: ProcState, pml4: nat, threads: seq<Thread>, cursor: nat, lives: nat)

  predicate ProcOk(p: Proc) { |p.threads| == MAX_THREADS && p.cursor < MAX_THREADS }

  predicate TableOk(ps: seq<Proc>) { |ps| == MAX_PROCESSES && forall i :: 0 <= i < |ps| ==> ProcOk(ps[i]) }

  // ---------------------------------------------------------------- what the scheduler looks for

  /** The tests process_step_active makes on one thread. */
  predicate Eligible(p: Proc, t: int, now: nat)
    requires ProcOk(p) && 0 <= t < MAX_THREADS
  {
    var th := p.threads[t];
    && th.state == Runnable && th.cr3 != 0 && p.threads[0].cr3 == th.cr3
    && (t == 0 || p.threads[0].state != Free) && (th.wake == 0 || now >= th.wake)
  }

  predicate CanRun(p: Proc, now: nat)
    requires ProcOk(p)
  {
    p.state == Ready && exists t :: 0 <= t < MAX_THREADS && Eligible(p, t, now)
  }

  function ThreadAt(p: Proc, k: int): (t: int)
    requires ProcOk(p) && 0 <= k < MAX_THREADS
    ensures 0 <= t < MAX_THREADS
  {
    (p.cursor + k) % MAX_THREADS
  }

  /** Places after the cursor until thread `t` is looked at. */
  function ThreadDistance(p: Proc, t: int): (k: int)
    requires ProcOk(p) && 0 <= t < MAX_THREADS
    ensures 0 <= k < MAX_THREADS && ThreadAt(p, k) == t
  {
    (t - p.cursor + MAX_THREADS) % MAX_THREADS
  }

  function ProcAt(active: int, k: int): (i: int)
    requires -1 <= active < MAX_PROCESSES && 0 <= k < MAX_PROCESSES
    ensures 0 <= i < MAX_PROCESSES
  {
    (active + 1 + k) % MAX_PROCESSES
  }

  /** Places after the last dispatched process until process `q` is looked at. */
  function ProcDistance(active: int, q: int): (k: int)
    requires -1 <= active < MAX_PROCESSES && 0 <= q < MAX_PROCESSES
    ensures 0 <= k < MAX_PROCESSES && ProcAt(active, k) == q
  {
    (q - active - 1 + MAX_PROCESSES) % MAX_PROCESSES
  }

  /** `t` is the eligible thread closest to the cursor. */
  ghost predicate FirstThread(p: Proc, t: int, now: nat)
    requires ProcOk(p)
  {
    && 0 <= t < MAX_THREADS && Eligible(p, t, now)
    && forall u :: 0 <= u < MAX_THREADS && Eligible(p, u, now) ==> ThreadDistance(p, t) <= ThreadDistance(p, u)
  }

  /** `d` is the closest process that can run. */
  ghost predicate FirstProc(ps: seq<Proc>, active: int, d: int, now: nat)
    requires TableOk(ps) && -1 <= active < MAX_PROCESSES
  {
    && 0 <= d < MAX_PROCESSES && CanRun(ps[d], now)
    && forall q :: 0 <= q < MAX_PROCESSES && CanRun(ps[q], now) ==> ProcDistance(active, d) <= ProcDistance(active, q)
  }

  lemma SameThread(p: Proc, t: int, u: int)
    requires ProcOk(p) && 0 <= t < MAX_THREADS && 0 <= u < MAX_THREADS
    ensures ThreadDistance(p, t) == ThreadDistance(p, u) ==> t == u
  {}

  lemma ProcDistanceIs(active: int, q: int)
    requires -1 <= active < MAX_PROCESSES && 0 <= q < MAX_PROCESSES
    ensures ProcDistance(active, q) == if q > active then q - active - 1 else q - active - 1 + MAX_PROCESSES
  {}

  lemma SameProc(active: int, d: int, q: int)
    requires -1 <= active < MAX_PROCESSES && 0 <= d < MAX_PROCESSES && 0 <= q < MAX_PROCESSES
    ensures ProcDistance(active, d) == ProcDistance(active, q) ==> d == q
  {}

  // ---------------------------------------------------------------- what happens to the table

  /** process_release_resources, as far as scheduling goes. */
  function Released(p: Proc): Proc {
    Proc(p.state, 0, seq(MAX_THREADS, _ => Thread(Free, 0, 0)), 0, p.lives + 1)
  }

  /** process_kill. */
  function Killed(ps: seq<Proc>, pid: int): seq<Proc> {
    if 0 <= pid < |ps| && (ps[pid].state == Ready || ps[pid].state == Running || ps[pid].state == Stopped)
    then ps[pid := Released(ps[pid]).(state := Exited)] else ps
  }

  function Rested(threads: seq<Thread>): seq<Thread> {
    seq(|threads|, i requires 0 <= i < |threads| =>
          if threads[i].state == OnCpu then threads[i].(state := Runnable) else threads[i])
  }

  /** SIGSTOP and SIGCONT in process_send_signal. */
  function Halted(ps: seq<Proc>, pid: int): seq<Proc> {
    if 0 <= pid < |ps| && (ps[pid].state == Ready || ps[pid].state == Running)
    then ps[pid := ps[pid].(state := Stopped, threads := Rested(ps[pid].threads))] else ps
  }

  function Continued(ps: seq<Proc>, pid: int): seq<Proc> {
    if 0 <= pid < |ps| && ps[pid].state == Stopped then ps[pid := ps[pid].(state := Ready)] else ps
  }

  predicate Alive(p: Proc) {
    exists i :: 0 <= i < |p.threads| && (p.threads[i].state == Runnable || p.threads[i].state == OnCpu)
  }

  /** process_exit_current_thread for thread `t` of process `a`. */
  function ThreadExited(ps: seq<Proc>, a: int, t: int): seq<Proc>
    requires TableOk(ps)
  {
    if !(0 <= a < MAX_PROCESSES && 0 <= t < MAX_THREADS) || ps[a].threads[t].state == Free
        || ps[a].threads[t].state == Done then ps
    else
      var p := ps[a].(threads := ps[a].threads[t := ps[a].threads[t].(state := Done, wake := 0)]);
      ps[a := if Alive(p) then p.(state := Ready) else Released(p).(state := Exited)]
  }

  /** A new thread in slot `t` of process `a`, if the slot is free. */
  function ThreadAdded(ps: seq<Proc>, a: int, t: int, linux: bool): seq<Proc>
    requires TableOk(ps)
  {
    if !(0 <= a < MAX_PROCESSES && 1 <= t < MAX_THREADS) || ps[a].state == Unused
       || (ps[a].threads[t].state != Free && ps[a].threads[t].state != Done) then ps
    else
      var p := ps[a];
      var th := if linux then Thread(Runnable, p.pml4, 0) else Thread(Runnable, p.threads[0].cr3, p.threads[t].wake);
      ps[a := p.(threads := p.threads[t := th])]
  }

  /** A new process in slot `i`, if the slot is free. */
  function Spawned(ps: seq<Proc>, i: int, pml4: nat): seq<Proc>
    requires TableOk(ps)
  {
    if !(0 <= i < MAX_PROCESSES) || (ps[i].state != Unused && ps[i].state != Exited) then ps
    else
      var threads := seq(MAX_THREADS, t requires 0 <= t < MAX_THREADS => ps[i].threads[t].(state := Free, wake := 0));
      ps[i := Proc(Ready, pml4, threads[0 := Thread(Runnable, pml4, 0)], 0, ps[i].lives + 1)]
  }

  function Slept(ps: seq<Proc>, a: int, t: int, wake: nat): seq<Proc>
    requires TableOk(ps)
  {
    if 0 <= a < MAX_PROCESSES && 0 <= t < MAX_THREADS && (ps[a].state == Running || ps[a].state == Ready)
    then ps[a := ps[a].(threads := ps[a].threads[t := ps[a].threads[t].(wake := wake)])] else ps
  }

  /** What kernel code may do to the table on behalf of anybody. */
  datatype Effect = Kill(pid: int) | Halt(pid: int) | Continue(pid: int) | ExitThread
                  | AddThread(slot: int, linux: bool) | Spawn(index: int, pml4: nat) | Sleep(wake: nat)

  /** One effect, while `(a, t)` is the current thread. */
  function Effected(ps: seq<Proc>, a: int, t: int, e: Effect): seq<Proc>
    requires TableOk(ps)
  {
    match e
    case Kill(pid) => Killed(ps, pid)
    case Halt(pid) => Halted(ps, pid)
    case Continue(pid) => Continued(ps, pid)
    case ExitThread => ThreadExited(ps, a, t)
    case AddThread(slot, linux) => ThreadAdded(ps, a, slot, linux)
    case Spawn(index, pml4) => Spawned(ps, index, pml4)
    case Sleep(wake) => Slept(ps, a, t, wake)
  }

  lemma EffectedOk(ps: seq<Proc>, a: int, t: int, e: Effect)
    requires TableOk(ps)
    ensures TableOk(Effected(ps, a, t, e))
  {}

  function AllEffects(ps: seq<Proc>, a: int, t: int, es: seq<Effect>): (r: seq<Proc>)
    requires TableOk(ps)
    ensures TableOk(r)
    decreases |es|
  {
    if es == [] then ps
    else
      var r := AllEffects(ps, a, t, es[..|es| - 1]);
      EffectedOk(r, a, t, es[|es| - 1]);
      Effected(r, a, t, es[|es| - 1])
  }

  // ---------------------------------------------------------------- who is on the CPU

  /** Only thread `t` of process `a` may be on the CPU, and only that process may be in state Running. */
  ghost predicate OnlyRunning(ps: seq<Proc>, a: int, t: int)
    requires TableOk(ps)
  {
    && (forall i, j :: 0 <= i < MAX_PROCESSES && 0 <= j < MAX_THREADS && ps[i].threads[j].state == OnCpu ==>
      i == a && j == t)
    && (forall i :: 0 <= i < MAX_PROCESSES && ps[i].state == Running ==>
      i == a && 0 <= t < MAX_THREADS && ps[i].threads[t].state == OnCpu)
  }

  /** Nothing runs. */
  ghost predicate Quiet(ps: seq<Proc>)
    requires TableOk(ps)
  {
    OnlyRunning(ps, -1, -1)
  }

  /** No effect puts a thread on the CPU. */
  lemma EffectKeepsRunning(ps: seq<Proc>, a: int, t: int, e: Effect, c: int, u: int)
    requires TableOk(ps) && OnlyRunning(ps, c, u)
    ensures TableOk(Effected(ps, a, t, e)) && OnlyRunning(Effected(ps, a, t, e), c, u)
  {
    EffectedOk(ps, a, t, e);
  }

  lemma {:induction false} EffectsKeepRunning(ps: seq<Proc>, a: int, t: int, es: seq<Effect>, c: int, u: int)
    requires TableOk(ps) && OnlyRunning(ps, c, u)
    ensures OnlyRunning(AllEffects(ps, a, t, es), c, u)
    decreases |es|
  {
    if es != [] {
      EffectsKeepRunning(ps, a, t, es[..|es| - 1], c, u);
      EffectKeepsRunning(AllEffects(ps, a, t, es[..|es| - 1]), a, t, es[|es| - 1], c, u);
    }
  }

  // ---------------------------------------------------------------- one call of the scheduler

  /** Thread `t` of process `d` is put on the CPU. */
  function Dispatched(ps: seq<Proc>, d: int, t: int): (r: seq<Proc>)
    requires TableOk(ps) && 0 <= d < MAX_PROCESSES && 0 <= t < MAX_THREADS
    ensures TableOk(r)
  {
    ps[d := ps[d].(state := Running, cursor := t,
                   threads := ps[d].threads[t := ps[d].threads[t].(state := OnCpu, wake := 0)])]
  }

  /** User code came back with result `res`. */
  function TakenOff(ps: seq<Proc>, d: int, t: int, res: int): (r: seq<Proc>)
    requires TableOk(ps) && 0 <= d < MAX_PROCESSES && 0 <= t < MAX_THREADS
    ensures TableOk(r)
  {
    EffectedOk(ps, d, t, ExitThread);
    var r := if res == 2 then ThreadExited(ps, d, t)
             else if ps[d].threads[t].state == OnCpu
             then ps[d := ps[d].(state := Ready, threads := ps[d].threads[t := ps[d].threads[t].(state := Runnable)])]
             else ps;
    r[d := r[d].(cursor := (t + 1) % MAX_THREADS)]
  }

  /** A turn of thread `t` of process `d`, in which user code has the effects `es`. */
  function Turn(ps: seq<Proc>, d: int, t: int, es: seq<Effect>, res: int): (r: seq<Proc>)
    requires TableOk(ps) && 0 <= d < MAX_PROCESSES && 0 <= t < MAX_THREADS
    ensures TableOk(r)
  {
    TakenOff(AllEffects(Dispatched(ps, d, t), d, t, es), d, t, res)
  }

  /** While user code runs only the dispatched thread is on the CPU; afterwards nothing is, whatever it did. */
  lemma TurnIsExclusive(ps: seq<Proc>, d: int, t: int, es: seq<Effect>, res: int)
    requires TableOk(ps) && Quiet(ps) && 0 <= d < MAX_PROCESSES && 0 <= t < MAX_THREADS
    ensures OnlyRunning(Dispatched(ps, d, t), d, t)
    ensures forall k :: 0 <= k <= |es| ==> OnlyRunning(AllEffects(Dispatched(ps, d, t), d, t, es[..k]), d, t)
    ensures Quiet(Turn(ps, d, t, es, res))
  {
    var start := Dispatched(ps, d, t);
    forall k | 0 <= k <= |es| ensures OnlyRunning(AllEffects(start, d, t, es[..k]), d, t) {
      EffectsKeepRunning(start, d, t, es[..k], d, t);
    }
    assert es[..|es|] == es;
    OffIsQuiet(AllEffects(start, d, t, es), d, t, res);
  }

  lemma OffIsQuiet(ps: seq<Proc>, d: int, t: int, res: int)
    requires TableOk(ps) && 0 <= d < MAX_PROCESSES && 0 <= t < MAX_THREADS && OnlyRunning(ps, d, t)
    ensures Quiet(TakenOff(ps, d, t, res))
  {}

  class Scheduler {
    var procs: seq<Proc>
    var active: int
    var thread: int

    ghost predicate Valid()
      reads this
    {
      TableOk(procs) && -1 <= active < MAX_PROCESSES && 0 <= thread < MAX_THREADS
    }

    /** process_init. */
    constructor ()
      ensures Valid() && Quiet(procs) && active == -1 && forall i :: 0 <= i < MAX_PROCESSES ==> procs[i].state == Unused
    {
      procs := seq(MAX_PROCESSES, _ => Proc(Unused, 0, seq(MAX_THREADS, _ => Thread(Free, 0, 0)), 0, 0));
      active, thread := -1, 0;
    }

    // The scan over the threads of one process; -1 when none is eligible.
    method FindThread(p: Proc, now: nat) returns (t: int)
      requires ProcOk(p)
      ensures t == -1 ==> forall u :: 0 <= u < MAX_THREADS ==> !Eligible(p, u, now)
      ensures t != -1 ==> FirstThread(p, t, now)
    {
      for k := 0 to MAX_THREADS
        invariant forall u :: 0 <= u < MAX_THREADS && Eligible(p, u, now) ==> k <= ThreadDistance(p, u)
      {
        t := (p.cursor + k) % MAX_THREADS;
        assert t == ThreadAt(p, k) && ThreadDistance(p, t) == k;
        var th := p.threads[t];
        if th.state != Runnable { continue; }
        if th.cr3 == 0 { continue; }
        if p.threads[0].cr3 != th.cr3 { continue; }
        if t != 0 && p.threads[0].state == Free { continue; }
        if th.wake != 0 && now < th.wake { continue; }
        return t;
      }
      return -1;
    }

    /** End the current thread (process_exit_current_thread); 1 when the process ended with it, -1 when there is nothing
        to end. */
    method ExitCurrentThread() returns (code: int)
      requires Valid()
      modifies `procs
      ensures Valid() && procs == ThreadExited(old(procs), active, thread)
      ensures code == 1 <==>
              active >= 0 && old(procs[active].threads[thread].state) in {Runnable, OnCpu}
              && procs[active].state == Exited
    {
      EffectedOk(procs, active, thread, ExitThread);
      if active < 0 { return -1; }
      var p := procs[active];
      var th := p.threads[thread];
      if th.state == Free || th.state == Done { return -1; }
      p := p.(threads := p.threads[thread := th.(state := Done, wake := 0)]);
      var alive := false;
      for i := 0 to MAX_THREADS
        invariant alive <==> exists j :: 0 <= j < i && (p.threads[j].state == Runnable || p.threads[j].state == OnCpu)
      {
        if p.threads[i].state == Runnable || p.threads[i].state == OnCpu {
          alive := true;
          break;
        }
      }
      assert alive <==> Alive(p);
      if !alive {
        procs := procs[active := Released(p).(state := Exited)];
        return 1;
      }
      procs := procs[active := p.(state := Ready)];
      return 0;
    }

    // One turn of a thread that was chosen.
    method RunThread(t: int, es: seq<Effect>, res: int)
      requires Valid() && active >= 0 && 0 <= t < MAX_THREADS
      modifies `procs, `thread
      ensures Valid() && thread == t && procs == Turn(old(procs), active, t, es, res)
    {
      var p := procs[active];
      thread := t;
      procs := procs[active := p.(state := Running, cursor := t,
                                  threads := p.threads[t := p.threads[t].(state := OnCpu, wake := 0)])];
      // process_switch_to_user: anything may happen to the table while user code runs
      procs := AllEffects(procs, active, thread, es);
      if res == 2 {
        var _ := ExitCurrentThread();
      } else if procs[active].threads[t].state == OnCpu {
        p := procs[active];
        procs := procs[active := p.(state := Ready, threads := p.threads[t := p.threads[t].(state := Runnable)])];
      }
      procs := procs[active := procs[active].(cursor := (t + 1) % MAX_THREADS)];
    }

    /** One call of process_step_active. It gives a turn to the closest process that can run, and in it to the closest
        eligible thread; nothing is on the CPU afterwards. */
    method StepActive(now: nat, es: seq<Effect>, res: int) returns (ran: bool)
      requires Valid() && Quiet(procs)
      modifies this
      ensures Valid() && Quiet(procs)
      ensures ran ==> FirstProc(old(procs), old(active), active, now) && FirstThread(old(procs)[active], thread, now)
      ensures ran ==> procs == Turn(old(procs), active, thread, es, res)
      ensures !ran ==> procs == old(procs) && forall q :: 0 <= q < MAX_PROCESSES ==> !CanRun(procs[q], now)
      ensures !ran ==> active == (old(active) + MAX_PROCESSES) % MAX_PROCESSES
      ensures Stepped(Table(old(procs), old(active)), Round(now, es, res, []), Table(procs, active),
                      if ran then active else -1, thread)
    {
      var t := Choose(now);
      if t == -1 { return false; }
      TurnIsExclusive(procs, active, t, es, res);
      RunThread(t, es, res);
      return true;
    }

    // The search of process_step_active: the process to run becomes the active one; -1 when none can run.
    method Choose(now: nat) returns (t: int)
      requires Valid()
      modifies `active
      ensures Valid() && -1 <= t < MAX_THREADS
      ensures t >= 0 ==> active >= 0 && FirstProc(procs, old(active), active, now) && FirstThread(procs[active], t, now)
      ensures t == -1 ==> forall q :: 0 <= q < MAX_PROCESSES ==> !CanRun(procs[q], now)
      ensures t == -1 ==> active == (old(active) + MAX_PROCESSES) % MAX_PROCESSES
    {
      ghost var start := active;
      for step := 0 to MAX_PROCESSES
        invariant -1 <= active < MAX_PROCESSES && active == if step == 0 then start else ProcAt(start, step - 1)
        invariant forall q :: 0 <= q < MAX_PROCESSES && CanRun(procs[q], now) ==> step <= ProcDistance(start, q)
      {
        NextProc(start, active, step);
        active := (active + 1) % MAX_PROCESSES;
        if procs[active].state != Ready {
          Passed(procs, start, active, step, now);
          continue;
        }
        t := FindThread(procs[active], now);
        if t != -1 { return; }
        Passed(procs, start, active, step, now);
      }
      return -1;
    }
  }

  lemma NextProc(start: int, active: int, step: int)
    requires -1 <= start < MAX_PROCESSES && 0 <= step < MAX_PROCESSES && -1 <= active < MAX_PROCESSES
    requires active == if step == 0 then start else ProcAt(start, step - 1)
    ensures (active + 1) % MAX_PROCESSES == ProcAt(start, step) && ProcDistance(start, ProcAt(start, step)) == step
  {}

  /** A process that cannot run is passed over. */
  lemma Passed(ps: seq<Proc>, start: int, active: int, step: int, now: nat)
    requires TableOk(ps) && -1 <= start < MAX_PROCESSES && 0 <= active < MAX_PROCESSES
             && ProcDistance(start, active) == step
    requires forall q :: 0 <= q < MAX_PROCESSES && CanRun(ps[q], now) ==> step <= ProcDistance(start, q)
    requires !CanRun(ps[active], now)
    ensures forall q :: 0 <= q < MAX_PROCESSES && CanRun(ps[q], now) ==> step + 1 <= ProcDistance(start, q)
  {
    forall q | 0 <= q < MAX_PROCESSES && CanRun(ps[q], now) ensures step + 1 <= ProcDistance(start, q) {
      SameProc(start, active, q);
    }
  }

  // ---------------------------------------------------------------- bounded waiting

  /** The state between two calls of the scheduler. */
  datatype Table = Table(ps: seq<Proc>, active: int)

  /** One call: the clock, what user code does and returns, and what else happens before the next call. */
  datatype Round = Round(now: nat, es: seq<Effect>, res: int, between: seq<Effect>)

  /** A call of the scheduler that ran thread `t` of process `d`; `d` is -1 when nothing could run. */
  ghost predicate Stepped(s: Table, r: Round, s': Table, d: int, t: int) {
    && TableOk(s.ps) && -1 <= s.active < MAX_PROCESSES
    && if d == -1 then
         && (forall q :: 0 <= q < MAX_PROCESSES ==> !CanRun(s.ps[q], r.now))
         && s' == Table(AllEffects(s.ps, -1, -1, r.between), (s.active + MAX_PROCESSES) % MAX_PROCESSES)
       else
         && FirstProc(s.ps, s.active, d, r.now) && FirstThread(s.ps[d], t, r.now)
         && s' == Table(AllEffects(Turn(s.ps, d, t, r.es, r.res), d, t, r.between), d)
  }

  /** An effect leaves the cursor of a process alone unless its slot is filled or emptied. */
  lemma EffectCursor(ps: seq<Proc>, a: int, t: int, e: Effect, q: int)
    requires TableOk(ps) && 0 <= q < MAX_PROCESSES
    ensures TableOk(Effected(ps, a, t, e))
    ensures var p := Effected(ps, a, t, e)[q];
            p.lives >= ps[q].lives && (p.lives == ps[q].lives ==> p.cursor == ps[q].cursor)
  {
    EffectedOk(ps, a, t, e);
  }

  lemma {:induction false} EffectsCursor(ps: seq<Proc>, a: int, t: int, es: seq<Effect>, q: int)
    requires TableOk(ps) && 0 <= q < MAX_PROCESSES
    ensures var p := AllEffects(ps, a, t, es)[q];
            p.lives >= ps[q].lives && (p.lives == ps[q].lives ==> p.cursor == ps[q].cursor)
    decreases |es|
  {
    if es != [] {
      EffectsCursor(ps, a, t, es[..|es| - 1], q);
      EffectCursor(AllEffects(ps, a, t, es[..|es| - 1]), a, t, es[|es| - 1], q);
    }
  }

  /** A call moves the cursor of the process it runs just past the thread it ran, and no other cursor. */
  lemma StepCursor(s: Table, r: Round, s': Table, d: int, t: int, q: int)
    requires Stepped(s, r, s', d, t) && 0 <= q < MAX_PROCESSES
    ensures TableOk(s'.ps) && s'.ps[q].lives >= s.ps[q].lives
    ensures s'.ps[q].lives == s.ps[q].lives ==> s'.ps[q].cursor == if d == q then (t + 1) % MAX_THREADS
                                                                   else s.ps[q].cursor
  {
    if d == -1 {
      EffectsCursor(s.ps, -1, -1, r.between, q);
    } else {
      var mid := AllEffects(Dispatched(s.ps, d, t), d, t, r.es);
      EffectsCursor(Dispatched(s.ps, d, t), d, t, r.es, q);
      EffectCursor(mid, d, t, ExitThread, q);
      EffectsCursor(Turn(s.ps, d, t, r.es, r.res), d, t, r.between, q);
    }
  }

  /** How many calls thread `t` of process `q` can still be passed over. */
  function Patience(s: Table, q: int, t: int): (n: int)
    requires TableOk(s.ps) && -1 <= s.active < MAX_PROCESSES && 0 <= q < MAX_PROCESSES && 0 <= t < MAX_THREADS
    ensures 0 <= n < MAX_PROCESSES * MAX_THREADS
  {
    MAX_PROCESSES * ThreadDistance(s.ps[q], t) + ProcDistance(s.active, q)
  }

  lemma CloserProc(active: int, d: int, q: int)
    requires -1 <= active < MAX_PROCESSES && 0 <= d < MAX_PROCESSES && 0 <= q < MAX_PROCESSES
             && ProcDistance(active, d) < ProcDistance(active, q)
    ensures ProcDistance(d, q) < ProcDistance(active, q)
  {
    ProcDistanceIs(active, d);
    ProcDistanceIs(active, q);
    ProcDistanceIs(d, q);
  }

  lemma CloserThread(cursor: int, u: int, t: int)
    requires 0 <= cursor < MAX_THREADS && 0 <= u < MAX_THREADS && 0 <= t < MAX_THREADS
    requires (u - cursor + MAX_THREADS) % MAX_THREADS < (t - cursor + MAX_THREADS) % MAX_THREADS
    ensures (t - (u + 1) % MAX_THREADS + MAX_THREADS) % MAX_THREADS < (t - cursor + MAX_THREADS) % MAX_THREADS
  {}

  /** A call that runs another process brings every process that could run closer to its turn. */
  lemma ProcCloser(s: Table, r: Round, s': Table, d: int, t: int, q: int)
    requires Stepped(s, r, s', d, t) && 0 <= q < MAX_PROCESSES && CanRun(s.ps[q], r.now) && d != q
    ensures 0 <= s'.active < MAX_PROCESSES && ProcDistance(s'.active, q) < ProcDistance(s.active, q)
  {
    SameProc(s.active, d, q);
    CloserProc(s.active, d, q);
  }

  /** A call that does not run an eligible thread takes some of its patience away. */
  lemma PatienceDrops(s: Table, r: Round, s': Table, d: int, u: int, q: int, t: int)
    requires Stepped(s, r, s', d, u) && 0 <= q < MAX_PROCESSES && 0 <= t < MAX_THREADS
    requires s.ps[q].state == Ready && Eligible(s.ps[q], t, r.now) && (d, u) != (q, t)
    requires TableOk(s'.ps) && s'.ps[q].lives == s.ps[q].lives
    ensures 0 <= s'.active < MAX_PROCESSES && Patience(s', q, t) < Patience(s, q, t)
  {
    StepCursor(s, r, s', d, u, q);
    if d != q {
      ProcCloser(s, r, s', d, u, q);
      assert ThreadDistance(s'.ps[q], t) == ThreadDistance(s.ps[q], t);
    } else {
      SameThread(s.ps[q], u, t);
      CloserThread(s.ps[q].cursor, u, t);
      assert ThreadDistance(s'.ps[q], t) < ThreadDistance(s.ps[q], t);
    }
  }

  /** A run: the states before each call and after the last, and who ran. */
  ghost predicate IsRun(states: seq<Table>, rounds: seq<Round>, who: seq<(int, int)>) {
    && |states| == |rounds| + 1 && |who| == |rounds|
    && (forall i :: 0 <= i < |states| ==> TableOk(states[i].ps) && -1 <= states[i].active < MAX_PROCESSES)
    && forall i :: 0 <= i < |rounds| ==> Stepped(states[i], rounds[i], states[i + 1], who[i].0, who[i].1)
  }

  /** Process `q` can run at every call. */
  ghost predicate ProcWaits(states: seq<Table>, rounds: seq<Round>, who: seq<(int, int)>, q: int)
    requires IsRun(states, rounds, who) && 0 <= q < MAX_PROCESSES
  {
    forall i :: 0 <= i < |rounds| ==> CanRun(states[i].ps[q], rounds[i].now)
  }

  /** A process that can run at every call gets a turn within MAX_PROCESSES calls. */
  lemma {:induction false} ProcessTurn(states: seq<Table>, rounds: seq<Round>, who: seq<(int, int)>, q: int)
    returns (i: nat)
    requires IsRun(states, rounds, who) && 0 <= q < MAX_PROCESSES && ProcWaits(states, rounds, who, q)
    requires |rounds| > ProcDistance(states[0].active, q)
    ensures i < |rounds| && who[i].0 == q && i <= ProcDistance(states[0].active, q) < MAX_PROCESSES
    decreases |rounds|
  {
    assert Stepped(states[0], rounds[0], states[1], who[0].0, who[0].1);
    if who[0].0 == q { return 0; }
    ProcCloser(states[0], rounds[0], states[1], who[0].0, who[0].1, q);
    var j := ProcessTurn(states[1..], rounds[1..], who[1..], q);
    i := j + 1;
  }

  /** Thread `t` of process `q` is eligible at every call, and the slot is neither emptied nor filled. */
  ghost predicate ThreadWaits(states: seq<Table>, rounds: seq<Round>, who: seq<(int, int)>, q: int, t: int)
    requires IsRun(states, rounds, who) && 0 <= q < MAX_PROCESSES && 0 <= t < MAX_THREADS
  {
    && (forall i :: 0 <= i < |rounds| ==> states[i].ps[q].state == Ready && Eligible(states[i].ps[q], t, rounds[i].now))
    && (forall i :: 0 <= i < |states| ==> states[i].ps[q].lives == states[0].ps[q].lives)
  }

  /** A thread that is eligible at every call, in a slot that is not emptied or filled meanwhile, gets a turn within
      MAX_PROCESSES * MAX_THREADS calls. */
  lemma {:induction false} ThreadTurn(states: seq<Table>, rounds: seq<Round>, who: seq<(int, int)>, q: int, t: int)
    returns (i: nat)
    requires IsRun(states, rounds, who) && 0 <= q < MAX_PROCESSES && 0 <= t < MAX_THREADS
             && ThreadWaits(states, rounds, who, q, t)
    requires |rounds| > Patience(states[0], q, t)
    ensures i < |rounds| && who[i] == (q, t) && i <= Patience(states[0], q, t) < MAX_PROCESSES * MAX_THREADS
    decreases |rounds|
  {
    assert Stepped(states[0], rounds[0], states[1], who[0].0, who[0].1);
    if who[0] == (q, t) { return 0; }
    PatienceDrops(states[0], rounds[0], states[1], who[0].0, who[0].1, q, t);
    var j := ThreadTurn(states[1..], rounds[1..], who[1..], q, t);
    i := j + 1;
  }
}
