/** The service manager (kernel/service.c): services start after the service they depend on. */
module Services {

  const SERVICE_MAX := 16
  const NO_DEPENDENCY := -1

  datatype State = Stopped | Starting | Ready | Failed

  datatype Service = Service(dependency: int, state: State, starts: nat, restartLimit: nat, restarts: nat, pid: int,
                             userspace: bool, timeout: nat, lastBeat: nat, restartAt: nat)

  /** A start function or program was run for service `id`; `dependencyReady` tells whether what it needs was ready. */
  datatype Start = Start(id: int, dependencyReady: bool)

  /** What a start answers: for a kernel service its result, for a program its process id or -1. */
  type Answers = nat -> int

  /** A service depends only on services registered before it. */
  ghost predicate Ordered(ss: seq<Service>) {
    |ss| <= SERVICE_MAX && forall i :: 0 <= i < |ss| ==> NO_DEPENDENCY <= ss[i].dependency < i
  }

  predicate IsReady(ss: seq<Service>, i: int) { 0 <= i < |ss| && ss[i].state == Ready }

  /** What service `i` depends on is ready. */
  predicate Supported(ss: seq<Service>, i: int)
    requires 0 <= i < |ss|
  {
    ss[i].dependency == NO_DEPENDENCY || IsReady(ss, ss[i].dependency)
  }

  /** Every ready service is supported, except those that depend on `x`. */
  ghost predicate ClosedBut(ss: seq<Service>, x: int) {
    forall i :: 0 <= i < |ss| && ss[i].state == Ready && ss[i].dependency != x ==> Supported(ss, i)
  }

  /** The ready services are closed under dependencies. */
  ghost predicate Closed(ss: seq<Service>) { forall i :: 0 <= i < |ss| && ss[i].state == Ready ==> Supported(ss, i) }

  /** The same services, up to state and counters; those above `top`, and those that were ready, are untouched. */
  ghost predicate Grew(was: seq<Service>, now: seq<Service>, top: int) {
    && |now| == |was|
    && (forall i :: 0 <= i < |was| ==> now[i].dependency == was[i].dependency && now[i].restarts == was[i].restarts
                                        && now[i].restartLimit == was[i].restartLimit)
    && (forall i :: 0 <= i < |was| && (i > top || was[i].state == Ready) ==> now[i] == was[i])
  }

  /** What was closed stays closed. */
  ghost predicate Advanced(was: seq<Service>, now: seq<Service>, top: int, x: int) {
    Grew(was, now, top) && (Closed(was) ==> Closed(now)) && (ClosedBut(was, x) ==> ClosedBut(now, x))
  }

  lemma AdvancedOn(a: seq<Service>, b: seq<Service>, c: seq<Service>, top: int, x: int)
    requires Advanced(a, b, top, x) && Advanced(b, c, top, x)
    ensures Advanced(a, c, top, x)
  {}

  class ServiceManager {
    var services: seq<Service>
    var alive: set<int>
    var nextPoll: nat
    var started: nat
    ghost var log: seq<Start>

    /** Dependencies point down, and every start so far found its dependency ready. */
    ghost predicate Valid()
      reads this
    {
      Ordered(services) && forall i :: 0 <= i < |log| ==> log[i].dependencyReady
    }

    /** service_manager_init. */
    constructor ()
      ensures Valid() && services == [] && log == [] && alive == {}
    {
      services, alive, nextPoll, started, log := [], {}, 0, 0, [];
    }

    /** service_register and service_register_userspace; `good` stands for the checks on names and paths. */
    method Register(good: bool, dependency: int, userspace: bool, timeout: nat) returns (id: int)
      requires Valid()
      modifies this
      ensures Valid() && log == old(log) && alive == old(alive)
      ensures id >= 0 <==>
              good && |old(services)| < SERVICE_MAX && NO_DEPENDENCY <= dependency < |old(services)|
              && (userspace ==> timeout >= 1000)
      ensures id >= 0 ==> id == |old(services)| && |services| == id + 1 && services[..id] == old(services)
                          && services[id].dependency == dependency && services[id].state == Stopped
      ensures id < 0 ==> id == -1 && services == old(services)
      ensures old(Closed(services)) ==> Closed(services)
    {
      if !good || |services| >= SERVICE_MAX || dependency >= |services| || dependency < NO_DEPENDENCY { return -1; }
      if userspace && timeout < 1000 { return -1; }
      id := |services|;
      var s := Service(dependency, Stopped, 0, if userspace then 4 else 2, 0, -1, userspace,
                       if userspace then timeout else 0, 0, 0);
      ghost var was := services;
      services := services + [s];
      forall i | old(Closed(services)) && 0 <= i < |services| && services[i].state == Ready
        ensures Supported(services, i) {
        assert Supported(was, i);
      }
    }

    // Run the start function or spawn the program of a service whose dependency is ready.
    method Launch(id: int, now: nat, answers: Answers) returns (result: int)
      requires Valid() && 0 <= id < |services| && Supported(services, id)
      modifies `services, `alive, `started, `log
      ensures Valid() && |services| == |old(services)| && services == old(services)[id := services[id]]
      ensures services[id].dependency == old(services[id].dependency)
      ensures services[id].restarts == old(services[id].restarts)
              && services[id].restartLimit == old(services[id].restartLimit)
      ensures services[id].state == if result == 0 then Ready else Failed
      ensures log == old(log) + [Start(id, true)]
    {
      var s := services[id];
      var answer := answers(started);
      started := started + 1;
      log := log + [Start(id, Supported(services, id))];
      if s.userspace {
        s := s.(pid := if answer >= 0 then answer else -1, lastBeat := now);
        if answer >= 0 { alive := alive + {answer}; }
        result := if answer >= 0 then 0 else -1;
      } else {
        result := answer;
      }
      services := services[id := s.(starts := s.starts + 1, state := if result == 0 then Ready else Failed)];
    }

    /** service_start_one. The recursion goes to smaller numbers only, so a service already being started is never met
        again. Afterwards the service is ready exactly on success; ready services are not disturbed, and what was closed
        stays closed. */
    method StartOne(id: int, visiting: set<int>, now: nat, answers: Answers, ghost x: int) returns (result: int)
      requires Valid() && forall v :: v in visiting ==> v > id
      modifies `services, `alive, `started, `log
      ensures Valid()
      ensures !(0 <= id < |old(services)|) ==> result == -1 && services == old(services) && log == old(log)
      ensures Advanced(old(services), services, id, x)
      ensures 0 <= id < |services| ==> (result == 0 <==> services[id].state == Ready)
      ensures 0 <= id < |services| && result == 0 && !old(IsReady(services, id)) ==> Supported(services, id)
      ensures 0 <= id < |services| && old(Supported(services, id)) ==> services == old(services)[id := services[id]]
      ensures old(IsReady(services, id)) ==> result == 0 && services == old(services) && log == old(log)
      ensures |log| >= |old(log)| && log[..|old(log)|] == old(log)
      decreases id, 1
    {
      if id < 0 || id >= |services| { return -1; }
      if services[id].state == Ready { return 0; }
      assert id !in visiting;
      ghost var was := services;
      Mark(id, Starting, x);
      ghost var marked := services;
      var supported := StartNeeded(id, visiting, now, answers, x);
      AdvancedOn(was, marked, services, id, x);
      ghost var before := services;
      if supported {
        result := Launch(id, now, answers);
        NowClosed(before, services, id, x);
      } else {
        Mark(id, Failed, x);
        result := -1;
      }
      AdvancedOn(was, before, services, id, x);
    }

    // Set the state of a service that is not ready to another one.
    method Mark(id: int, state: State, ghost x: int)
      requires Valid() && 0 <= id < |services| && services[id].state != Ready && state != Ready
      modifies `services
      ensures Valid() && services == old(services)[id := old(services)[id].(state := state)]
              && Advanced(old(services), services, id, x)
    {
      StillClosed(services, services[id := services[id].(state := state)], id, x);
      services := services[id := services[id].(state := state)];
    }

    // Start what a service depends on; say whether that is ready.
    method StartNeeded(id: int, visiting: set<int>, now: nat, answers: Answers, ghost x: int) returns (supported: bool)
      requires Valid() && 0 <= id < |services| && services[id].state != Ready && forall v :: v in visiting ==> v > id
      modifies `services, `alive, `started, `log
      ensures Valid() && Advanced(old(services), services, id, x) && services[id] == old(services)[id]
      ensures supported <==> Supported(services, id)
      ensures old(Supported(services, id)) ==> services == old(services)
      ensures |log| >= |old(log)| && log[..|old(log)|] == old(log)
      decreases id, 0
    {
      var dependency := services[id].dependency;
      supported := true;
      if dependency != NO_DEPENDENCY {
        var code := StartOne(dependency, visiting + {id}, now, answers, x);
        supported := code == 0;
      }
    }

    // The retries of service_start_all for one service.
    method Retry(i: int, now: nat, answers: Answers)
      requires Valid() && 0 <= i < |services| && services[i].state != Ready
      modifies `services, `alive, `started, `log
      ensures Valid() && |services| == |old(services)| && (old(Closed(services)) ==> Closed(services))
      ensures forall j :: 0 <= j < |services| && old(services[j].state) == Ready ==> services[j] == old(services[j])
      ensures services[i].state == Ready || services[i].state != Failed
              || services[i].restarts >= services[i].restartLimit
    {
      while services[i].state == Failed && services[i].restarts < services[i].restartLimit
        invariant Valid() && |services| == |old(services)| && (old(Closed(services)) ==> Closed(services))
        invariant forall j :: 0 <= j < |services| && old(services[j].state) == Ready ==> services[j] == old(services[j])
        decreases services[i].restartLimit - services[i].restarts
      {
        var s := services[i];
        StillClosed(services, services[i := s.(restarts := s.restarts + 1, state := Stopped)], i, -2);
        services := services[i := s.(restarts := s.restarts + 1, state := Stopped)];
        var code := StartOne(i, {}, now, answers, -2);
        if code == 0 { break; }
      }
    }

    /** service_start_all: closedness is preserved, nothing that was ready is lost, and 0 means that everything is
        ready. */
    method StartAll(now: nat, answers: Answers) returns (result: int)
      requires Valid()
      modifies `services, `alive, `started, `log
      ensures Valid() && result <= 0 && |services| == |old(services)|
      ensures old(Closed(services)) ==> Closed(services)
      ensures forall j :: 0 <= j < |services| && old(services[j].state) == Ready ==> services[j].state == Ready
      ensures result == 0 ==> forall j :: 0 <= j < |services| ==> services[j].state == Ready
    {
      var failures := 0;
      for i := 0 to |services|
        invariant Valid() && |services| == |old(services)| && failures >= 0
                  && (old(Closed(services)) ==> Closed(services))
        invariant forall j :: 0 <= j < |services| && old(services[j].state) == Ready ==> services[j].state == Ready
        invariant failures == 0 ==> forall j :: 0 <= j < i ==> services[j].state == Ready
      {
        var code := StartOne(i, {}, now, answers, -2);
        if code == 0 { continue; }
        Retry(i, now, answers);
        if services[i].state != Ready { failures := failures + 1; }
      }
      return -failures;
    }

    /** service_restart. From a closed state the ready set is closed again exactly if the restart succeeds or no ready
        service depends on the one restarted. */
    method Restart(id: int, now: nat, answers: Answers) returns (result: int)
      requires Valid()
      modifies `services, `alive, `started, `log
      ensures Valid() && |services| == |old(services)|
      ensures !(0 <= id < |services|) ==> result == -1 && services == old(services)
      ensures 0 <= id < |services| ==> (result == 0 <==> services[id].state == Ready)
      ensures 0 <= id < |services| && old(Closed(services)) ==>
                (Closed(services) <==> || result == 0
                                       || forall i :: 0 <= i < |services| && old(services[i].state) == Ready ==>
                                            old(services[i].dependency) != id)
    {
      if id < 0 || id >= |services| { return -1; }
      ghost var was := services;
      services := services[id := services[id].(state := Stopped, restarts := 0)];
      ghost var mid := services;
      assert old(Closed(services)) ==> ClosedBut(services, id) by {
        forall i | Closed(was) && 0 <= i < |services| && services[i].state == Ready && services[i].dependency != id
          ensures Supported(services, i) {
          assert Supported(was, i);
        }
      }
      result := StartOne(id, {}, now, answers, id);
      if Closed(was) { Restarted(was, mid, services, id); }
    }

    // Kill the process of a service, if it lives.
    method KillProcess(pid: int)
      modifies `alive
      ensures alive == old(alive) - {pid}
    {
      if pid in alive { alive := alive - {pid}; }
    }

    // One service in service_poll.
    method PollOne(i: int, now: nat, answers: Answers)
      requires Valid() && 0 <= i < |services|
      modifies `services, `alive, `started, `log
      ensures Valid() && |services| == |old(services)| && services == old(services)[i := services[i]]
      ensures services[i].dependency == old(services[i].dependency)
      ensures services[i].state == Ready ==> Supported(services, i)
    {
      var s := services[i];
      if s.dependency != NO_DEPENDENCY && services[s.dependency].state != Ready {
        if s.userspace { KillProcess(s.pid); }
        services := services[i := s.(state := Failed, restartAt := now + 250)];
        return;
      }
      if !s.userspace { return; }
      if s.state == Ready && (s.pid !in alive || Elapsed(now, s.lastBeat) > s.timeout) {
        KillProcess(s.pid);
        s := s.(state := Failed, restartAt := now + Backoff(s.restarts));
        services := services[i := s];
      }
      if s.state == Failed && s.restarts < s.restartLimit && now >= s.restartAt {
        services := services[i := s.(restarts := s.restarts + 1, state := Stopped)];
        var _ := StartOne(i, {}, now, answers, -2);
      }
    }

    /** service_poll: a pass that is due leaves the ready services closed under dependencies, whatever the state
        before. */
    method Poll(now: nat, answers: Answers)
      requires Valid()
      modifies this
      ensures Valid() && |services| == |old(services)|
      ensures now >= old(nextPoll) ==> Closed(services) && nextPoll == now + 250
      ensures now < old(nextPoll) ==> services == old(services) && nextPoll == old(nextPoll)
    {
      if now < nextPoll { return; }
      nextPoll := now + 250;
      for i := 0 to |services|
        invariant Valid() && |services| == |old(services)| && nextPoll == now + 250
        invariant forall j :: 0 <= j < i && services[j].state == Ready ==> Supported(services, j)
      {
        ghost var was := services;
        PollOne(i, now, answers);
        forall j | 0 <= j < i && services[j].state == Ready ensures Supported(services, j) { assert Supported(was, j); }
      }
    }
  }

  /** Unsigned difference of two clock readings. */
  function Elapsed(now: nat, then_: nat): nat {
    if now >= then_ then now - then_ else now + 0x1_0000_0000_0000_0000 - then_ % 0x1_0000_0000_0000_0000
  }

  /** 250 ms, doubled for every restart so far, at most five times. */
  function Backoff(restarts: nat): nat {
    match restarts
    case 0 => 250
    case 1 => 500
    case 2 => 1000
    case 3 => 2000
    case 4 => 4000
    case _ => 8000
  }

  /** Changing a service that is not ready, to a state that is not ready, keeps the ready set closed. */
  lemma StillClosed(a: seq<Service>, b: seq<Service>, id: int, x: int)
    requires 0 <= id < |a| == |b| && b == a[id := b[id]] && b[id].dependency == a[id].dependency && a[id].state != Ready
             && b[id].state != Ready
    ensures (Closed(a) ==> Closed(b)) && (ClosedBut(a, x) ==> ClosedBut(b, x))
  {
    forall i | 0 <= i < |b| && b[i].state == Ready && Supported(a, i) ensures Supported(b, i) {}
  }

  /** A supported service may become ready. */
  lemma NowClosed(a: seq<Service>, b: seq<Service>, id: int, x: int)
    requires Ordered(a) && 0 <= id < |a| == |b| && b == a[id := b[id]] && b[id].dependency == a[id].dependency
             && a[id].state != Ready && Supported(a, id)
    requires b[id].restarts == a[id].restarts && b[id].restartLimit == a[id].restartLimit
    ensures Advanced(a, b, id, x) && Supported(b, id)
  {
    forall i | 0 <= i < |b| && b[i].state == Ready && Supported(a, i) ensures Supported(b, i) {}
  }

  lemma Restarted(was: seq<Service>, mid: seq<Service>, now: seq<Service>, id: int)
    requires Ordered(was) && 0 <= id < |was| == |mid| && mid == was[id := mid[id]]
             && mid[id].dependency == was[id].dependency && mid[id].state == Stopped
    requires Grew(mid, now, id) && ClosedBut(now, id)
    ensures Closed(now) <==> || now[id].state == Ready
                             || forall i :: 0 <= i < |was| && was[i].state == Ready ==> was[i].dependency != id
  {
    if i :| 0 <= i < |was| && was[i].state == Ready && was[i].dependency == id {
      assert now[i] == was[i];
      assert Supported(now, i) <==> now[id].state == Ready;
    }
    forall i | 0 <= i < |now| && now[i].state == Ready && now[i].dependency == id
      ensures was[i].state == Ready && was[i].dependency == id {
      assert i > id;
    }
  }
}
