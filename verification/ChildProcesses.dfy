/** The child processes of the Node.js and Python plugins, as events under one mutex
    (plugins/nodejs.go, plugins/python.go). */
module ChildProcesses {
  import opened FreshIds

  /** What is recorded for each domain, every child ever started with its domain, and which of those
      children have exited, were killed, or still have a watcher that will reset the record. */
  datatype State = State(
    recorded: map<string, nat>, domainOf: map<nat, string>,
    exited: set<nat>, killed: set<nat>, watching: set<nat>)

  datatype Event =
    | Ensure(domain: string, pid: nat)
    | Exit(pid: nat)
    | Reset(pid: nat)
    | OnExit

  predicate Live(s: State, p: nat) {
    p in s.domainOf && p !in s.exited
  }

  predicate Enabled(s: State, e: Event) {
    match e
    case Ensure(_, pid) => pid !in s.domainOf
    case Exit(pid) => Live(s, pid)
    case Reset(pid) => pid in s.watching && pid in s.exited && pid in s.domainOf
    case OnExit => true
  }

  function Step(s: State, e: Event): State
    requires Enabled(s, e)
  {
    match e
    case Ensure(d, pid) =>
      if d in s.recorded then s
      else s.(recorded := s.recorded[d := pid], domainOf := s.domainOf[pid := d], watching := s.watching + {pid})
    case Exit(pid) => s.(exited := s.exited + {pid})
    case Reset(pid) => s.(recorded := s.recorded - {s.domainOf[pid]}, watching := s.watching - {pid})
    case OnExit => s.(killed := s.killed + s.recorded.Values, recorded := map[])
  }

  ghost predicate Run(s: State, events: seq<Event>)
    decreases |events|
  {
    events == [] || (Enabled(s, events[0]) && Run(Step(s, events[0]), events[1..]))
  }

  function End(s: State, events: seq<Event>): State
    requires Run(s, events)
    decreases |events|
  {
    if events == [] then s else End(Step(s, events[0]), events[1..])
  }

  /** No domain has two live children. */
  ghost predicate OneLive(s: State) {
    forall p, q :: Live(s, p) && Live(s, q) && s.domainOf[p] == s.domainOf[q] ==> p == q
  }

  /** Every live child has a watcher, and every watcher a child. */
  ghost predicate Watched(s: State) {
    && (forall p :: Live(s, p) ==> p in s.watching)
    && (forall p :: p in s.watching ==> p in s.domainOf)
    && (forall d :: d in s.recorded ==> s.recorded[d] in s.watching && s.domainOf[s.recorded[d]] == d)
  }

  /** Every pending watcher refers to the process recorded for its domain. */
  ghost predicate Tidy(s: State) {
    forall p :: p in s.watching ==> p in s.domainOf && s.domainOf[p] in s.recorded && s.recorded[s.domainOf[p]] == p
  }

  lemma TidyIsOneLive(s: State)
    requires Watched(s) && Tidy(s)
    ensures OneLive(s)
  {
  }

  lemma StepKeeps(s: State, e: Event)
    requires Watched(s) && Enabled(s, e)
    ensures Tidy(s) ==> Watched(Step(s, e))
    ensures Tidy(s) && !e.OnExit? ==> Tidy(Step(s, e))
  {
  }

  ghost predicate NoOnExit(events: seq<Event>) {
    forall i :: 0 <= i < |events| ==> !events[i].OnExit?
  }

  ghost predicate NoEnsure(events: seq<Event>) {
    forall i :: 0 <= i < |events| ==> !events[i].Ensure?
  }

  /** Until OnExit, in every interleaving of requests, exits and watchers: one live child per domain,
      and no watcher that could reset another child's record. */
  lemma {:induction false} OneChildUntilOnExit(s: State, events: seq<Event>)
    requires Watched(s) && Tidy(s) && Run(s, events) && NoOnExit(events)
    ensures var t := End(s, events); Watched(t) && Tidy(t) && OneLive(t)
    decreases |events|
  {
    if events == [] {
      TidyIsOneLive(s);
    } else {
      StepKeeps(s, events[0]);
      OneChildUntilOnExit(Step(s, events[0]), events[1..]);
    }
  }

  /** Every live child has been sent a kill. */
  ghost predicate AllKilled(s: State) {
    forall p :: Live(s, p) ==> p in s.killed
  }

  lemma OnExitKillsAll(s: State)
    requires Watched(s) && Tidy(s)
    ensures AllKilled(Step(s, OnExit)) && OneLive(Step(s, OnExit)) && Step(s, OnExit).recorded == map[]
  {
    forall p | Live(s, p)
      ensures p in s.recorded.Values
    {
      assert s.recorded[s.domainOf[p]] == p;
    }
  }

  lemma {:induction false} KilledStays(s: State, events: seq<Event>)
    requires AllKilled(s) && OneLive(s) && Run(s, events) && NoEnsure(events)
    ensures AllKilled(End(s, events)) && OneLive(End(s, events))
    decreases |events|
  {
    if events != [] {
      KilledStays(Step(s, events[0]), events[1..]);
    }
  }

  /** A whole life: any interleaving, then OnExit, then anything but a new request. No child is left
      running unkilled, and no domain ever had two. */
  lemma ShutdownLeavesNone(before: seq<Event>, after: seq<Event>)
    requires var s := State(map[], map[], {}, {}, {});
             Run(s, before) && NoOnExit(before) && Run(Step(End(s, before), OnExit), after) && NoEnsure(after)
    ensures var s := State(map[], map[], {}, {}, {});
            var t := End(Step(End(s, before), OnExit), after);
            AllKilled(t) && OneLive(t)
  {
    var s := State(map[], map[], {}, {}, {});
    OneChildUntilOnExit(s, before);
    OnExitKillsAll(End(s, before));
    KilledStays(Step(End(s, before), OnExit), after);
  }

  // ---- Exactly when requests could still be allowed ----

  ghost predicate OneLiveForever(s: State) {
    forall events :: Run(s, events) && NoOnExit(events) ==> OneLive(End(s, events))
  }

  lemma RunOne(s: State, e: Event, rest: seq<Event>)
    requires Enabled(s, e) && Run(Step(s, e), rest)
    ensures Run(s, [e] + rest) && End(s, [e] + rest) == End(Step(s, e), rest)
  {
    assert ([e] + rest)[1..] == rest;
  }

  /** A watcher of a child that is no longer the recorded one can make room for a second live child. */
  lemma StaleWatcherRun(s: State, p: nat, q: nat) returns (events: seq<Event>)
    requires Watched(s) && p in s.watching && s.domainOf[p] !in s.recorded
    requires q !in s.domainOf && q + 1 !in s.domainOf && q !in s.exited && q + 1 !in s.exited
    ensures Run(s, events) && NoOnExit(events) && !OneLive(End(s, events))
  {
    var d := s.domainOf[p];
    var s1 := Step(s, Ensure(d, q));
    var tail := [Reset(p), Ensure(d, q + 1)];
    if p in s1.exited {
      SecondChild(s1, p, q);
      RunOne(s, Ensure(d, q), tail);
      events := [Ensure(d, q)] + tail;
    } else {
      var s2 := Step(s1, Exit(p));
      SecondChild(s2, p, q);
      RunOne(s1, Exit(p), tail);
      RunOne(s, Ensure(d, q), [Exit(p)] + tail);
      events := [Ensure(d, q)] + ([Exit(p)] + tail);
    }
  }

  lemma SecondChild(s: State, p: nat, q: nat)
    requires p in s.watching && p in s.exited && p in s.domainOf
    requires Live(s, q) && s.domainOf[q] == s.domainOf[p]
    requires q + 1 !in s.domainOf && q + 1 !in s.exited
    ensures var events := [Reset(p), Ensure(s.domainOf[p], q + 1)];
            Run(s, events) && NoOnExit(events) && !OneLive(End(s, events))
  {
    var d := s.domainOf[p];
    var s1 := Step(s, Reset(p));
    var s2 := Step(s1, Ensure(d, q + 1));
    assert Run(s2, []);
    RunOne(s1, Ensure(d, q + 1), []);
    assert [Ensure(d, q + 1)] + [] == [Ensure(d, q + 1)];
    RunOne(s, Reset(p), [Ensure(d, q + 1)]);
    assert [Reset(p)] + [Ensure(d, q + 1)] == [Reset(p), Ensure(d, q + 1)];
    assert Live(s2, q) && Live(s2, q + 1);
  }

  /** OnExit empties the record while watchers are still pending. If requests went on after it, no
      domain would ever get a second child exactly when nothing was recorded at OnExit. */
  lemma RequestsAfterOnExit(s: State)
    requires Watched(s) && Tidy(s) && (forall p :: p in s.exited ==> p in s.domainOf)
    ensures OneLiveForever(Step(s, OnExit)) <==> s.recorded == map[]
  {
    var t := Step(s, OnExit);
    if s.recorded == map[] {
      assert Tidy(t) && Watched(t);
      forall events | Run(t, events) && NoOnExit(events)
        ensures OneLive(End(t, events))
      {
        OneChildUntilOnExit(t, events);
      }
    } else {
      var d :| d in s.recorded;
      var q := AboveAll(s.domainOf.Keys);
      assert Watched(t);
      var events := StaleWatcherRun(t, s.recorded[d], q);
    }
  }

  /** For example: a child, OnExit, a request, and only then the first child's exit and its watcher. */
  lemma SecondChildAfterOnExit()
    ensures var s := State(map[], map[], {}, {}, {});
            var events := [Ensure("site", 1)] + ([OnExit] + ([Ensure("site", 2)] + ([Exit(1)] + LATE)));
            Run(s, events) && Live(End(s, events), 2) && Live(End(s, events), 3)
            && End(s, events).domainOf[2] == End(s, events).domainOf[3]
  {
    var s0 := State(map[], map[], {}, {}, {});
    var s1 := State(map["site" := 1], map[1 := "site"], {}, {}, {1});
    var s2 := State(map[], map[1 := "site"], {}, {1}, {1});
    var s3 := State(map["site" := 2], map[1 := "site", 2 := "site"], {}, {1}, {1, 2});
    assert Step(s0, Ensure("site", 1)) == s1 && Step(s1, OnExit) == s2 && Step(s2, Ensure("site", 2)) == s3;
    LateWatcher();
    RunOne(s3, Exit(1), LATE);
    RunOne(s2, Ensure("site", 2), [Exit(1)] + LATE);
    RunOne(s1, OnExit, [Ensure("site", 2)] + ([Exit(1)] + LATE));
    RunOne(s0, Ensure("site", 1), [OnExit] + ([Ensure("site", 2)] + ([Exit(1)] + LATE)));
  }

  /** After OnExit, requests or not, the children known to it are all killed, and nobody kills a later one. */
  ghost predicate KilledUpTo(s: State, known: set<nat>) {
    && s.killed <= known
    && forall p :: Live(s, p) && p in known ==> p in s.killed
  }

  lemma {:induction false} KilledUpToStays(s: State, events: seq<Event>, known: set<nat>)
    requires KilledUpTo(s, known) && known <= s.domainOf.Keys && Run(s, events) && NoOnExit(events)
    ensures KilledUpTo(End(s, events), known)
    decreases |events|
  {
    if events != [] {
      KilledUpToStays(Step(s, events[0]), events[1..], known);
    }
  }

  /** Whatever follows OnExit, requests included: every live child has been killed if and only if no child that was
      started after OnExit is live. */
  lemma AllKilledIff(s: State, events: seq<Event>)
    requires Watched(s) && Tidy(s) && s.killed <= s.domainOf.Keys
    requires Run(Step(s, OnExit), events) && NoOnExit(events)
    ensures var t := End(Step(s, OnExit), events);
            AllKilled(t) <==> forall p :: Live(t, p) ==> p in s.domainOf
  {
    OnExitKillsAll(s);
    KilledUpToStays(Step(s, OnExit), events, s.domainOf.Keys);
  }

  /** So the first request after OnExit already leaves a child unkilled. */
  lemma UnkilledAfterOnExit()
    ensures var s := State(map[], map[], {}, {}, {});
            var events := [OnExit] + ([Ensure("site", 1)] + []);
            Run(s, events) && !AllKilled(End(s, events))
  {
    var s := State(map[], map[], {}, {}, {});
    var t := Step(s, OnExit);
    RunOne(t, Ensure("site", 1), []);
    RunOne(s, OnExit, [Ensure("site", 1)] + []);
    assert Live(Step(t, Ensure("site", 1)), 1);
  }

  const LATE: seq<Event> := [Reset(1)] + ([Ensure("site", 3)] + [])

  lemma LateWatcher()
    ensures var s := Step(State(map["site" := 2], map[1 := "site", 2 := "site"], {}, {1}, {1, 2}), Exit(1));
            Run(s, LATE) && Live(End(s, LATE), 2) && Live(End(s, LATE), 3)
            && End(s, LATE).domainOf[2] == End(s, LATE).domainOf[3]
  {
    var s := Step(State(map["site" := 2], map[1 := "site", 2 := "site"], {}, {1}, {1, 2}), Exit(1));
    var s1 := Step(s, Reset(1));
    RunOne(s1, Ensure("site", 3), []);
    RunOne(s, Reset(1), [Ensure("site", 3)] + []);
  }

  // ---- plugins/nodejs.go ----

  datatype Proc = NoProc | Proc(pid: nat)

  function RecordedOf(processes: map<string, Proc>): map<string, nat> {
    map d | d in processes && processes[d].Proc? :: processes[d].pid
  }

  lemma KilledAreRecorded(processes: map<string, Proc>, sent: set<nat>)
    requires forall p :: p in sent <==> exists d :: d in processes && processes[d] == Proc(p)
    ensures sent == RecordedOf(processes).Values
  {
    forall p | p in sent
      ensures p in RecordedOf(processes).Values
    {
      var d :| d in processes && processes[d] == Proc(p);
      assert RecordedOf(processes)[d] == p;
    }
  }

  class NodeJSPlugin {
    var processes: map<string, Proc>
    /** What the system knows besides the plugin's own map. */
    ghost var world: State

    function Recorded(): map<string, nat>
      reads this
    {
      RecordedOf(processes)
    }

    ghost predicate Valid()
      reads this
    {
      world.recorded == Recorded()
    }

    constructor ()
      ensures Valid() && world == State(map[], map[], {}, {}, {})
    {
      processes := map[];
      world := State(map[], map[], {}, {}, {});
    }

    /** `spawned` is the child cmd.Start would create, or NoProc if it fails. */
    method EnsureNodeServerRunning(domain: string, spawned: Proc)
      requires Valid() && (spawned.Proc? ==> Enabled(world, Ensure(domain, spawned.pid)))
      modifies this
      ensures Valid()
      ensures world == if spawned.Proc? then Step(old(world), Ensure(domain, spawned.pid)) else old(world)
    {
      if domain in processes && processes[domain].Proc? {
        assert domain in Recorded();
        return;
      }
      if spawned.NoProc? {
        return;
      }
      assert domain !in Recorded();
      processes := processes[domain := spawned];
      world := Step(world, Ensure(domain, spawned.pid));
    }

    /** The watcher's last action, once Wait has returned for its child. */
    method WatcherReset(domain: string, ghost pid: nat)
      requires Valid() && Enabled(world, Reset(pid)) && world.domainOf[pid] == domain
      modifies this
      ensures Valid() && world == Step(old(world), Reset(pid))
    {
      processes := processes[domain := NoProc];
      world := Step(world, Reset(pid));
    }

    method OnExit() returns (sentKill: set<nat>)
      requires Valid()
      modifies this
      ensures Valid() && world == Step(old(world), Event.OnExit)
      ensures sentKill == old(world.recorded).Values
    {
      sentKill := {};
      var todo := processes.Keys;
      while todo != {}
        invariant todo <= processes.Keys == old(processes).Keys
        invariant forall d :: d in processes ==> processes[d] == if d in todo then old(processes)[d] else NoProc
        invariant forall p :: p in sentKill <==>
                  exists d :: d in old(processes) && d !in todo && old(processes)[d] == Proc(p)
        invariant world == old(world)
        decreases |todo|
      {
        var d :| d in todo;
        if processes[d].Proc? {
          sentKill := sentKill + {processes[d].pid};
          processes := processes[d := NoProc];
        }
        todo := todo - {d};
      }
      KilledAreRecorded(old(processes), sentKill);
      world := Step(world, Event.OnExit);
    }
  }

  // ---- plugins/python.go ----

  class PythonProcessState {
    var process: Proc
    const port: string

    constructor (port: string)
      ensures process == NoProc && this.port == port
    {
      process := NoProc;
      this.port := port;
    }
  }

  class PythonPlugin {
    const processes: map<string, PythonProcessState>
    ghost var world: State

    ghost function Recorded(): map<string, nat>
      reads this, processes.Values
    {
      RecordedOf(Processes())
    }

    ghost function Processes(): map<string, Proc>
      reads processes.Values
    {
      map d | d in processes :: processes[d].process
    }

    /** Each domain has a state object of its own. */
    ghost predicate Valid()
      reads this, processes.Values
    {
      && (forall d, e :: d in processes && e in processes && d != e ==> processes[d] != processes[e])
      && world.recorded == Recorded()
    }

    constructor (states: map<string, PythonProcessState>)
      requires forall d, e :: d in states && e in states && d != e ==> states[d] != states[e]
      requires forall d :: d in states ==> states[d].process == NoProc
      ensures Valid() && processes == states && world == State(map[], map[], {}, {}, {})
    {
      processes := states;
      world := State(map[], map[], {}, {}, {});
    }

    method EnsurePythonProcess(domain: string, spawned: Proc)
      requires Valid() && (spawned.Proc? ==> Enabled(world, Ensure(domain, spawned.pid)))
      modifies this, processes.Values
      ensures Valid()
      ensures world == if spawned.Proc? && domain in processes && processes[domain].port != ""
                       then Step(old(world), Ensure(domain, spawned.pid)) else old(world)
    {
      if domain !in processes {
        return;
      }
      var st := processes[domain];
      if st.port == "" || st.process.Proc? {
        assert st.process.Proc? ==> domain in Recorded();
        return;
      }
      if spawned.NoProc? {
        return;
      }
      assert domain !in Recorded();
      st.process := spawned;
      world := Step(world, Ensure(domain, spawned.pid));
    }

    /** The watcher writes through the state object it captured when it was started. */
    method WatcherReset(st: PythonProcessState, ghost domain: string, ghost pid: nat)
      requires Valid() && domain in processes && processes[domain] == st
      requires Enabled(world, Reset(pid)) && world.domainOf[pid] == domain
      modifies this, st
      ensures Valid() && world == Step(old(world), Reset(pid))
    {
      st.process := NoProc;
      world := Step(world, Reset(pid));
    }

    method OnExit() returns (sentKill: set<nat>)
      requires Valid()
      modifies this, processes.Values
      ensures Valid() && world == Step(old(world), Event.OnExit)
      ensures sentKill == old(world.recorded).Values
    {
      ghost var before := Processes();
      sentKill := KillAll();
      KilledAreRecorded(before, sentKill);
      assert Recorded() == map[];
      world := Step(world, Event.OnExit);
    }

    method KillAll() returns (sentKill: set<nat>)
      requires forall d, e :: d in processes && e in processes && d != e ==> processes[d] != processes[e]
      modifies processes.Values
      ensures forall d :: d in processes ==> processes[d].process == NoProc
      ensures forall p :: p in sentKill <==> exists d :: d in old(Processes()) && old(Processes())[d] == Proc(p)
    {
      ghost var before := Processes();
      sentKill := {};
      var todo := processes.Keys;
      while todo != {}
        invariant todo <= processes.Keys
        invariant forall d :: d in processes ==> processes[d].process == if d in todo then before[d] else NoProc
        invariant forall p :: p in sentKill <==> exists d :: d in before && d !in todo && before[d] == Proc(p)
        decreases |todo|
      {
        var d :| d in todo;
        if processes[d].process.Proc? {
          sentKill := sentKill + {processes[d].process.pid};
          processes[d].process := NoProc;
        }
        todo := todo - {d};
      }
    }
  }
}
