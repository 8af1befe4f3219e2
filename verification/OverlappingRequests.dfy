/** Any number of requests at once on one load balancer (internal/server/loadbalancer.go:96-124): every draw from
    the counter, every check of a backend and every reply is a step of its own. */
module OverlappingRequests {
  import opened Strings
  import opened Numbers
  import opened LoadBalancer

  /** Where a request stands: about to check a backend, or waiting for that backend's reply. */
  datatype Pc = Choosing | Trying

  /** `drawn` has the start of every request there ever was, `visits` and `client` what it has done so far, `outcome`
      how it ended and `served` by which backend, if by one. */
  datatype State = State(
    clock: int, counter: uint64, flags: seq<Flags>, going: map<nat, Pc>, drawn: map<nat, nat>,
    visits: map<nat, seq<Visit>>, client: map<nat, seq<Writer>>, outcome: map<nat, Outcome>, served: map<nat, nat>)

  datatype Event = Draw(t: nat) | Check(t: nat, now: int) | Reply(t: nat, reply: Attempt, now: int)

  ghost predicate WellFormed(s: State) {
    && |s.flags| > 0
    && s.visits.Keys == s.client.Keys == s.drawn.Keys
    && s.going.Keys <= s.drawn.Keys && s.outcome.Keys <= s.drawn.Keys
    && (forall t :: t in s.drawn ==> s.drawn[t] < |s.flags|)
    && (forall t :: t in s.going ==> |s.visits[t]| < |s.flags|)
  }

  ghost predicate Enabled(s: State, e: Event) {
    match e
    case Draw(t) => t !in s.drawn
    case Check(t, now) => t in s.going && s.going[t].Choosing? && s.clock <= now
    case Reply(t, _, now) => t in s.going && s.going[t].Trying? && s.clock <= now
  }

  /** The backend a request is at. */
  ghost function Backend(s: State, t: nat): (b: nat)
    requires WellFormed(s) && t in s.going
    ensures b < |s.flags|
  {
    Order(s.drawn[t], |s.flags|)[|s.visits[t]|]
  }

  ghost function Step(s: State, e: Event): State
    requires WellFormed(s) && Enabled(s, e)
  {
    match e
    case Draw(t) =>
      s.(counter := Add1(s.counter), going := s.going[t := Choosing],
         drawn := s.drawn[t := StartOf(Add1(s.counter), |s.flags|)],
         visits := s.visits[t := []], client := s.client[t := []])
    case Check(t, now) =>
      var b := Backend(s, t);
      if InForce(s.flags[b], now) then Visited(s.(clock := now), t, Skipped, [])
      else s.(clock := now, flags := s.flags[b := s.flags[b].(down := false)], going := s.going[t := Trying])
    case Reply(t, reply, now) =>
      Visited(Replied(s, t, reply, now), t, Tried(reply), ReplyWrites(s, t, reply))
  }

  /** A reply marks the backend or is what the request was served. */
  ghost function Replied(s: State, t: nat, reply: Attempt, now: int): State
    requires WellFormed(s) && t in s.going
  {
    var b := Backend(s, t);
    if reply.failed then s.(clock := now, flags := s.flags[b := Flags(true, now)])
    else s.(clock := now, served := s.served[t := b])
  }

  ghost function ReplyWrites(s: State, t: nat, reply: Attempt): seq<Writer>
    requires WellFormed(s) && t in s.going
  {
    if reply.wrote then [FromBackend(Backend(s, t))] else []
  }

  /** One visit is over: the request goes on to the next backend, or ends. */
  ghost function Visited(s: State, t: nat, v: Visit, wrote: seq<Writer>): State
    requires WellFormed(s) && t in s.going
  {
    var visits, client := s.visits[t] + [v], s.client[t] + wrote;
    var more := GoesOn(v) && |visits| < |s.flags|;
    s.(visits := s.visits[t := visits],
       client := s.client[t := if GoesOn(v) && !more then client + [ErrorPage] else client],
       going := if more then s.going[t := Choosing] else s.going - {t},
       outcome := if more then s.outcome
                  else s.outcome[t := if GoesOn(v) then BadGateway else if v.reply.failed then CutShort else Served])
  }

  lemma VisitedWellFormed(s: State, t: nat, v: Visit, wrote: seq<Writer>)
    requires WellFormed(s) && t in s.going
    ensures WellFormed(Visited(s, t, v, wrote))
  {
    var s' := Visited(s, t, v, wrote);
    assert s'.visits.Keys == s.visits.Keys && s'.client.Keys == s.client.Keys;
  }

  lemma StepWellFormed(s: State, e: Event)
    requires WellFormed(s) && Enabled(s, e)
    ensures WellFormed(Step(s, e)) && |Step(s, e).flags| == |s.flags|
  {
    match e
    case Draw(t) =>
      var s' := Step(s, e);
      assert s'.drawn.Keys == s.drawn.Keys + {t};
      assert s'.visits.Keys == s.visits.Keys + {t} && s'.client.Keys == s.client.Keys + {t};
    case Check(t, now) =>
      if InForce(s.flags[Backend(s, t)], now) {
        VisitedWellFormed(s.(clock := now), t, Skipped, []);
      }
    case Reply(t, reply, now) =>
      VisitedWellFormed(Replied(s, t, reply, now), t, Tried(reply), ReplyWrites(s, t, reply));
  }

  ghost function Fresh(counter: uint64, n: nat, clock: int): State {
    State(clock, counter, seq(n, _ => Flags(false, 0)), map[], map[], map[], map[], map[], map[])
  }

  /** Every schedule from a fresh balancer, events that cannot happen skipped. */
  ghost function Run(counter: uint64, n: nat, clock: int, events: seq<Event>): (s: State)
    requires n > 0
    ensures WellFormed(s) && |s.flags| == n
  {
    if events == [] then Fresh(counter, n, clock)
    else
      var s := Run(counter, n, clock, events[..|events| - 1]);
      if Enabled(s, events[|events| - 1]) then
        StepWellFormed(s, events[|events| - 1]);
        Step(s, events[|events| - 1])
      else s
  }

  // ---- Every request, whatever fails ----

  /** A request under way has only gone on so far and written nothing; one that is over has ended as ServeHTTP says. */
  ghost predicate Told(s: State, t: nat)
    requires WellFormed(s) && t in s.drawn
  {
    if t in s.going then
      t !in s.outcome && s.client[t] == [] && forall i :: 0 <= i < |s.visits[t]| ==> GoesOn(s.visits[t][i])
    else t in s.outcome && Concluded(Order(s.drawn[t], |s.flags|), s.visits[t], s.client[t], s.outcome[t])
  }

  lemma VisitTold(s: State, t: nat, v: Visit, wrote: seq<Writer>)
    requires WellFormed(s) && t in s.going && Told(s, t)
    requires wrote == if v.Tried? && v.reply.wrote then [FromBackend(Backend(s, t))] else []
    ensures WellFormed(Visited(s, t, v, wrote)) && Told(Visited(s, t, v, wrote), t)
  {
    VisitedWellFormed(s, t, v, wrote);
    EndsHere(Order(s.drawn[t], |s.flags|), s.visits[t], v);
    assert s.client[t] + wrote == wrote;
  }

  /** Other requests are not concerned. */
  lemma OthersTold(s: State, t: nat, v: Visit, wrote: seq<Writer>, u: nat)
    requires WellFormed(s) && t in s.going && u in s.drawn && u != t && Told(s, u)
    ensures WellFormed(Visited(s, t, v, wrote)) && Told(Visited(s, t, v, wrote), u)
  {
    VisitedWellFormed(s, t, v, wrote);
  }

  lemma VisitAndOthersTold(s: State, t: nat, v: Visit, wrote: seq<Writer>, u: nat)
    requires WellFormed(s) && t in s.going && Told(s, t) && u in s.drawn && Told(s, u)
    requires wrote == if v.Tried? && v.reply.wrote then [FromBackend(Backend(s, t))] else []
    ensures WellFormed(Visited(s, t, v, wrote)) && Told(Visited(s, t, v, wrote), u)
  {
    if u == t {
      VisitTold(s, t, v, wrote);
    } else {
      OthersTold(s, t, v, wrote, u);
    }
  }

  lemma StepTold(s: State, e: Event, u: nat)
    requires WellFormed(s) && Enabled(s, e)
    requires u in s.drawn ==> Told(s, u)
    requires e.t in s.drawn ==> Told(s, e.t)
    requires u in Step(s, e).drawn
    ensures WellFormed(Step(s, e)) && Told(Step(s, e), u)
  {
    StepWellFormed(s, e);
    match e
    case Draw(t) =>
    case Check(t, now) => CheckTold(s, t, now, u);
    case Reply(t, reply, now) => ReplyTold(s, t, reply, now, u);
  }

  lemma CheckTold(s: State, t: nat, now: int, u: nat)
    requires WellFormed(s) && Enabled(s, Check(t, now)) && Told(s, t) && u in s.drawn && Told(s, u)
    ensures WellFormed(Step(s, Check(t, now))) && Told(Step(s, Check(t, now)), u)
  {
    StepWellFormed(s, Check(t, now));
    if InForce(s.flags[Backend(s, t)], now) {
      VisitAndOthersTold(s.(clock := now), t, Skipped, [], u);
    }
  }

  lemma ReplyTold(s: State, t: nat, reply: Attempt, now: int, u: nat)
    requires WellFormed(s) && Enabled(s, Reply(t, reply, now)) && Told(s, t) && u in s.drawn && Told(s, u)
    ensures WellFormed(Step(s, Reply(t, reply, now))) && Told(Step(s, Reply(t, reply, now)), u)
  {
    StepWellFormed(s, Reply(t, reply, now));
    VisitAndOthersTold(Replied(s, t, reply, now), t, Tried(reply), ReplyWrites(s, t, reply), u);
  }

  /** In every interleaving, failures or not, every request that is over has gone round as ServeHTTP's contract says: in
      cyclic order, on only past skips and failures that wrote nothing, one writer to its client at most. */
  lemma {:induction false} EveryRequestConcludes(counter: uint64, n: nat, clock: int, events: seq<Event>, t: nat)
    requires n > 0 && t in Run(counter, n, clock, events).drawn
    ensures Told(Run(counter, n, clock, events), t)
    decreases |events|
  {
    if events != [] {
      var init, e := events[..|events| - 1], events[|events| - 1];
      var s := Run(counter, n, clock, init);
      if t in s.drawn {
        EveryRequestConcludes(counter, n, clock, init, t);
      }
      if Enabled(s, e) {
        if e.t in s.drawn {
          EveryRequestConcludes(counter, n, clock, init, e.t);
        }
        StepTold(s, e, t);
      }
    }
  }

  // ---- Ejection, seen by all ----

  /** When a backend last failed a request, told from the replies alone. */
  ghost function LastFailure(counter: uint64, n: nat, clock: int, events: seq<Event>, b: nat): Option<int>
    requires n > 0
  {
    if events == [] then None
    else
      var init, e := events[..|events| - 1], events[|events| - 1];
      var s := Run(counter, n, clock, init);
      if Enabled(s, e) && e.Reply? && e.reply.failed && Backend(s, e.t) == b then Some(e.now)
      else LastFailure(counter, n, clock, init, b)
  }

  /** A backend is marked with its last failure, or that is more than the cooldown ago. */
  ghost predicate MarkedBy(f: Flags, failure: Option<int>, clock: int) {
    match failure
    case None => !f.down
    case Some(at) => at <= clock && (f == Flags(true, at) || (!f.down && clock - at > COOLDOWN))
  }

  lemma StepMarks(s: State, e: Event, b: nat, failure: Option<int>)
    requires WellFormed(s) && Enabled(s, e) && b < |s.flags| && MarkedBy(s.flags[b], failure, s.clock)
    ensures |Step(s, e).flags| == |s.flags|
    ensures var failure' := if e.Reply? && e.reply.failed && Backend(s, e.t) == b then Some(e.now) else failure;
            MarkedBy(Step(s, e).flags[b], failure', Step(s, e).clock)
  {
  }

  lemma {:induction false} MarksAreFailures(counter: uint64, n: nat, clock: int, events: seq<Event>, b: nat)
    requires b < n
    ensures MarkedBy(Run(counter, n, clock, events).flags[b], LastFailure(counter, n, clock, events, b),
                     Run(counter, n, clock, events).clock)
    decreases |events|
  {
    if events != [] {
      var init, e := events[..|events| - 1], events[|events| - 1];
      MarksAreFailures(counter, n, clock, init, b);
      if Enabled(Run(counter, n, clock, init), e) {
        StepMarks(Run(counter, n, clock, init), e, b, LastFailure(counter, n, clock, init, b));
      }
    }
  }

  /** In every interleaving of draws, checks and replies, with clock readings in order: a request skips the backend it
      comes to exactly when that backend failed some request no more than 30 seconds before. */
  lemma EjectionHonoured(counter: uint64, n: nat, clock: int, events: seq<Event>, t: nat, now: int)
    requires n > 0 && Enabled(Run(counter, n, clock, events), Check(t, now))
    ensures var s := Run(counter, n, clock, events);
            var failure := LastFailure(counter, n, clock, events, Backend(s, t));
            if failure.Some? && now - failure.value <= 30_000_000_000
            then Step(s, Check(t, now)).visits[t] == s.visits[t] + [Skipped]
            else Step(s, Check(t, now)).visits[t] == s.visits[t] && Step(s, Check(t, now)).going[t] == Trying
  {
    MarksAreFailures(counter, n, clock, events, Backend(Run(counter, n, clock, events), t));
  }

  // ---- While nothing fails: a fair share each ----

  predicate NoFailures(events: seq<Event>) {
    forall i :: 0 <= i < |events| && events[i].Reply? ==> !events[i].reply.failed
  }

  /** The requests that got backend b. */
  function Of(m: map<nat, nat>, b: nat): set<nat> {
    set t | t in m && m[t] == b
  }

  /** Every backend is up, and every request is at its first choice or has been served by it. */
  ghost predicate Placed(s: State) {
    && WellFormed(s)
    && (forall b :: 0 <= b < |s.flags| ==> !s.flags[b].down)
    && (forall t :: t in s.going ==> s.visits[t] == [])
    && (forall t :: t in s.served ==> t in s.drawn && s.served[t] == s.drawn[t])
    && (forall t :: t in s.drawn ==> t in s.going || t in s.served)
  }

  /** Each start was drawn as often as the counter values since c say. */
  ghost predicate Counted(drawn: map<nat, nat>, counter: uint64, n: nat, c: nat)
    requires n > 0
  {
    && counter as nat == Wrapped(c + |drawn|)
    && forall b :: 0 <= b < n ==> |Of(drawn, b)| == Hits(UINT64, c, |drawn|, n, b)
  }

  ghost predicate Healthy(s: State, c: nat) {
    Placed(s) && Counted(s.drawn, s.counter, |s.flags|, c)
  }

  lemma OfOneMore(m: map<nat, nat>, t: nat, start: nat, b: nat)
    requires t !in m
    ensures |Of(m[t := start], b)| == |Of(m, b)| + if start == b then 1 else 0
  {
    var more := Of(m[t := start], b);
    if start == b {
      assert more == Of(m, b) + {t};
    } else {
      assert more == Of(m, b);
    }
  }

  lemma SizeOneMore(m: map<nat, nat>, t: nat, start: nat)
    requires t !in m
    ensures |m[t := start]| == |m| + 1
  {
    assert m[t := start].Keys == m.Keys + {t};
  }

  lemma PlacedKept(s: State, e: Event)
    requires Placed(s) && Enabled(s, e) && (e.Reply? ==> !e.reply.failed)
    ensures Placed(Step(s, e)) && |Step(s, e).flags| == |s.flags|
    ensures !e.Draw? ==> Step(s, e).drawn == s.drawn && Step(s, e).counter == s.counter
  {
    StepWellFormed(s, e);
    match e
    case Draw(t) => DrawPlaced(s, t);
    case Check(t, now) =>
    case Reply(t, reply, now) => ReplyPlaced(s, t, reply, now);
  }

  lemma DrawPlaced(s: State, t: nat)
    requires Placed(s) && t !in s.drawn
    ensures WellFormed(Step(s, Draw(t))) && Placed(Step(s, Draw(t)))
  {
    StepWellFormed(s, Draw(t));
    var s' := Step(s, Draw(t));
    assert forall u :: u in s.going ==> s'.visits[u] == s.visits[u];
  }

  lemma ReplyPlaced(s: State, t: nat, reply: Attempt, now: int)
    requires Placed(s) && Enabled(s, Reply(t, reply, now)) && !reply.failed
    ensures Placed(Step(s, Reply(t, reply, now)))
  {
    StepWellFormed(s, Reply(t, reply, now));
    CyclicOrder(s.drawn[t], |s.flags|);
    assert Backend(s, t) == s.drawn[t];
  }

  lemma HealthyKept(s: State, c: nat, e: Event)
    requires Healthy(s, c) && Enabled(s, e) && (e.Reply? ==> !e.reply.failed)
    ensures Healthy(Step(s, e), c) && |Step(s, e).flags| == |s.flags|
  {
    PlacedKept(s, e);
    if e.Draw? {
      DrawKeeps(s.drawn, s.counter, |s.flags|, c, e.t);
    }
  }

  lemma DrawKeeps(drawn: map<nat, nat>, counter: uint64, n: nat, c: nat, t: nat)
    requires n > 0 && Counted(drawn, counter, n, c) && t !in drawn
    ensures Counted(drawn[t := StartOf(Add1(counter), n)], Add1(counter), n, c)
  {
    var more := drawn[t := StartOf(Add1(counter), n)];
    Add1Wraps(c, |drawn|, counter);
    SizeOneMore(drawn, t, StartOf(Add1(counter), n));
    forall b | 0 <= b < n
      ensures |Of(more, b)| == Hits(UINT64, c, |more|, n, b)
    {
      DrawCounts(drawn, c, n, t, Add1(counter), b);
    }
  }

  lemma DrawCounts(drawn: map<nat, nat>, c: nat, n: nat, t: nat, counter: uint64, b: nat)
    requires n > 0 && t !in drawn && counter as nat == Wrapped(c + (|drawn| + 1))
    requires |Of(drawn, b)| == Hits(UINT64, c, |drawn|, n, b)
    ensures |Of(drawn[t := StartOf(counter, n)], b)| == Hits(UINT64, c, |drawn| + 1, n, b)
  {
    OfOneMore(drawn, t, StartOf(counter, n), b);
    OneMoreHit(UINT64, c, |drawn|, n, b);
  }

  lemma OneMoreHit(word: nat, c: nat, m: nat, n: nat, b: nat)
    requires n > 0 && word > 0
    ensures Hits(word, c, m + 1, n, b) == Hits(word, c, m, n, b) + if ((c + (m + 1)) % word) % n == b then 1 else 0
  {
  }

  lemma {:induction false} HealthyRun(counter: uint64, n: nat, clock: int, events: seq<Event>)
    requires n > 0 && NoFailures(events)
    ensures Healthy(Run(counter, n, clock, events), counter as nat)
    decreases |events|
  {
    if events == [] {
      StartsHealthy(counter, n, clock);
    } else {
      var init, e := events[..|events| - 1], events[|events| - 1];
      HealthyRun(counter, n, clock, init);
      var s := Run(counter, n, clock, init);
      if Enabled(s, e) {
        HealthyKept(s, counter as nat, e);
      }
    }
  }

  /** While no backend fails, in every interleaving: when all requests are answered, each backend has served
      exactly its share of the counter values drawn. n*k requests that do not wrap the counter are k each. */
  lemma OverlappingFair(counter: uint64, n: nat, clock: int, events: seq<Event>, b: nat, k: nat)
    requires b < n && NoFailures(events) && Run(counter, n, clock, events).going == map[]
    ensures var served := Run(counter, n, clock, events).served;
            && served == Run(counter, n, clock, events).drawn
            && |Of(served, b)| == Hits(UINT64, counter as nat, |served|, n, b)
            && (|served| == n * k && counter as nat + n * k < UINT64 ==> |Of(served, b)| == k)
  {
    var c, t := counter as nat, Run(counter, n, clock, events);
    HealthyRun(counter, n, clock, events);
    assert t.served.Keys == t.drawn.Keys;
    assert t.served == t.drawn;
    if |t.served| == n * k && c + n * k < UINT64 {
      FairWithoutWrap(UINT64, c, k, n, b);
    }
  }

  lemma StartsHealthy(counter: uint64, n: nat, clock: int)
    requires n > 0
    ensures Healthy(Fresh(counter, n, clock), counter as nat)
  {
    var s := Fresh(counter, n, clock);
    ModUnique(counter as nat, UINT64, 0, counter as nat);
    forall b | 0 <= b < n
      ensures |Of(s.drawn, b)| == Hits(UINT64, counter as nat, |s.drawn|, n, b)
    {
      assert Of(s.drawn, b) == {};
      NoHitsYet(UINT64, counter as nat, n, b);
    }
  }

  lemma NoHitsYet(word: nat, c: nat, n: nat, b: nat)
    requires n > 0 && word > 0
    ensures Hits(word, c, 0, n, b) == 0
  {
  }
}
