/** One backend's `down` and `downAt` atomics (internal/server/loadbalancer.go:25-47) under every
    interleaving of isDown and markDown calls, at the grain of single loads and stores. */
module EjectionProtocol {
  import opened Strings
  import opened LoadBalancer
  import opened FreshIds

  /** Where a call stands. isDown: flag seen, stamp loaded, judged expired. markDown: clock read, stamp stored. */
  datatype Pc =
    | SawDown
    | Loaded(stamp: int)
    | JudgedExpired
    | ReadClock(stamp: int)
    | Stamped

  datatype Regs = Regs(down: bool, downAt: int, clock: int, calls: map<nat, Pc>)

  datatype Event =
    | Tick(to: int)
    | LoadFlag(t: nat)
    | LoadStamp(t: nat)
    | Judge(t: nat)
    | StoreClear(t: nat)
    | BeginMark(t: nat)
    | StoreStamp(t: nat)
    | StoreDown(t: nat)

  predicate IsAt(s: Regs, t: nat, pc: Pc) {
    t in s.calls && s.calls[t] == pc
  }

  predicate Enabled(s: Regs, e: Event) {
    match e
    case Tick(to) => s.clock <= to
    case LoadFlag(t) => t !in s.calls
    case LoadStamp(t) => IsAt(s, t, SawDown)
    case Judge(t) => t in s.calls && s.calls[t].Loaded?
    case StoreClear(t) => IsAt(s, t, JudgedExpired)
    case BeginMark(t) => t !in s.calls
    case StoreStamp(t) => t in s.calls && s.calls[t].ReadClock?
    case StoreDown(t) => IsAt(s, t, Stamped)
  }

  function Step(s: Regs, e: Event): Regs
    requires Enabled(s, e)
  {
    match e
    case Tick(to) => s.(clock := to)
    case LoadFlag(t) => if s.down then s.(calls := s.calls[t := SawDown]) else s
    case LoadStamp(t) => s.(calls := s.calls[t := Loaded(s.downAt)])
    case Judge(t) =>
      if s.clock - s.calls[t].stamp > COOLDOWN then s.(calls := s.calls[t := JudgedExpired])
      else s.(calls := s.calls - {t})
    case StoreClear(t) => s.(down := false, calls := s.calls - {t})
    case BeginMark(t) => s.(calls := s.calls[t := ReadClock(s.clock)])
    case StoreStamp(t) => s.(downAt := s.calls[t].stamp, calls := s.calls[t := Stamped])
    case StoreDown(t) => s.(down := true, calls := s.calls - {t})
  }

  /** Steps at which isDown returns: "up" lets the request try the backend, "down" skips it. */
  predicate AnswersUp(s: Regs, e: Event)
    requires Enabled(s, e)
  {
    (e.LoadFlag? && !s.down) || e.StoreClear?
  }

  predicate AnswersDown(s: Regs, e: Event)
    requires Enabled(s, e)
  {
    e.Judge? && s.clock - s.calls[e.t].stamp <= COOLDOWN
  }

  ghost predicate Run(s: Regs, events: seq<Event>)
    decreases |events|
  {
    events == [] || (Enabled(s, events[0]) && Run(Step(s, events[0]), events[1..]))
  }

  ghost function End(s: Regs, events: seq<Event>): Regs
    requires Run(s, events)
    decreases |events|
  {
    if events == [] then s else End(Step(s, events[0]), events[1..])
  }

  /** No time beyond the deadline is reached. */
  predicate Until(events: seq<Event>, deadline: int) {
    forall i :: 0 <= i < |events| && events[i].Tick? ==> events[i].to <= deadline
  }

  /** No call outside `older` is told that the backend is up. */
  ghost predicate NeverUp(s: Regs, events: seq<Event>, older: set<nat>)
    requires Run(s, events)
    decreases |events|
  {
    events != [] ==>
      && (AnswersUp(s, events[0]) ==> events[0].t in older)
      && NeverUp(Step(s, events[0]), events[1..], older)
  }

  ghost predicate NeverDown(s: Regs, events: seq<Event>)
    requires Run(s, events)
    decreases |events|
  {
    events != [] ==> !AnswersDown(s, events[0]) && NeverDown(Step(s, events[0]), events[1..])
  }

  /** Stamps never come from the future. */
  ghost predicate WellTimed(s: Regs) {
    && s.downAt <= s.clock
    && forall t :: t in s.calls && (s.calls[t].Loaded? || s.calls[t].ReadClock?) ==> s.calls[t].stamp <= s.clock
  }

  lemma WellTimedKept(s: Regs, e: Event)
    requires WellTimed(s) && Enabled(s, e)
    ensures WellTimed(Step(s, e))
  {
  }

  /** Nothing in flight can undo a mark stamped `at`: no call has judged an earlier mark expired, none
      still carries an earlier stamp to judge, and no marker is about to store an earlier stamp. */
  ghost predicate Settled(s: Regs, at: int) {
    && s.down
    && at <= s.downAt
    && forall t :: t in s.calls ==> SettledCall(s.calls[t], at)
  }

  predicate SettledCall(pc: Pc, at: int) {
    && pc != JudgedExpired
    && (pc.Loaded? || pc.ReadClock? ==> at <= pc.stamp)
  }

  lemma SettledKept(s: Regs, e: Event, at: int)
    requires Settled(s, at) && Enabled(s, e) && at <= s.clock <= at + COOLDOWN
    ensures Settled(Step(s, e), at)
    ensures !AnswersUp(s, e)
  {
    var s' := Step(s, e);
    forall t | t in s'.calls
      ensures SettledCall(s'.calls[t], at)
    {
      assert t in s.calls ==> SettledCall(s.calls[t], at);
    }
  }

  /** A settled mark is honoured by every call until its cooldown has passed. */
  lemma {:induction false} SettledIsHonoured(s: Regs, events: seq<Event>, at: int, older: set<nat>)
    requires Run(s, events) && Until(events, at + COOLDOWN)
    requires Settled(s, at) && at <= s.clock <= at + COOLDOWN
    ensures NeverUp(s, events, older)
    decreases |events|
  {
    if events != [] {
      SettledKept(s, events[0], at);
      SettledIsHonoured(Step(s, events[0]), events[1..], at, older);
    }
  }

  lemma RunOne(s: Regs, e: Event, rest: seq<Event>)
    requires Enabled(s, e) && Run(Step(s, e), rest)
    ensures Run(s, [e] + rest)
    ensures forall older :: NeverUp(s, [e] + rest, older) <==>
              (AnswersUp(s, e) ==> e.t in older) && NeverUp(Step(s, e), rest, older)
    ensures NeverDown(s, [e] + rest) <==> !AnswersDown(s, e) && NeverDown(Step(s, e), rest)
    ensures End(s, [e] + rest) == End(Step(s, e), rest)
  {
    assert ([e] + rest)[1..] == rest;
  }

  /** Clearing the flag lets the next new call through. */
  lemma ClearedRun(s: Regs, t: nat, id: nat)
    requires IsAt(s, t, JudgedExpired) && id !in s.calls
    ensures Run(s, [StoreClear(t), LoadFlag(id)])
    ensures forall older :: id !in older ==> !NeverUp(s, [StoreClear(t), LoadFlag(id)], older)
  {
    var s1 := Step(s, StoreClear(t));
    assert !s1.down;
    assert Run(Step(s1, LoadFlag(id)), []);
    RunOne(s1, LoadFlag(id), []);
    RunOne(s, StoreClear(t), [LoadFlag(id)]);
    assert [StoreClear(t), LoadFlag(id)] == [StoreClear(t)] + [LoadFlag(id)];
    assert [LoadFlag(id)] == [LoadFlag(id)] + [];
  }

  /** A call holding an earlier stamp can still judge, clear and let a new call through. */
  lemma StaleJudgeRun(s: Regs, t: nat, deadline: int, id: nat) returns (events: seq<Event>)
    requires t in s.calls && s.calls[t].Loaded? && s.calls[t].stamp + COOLDOWN < deadline
    requires s.clock <= deadline && id !in s.calls
    ensures Run(s, events) && Until(events, deadline)
    ensures forall older :: id !in older ==> !NeverUp(s, events, older)
  {
    var s1 := Step(s, Tick(deadline));
    var s2 := Step(s1, Judge(t));
    ClearedRun(s2, t, id);
    var tail := [StoreClear(t), LoadFlag(id)];
    RunOne(s1, Judge(t), tail);
    RunOne(s, Tick(deadline), [Judge(t)] + tail);
    events := [Tick(deadline)] + ([Judge(t)] + tail);
  }

  /** A marker that stores an earlier stamp shortens the cooldown. */
  lemma StaleMarkRun(s: Regs, t: nat, deadline: int, id: nat) returns (events: seq<Event>)
    requires t in s.calls && s.calls[t].ReadClock? && s.calls[t].stamp + COOLDOWN < deadline
    requires s.down && s.clock <= deadline && id !in s.calls && id + 1 !in s.calls
    ensures Run(s, events) && Until(events, deadline)
    ensures forall older :: id !in older && id + 1 !in older ==> !NeverUp(s, events, older)
  {
    var s1 := Step(s, StoreStamp(t));
    var s2 := Step(s1, LoadFlag(id));
    var s3 := Step(s2, LoadStamp(id));
    var tail := StaleJudgeRun(s3, id, deadline, id + 1);
    RunOne(s2, LoadStamp(id), tail);
    RunOne(s1, LoadFlag(id), [LoadStamp(id)] + tail);
    RunOne(s, StoreStamp(t), [LoadFlag(id)] + ([LoadStamp(id)] + tail));
    events := [StoreStamp(t)] + ([LoadFlag(id)] + ([LoadStamp(id)] + tail));
  }

  /** Calls that begin after the mark never see the backend up before the mark's cooldown has passed. */
  ghost predicate MarkHolds(s: Regs) {
    forall events :: Run(s, events) && Until(events, s.downAt + COOLDOWN) ==> NeverUp(s, events, s.calls.Keys)
  }

  /** Exactly when the 30 seconds after a completed mark are respected by every continuation. */
  lemma MarkHoldsIff(s: Regs)
    requires s.down && WellTimed(s) && s.clock <= s.downAt + COOLDOWN
    ensures MarkHolds(s) <==> Settled(s, s.downAt)
  {
    var deadline := s.downAt + COOLDOWN;
    if Settled(s, s.downAt) {
      forall events | Run(s, events) && Until(events, deadline)
        ensures NeverUp(s, events, s.calls.Keys)
      {
        SettledIsHonoured(s, events, s.downAt, s.calls.Keys);
      }
    } else {
      var id := AboveAll(s.calls.Keys);
      var t :| t in s.calls && !SettledCall(s.calls[t], s.downAt);
      if s.calls[t] == JudgedExpired {
        ClearedRun(s, t, id);
        assert Until([StoreClear(t), LoadFlag(id)], deadline);
      } else if s.calls[t].Loaded? {
        var events := StaleJudgeRun(s, t, deadline, id);
      } else {
        var events := StaleMarkRun(s, t, deadline, id);
      }
    }
  }

  // ---- A fresh mark erased, from the very start ----

  const START := Regs(false, 0, 0, map[])

  /** A mark at time zero; after its cooldown call 1 judges it expired and is held up; a new mark. */
  const STALE_JUDGE: seq<Event> :=
    [BeginMark(0), StoreStamp(0), StoreDown(0), Tick(COOLDOWN + 1),
     LoadFlag(1), LoadStamp(1), Judge(1),
     BeginMark(2), StoreStamp(2), StoreDown(2)]

  lemma {:induction false} WellTimedRun(s: Regs, events: seq<Event>)
    requires WellTimed(s) && Run(s, events)
    ensures WellTimed(End(s, events))
    decreases |events|
  {
    if events != [] {
      WellTimedKept(s, events[0]);
      WellTimedRun(Step(s, events[0]), events[1..]);
    }
  }

  /** Running one event after the others. */
  lemma {:induction false} RunAppend(s: Regs, events: seq<Event>, e: Event)
    requires Run(s, events) && Enabled(End(s, events), e)
    ensures Run(s, events + [e]) && End(s, events + [e]) == Step(End(s, events), e)
    decreases |events|
  {
    if events == [] {
      assert [e][1..] == [];
      assert events + [e] == [e];
    } else {
      assert (events + [e])[1..] == events[1..] + [e];
      RunAppend(Step(s, events[0]), events[1..], e);
    }
  }

  /** The failing interleaving: from the initial state, call 1 is about to clear the mark just completed. */
  lemma StaleJudgeReached()
    ensures Run(START, STALE_JUDGE)
    ensures End(START, STALE_JUDGE) == Regs(true, COOLDOWN + 1, COOLDOWN + 1, map[1 := JudgedExpired])
  {
    var prefix: seq<Event> := [];
    var s := START;
    for i := 0 to 10
      invariant prefix == STALE_JUDGE[..i] && Run(START, prefix) && End(START, prefix) == s
      invariant s == StaleJudgeState(i)
    {
      StaleJudgeStep(i);
      RunAppend(START, prefix, STALE_JUDGE[i]);
      s := Step(s, STALE_JUDGE[i]);
      prefix := prefix + [STALE_JUDGE[i]];
    }
    assert prefix == STALE_JUDGE;
  }

  /** The registers after the first i of these events. */
  function StaleJudgeState(i: nat): Regs
    requires i <= 10
  {
    if i == 0 then START
    else if i == 1 then Regs(false, 0, 0, map[0 := ReadClock(0)])
    else if i == 2 then Regs(false, 0, 0, map[0 := Stamped])
    else if i == 3 then Regs(true, 0, 0, map[])
    else if i == 4 then Regs(true, 0, COOLDOWN + 1, map[])
    else if i == 5 then Regs(true, 0, COOLDOWN + 1, map[1 := SawDown])
    else if i == 6 then Regs(true, 0, COOLDOWN + 1, map[1 := Loaded(0)])
    else if i == 7 then Regs(true, 0, COOLDOWN + 1, map[1 := JudgedExpired])
    else if i == 8 then Regs(true, 0, COOLDOWN + 1, map[1 := JudgedExpired, 2 := ReadClock(COOLDOWN + 1)])
    else if i == 9 then Regs(true, COOLDOWN + 1, COOLDOWN + 1, map[1 := JudgedExpired, 2 := Stamped])
    else Regs(true, COOLDOWN + 1, COOLDOWN + 1, map[1 := JudgedExpired])
  }

  lemma StaleJudgeStep(i: nat)
    requires i < 10
    ensures Enabled(StaleJudgeState(i), STALE_JUDGE[i])
    ensures Step(StaleJudgeState(i), STALE_JUDGE[i]) == StaleJudgeState(i + 1)
  {
  }

  /** At that point the mark is complete and of this very instant, yet it does not hold: two steps later a new
      call is told that the backend is up. */
  lemma FreshMarkErased()
    ensures Run(START, STALE_JUDGE)
    ensures var s := End(START, STALE_JUDGE);
            && s.down && s.downAt == s.clock && WellTimed(s)
            && !MarkHolds(s)
            && Run(s, [StoreClear(1), LoadFlag(3)]) && !NeverUp(s, [StoreClear(1), LoadFlag(3)], s.calls.Keys)
  {
    StaleJudgeReached();
    WellTimedRun(START, STALE_JUDGE);
    var s := End(START, STALE_JUDGE);
    assert !SettledCall(s.calls[1], s.downAt);
    MarkHoldsIff(s);
    ClearedRun(s, 1, 3);
  }

  // ---- Whole calls as steps ----

  datatype Call = Pass(to: int) | CallIsDown | CallMarkDown

  predicate Possible(s: Regs, c: Call) {
    c.Pass? ==> s.clock <= c.to
  }

  predicate Expired(s: Regs) {
    s.clock - s.downAt > COOLDOWN
  }

  /** A call is its loads and stores with nothing in between. */
  function Steps(s: Regs, c: Call): seq<Event> {
    match c
    case Pass(to) => [Tick(to)]
    case CallIsDown =>
      if !s.down then [LoadFlag(0)]
      else if Expired(s) then [LoadFlag(0), LoadStamp(0), Judge(0), StoreClear(0)]
      else [LoadFlag(0), LoadStamp(0), Judge(0)]
    case CallMarkDown => [BeginMark(0), StoreStamp(0), StoreDown(0)]
  }

  /** What a whole call does to the registers, and what isDown answers. */
  function Whole(s: Regs, c: Call): Regs {
    match c
    case Pass(to) => s.(clock := to)
    case CallIsDown => if s.down && Expired(s) then s.(down := false) else s
    case CallMarkDown => s.(down := true, downAt := s.clock)
  }

  predicate ToldDown(s: Regs) {
    s.down && !Expired(s)
  }

  /** Between whole calls nothing is in flight, and a whole call is exactly such a run of single steps; isDown
      answers "up" or "down" in that run as ToldDown says. */
  lemma WholeIsRun(s: Regs, c: Call)
    requires s.calls == map[] && Possible(s, c)
    ensures Run(s, Steps(s, c)) && End(s, Steps(s, c)) == Whole(s, c)
    ensures Whole(s, c).calls == map[]
    ensures c.CallIsDown? ==>
              && (NeverUp(s, Steps(s, c), {}) <==> ToldDown(s))
              && (NeverDown(s, Steps(s, c)) <==> !ToldDown(s))
  {
    if c.Pass? {
      RunOne(s, Tick(c.to), []);
      assert Steps(s, c) == [Tick(c.to)] + [];
    } else if c.CallMarkDown? {
      var s1 := Step(s, BeginMark(0));
      var s2 := Step(s1, StoreStamp(0));
      var s3 := Step(s2, StoreDown(0));
      assert s3.calls == map[];
      RunOne(s2, StoreDown(0), []);
      RunOne(s1, StoreStamp(0), [StoreDown(0)] + []);
      RunOne(s, BeginMark(0), [StoreStamp(0)] + ([StoreDown(0)] + []));
      assert Steps(s, c) == [BeginMark(0)] + ([StoreStamp(0)] + ([StoreDown(0)] + []));
    } else {
      IsDownIsRun(s);
    }
  }

  lemma IsDownIsRun(s: Regs)
    requires s.calls == map[]
    ensures var events := Steps(s, CallIsDown);
            && Run(s, events) && End(s, events) == Whole(s, CallIsDown)
            && (NeverUp(s, events, {}) <==> ToldDown(s))
            && (NeverDown(s, events) <==> !ToldDown(s))
  {
    if !s.down {
      RunOne(s, LoadFlag(0), []);
      assert Steps(s, CallIsDown) == [LoadFlag(0)] + [];
    } else {
      var s1 := Step(s, LoadFlag(0));
      var s2 := Step(s1, LoadStamp(0));
      var s3 := Step(s2, Judge(0));
      var rest := if Expired(s) then [StoreClear(0)] + [] else [];
      if Expired(s) {
        assert Step(s3, StoreClear(0)).calls == map[];
        RunOne(s3, StoreClear(0), []);
      } else {
        assert s3.calls == map[];
      }
      RunOne(s2, Judge(0), rest);
      RunOne(s1, LoadStamp(0), [Judge(0)] + rest);
      RunOne(s, LoadFlag(0), [LoadStamp(0)] + ([Judge(0)] + rest));
      assert Steps(s, CallIsDown) == [LoadFlag(0)] + ([LoadStamp(0)] + ([Judge(0)] + rest));
    }
  }

  ghost predicate WholeRun(s: Regs, calls: seq<Call>)
    decreases |calls|
  {
    calls != [] ==>
      var init := calls[..|calls| - 1];
      WholeRun(s, init) && Possible(WholeEnd(s, init), calls[|calls| - 1])
  }

  function WholeEnd(s: Regs, calls: seq<Call>): Regs {
    if calls == [] then s else Whole(WholeEnd(s, calls[..|calls| - 1]), calls[|calls| - 1])
  }

  /** When the backend was last marked, if ever. */
  function LastMark(s: Regs, calls: seq<Call>): Option<int> {
    if calls == [] then None
    else if calls[|calls| - 1].CallMarkDown? then Some(WholeEnd(s, calls[..|calls| - 1]).clock)
    else LastMark(s, calls[..|calls| - 1])
  }

  lemma {:induction false} WholeInvariant(calls: seq<Call>)
    requires WholeRun(START, calls)
    ensures var s, mark := WholeEnd(START, calls), LastMark(START, calls);
            && s.calls == map[]
            && (s.down ==> mark == Some(s.downAt))
            && (!s.down && mark.Some? ==> s.clock - mark.value > COOLDOWN)
  {
    if calls != [] {
      WholeInvariant(calls[..|calls| - 1]);
    }
  }

  /** With isDown and markDown as single steps, in every run from the start: a call is told "down" exactly when
      the backend was last marked no more than 30 seconds before. So every completed mark is honoured to
      its end, and none lasts longer. */
  lemma WholeCallsHonourMarks(calls: seq<Call>)
    requires WholeRun(START, calls)
    ensures var s, mark := WholeEnd(START, calls), LastMark(START, calls);
            ToldDown(s) <==> mark.Some? && s.clock - mark.value <= COOLDOWN
  {
    WholeInvariant(calls);
  }

  // ---- Recovery ----

  /** Once the cooldown has passed and nobody marks again, no call is told "down": nothing is ejected for good. */
  lemma {:induction false} EligibleAgain(s: Regs, events: seq<Event>, at: int)
    requires Run(s, events)
    requires s.downAt <= at && at + COOLDOWN < s.clock
    requires forall t :: t in s.calls ==> !s.calls[t].ReadClock? && (s.calls[t].Loaded? ==> s.calls[t].stamp <= at)
    requires forall i :: 0 <= i < |events| ==> !events[i].BeginMark?
    ensures NeverDown(s, events)
    decreases |events|
  {
    if events != [] {
      EligibleAgain(Step(s, events[0]), events[1..], at);
    }
  }
}
