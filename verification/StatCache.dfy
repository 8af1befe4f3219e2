/** internal/server/stat_cache.go: os.Stat results kept for a second. */
module StatCache {
  const TTL: int := 1_000_000_000
  const MAX_ENTRIES: int := 65536

  /** What os.Stat gave: file information or an error, "not found" included. */
  datatype Result = Info(size: int, modTime: int, isDir: bool) | Error(code: int)
  datatype Entry = Entry(result: Result, expires: int)

  /** The file system, as a function of time. */
  type FileSystem = (string, int) -> Result

  /** The result was true of the path at some moment after `from` and no later than `to`. */
  ghost predicate TrueWithin(fs: FileSystem, path: string, result: Result, from: int, to: int) {
    exists s :: from < s <= to && fs(path, s) == result
  }

  // ---- Calls taken one at a time ----

  class SyncMap {
    var m: map<string, Entry>

    constructor ()
      ensures m == map[]
    {
      m := map[];
    }
  }

  class Cache {
    var current: SyncMap
    var size: int

    ghost predicate Valid()
      reads this, current
    {
      size == |current.m| <= MAX_ENTRIES
    }

    /** Nothing in the cache is older than its expiry admits. */
    ghost predicate Honest(fs: FileSystem, now: int)
      reads this, current
    {
      forall p :: p in current.m ==> TrueWithin(fs, p, current.m[p].result, current.m[p].expires - TTL - 1, now)
    }

    constructor ()
      ensures Valid() && fresh(current) && current.m == map[]
    {
      current := new SyncMap();
      size := 0;
    }

    method Reset()
      modifies this
      ensures Valid() && fresh(current) && current.m == map[]
    {
      current := new SyncMap();
      size := 0;
    }

    /** The clock is read at `now`, no earlier than `before`, a time of the last call or since; os.Stat, if it is asked,
        answers at a later moment `end`. */
    method CachedStat(path: string, now: int, ghost before: int, ghost end: int, ghost fs: FileSystem, osStat: Result)
      returns (r: Result)
      requires Valid() && Honest(fs, before) && before <= now <= end && osStat == fs(path, end)
      modifies this, current
      ensures Valid() && Honest(fs, end)
      ensures current == old(current) || fresh(current)
      ensures TrueWithin(fs, path, r, now - TTL, end)
      ensures path in old(current.m) && now < old(current.m[path].expires) ==>
                r == old(current.m[path].result) && current == old(current) && current.m == old(current.m)
      ensures !(path in old(current.m) && now < old(current.m[path].expires)) ==>
                && r == osStat
                && var m' := old(current.m)[path := Entry(osStat, now + TTL)];
                   current.m == if |m'| > MAX_ENTRIES then map[] else m'
    {
      var m := current;
      if path in m.m && now < m.m[path].expires {
        return m.m[path].result;
      }
      var loaded := path in m.m;
      m.m := m.m[path := Entry(osStat, now + TTL)];
      if !loaded {
        size := size + 1;
        if size > MAX_ENTRIES {
          current := new SyncMap();
          size := 0;
        }
      }
      return osStat;
    }
  }

  // ---- Any number of calls at once, one atomic operation at a time ----

  /** Where a call stands: clock read, map loaded, missed, stat done, entry stored, size exceeded. */
  datatype Pc =
    | Begun(path: string, now: int)
    | HasMap(path: string, now: int, m: nat)
    | Missed(path: string, now: int, m: nat)
    | Statted(path: string, now: int, m: nat, result: Result)
    | Added(path: string, now: int, result: Result)
    | Full(path: string, now: int, result: Result)
    | Swapped(path: string, now: int, result: Result)

  /** Maps are never freed while a call may hold them: `maps` has all that were ever current. */
  datatype State = State(maps: seq<map<string, Entry>>, current: nat, size: int, clock: int, calls: map<nat, Pc>)

  datatype Event =
    | Tick(to: int)
    | Begin(t: nat, path: string)
    | LoadMap(t: nat)
    | Lookup(t: nat)
    | Stat(t: nat)
    | Swap(t: nat)
    | AddSize(t: nat)
    | StoreMap(t: nat)
    | StoreSize(t: nat)
    | ResetMap
    | ResetSize

  ghost predicate Enabled(s: State, e: Event) {
    match e
    case Tick(to) => s.clock <= to
    case Begin(t, _) => t !in s.calls
    case LoadMap(t) => t in s.calls && s.calls[t].Begun?
    case Lookup(t) => t in s.calls && s.calls[t].HasMap? && s.calls[t].m < |s.maps|
    case Stat(t) => t in s.calls && s.calls[t].Missed?
    case Swap(t) => t in s.calls && s.calls[t].Statted? && s.calls[t].m < |s.maps|
    case AddSize(t) => t in s.calls && s.calls[t].Added?
    case StoreMap(t) => t in s.calls && s.calls[t].Full?
    case StoreSize(t) => t in s.calls && s.calls[t].Swapped?
    case ResetMap => true
    case ResetSize => true
  }

  predicate Hit(s: State, pc: Pc)
    requires pc.HasMap? && pc.m < |s.maps|
  {
    pc.path in s.maps[pc.m] && pc.now < s.maps[pc.m][pc.path].expires
  }

  ghost function Step(fs: FileSystem, s: State, e: Event): State
    requires Enabled(s, e)
  {
    match e
    case Tick(to) => s.(clock := to)
    case Begin(t, path) => s.(calls := s.calls[t := Begun(path, s.clock)])
    case LoadMap(t) => s.(calls := s.calls[t := HasMap(s.calls[t].path, s.calls[t].now, s.current)])
    case Lookup(t) =>
      var pc := s.calls[t];
      if Hit(s, pc) then s.(calls := s.calls - {t}) else s.(calls := s.calls[t := Missed(pc.path, pc.now, pc.m)])
    case Stat(t) =>
      var pc := s.calls[t];
      s.(calls := s.calls[t := Statted(pc.path, pc.now, pc.m, fs(pc.path, s.clock))])
    case Swap(t) =>
      var pc := s.calls[t];
      var s' := s.(maps := s.maps[pc.m := s.maps[pc.m][pc.path := Entry(pc.result, pc.now + TTL)]]);
      if pc.path in s.maps[pc.m] then s'.(calls := s.calls - {t})
      else s'.(calls := s.calls[t := Added(pc.path, pc.now, pc.result)])
    case AddSize(t) =>
      var pc := s.calls[t];
      s.(size := s.size + 1,
         calls := if s.size + 1 > MAX_ENTRIES then s.calls[t := Full(pc.path, pc.now, pc.result)] else s.calls - {t})
    case StoreMap(t) =>
      var pc := s.calls[t];
      s.(maps := s.maps + [map[]], current := |s.maps|, calls := s.calls[t := Swapped(pc.path, pc.now, pc.result)])
    case StoreSize(t) => s.(size := 0, calls := s.calls - {t})
    case ResetMap => s.(maps := s.maps + [map[]], current := |s.maps|)
    case ResetSize => s.(size := 0)
  }

  datatype Answer = NoAnswer | Answer(path: string, started: int, result: Result)

  /** What a call returns in this step, if it returns. */
  ghost function AnswerOf(s: State, e: Event): Answer
    requires Enabled(s, e)
  {
    match e
    case Lookup(t) =>
      var pc := s.calls[t];
      if Hit(s, pc) then Answer(pc.path, pc.now, s.maps[pc.m][pc.path].result) else NoAnswer
    case Swap(t) =>
      var pc := s.calls[t];
      if pc.path in s.maps[pc.m] then Answer(pc.path, pc.now, pc.result) else NoAnswer
    case AddSize(t) =>
      var pc := s.calls[t];
      if s.size + 1 > MAX_ENTRIES then NoAnswer else Answer(pc.path, pc.now, pc.result)
    case StoreSize(t) =>
      var pc := s.calls[t];
      Answer(pc.path, pc.now, pc.result)
    case _ => NoAnswer
  }

  ghost predicate HonestMap(fs: FileSystem, m: map<string, Entry>, clock: int) {
    forall p :: p in m ==> TrueWithin(fs, p, m[p].result, m[p].expires - TTL - 1, clock)
  }

  ghost predicate HonestCall(fs: FileSystem, pc: Pc, clock: int) {
    && pc.now <= clock
    && (pc.Statted? || pc.Added? || pc.Full? || pc.Swapped? ==> TrueWithin(fs, pc.path, pc.result, pc.now - 1, clock))
  }

  /** Every entry of every map ever used, and every result in flight, was true recently enough. */
  ghost predicate Honest(fs: FileSystem, s: State) {
    && (forall i :: 0 <= i < |s.maps| ==> HonestMap(fs, s.maps[i], s.clock))
    && (forall t :: t in s.calls ==> HonestCall(fs, s.calls[t], s.clock))
  }

  lemma Widen(fs: FileSystem, path: string, r: Result, from: int, to: int, from': int, to': int)
    requires TrueWithin(fs, path, r, from, to) && from' <= from && to <= to'
    ensures TrueWithin(fs, path, r, from', to')
  {
  }

  lemma HonestKept(fs: FileSystem, s: State, e: Event)
    requires Honest(fs, s) && Enabled(s, e)
    ensures Honest(fs, Step(fs, s, e))
  {
    var s' := Step(fs, s, e);
    forall i | 0 <= i < |s'.maps|
      ensures HonestMap(fs, s'.maps[i], s'.clock)
    {
      assert i < |s.maps| ==> HonestMap(fs, s.maps[i], s.clock);
      if e.Swap? {
        assert HonestCall(fs, s.calls[e.t], s.clock);
      }
    }
    forall t | t in s'.calls
      ensures HonestCall(fs, s'.calls[t], s'.clock)
    {
      assert t in s.calls ==> HonestCall(fs, s.calls[t], s.clock);
      if e.Stat? && t == e.t {
        assert fs(s.calls[t].path, s.clock) == s'.calls[t].result;
      }
    }
  }

  /** An answer was true of the path less than a second before its call began, or since. */
  ghost predicate FreshAnswer(fs: FileSystem, a: Answer, clock: int) {
    a.Answer? ==> TrueWithin(fs, a.path, a.result, a.started - TTL, clock)
  }

  lemma AnswerIsFresh(fs: FileSystem, s: State, e: Event)
    requires Honest(fs, s) && Enabled(s, e)
    ensures FreshAnswer(fs, AnswerOf(s, e), s.clock)
  {
    var a := AnswerOf(s, e);
    if a.Answer? {
      var pc := s.calls[e.t];
      assert HonestCall(fs, pc, s.clock);
      if e.Lookup? {
        var entry := s.maps[pc.m][pc.path];
        assert HonestMap(fs, s.maps[pc.m], s.clock);
        Widen(fs, pc.path, entry.result, entry.expires - TTL - 1, s.clock, pc.now - TTL, s.clock);
      } else {
        Widen(fs, pc.path, pc.result, pc.now - 1, s.clock, pc.now - TTL, s.clock);
      }
    }
  }

  ghost predicate AllFresh(fs: FileSystem, s: State, events: seq<Event>)
    decreases |events|
  {
    events == [] ||
    (Enabled(s, events[0]) ==>
       FreshAnswer(fs, AnswerOf(s, events[0]), s.clock) && AllFresh(fs, Step(fs, s, events[0]), events[1..]))
  }

  /** In every interleaving of calls, map swaps and resets, every answer is fresh. */
  lemma {:induction false} RunsAreFresh(fs: FileSystem, s: State, events: seq<Event>)
    requires Honest(fs, s)
    ensures AllFresh(fs, s, events)
    decreases |events|
  {
    if events != [] && Enabled(s, events[0]) {
      HonestKept(fs, s, events[0]);
      AnswerIsFresh(fs, s, events[0]);
      RunsAreFresh(fs, Step(fs, s, events[0]), events[1..]);
    }
  }

  /** From an empty cache, whatever the file system does. */
  lemma EveryRunIsFresh(fs: FileSystem, clock: int, events: seq<Event>)
    ensures AllFresh(fs, State([map[]], 0, 0, clock, map[]), events)
  {
    RunsAreFresh(fs, State([map[]], 0, 0, clock, map[]), events);
  }

  // ---- How old an answer can be when its call returns ----

  function Empty(clock: int): State {
    State([map[]], 0, 0, clock, map[])
  }

  /** If the call lasted at most d, its answer was true of the path less than `age` before it returned. */
  ghost predicate YoungAnswer(fs: FileSystem, a: Answer, clock: int, d: int, age: int) {
    a.Answer? && clock - a.started <= d ==> TrueWithin(fs, a.path, a.result, clock - age, clock)
  }

  ghost predicate AllYoung(fs: FileSystem, s: State, events: seq<Event>, d: int, age: int)
    decreases |events|
  {
    events == [] ||
    (Enabled(s, events[0]) ==>
       && YoungAnswer(fs, AnswerOf(s, events[0]), s.clock, d, age)
       && AllYoung(fs, Step(fs, s, events[0]), events[1..], d, age))
  }

  /** Over every file system and every run from an empty cache. */
  ghost predicate YoungerThan(d: int, age: int) {
    forall fs, clock, events :: AllYoung(fs, Empty(clock), events, d, age)
  }

  lemma {:induction false} FreshIsYoung(fs: FileSystem, s: State, events: seq<Event>, d: int, age: int)
    requires AllFresh(fs, s, events) && age >= TTL + d
    ensures AllYoung(fs, s, events, d, age)
    decreases |events|
  {
    if events != [] && Enabled(s, events[0]) {
      var a := AnswerOf(s, events[0]);
      if a.Answer? && s.clock - a.started <= d {
        Widen(fs, a.path, a.result, a.started - TTL, s.clock, s.clock - age, s.clock);
      }
      FreshIsYoung(fs, Step(fs, s, events[0]), events[1..], d, age);
    }
  }

  /** A file that changes right after time zero. */
  function Changing(): FileSystem {
    (path: string, t: int) => Info(if t <= 0 then 1 else 2, 0, false)
  }

  /** Call 0 caches the file at time zero; call 1 begins in the last moment of the entry's life and returns d later. */
  function SlowHit(d: nat): seq<Event> {
    [Begin(0, "f"), LoadMap(0), Lookup(0), Stat(0), Swap(0), AddSize(0), Tick(TTL - 1),
     Begin(1, "f"), LoadMap(1), Tick(TTL - 1 + d), Lookup(1)]
  }

  /** The state before the i-th of these events. */
  function SlowHitState(d: nat, i: nat): State
    requires i <= 10
  {
    var was := Info(1, 0, false);
    var full := [map["f" := Entry(was, TTL)]];
    if i == 0 then Empty(0)
    else if i == 1 then State([map[]], 0, 0, 0, map[0 := Begun("f", 0)])
    else if i == 2 then State([map[]], 0, 0, 0, map[0 := HasMap("f", 0, 0)])
    else if i == 3 then State([map[]], 0, 0, 0, map[0 := Missed("f", 0, 0)])
    else if i == 4 then State([map[]], 0, 0, 0, map[0 := Statted("f", 0, 0, was)])
    else if i == 5 then State(full, 0, 0, 0, map[0 := Added("f", 0, was)])
    else if i == 6 then State(full, 0, 1, 0, map[])
    else if i == 7 then State(full, 0, 1, TTL - 1, map[])
    else if i == 8 then State(full, 0, 1, TTL - 1, map[1 := Begun("f", TTL - 1)])
    else if i == 9 then State(full, 0, 1, TTL - 1, map[1 := HasMap("f", TTL - 1, 0)])
    else State(full, 0, 1, TTL - 1 + d, map[1 := HasMap("f", TTL - 1, 0)])
  }

  lemma SlowHitStep(d: nat, i: nat)
    requires i < 10
    ensures Enabled(SlowHitState(d, i), SlowHit(d)[i])
    ensures Step(Changing(), SlowHitState(d, i), SlowHit(d)[i]) == SlowHitState(d, i + 1)
  {
  }

  /** That call lasts d and answers with what stopped being true TTL - 1 + d before it returns. */
  lemma SlowHitIsOld(d: nat, age: int)
    requires age < TTL + d
    ensures !AllYoung(Changing(), Empty(0), SlowHit(d), d, age)
  {
    assert SlowHit(d)[0..] == SlowHit(d);
    for i := 0 to 10
      invariant AllYoung(Changing(), Empty(0), SlowHit(d), d, age) ==>
                  AllYoung(Changing(), SlowHitState(d, i), SlowHit(d)[i..], d, age)
    {
      SlowHitStep(d, i);
      assert SlowHit(d)[i..][1..] == SlowHit(d)[i + 1..];
    }
    LastAnswerIsOld(d, age);
  }

  lemma LastAnswerIsOld(d: nat, age: int)
    requires age < TTL + d
    ensures !AllYoung(Changing(), SlowHitState(d, 10), SlowHit(d)[10..], d, age)
  {
    var s := SlowHitState(d, 10);
    assert SlowHit(d)[10..][0] == Lookup(1);
    assert AnswerOf(s, Lookup(1)) == Answer("f", TTL - 1, Info(1, 0, false));
    assert !TrueWithin(Changing(), "f", Info(1, 0, false), s.clock - age, s.clock);
  }

  /** Exactly how old answers can get: those of calls that last at most d are younger than `age` at return, in
      every interleaving, if and only if age is at least the TTL plus d. */
  lemma AgeAtReturnIff(d: nat, age: int)
    ensures YoungerThan(d, age) <==> age >= TTL + d
  {
    if age >= TTL + d {
      forall fs, clock, events
        ensures AllYoung(fs, Empty(clock), events, d, age)
      {
        EveryRunIsFresh(fs, clock, events);
        FreshIsYoung(fs, Empty(clock), events, d, age);
      }
    } else {
      SlowHitIsOld(d, age);
    }
  }

  /** So the TTL bounds the age at return only for calls that take no time at all. */
  lemma TtlAtReturnIff(d: nat)
    ensures YoungerThan(d, TTL) <==> d == 0
  {
    AgeAtReturnIff(d, TTL);
  }
}
