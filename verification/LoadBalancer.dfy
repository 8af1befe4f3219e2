/** internal/server/loadbalancer.go: round robin with ejection and retry. */
module LoadBalancer {
  import opened Strings
  import opened Numbers

  /** How long a failed backend stays ejected, in nanoseconds. */
  const COOLDOWN: int := 30_000_000_000

  /** One backend's two atomics. */
  class Backend {
    var down: bool
    var downAt: int

    constructor ()
      ensures !down
    {
      down, downAt := false, 0;
    }

    /** Is the ejection still in force at `now`? If it has run out, the flag is cleared. */
    method IsDown(now: int) returns (r: bool)
      modifies this`down
      ensures r == (old(down) && now - downAt <= COOLDOWN)
      ensures down == r
    {
      if !down {
        return false;
      }
      if now - downAt > COOLDOWN {
        down := false;
        return false;
      }
      return true;
    }

    method MarkDown(now: int)
      modifies this
      ensures down && downAt == now
    {
      downAt := now;
      down := true;
    }
  }

  /** What one proxied attempt did: the transport failed, or part of a response was committed. */
  datatype Attempt = Attempt(failed: bool, wrote: bool)
  datatype Visit = Skipped | Tried(reply: Attempt)
  datatype Writer = FromBackend(index: nat) | ErrorPage
  datatype Outcome = Served | CutShort | BadGateway

  predicate GoesOn(v: Visit) {
    v.Skipped? || (v.reply.failed && !v.reply.wrote)
  }

  // ---- What others do between the steps of one request ----

  /** A backend's two atomics as values. */
  datatype Flags = Flags(down: bool, downAt: int)

  predicate InForce(f: Flags, now: int) {
    f.down && now - f.downAt <= COOLDOWN
  }

  newtype uint64 = x: int | 0 <= x < UINT64

  /** Other requests, between two steps of this one: where they leave the counter, if any drew from it, and
      what they leave in the backends they touch. */
  datatype Others = Others(counter: Option<uint64>, flags: nat -> Option<Flags>)

  const NOBODY := Others(None, (b: nat) => None)

  /** What backend b holds after others have been at it. */
  function Left(o: Others, b: nat, f: Flags): Flags {
    match o.flags(b) case Some(g) => g case None => f
  }

  /** What a backend that held f holds after the steps of others from `from` up to `upto`. */
  function Held(f: Flags, env: nat -> Others, b: nat, from: nat, upto: nat): Flags
    decreases upto
  {
    if upto <= from then f else Left(env(upto - 1), b, Held(f, env, b, from, upto - 1))
  }

  function Draw(o: Others, c: uint64): uint64 {
    match o.counter case Some(d) => d case None => c
  }

  /** One atomic increment. */
  function Add1(c: uint64): uint64 {
    Wrapped(c as nat + 1) as uint64
  }

  function StartOf(c: uint64, n: nat): (b: nat)
    requires n > 0
    ensures b < n
  {
    c as nat % n
  }

  /** Where a counter at c stands after the steps of others up to `upto`. */
  function Counter(c: uint64, env: nat -> Others, upto: nat): uint64 {
    if upto == 0 then c
    else Draw(env(upto - 1), Counter(c, env, upto - 1))
  }

  /** What a visit leaves in its backend, which held f when it was checked. */
  function VisitLeaves(v: Visit, f: Flags, during: Others, b: nat, markedAt: int): Flags {
    if v.Tried? && v.reply.failed then Flags(true, markedAt)
    else Left(during, b, f.(down := v.Skipped?))
  }

  /** Every backend, once each. */
  ghost predicate IsOrder(order: seq<nat>, n: nat) {
    && |order| == n
    && (forall i :: 0 <= i < n ==> order[i] < n)
    && forall i, j :: 0 <= i < j < n ==> order[i] != order[j]
  }

  /** The order of visits: cyclic from `start`. */
  function Order(start: nat, n: nat): (order: seq<nat>)
    requires n > 0
    ensures IsOrder(order, n)
    ensures forall i :: 0 <= i < n ==> order[i] == At(start, i, n)
  {
    AllApart(start, n);
    seq(n, i requires 0 <= i < n => At(start, i, n))
  }

  /** Others act twice on each visit: before the check, at step 2 * i, and after it, at 2 * i + 1. */
  function Checked(was: seq<Flags>, env: nat -> Others, order: seq<nat>, i: nat): Flags
    requires IsOrder(order, |was|) && i < |order|
  {
    Held(was[order[i]], env, order[i], 0, 2 * i + 1)
  }

  /** What the backend of the i-th visit holds when all `visits` are over, visited or not. */
  function AtEnd(was: seq<Flags>, env: nat -> Others, order: seq<nat>, visits: seq<Visit>, markedAt: nat -> int,
                 i: nat): Flags
    requires IsOrder(order, |was|) && i < |order|
  {
    var b := order[i];
    if i < |visits| then
      var left := VisitLeaves(visits[i], Checked(was, env, order, i), env(2 * i + 1), b, markedAt(i));
      Held(left, env, b, 2 * i + 2, 2 * |visits|)
    else Held(was[b], env, b, 0, 2 * |visits|)
  }

  /** The visits of one lap over backends that held `was` and now hold `now`: a backend is skipped exactly when
      its ejection is in force at the check, else it is tried; a failed try stamps its backend, a successful
      check clears it, and nothing else is done to any backend but by others. */
  ghost predicate Lap(was: seq<Flags>, now: seq<Flags>, env: nat -> Others, order: seq<nat>, visits: seq<Visit>,
                      reply: nat -> Attempt, checkedAt: nat -> int, markedAt: nat -> int)
    requires IsOrder(order, |was|)
  {
    && |now| == |was|
    && |visits| <= |order|
    && (forall i :: 0 <= i < |visits| ==> (visits[i].Skipped? <==> InForce(Checked(was, env, order, i), checkedAt(i))))
    && (forall i :: 0 <= i < |visits| && visits[i].Tried? ==> visits[i].reply == reply(i))
    && (forall i :: 0 <= i < |was| ==> now[order[i]] == AtEnd(was, env, order, visits, markedAt, i))
  }

  lemma HeldTwice(f: Flags, env: nat -> Others, b: nat, from: nat, upto: nat)
    requires from <= upto
    ensures Held(f, env, b, from, upto + 1) == Left(env(upto), b, Held(f, env, b, from, upto))
    ensures Held(f, env, b, from, upto + 2) == Left(env(upto + 1), b, Left(env(upto), b, Held(f, env, b, from, upto)))
    ensures Held(f, env, b, upto, upto) == f
  {
  }

  /** How a request ends: it goes on only past skipped backends and failures that wrote nothing, at most one
      writer reaches the client, and the error page is for a whole lap without success. */
  ghost predicate Concluded(order: seq<nat>, visits: seq<Visit>, client: seq<Writer>, outcome: Outcome)
  {
    && 0 < |visits| <= |order|
    && (forall i :: 0 <= i < |visits| - 1 ==> GoesOn(visits[i]))
    && var last := visits[|visits| - 1];
       && outcome == (if GoesOn(last) then BadGateway else if last.reply.failed then CutShort else Served)
       && (GoesOn(last) ==> |visits| == |order|)
       && client == if outcome == BadGateway then [ErrorPage]
                    else if last.Tried? && last.reply.wrote then [FromBackend(order[|visits| - 1])]
                    else []
  }

  lemma EndsHere(order: seq<nat>, before: seq<Visit>, v: Visit)
    requires |before| < |order| && forall k :: 0 <= k < |before| ==> GoesOn(before[k])
    ensures var writers := [FromBackend(order[|before|])]; var visits := before + [v];
            && (v.Tried? && !v.reply.failed ==> Concluded(order, visits, if v.reply.wrote then writers else [], Served))
            && (v == Tried(Attempt(true, true)) ==> Concluded(order, visits, writers, CutShort))
            && (GoesOn(v) && |visits| == |order| ==> Concluded(order, visits, [ErrorPage], BadGateway))
  {
  }

  /** What others left in a backend last is what it holds; if they left nothing, what it held before. */
  lemma {:induction false} HeldIsLatest(f: Flags, env: nat -> Others, b: nat, from: nat, upto: nat)
    requires from <= upto
    ensures (forall s :: from <= s < upto ==> env(s).flags(b) == None) ==> Held(f, env, b, from, upto) == f
    ensures forall s :: from <= s < upto && env(s).flags(b).Some?
                        && (forall t :: s < t < upto ==> env(t).flags(b) == None) ==>
              Held(f, env, b, from, upto) == env(s).flags(b).value
    decreases upto
  {
    if upto > from {
      HeldIsLatest(f, env, b, from, upto - 1);
    }
  }

  /** What one visit of backend j does: skip it exactly if its ejection is in force, else try it and, if that
      fails, stamp it. `was` is what the backends held before others acted. */
  ghost predicate VisitDone(was: seq<Flags>, now: seq<Flags>, j: nat, reply: Attempt, v: Visit,
                            before: Others, during: Others, checkedAt: int, markedAt: int)
    requires j < |was| == |now|
  {
    && (v.Skipped? <==> InForce(Left(before, j, was[j]), checkedAt))
    && (v.Tried? ==> v.reply == reply)
    && now[j] == VisitLeaves(v, Left(before, j, was[j]), during, j, markedAt)
    && forall k :: 0 <= k < |was| && k != j ==> now[k] == Left(during, k, Left(before, k, was[k]))
  }

  /** One more visit, at the end of the lap so far. */
  lemma NextVisit(was: seq<Flags>, mid: seq<Flags>, now: seq<Flags>, env: nat -> Others, order: seq<nat>,
                  visits: seq<Visit>, v: Visit, reply: nat -> Attempt, checkedAt: nat -> int, markedAt: nat -> int)
    requires |was| == |mid| == |now| && IsOrder(order, |was|) && |visits| < |was|
    requires Lap(was, mid, env, order, visits, reply, checkedAt, markedAt)
    requires var i := |visits|;
             VisitDone(mid, now, order[i], reply(i), v, env(2 * i), env(2 * i + 1), checkedAt(i), markedAt(i))
    ensures Lap(was, now, env, order, visits + [v], reply, checkedAt, markedAt)
  {
    var i, n := |visits|, |was|;
    assert mid[order[i]] == AtEnd(was, env, order, visits, markedAt, i);
    HeldTwice(was[order[i]], env, order[i], 0, 2 * i);
    forall k | 0 <= k < n
      ensures now[order[k]] == AtEnd(was, env, order, visits + [v], markedAt, k)
    {
      assert mid[order[k]] == AtEnd(was, env, order, visits, markedAt, k);
      if k != i {
        assert now[order[k]] == Left(env(2 * i + 1), order[k], Left(env(2 * i), order[k], mid[order[k]]));
        AtEndTwice(was, env, order, visits, v, markedAt, k);
      }
    }
  }

  /** A backend that the last visit is not to. */
  lemma AtEndTwice(was: seq<Flags>, env: nat -> Others, order: seq<nat>, visits: seq<Visit>, v: Visit,
                   markedAt: nat -> int, k: nat)
    requires IsOrder(order, |was|) && |visits| < |was| && k < |was| && k != |visits|
    ensures var i := |visits|;
            AtEnd(was, env, order, visits + [v], markedAt, k) ==
            Left(env(2 * i + 1), order[k], Left(env(2 * i), order[k], AtEnd(was, env, order, visits, markedAt, k)))
  {
    var i, b := |visits|, order[k];
    if k < i {
      var left := VisitLeaves(visits[k], Checked(was, env, order, k), env(2 * k + 1), b, markedAt(k));
      HeldTwice(left, env, b, 2 * k + 2, 2 * i);
    } else {
      HeldTwice(was[b], env, b, 0, 2 * i);
    }
  }

  class Balancer {
    const backends: seq<Backend>
    var counter: uint64

    ghost predicate Valid()
      reads this
    {
      && |backends| > 0
      && forall i, j :: 0 <= i < j < |backends| ==> backends[i] != backends[j]
    }

    ghost function Snapshot(): (s: seq<Flags>)
      reads this, backends
      ensures |s| == |backends|
      ensures forall k :: 0 <= k < |s| ==> s[k] == Flags(backends[k].down, backends[k].downAt)
    {
      seq(|backends|, k requires 0 <= k < |backends| reads this, backends =>
        Flags(backends[k].down, backends[k].downAt))
    }

    constructor (targets: seq<Backend>)
      requires |targets| > 0
      requires forall i, j :: 0 <= i < j < |targets| ==> targets[i] != targets[j]
      ensures Valid() && backends == targets && counter == 0
    {
      backends, counter := targets, 0;
    }

    /** Others' steps, all at once. */
    method Interfere(others: Others)
      requires Valid()
      modifies this, backends
      ensures Valid() && counter == Draw(others, old(counter))
      ensures forall k :: 0 <= k < |backends| ==> Snapshot()[k] == Left(others, k, old(Snapshot())[k])
    {
      counter := if others.counter.Some? then others.counter.value else counter;
      for k := 0 to |backends|
        invariant Valid() && counter == Draw(others, old(counter))
        invariant forall i :: 0 <= i < |backends| ==>
                    Flags(backends[i].down, backends[i].downAt) ==
                    if i < k then Left(others, i, old(Snapshot())[i]) else old(Snapshot())[i]
      {
        var f := others.flags(k);
        if f.Some? {
          backends[k].down, backends[k].downAt := f.value.down, f.value.downAt;
        }
      }
    }

    /** The body of the retry loop: skip backend j while it is down, else try it and mark it if it fails.
        Others act before the check and, while the backend is tried, after it. */
    method VisitBackend(j: nat, reply: Attempt, checkedAt: int, markedAt: int, before: Others, during: Others)
      returns (v: Visit)
      requires Valid() && j < |backends|
      modifies this, backends
      ensures Valid() && counter == Draw(during, Draw(before, old(counter)))
      ensures VisitDone(old(Snapshot()), Snapshot(), j, reply, v, before, during, checkedAt, markedAt)
    {
      Interfere(before);
      var b := backends[j];
      ghost var found := Snapshot();
      assert forall k :: 0 <= k < |backends| && k != j ==> backends[k] != b;
      var skip := b.IsDown(checkedAt);
      assert Snapshot() == found[j := found[j].(down := skip)];
      Interfere(during);
      if skip {
        return Skipped;
      }
      if reply.failed {
        b.MarkDown(markedAt);
      }
      return Tried(reply);
    }

    /** One request, with others acting before and during each visit as `env` says. The i-th visit is to
        backend (start + i) % n; the attempts' results and the clock readings are arbitrary. `client` lists
        who wrote to the client, in order. */
    method ServeHTTP(reply: nat -> Attempt, checkedAt: nat -> int, markedAt: nat -> int, env: nat -> Others)
      returns (start: nat, visits: seq<Visit>, client: seq<Writer>, outcome: Outcome)
      requires Valid()
      modifies this, backends
      ensures Valid() && counter == Counter(Add1(old(counter)), env, 2 * |visits|)
      ensures start == StartOf(Add1(old(counter)), |backends|)
      ensures Concluded(Order(start, |backends|), visits, client, outcome)
      ensures Lap(old(Snapshot()), Snapshot(), env, Order(start, |backends|), visits, reply, checkedAt, markedAt)
    {
      counter := Add1(counter);
      start := StartOf(counter, |backends|);
      visits, client, outcome := TryAll(Order(start, |backends|), reply, checkedAt, markedAt, env);
    }

    method VisitNext(ghost was: seq<Flags>, ghost c: uint64, order: seq<nat>, visits: seq<Visit>,
                     reply: nat -> Attempt, checkedAt: nat -> int, markedAt: nat -> int, env: nat -> Others)
      returns (v: Visit)
      requires Valid() && IsOrder(order, |was|) && |visits| < |backends| == |was| &&
               counter == Counter(c, env, 2 * |visits|)
      requires Lap(was, Snapshot(), env, order, visits, reply, checkedAt, markedAt)
      modifies this, backends
      ensures Valid() && counter == Counter(c, env, 2 * |visits + [v]|)
      ensures Lap(was, Snapshot(), env, order, visits + [v], reply, checkedAt, markedAt)
    {
      ghost var mid := Snapshot();
      var i := |visits|;
      v := VisitBackend(order[i], reply(i), checkedAt(i), markedAt(i), env(2 * i), env(2 * i + 1));
      NextVisit(was, mid, Snapshot(), env, order, visits, v, reply, checkedAt, markedAt);
      assert Counter(c, env, 2 * i + 1) == Draw(env(2 * i), Counter(c, env, 2 * i));
      assert 2 * |visits + [v]| == 2 * i + 2;
    }

    /** The retry loop, over the backends in the order in which they are met. */
    method TryAll(order: seq<nat>, reply: nat -> Attempt, checkedAt: nat -> int, markedAt: nat -> int,
                  env: nat -> Others)
      returns (visits: seq<Visit>, client: seq<Writer>, outcome: Outcome)
      requires Valid() && IsOrder(order, |backends|)
      modifies this, backends
      ensures Valid() && counter == Counter(old(counter), env, 2 * |visits|)
      ensures Concluded(order, visits, client, outcome)
      ensures Lap(old(Snapshot()), Snapshot(), env, order, visits, reply, checkedAt, markedAt)
    {
      ghost var was := Snapshot();
      visits, client := [], [];
      for i := 0 to |backends|
        invariant Valid() && |visits| == i && client == []
        invariant counter == Counter(old(counter), env, 2 * i)
        invariant forall k :: 0 <= k < i ==> GoesOn(visits[k])
        invariant i == |backends| ==> Concluded(order, visits, [ErrorPage], BadGateway)
        invariant Lap(was, Snapshot(), env, order, visits, reply, checkedAt, markedAt)
      {
        var v := VisitNext(was, old(counter), order, visits, reply, checkedAt, markedAt, env);
        EndsHere(order, visits, v);
        visits := visits + [v];
        if v.Tried? {
          if v.reply.wrote {
            client := client + [FromBackend(order[i])];
          }
          assert client == if v.reply.wrote then [FromBackend(order[i])] else [];
          if !v.reply.failed {
            return visits, client, Served;
          }
          if v.reply.wrote {
            return visits, client, CutShort;
          }
        }
      }
      return visits, client + [ErrorPage], BadGateway;
    }

    /** The same with nobody else about: each backend met is as the request found it, and the others stay so. */
    method ServeAlone(reply: nat -> Attempt, checkedAt: nat -> int, markedAt: nat -> int)
      returns (start: nat, visits: seq<Visit>, client: seq<Writer>, outcome: Outcome)
      requires Valid()
      modifies this, backends
      ensures Valid() && counter == Add1(old(counter))
      ensures start == StartOf(Add1(old(counter)), |backends|) && |visits| <= |backends|
      ensures forall i :: 0 <= i < |visits| ==>
                var b := Order(start, |backends|)[i];
                && (visits[i].Skipped? <==> InForce(old(Snapshot())[b], checkedAt(i)))
                && (visits[i].Tried? ==> visits[i].reply == reply(i))
                && Snapshot()[b] == if visits[i] == Skipped then old(Snapshot())[b]
                                    else if reply(i).failed then Flags(true, markedAt(i))
                                    else old(Snapshot())[b].(down := false)
      ensures forall i :: |visits| <= i < |backends| ==>
                Snapshot()[Order(start, |backends|)[i]] == old(Snapshot())[Order(start, |backends|)[i]]
      ensures Concluded(Order(start, |backends|), visits, client, outcome)
    {
      var nobody := (s: nat) => NOBODY;
      ghost var was := Snapshot();
      start, visits, client, outcome := ServeHTTP(reply, checkedAt, markedAt, nobody);
      ghost var order := Order(start, |backends|);
      NobodyDraws(Add1(old(counter)), nobody, 2 * |visits|);
      forall i | 0 <= i < |backends|
        ensures AtEnd(was, nobody, order, visits, markedAt, i) ==
                if i >= |visits| then was[order[i]]
                else VisitLeaves(visits[i], was[order[i]], NOBODY, order[i], markedAt(i))
        ensures Checked(was, nobody, order, i) == was[order[i]]
      {
        NobodyTouches(was, nobody, order, visits, markedAt, i);
      }
    }

    /** Of a request only its first choice. */
    method ServeOne(reply: nat -> Attempt, checkedAt: nat -> int, markedAt: nat -> int) returns (start: nat)
      requires Valid()
      modifies this, backends
      ensures Valid() && counter == Add1(old(counter)) && start == StartOf(Add1(old(counter)), |backends|)
    {
      var first, _, _, _ := ServeAlone(reply, checkedAt, markedAt);
      return first;
    }

    /** A stretch of requests one after the other: how often each backend is the first choice. */
    method ServeMany(m: nat, reply: nat -> Attempt, checkedAt: nat -> int, markedAt: nat -> int)
      returns (starts: seq<nat>)
      requires Valid()
      modifies this, backends
      ensures Valid() && |starts| == m
      ensures Drawn(starts, UINT64, old(counter) as nat, m, |backends|)
    {
      starts := [];
      NothingDrawn(UINT64, counter as nat, |backends|);
      for i := 0 to m
        invariant Valid() && |starts| == i && counter as nat == Wrapped(old(counter) as nat + i)
        invariant Drawn(starts, UINT64, old(counter) as nat, i, |backends|)
      {
        Add1Wraps(old(counter) as nat, i, counter);
        var start := ServeOne(reply, checkedAt, markedAt);
        NextDraw(UINT64, old(counter) as nat, i, |backends|, starts, start);
        starts := starts + [start];
      }
    }
  }

  lemma {:induction false} NobodyDraws(c: uint64, env: nat -> Others, upto: nat)
    requires forall s :: env(s) == NOBODY
    ensures Counter(c, env, upto) == c
  {
    if upto > 0 {
      NobodyDraws(c, env, upto - 1);
    }
  }

  lemma {:induction false} NobodyHolds(f: Flags, env: nat -> Others, b: nat, from: nat, upto: nat)
    requires forall s :: env(s) == NOBODY
    ensures Held(f, env, b, from, upto) == f
    decreases upto
  {
    if upto > from {
      NobodyHolds(f, env, b, from, upto - 1);
    }
  }

  lemma NobodyTouches(was: seq<Flags>, env: nat -> Others, order: seq<nat>, visits: seq<Visit>, markedAt: nat -> int,
                      i: nat)
    requires IsOrder(order, |was|) && i < |order| && forall s :: env(s) == NOBODY
    ensures var b := order[i];
            && Checked(was, env, order, i) == was[b]
            && AtEnd(was, env, order, visits, markedAt, i) ==
               if i >= |visits| then was[b] else VisitLeaves(visits[i], was[b], NOBODY, b, markedAt(i))
  {
    var b := order[i];
    NobodyHolds(was[b], env, b, 0, 2 * i + 1);
    NobodyHolds(was[b], env, b, 0, 2 * |visits|);
    if i < |visits| {
      NobodyHolds(VisitLeaves(visits[i], was[b], NOBODY, b, markedAt(i)), env, b, 2 * i + 2, 2 * |visits|);
    }
  }

  /** The backend met on the i-th visit. */
  function At(start: nat, i: nat, n: nat): (b: nat)
    requires n > 0
    ensures b < n
  {
    (start + i) % n
  }

  /** One lap visits every backend exactly once. */
  lemma VisitsApart(start: nat, i: nat, j: nat, n: nat)
    requires i < n && j < n && i != j
    ensures At(start, i, n) != At(start, j, n)
  {
    var p, q := (start + i) / n, (start + j) / n;
    assert start + i == n * p + At(start, i, n);
    assert start + j == n * q + At(start, j, n);
    Distribute(n, q, p);
    MulSign(n, q - p);
  }

  lemma AllApart(start: nat, n: nat)
    requires n > 0
    ensures forall i, j :: 0 <= i < j < n ==> At(start, i, n) != At(start, j, n)
  {
    forall i, j | 0 <= i < j < n
      ensures At(start, i, n) != At(start, j, n)
    {
      VisitsApart(start, i, j, n);
    }
  }

  /** The lap goes round forwards: it begins at `start`, and after each backend comes the next one, after the last the
      first. */
  lemma CyclicOrder(start: nat, n: nat)
    requires start < n
    ensures Order(start, n)[0] == start
    ensures forall i {:trigger Order(start, n)[i]} :: 0 <= i && i + 1 < n ==>
              Order(start, n)[i + 1] == if Order(start, n)[i] + 1 == n then 0 else Order(start, n)[i] + 1
  {
    ModUnique(start, n, 0, start);
    forall i | 0 <= i && i + 1 < n
      ensures Order(start, n)[i + 1] == if Order(start, n)[i] + 1 == n then 0 else Order(start, n)[i] + 1
    {
      NextAt(start, i, n);
    }
  }

  lemma NextAt(start: nat, i: nat, n: nat)
    requires n > 0
    ensures At(start, i + 1, n) == if At(start, i, n) + 1 == n then 0 else At(start, i, n) + 1
  {
    var q, r := QuotientOf(start + i, n);
    if r + 1 == n {
      Distribute(n, q, 1);
      ModUnique(start + i + 1, n, q + 1, 0);
    } else {
      ModUnique(start + i + 1, n, q, r + 1);
    }
  }

  /** Every backend is met on the lap, so "all skipped or failed" is about every backend. */
  lemma LapIsComplete(start: nat, n: nat, b: nat) returns (i: nat)
    requires b < n
    ensures i < n && At(start, i, n) == b
  {
    var q, r := start / n, start % n;
    assert start == n * q + r;
    if b >= r {
      i := b - r;
      ModUnique(start + i, n, q, b);
    } else {
      i := n + b - r;
      Distribute(n, q + 1, 1);
      ModUnique(start + i, n, q + 1, b);
    }
  }

  /** The error page, in terms of what a request meets: exactly when, at every visit of the lap, the backend's
      ejection is in force or the attempt fails with nothing written. */
  lemma BadGatewayIff(was: seq<Flags>, now: seq<Flags>, env: nat -> Others, order: seq<nat>, visits: seq<Visit>,
                      reply: nat -> Attempt, checkedAt: nat -> int, markedAt: nat -> int,
                      client: seq<Writer>, outcome: Outcome)
    requires IsOrder(order, |was|) && Lap(was, now, env, order, visits, reply, checkedAt, markedAt)
    requires Concluded(order, visits, client, outcome)
    ensures outcome == BadGateway <==>
            forall i :: 0 <= i < |order| ==>
              InForce(Checked(was, env, order, i), checkedAt(i)) || reply(i) == Attempt(true, false)
  {
    var last := |visits| - 1;
    if outcome == BadGateway {
      forall i | 0 <= i < |order|
        ensures InForce(Checked(was, env, order, i), checkedAt(i)) || reply(i) == Attempt(true, false)
      {
        assert i < last ==> GoesOn(visits[i]);
        assert visits[i].Skipped? || visits[i].reply == reply(i);
      }
    } else {
      assert !visits[last].Skipped? && visits[last].reply == reply(last);
    }
  }

  // ---- Round-robin fairness ----

  // A counter of any word size is treated; the balancer's is UINT64.

  /** How many of the m requests after counter value c draw a counter value in p. */
  function Draws(word: nat, c: nat, m: nat, p: nat -> bool): nat
    requires word > 0
  {
    if m == 0 then 0 else Draws(word, c, m - 1, p) + if p((c + m) % word) then 1 else 0
  }

  /** How many numbers below x are in p. */
  function Below(x: nat, p: nat -> bool): nat {
    if x == 0 then 0 else Below(x - 1, p) + if p(x - 1) then 1 else 0
  }

  /** The counter values that start at backend b of n. */
  function StartsAt(n: nat, b: nat): nat -> bool
    requires n > 0
  {
    (x: nat) => x % n == b
  }

  /** How many of the m requests after counter value c start at backend b of n. */
  function Hits(word: nat, c: nat, m: nat, n: nat, b: nat): nat
    requires n > 0 && word > 0
  {
    Draws(word, c, m, StartsAt(n, b))
  }

  /** Each backend is first choice as often as the counter values say. */
  ghost predicate Drawn(starts: seq<nat>, word: nat, c: nat, m: nat, n: nat)
    requires n > 0 && word > 0
  {
    forall b :: 0 <= b < n ==> multiset(starts)[b] == Hits(word, c, m, n, b)
  }

  lemma NothingDrawn(word: nat, c: nat, n: nat)
    requires n > 0 && word > 0
    ensures Drawn([], word, c, 0, n)
  {
  }

  lemma NextDraw(word: nat, c: nat, i: nat, n: nat, starts: seq<nat>, start: nat)
    requires n > 0 && word > 0 && start == ((c + (i + 1)) % word) % n
    requires Drawn(starts, word, c, i, n)
    ensures Drawn(starts + [start], word, c, i + 1, n)
  {
  }

  /** The counter after i + 1 draws. */
  lemma Add1Wraps(c: nat, i: nat, before: uint64)
    requires before as nat == Wrapped(c + i)
    ensures Add1(before) as nat == Wrapped(c + (i + 1))
  {
    NextMod(c + i, UINT64);
  }

  lemma {:induction false} BelowCount(x: nat, n: nat, b: nat, q: nat, r: nat)
    requires b < n && r < n && x == n * q + r
    ensures Below(x, StartsAt(n, b)) == q + if b < r then 1 else 0
    decreases x
  {
    if r > 0 {
      ModUnique(x - 1, n, q, r - 1);
      BelowCount(x - 1, n, b, q, r - 1);
    } else if q > 0 {
      Distribute(n, q, 1);
      MulSign(n, q);
      ModUnique(x - 1, n, q - 1, n - 1);
      BelowCount(x - 1, n, b, q - 1, n - 1);
    }
  }

  lemma WrapsOnce(x: nat, word: nat)
    requires x < 2 * word
    ensures x % word == if x < word then x else x - word
  {
    ModUnique(x, word, if x < word then 0 else 1, if x < word then x else x - word);
  }

  lemma {:induction false} DrawsAsBelow(word: nat, c: nat, m: nat, p: nat -> bool)
    requires c < word && c + m < 2 * word
    ensures Draws(word, c, m, p) + Below(c + 1, p) ==
            if c + m < word then Below(c + m + 1, p)
            else Below(word, p) + Below(c + m + 1 - word, p)
  {
    if m > 0 {
      DrawsAsBelow(word, c, m - 1, p);
      WrapsOnce(c + m, word);
    }
  }

  /** Any n*k consecutive requests are shared out as k each, as long as the counter does not wrap. */
  lemma FairWithoutWrap(word: nat, c: nat, k: nat, n: nat, b: nat)
    requires b < n && c + n * k < word
    ensures Hits(word, c, n * k, n, b) == k
  {
    FairFrom(word, c, n * k, k, n, b, (c + 1) / n, (c + 1) % n);
  }

  lemma FairFrom(word: nat, c: nat, m: nat, k: nat, n: nat, b: nat, q: nat, r: nat)
    requires b < n && c + m < word && m == n * k
    requires r < n && c + 1 == n * q + r
    ensures Hits(word, c, m, n, b) == k
  {
    Distribute(n, q, k);
    DrawsAsBelow(word, c, m, StartsAt(n, b));
    BelowCount(c + 1, n, b, q, r);
    BelowCount(c + 1 + m, n, b, q + k, r);
  }

  ghost predicate Fair(word: nat, c: nat, k: nat, n: nat)
    requires n > 0 && word > 0
  {
    forall b :: 0 <= b < n ==> Hits(word, c, n * k, n, b) == k
  }

  function Bit(p: bool): int {
    if p then 1 else 0
  }

  /** The three ends of a window that wraps, as quotients and remainders. */
  lemma WrapHits(word: nat, c: nat, m: nat, n: nat, b: nat, q1: nat, r1: nat, q2: nat, r2: nat, q3: nat, r3: nat)
    requires b < n && c < word <= c + m < 2 * word
    requires r1 < n && r2 < n && r3 < n
    requires word == n * q1 + r1 && c + 1 == n * q2 + r2 && c + m + 1 - word == n * q3 + r3
    ensures Hits(word, c, m, n, b) == q1 + q3 - q2 + Bit(b < r1) + Bit(b < r3) - Bit(b < r2)
  {
    DrawsAsBelow(word, c, m, StartsAt(n, b));
    BelowCount(c + 1, n, b, q2, r2);
    BelowCount(word, n, b, q1, r1);
    BelowCount(c + m + 1 - word, n, b, q3, r3);
  }

  /** The remainders alone say whether the share-out is exact. */
  lemma FairByRemainders(word: nat, c: nat, k: nat, n: nat, q1: nat, r1: nat, q2: nat, r2: nat, q3: nat, r3: nat)
    requires n > 0 && c < word <= c + n * k < 2 * word
    requires r1 < n && r2 < n && r3 < n
    requires word == n * q1 + r1 && c + 1 == n * q2 + r2 && c + n * k + 1 - word == n * q3 + r3
    ensures Fair(word, c, k, n) <==> r1 == 0 || r1 == r2
  {
    forall b | 0 <= b < n
      ensures Hits(word, c, n * k, n, b) == q1 + q3 - q2 + Bit(b < r1) + Bit(b < r3) - Bit(b < r2)
    {
      WrapHits(word, c, n * k, n, b, q1, r1, q2, r2, q3, r3);
    }
    assert n * (q1 + q3 - q2 - k) == r2 - r1 - r3 by {
      Distribute(n, q1, q2);
      Distribute(n, q1 - q2, q3);
      Distribute(n, q1 - q2 + q3, k);
    }
    MulSign(n, q1 + q3 - q2 - k);
    assert Hits(word, c, n * k, n, n - 1) == q1 + q3 - q2;
    assert Hits(word, c, n * k, n, 0) == q1 + q3 - q2 + Bit(0 < r1) + Bit(0 < r3) - Bit(0 < r2);
  }

  /** When the counter does wrap inside the window, the share-out is still exact precisely when the
      wrap falls between laps or the number of backends divides the word size. */
  lemma FairAcrossWrapIff(word: nat, c: nat, k: nat, n: nat)
    requires n > 0 && c < word <= c + n * k < 2 * word
    ensures Fair(word, c, k, n) <==> (word - 1 - c) % n == 0 || word % n == 0
  {
    var q1, r1 := QuotientOf(word, n);
    var q2, r2 := QuotientOf(c + 1, n);
    var q3, r3 := QuotientOf(c + n * k + 1 - word, n);
    FairByRemainders(word, c, k, n, q1, r1, q2, r2, q3, r3);
    DifferenceDivides(n, word - 1 - c, q1, r1, q2, r2);
  }

  lemma DifferenceDivides(n: nat, j: nat, q1: nat, r1: nat, q2: nat, r2: nat)
    requires r1 < n && r2 < n && j == (n * q1 + r1) - (n * q2 + r2)
    ensures j % n == 0 <==> r1 == r2
  {
    Distribute(n, q1, q2);
    if r1 >= r2 {
      if q1 < q2 { MulSign(n, q1 - q2); }
      ModUnique(j, n, q1 - q2, r1 - r2);
    } else {
      Distribute(n, q1 - q2, 1);
      ModUnique(j, n, q1 - q2 - 1, n + r1 - r2);
    }
  }

  /** Three backends and one lap across the wrap of the balancer's own counter: not shared out evenly. */
  lemma UnfairAcrossWrap()
    ensures !Fair(UINT64, UINT64 - 2, 1, 3)
  {
    FairAcrossWrapIff(UINT64, UINT64 - 2, 1, 3);
  }
}
