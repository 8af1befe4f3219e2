/** internal/server/middleware/ratelimit.go: a token bucket per client address, and its sweeper.
    Tokens and times are reals, times in seconds. */
module RateLimit {
  const IDLE: real := 600.0

  datatype Bucket = Bucket(tokens: real, last: real)
  type Buckets = map<string, Bucket>
  datatype Limits = Limits(rate: real, burst: int)

  // ---- One call, one sweep ----

  function Cap(x: real, burst: int): real {
    if x > burst as real then burst as real else x
  }

  /** Tokens earned over a stretch of time. */
  function Earned(p: Limits, seconds: real): real {
    seconds * p.rate
  }

  /** Tokens on hand at `now`, before the call spends one. */
  function Refilled(p: Limits, b: Bucket, now: real): real {
    Cap(b.tokens + Earned(p, now - b.last), p.burst)
  }

  function BucketOf(p: Limits, m: Buckets, ip: string, now: real): Bucket {
    if ip in m then m[ip] else Bucket(p.burst as real, now)
  }

  predicate Allowed(p: Limits, b: Bucket, now: real) {
    Refilled(p, b, now) >= 1.0
  }

  function Spent(p: Limits, b: Bucket, now: real): Bucket {
    Bucket(Refilled(p, b, now) - (if Allowed(p, b, now) then 1.0 else 0.0), now)
  }

  function Swept(m: Buckets, now: real): Buckets {
    map ip | ip in m && !(m[ip].last < now - IDLE) :: m[ip]
  }

  class RateLimiter {
    var buckets: Buckets
    const limits: Limits

    constructor (rps: real, burst: int)
      ensures buckets == map[] && limits.rate == rps
      ensures limits.burst == if burst < 1 then 1 else burst
    {
      buckets, limits := map[], Limits(rps, if burst < 1 then 1 else burst);
    }

    method Allow(ip: string, now: real) returns (ok: bool)
      modifies this
      ensures ok == Allowed(limits, BucketOf(limits, old(buckets), ip, now), now)
      ensures buckets == old(buckets)[ip := Spent(limits, BucketOf(limits, old(buckets), ip, now), now)]
    {
      if ip !in buckets {
        buckets := buckets[ip := Bucket(limits.burst as real, now)];
      }
      var b := buckets[ip];
      var tokens := b.tokens + (now - b.last) * limits.rate;
      if tokens > limits.burst as real {
        tokens := limits.burst as real;
      }
      assert tokens == Refilled(limits, b, now);
      ok := tokens >= 1.0;
      if ok {
        tokens := tokens - 1.0;
      }
      buckets := buckets[ip := Bucket(tokens, now)];
    }

    /** One tick of the sweeper: deletes while it walks over the map, in any order. */
    method Sweep(now: real)
      modifies this
      ensures buckets == Swept(old(buckets), now)
    {
      var cutoff := now - IDLE;
      var todo := buckets.Keys;
      while todo != {}
        invariant todo <= old(buckets).Keys
        invariant buckets == map ip | ip in old(buckets) &&
                  (ip in todo || !(old(buckets)[ip].last < cutoff)) :: old(buckets)[ip]
        decreases |todo|
      {
        var ip :| ip in todo;
        if buckets[ip].last < cutoff {
          buckets := buckets - {ip};
        }
        todo := todo - {ip};
      }
    }
  }

  // ---- Runs: allow calls in lock order, with sweeps anywhere ----

  datatype Event = Call(ip: string, at: real) | Tick(at: real)

  function After(p: Limits, m: Buckets, e: Event): Buckets {
    match e
    case Call(ip, at) => m[ip := Spent(p, BucketOf(p, m, ip, at), at)]
    case Tick(at) => Swept(m, at)
  }

  /** What one address is told, call by call. */
  datatype Answer = Answer(at: real, ok: bool)

  function Answers(p: Limits, m: Buckets, run: seq<Event>, ip: string): seq<Answer>
    decreases |run|
  {
    if run == [] then []
    else
      var rest := Answers(p, After(p, m, run[0]), run[1..], ip);
      if run[0].Call? && run[0].ip == ip
      then [Answer(run[0].at, Allowed(p, BucketOf(p, m, ip, run[0].at), run[0].at))] + rest
      else rest
  }

  function NoTicks(run: seq<Event>): seq<Event> {
    if run == [] then []
    else if run[0].Tick? then NoTicks(run[1..])
    else [run[0]] + NoTicks(run[1..])
  }

  /** One address's calls, and all sweeps. */
  function Alone(run: seq<Event>, ip: string): seq<Event> {
    if run == [] then []
    else if run[0].Call? && run[0].ip != ip then Alone(run[1..], ip)
    else [run[0]] + Alone(run[1..], ip)
  }

  /** Buckets of other addresses never matter: an address gets the answers it would get alone, sweeps included. */
  lemma {:induction false} AddressesIndependent(p: Limits, m: Buckets, m': Buckets, run: seq<Event>, ip: string)
    requires (ip in m) == (ip in m') && (ip in m ==> m[ip] == m'[ip])
    ensures Answers(p, m, run, ip) == Answers(p, m', Alone(run, ip), ip)
    decreases |run|
  {
    if run != [] {
      var kept := run[0].Tick? || run[0].ip == ip;
      AddressesIndependent(p, After(p, m, run[0]), if kept then After(p, m', run[0]) else m', run[1..], ip);
      if kept {
        assert ([run[0]] + Alone(run[1..], ip))[1..] == Alone(run[1..], ip);
      }
    }
  }

  // ---- The bound over any window ----

  lemma EarnedSplits(p: Limits, to: real, from: real)
    ensures Earned(p, to - from) == Earned(p, to) - Earned(p, from)
    ensures Earned(p, 0.0) == 0.0
  {
  }

  function CountOk(a: seq<Answer>): nat {
    if a == [] then 0 else CountOk(a[1..]) + if a[0].ok then 1 else 0
  }

  /** The potential: what a bucket could hold had it been refilling since time zero. */
  function Potential(p: Limits, b: Bucket): real {
    b.tokens - Earned(p, b.last)
  }

  lemma PotentialFalls(p: Limits, b: Bucket, now: real)
    ensures Potential(p, Spent(p, b, now)) <= Potential(p, b) - (if Allowed(p, b, now) then 1.0 else 0.0)
  {
    EarnedSplits(p, now, b.last);
  }

  /** Nothing earned is lost below the cap: there the potential falls by exactly the token spent. */
  lemma PotentialExact(p: Limits, b: Bucket, now: real, elapsed: real)
    requires elapsed == now - b.last
    ensures Refilled(p, b, now) == (if b.tokens + elapsed * p.rate > p.burst as real then p.burst as real
                                    else b.tokens + elapsed * p.rate)
    ensures Refilled(p, b, now) < p.burst as real ==>
              Potential(p, Spent(p, b, now)) == Potential(p, b) - (if Refilled(p, b, now) >= 1.0 then 1.0 else 0.0)
    ensures Spent(p, b, now).last == now
  {
    EarnedSplits(p, now, b.last);
    assert Earned(p, elapsed) == elapsed * p.rate;
  }

  /** The calls of one address from bucket b on, last call allowed: its bucket pays for all of them. */
  lemma {:induction false} PotentialPays(p: Limits, m: Buckets, run: seq<Event>, ip: string)
    requires run != [] && ip in m
    requires forall i :: 0 <= i < |run| ==> run[i].Call? && run[i].ip == ip
    ensures |Answers(p, m, run, ip)| == |run|
    ensures Answers(p, m, run, ip)[|run| - 1].ok ==>
              CountOk(Answers(p, m, run, ip)) as real <= Potential(p, m[ip]) + Earned(p, run[|run| - 1].at)
    decreases |run|
  {
    var now := run[0].at;
    var m1 := After(p, m, run[0]);
    var a := Answers(p, m, run, ip);
    PotentialFalls(p, m[ip], now);
    if |run| == 1 {
      assert Answers(p, m1, run[1..], ip) == [];
    } else {
      PotentialPays(p, m1, run[1..], ip);
      assert a[1..] == Answers(p, m1, run[1..], ip);
    }
  }

  /** The i-th answer and everything after it come from some state of the buckets. */
  lemma {:induction false} SuffixOfAnswers(p: Limits, m: Buckets, run: seq<Event>, ip: string, i: nat)
    returns (m': Buckets)
    requires forall k :: 0 <= k < |run| ==> run[k].Call? && run[k].ip == ip
    requires i <= |run|
    ensures |Answers(p, m, run, ip)| == |run|
    ensures Answers(p, m, run, ip)[i..] == Answers(p, m', run[i..], ip)
    decreases i, |run|
  {
    if i == 0 {
      m' := m;
      assert run[0..] == run;
      AnswersLength(p, m, run, ip);
    } else {
      m' := SuffixOfAnswers(p, After(p, m, run[0]), run[1..], ip, i - 1);
      assert run[i..] == run[1..][i - 1..];
      assert Answers(p, m, run, ip)[i..] == Answers(p, After(p, m, run[0]), run[1..], ip)[i - 1..];
    }
  }

  lemma {:induction false} AnswersLength(p: Limits, m: Buckets, run: seq<Event>, ip: string)
    requires forall k :: 0 <= k < |run| ==> run[k].Call? && run[k].ip == ip
    ensures |Answers(p, m, run, ip)| == |run|
    ensures forall k :: 0 <= k < |run| ==> Answers(p, m, run, ip)[k].at == run[k].at
    decreases |run|
  {
    if run != [] {
      AnswersLength(p, After(p, m, run[0]), run[1..], ip);
    }
  }

  /** Later calls do not change earlier answers. */
  lemma {:induction false} PrefixOfAnswers(p: Limits, m: Buckets, run: seq<Event>, ip: string, j: nat)
    requires forall k :: 0 <= k < |run| ==> run[k].Call? && run[k].ip == ip
    requires j <= |run|
    ensures |Answers(p, m, run, ip)| == |run|
    ensures Answers(p, m, run[..j], ip) == Answers(p, m, run, ip)[..j]
    decreases j
  {
    AnswersLength(p, m, run, ip);
    if j > 0 {
      PrefixOfAnswers(p, After(p, m, run[0]), run[1..], ip, j - 1);
      assert run[..j][1..] == run[1..][..j - 1];
    }
  }

  /** At most burst + rate * (elapsed) were allowed from the i-th answer to the j-th. */
  predicate WindowWithin(p: Limits, a: seq<Answer>, i: nat, j: nat)
    requires i <= j < |a|
  {
    CountOk(a[i..j + 1]) as real <= p.burst as real + Earned(p, a[j].at - a[i].at)
  }

  /** A window's first call finds at most a full bucket. */
  lemma WindowFromState(p: Limits, m: Buckets, run: seq<Event>, ip: string)
    requires run != []
    requires forall i :: 0 <= i < |run| ==> run[i].Call? && run[i].ip == ip
    ensures |Answers(p, m, run, ip)| == |run|
    ensures Answers(p, m, run, ip)[|run| - 1].ok ==>
              CountOk(Answers(p, m, run, ip)) as real <= p.burst as real + Earned(p, run[|run| - 1].at - run[0].at)
  {
    var now := run[0].at;
    var full := m[ip := Bucket(Refilled(p, BucketOf(p, m, ip, now), now), now)];
    EarnedSplits(p, now, now);
    assert Refilled(p, full[ip], now) == Refilled(p, BucketOf(p, m, ip, now), now);
    assert After(p, full, run[0]) == After(p, m, run[0]);
    assert Answers(p, full, run, ip) == Answers(p, m, run, ip);
    PotentialPays(p, full, run, ip);
    EarnedSplits(p, run[|run| - 1].at, now);
  }

  /** In any run of allow calls by any addresses without sweeps, with timestamps in any order: in every window of an
      address's answers that ends in an allowed call, at most burst + rate * (elapsed) were allowed. */
  lemma WindowBound(p: Limits, m: Buckets, run: seq<Event>, ip: string, i: nat, j: nat)
    requires forall k :: 0 <= k < |run| ==> run[k].Call?
    requires i <= j < |Answers(p, m, run, ip)|
    requires Answers(p, m, run, ip)[j].ok
    ensures WindowWithin(p, Answers(p, m, run, ip), i, j)
  {
    AloneIsOwnCalls(run, ip);
    AddressesIndependent(p, m, m, run, ip);
    WindowBoundAlone(p, m, Alone(run, ip), ip, i, j);
  }

  lemma WindowBoundAlone(p: Limits, m: Buckets, calls: seq<Event>, ip: string, i: nat, j: nat)
    requires forall k :: 0 <= k < |calls| ==> calls[k].Call? && calls[k].ip == ip
    requires i <= j < |Answers(p, m, calls, ip)|
    requires Answers(p, m, calls, ip)[j].ok
    ensures WindowWithin(p, Answers(p, m, calls, ip), i, j)
  {
    var m', window := WindowOfAnswers(p, m, calls, ip, i, j);
    WindowFromState(p, m', window, ip);
    SameWindow(p, Answers(p, m, calls, ip), i, j, Answers(p, m', window, ip), window[0].at, window[j - i].at);
  }

  lemma SameWindow(p: Limits, a: seq<Answer>, i: nat, j: nat, part: seq<Answer>, from: real, to: real)
    requires i <= j < |a| && part == a[i..j + 1] && from == a[i].at && to == a[j].at
    requires part[j - i].ok ==> CountOk(part) as real <= p.burst as real + Earned(p, to - from)
    ensures a[j].ok ==> WindowWithin(p, a, i, j)
  {
  }

  /** The answers in a window are the answers of its calls from the state it starts in. */
  lemma WindowOfAnswers(p: Limits, m: Buckets, calls: seq<Event>, ip: string, i: nat, j: nat)
    returns (m': Buckets, window: seq<Event>)
    requires forall k :: 0 <= k < |calls| ==> calls[k].Call? && calls[k].ip == ip
    requires i <= j < |Answers(p, m, calls, ip)|
    ensures |window| == j + 1 - i && forall k :: 0 <= k < |window| ==> window[k].Call? && window[k].ip == ip
    ensures var a := Answers(p, m, calls, ip);
            && Answers(p, m', window, ip) == a[i..j + 1]
            && window[0].at == a[i].at && window[j - i].at == a[j].at
  {
    AnswersLength(p, m, calls, ip);
    PrefixOfAnswers(p, m, calls, ip, j + 1);
    m' := SuffixOfAnswers(p, m, calls[..j + 1], ip, i);
    window := calls[i..j + 1];
    assert calls[..j + 1][i..] == window;
    assert Answers(p, m, calls, ip)[..j + 1][i..] == Answers(p, m, calls, ip)[i..j + 1];
  }

  lemma {:induction false} AloneIsOwnCalls(run: seq<Event>, ip: string)
    requires forall k :: 0 <= k < |run| ==> run[k].Call?
    ensures forall k :: 0 <= k < |Alone(run, ip)| ==> Alone(run, ip)[k].Call? && Alone(run, ip)[k].ip == ip
  {
    if run != [] {
      AloneIsOwnCalls(run[1..], ip);
    }
  }

  // ---- Monotone time: levels, waiting, and the sweeper ----

  /** Every bucket's level is between empty and full and its stamp is in the past. */
  ghost predicate Level(p: Limits, m: Buckets, now: real) {
    forall ip :: ip in m ==> 0.0 <= m[ip].tokens <= p.burst as real && m[ip].last <= now
  }

  ghost predicate Monotone(run: seq<Event>, from: real) {
    (forall i :: 0 <= i < |run| ==> from <= run[i].at) &&
    (forall i, j :: 0 <= i < j < |run| ==> run[i].at <= run[j].at)
  }

  /** Longer waits earn more. */
  lemma EarnedGrows(p: Limits, long: real, short: real)
    requires p.rate > 0.0 && long >= short
    ensures Earned(p, long) >= Earned(p, short)
  {
    assert (long - short) * p.rate >= 0.0;
  }

  lemma LevelKept(p: Limits, m: Buckets, e: Event, now: real)
    requires p.rate > 0.0 && p.burst >= 1
    requires Level(p, m, now) && now <= e.at
    ensures Level(p, After(p, m, e), e.at)
  {
    if e.Call? {
      var b := BucketOf(p, m, e.ip, e.at);
      EarnedGrows(p, e.at - b.last, 0.0);
      EarnedSplits(p, 0.0, 0.0);
      assert 0.0 <= Refilled(p, b, e.at) <= p.burst as real;
    }
  }

  /** A client that was turned away is served if it stays away for 1/rate seconds. */
  lemma WaitingHelps(p: Limits, m: Buckets, ip: string, now: real, later: real)
    requires p.rate > 0.0 && p.burst >= 1 && Level(p, m, now)
    requires !Allowed(p, BucketOf(p, m, ip, now), now)
    requires later >= now + 1.0 / p.rate
    ensures Allowed(p, BucketOf(p, After(p, m, Call(ip, now)), ip, later), later)
  {
    var b := BucketOf(p, m, ip, now);
    EarnedGrows(p, now - b.last, 0.0);
    EarnedSplits(p, 0.0, 0.0);
    EarnedGrows(p, later - now, 1.0 / p.rate);
    assert Earned(p, 1.0 / p.rate) == 1.0;
  }

  /** What a client refused at t0 has at least: all it has earned since. */
  ghost predicate Credit(p: Limits, m: Buckets, ip: string, t0: real) {
    ip in m ==> m[ip].tokens >= Earned(p, m[ip].last - t0)
  }

  lemma RefusalGivesCredit(p: Limits, m: Buckets, ip: string, now: real)
    requires p.rate > 0.0 && p.burst >= 1 && Level(p, m, now)
    requires !Allowed(p, BucketOf(p, m, ip, now), now)
    ensures Credit(p, After(p, m, Call(ip, now)), ip, now)
  {
    var b := BucketOf(p, m, ip, now);
    EarnedGrows(p, now - b.last, 0.0);
    EarnedSplits(p, now, now);
  }

  lemma CreditKept(p: Limits, m: Buckets, ip: string, t0: real, e: Event)
    requires p.rate > 0.0 && p.burst >= 1 && Credit(p, m, ip, t0)
    requires e.Call? && e.ip == ip ==> !Allowed(p, BucketOf(p, m, ip, e.at), e.at)
    ensures Credit(p, After(p, m, e), ip, t0)
  {
    if e.Call? && e.ip == ip {
      var b := BucketOf(p, m, ip, e.at);
      PotentialExact(p, b, e.at, e.at - b.last);
      EarnedSplits(p, e.at, b.last);
      EarnedSplits(p, e.at, t0);
      EarnedSplits(p, b.last, t0);
      EarnedSplits(p, e.at, e.at);
    }
  }

  lemma CreditPays(p: Limits, m: Buckets, ip: string, t0: real, now: real)
    requires p.rate > 0.0 && p.burst >= 1 && Credit(p, m, ip, t0) && now >= t0 + 1.0 / p.rate
    ensures Allowed(p, BucketOf(p, m, ip, now), now)
  {
    var b := BucketOf(p, m, ip, now);
    PotentialExact(p, b, now, now - b.last);
    EarnedSplits(p, now, b.last);
    EarnedSplits(p, b.last, t0);
    EarnedSplits(p, now, t0);
    EarnedSplits(p, now, now);
    EarnedGrows(p, now - t0, 1.0 / p.rate);
    assert Earned(p, 1.0 / p.rate) == 1.0;
  }

  /** The j-th answer from a state with credit, if all before it were refusals. */
  lemma {:induction false} CreditServes(p: Limits, m: Buckets, run: seq<Event>, ip: string, t0: real, j: nat)
    requires p.rate > 0.0 && p.burst >= 1 && Credit(p, m, ip, t0)
    requires j < |Answers(p, m, run, ip)| && forall k :: 0 <= k < j ==> !Answers(p, m, run, ip)[k].ok
    requires Answers(p, m, run, ip)[j].at >= t0 + 1.0 / p.rate
    ensures Answers(p, m, run, ip)[j].ok
    decreases |run|
  {
    var e, rest := run[0], Answers(p, After(p, m, run[0]), run[1..], ip);
    if e.Call? && e.ip == ip {
      if j == 0 {
        CreditPays(p, m, ip, t0, e.at);
      } else {
        assert !Answers(p, m, run, ip)[0].ok;
        CreditKept(p, m, ip, t0, e);
        assert forall k :: 0 <= k < |rest| ==> Answers(p, m, run, ip)[k + 1] == rest[k];
        CreditServes(p, After(p, m, e), run[1..], ip, t0, j - 1);
      }
    } else {
      CreditKept(p, m, ip, t0, e);
      CreditServes(p, After(p, m, e), run[1..], ip, t0, j);
    }
  }

  /** The run from the i-th answer of an address on. */
  lemma {:induction false} FromAnswer(p: Limits, m: Buckets, run: seq<Event>, now: real, ip: string, i: nat)
    returns (m': Buckets, run': seq<Event>, now': real)
    requires p.rate > 0.0 && p.burst >= 1 && Level(p, m, now) && Monotone(run, now)
    requires i < |Answers(p, m, run, ip)|
    ensures Level(p, m', now') && run' != [] && run'[0] == Call(ip, run'[0].at) && now' <= run'[0].at
    ensures Answers(p, m', run', ip) == Answers(p, m, run, ip)[i..]
    decreases |run|
  {
    var e := run[0];
    LevelKept(p, m, e, now);
    MonotoneTail(run, now);
    if !(e.Call? && e.ip == ip) {
      OthersAnswers(p, m, run, ip);
      m', run', now' := FromAnswer(p, After(p, m, e), run[1..], e.at, ip, i);
    } else if i == 0 {
      m', run', now' := m, run, now;
    } else {
      AnswersTail(p, m, run, ip);
      m', run', now' := FromAnswer(p, After(p, m, e), run[1..], e.at, ip, i - 1);
    }
  }

  /** Nobody starves, sweeps or not: a call at least 1/rate seconds after a refused one of the same address is
      allowed, unless one between them was, however often the client asks in the meantime. */
  lemma NoStarvation(p: Limits, m: Buckets, run: seq<Event>, now: real, ip: string, i: nat, j: nat)
    requires p.rate > 0.0 && p.burst >= 1 && Level(p, m, now) && Monotone(run, now)
    requires i < j < |Answers(p, m, run, ip)| && Refusals(Answers(p, m, run, ip), i, j)
    requires Answers(p, m, run, ip)[j].at >= Answers(p, m, run, ip)[i].at + 1.0 / p.rate
    ensures Answers(p, m, run, ip)[j].ok
  {
    var m', run', now' := FromAnswer(p, m, run, now, ip, i);
    RefusalsFrom(Answers(p, m, run, ip), i, j);
    FirstRefused(p, m', run', now', ip, j - i);
  }

  /** The answers from the i-th up to the j-th are all refusals. */
  predicate Refusals(a: seq<Answer>, i: nat, j: nat)
    requires j <= |a|
  {
    forall k :: i <= k < j ==> !a[k].ok
  }

  lemma RefusalsFrom(a: seq<Answer>, i: nat, j: nat)
    requires i < j < |a| && Refusals(a, i, j)
    ensures Refusals(a[i..], 0, j - i) && a[i..][j - i] == a[j] && a[i..][0] == a[i]
  {
  }

  lemma OthersAnswers(p: Limits, m: Buckets, run: seq<Event>, ip: string)
    requires run != [] && !(run[0].Call? && run[0].ip == ip)
    ensures Answers(p, m, run, ip) == Answers(p, After(p, m, run[0]), run[1..], ip)
  {
  }

  lemma MonotoneTail(run: seq<Event>, now: real)
    requires run != [] && Monotone(run, now)
    ensures Monotone(run[1..], run[0].at)
  {
  }

  lemma AnswersTail(p: Limits, m: Buckets, run: seq<Event>, ip: string)
    requires run != [] && run[0].Call? && run[0].ip == ip
    ensures |Answers(p, m, run, ip)| == |Answers(p, After(p, m, run[0]), run[1..], ip)| + 1
    ensures Answers(p, m, run, ip)[1..] == Answers(p, After(p, m, run[0]), run[1..], ip)
    ensures forall k :: 0 <= k < |Answers(p, After(p, m, run[0]), run[1..], ip)| ==>
              Answers(p, m, run, ip)[k + 1] == Answers(p, After(p, m, run[0]), run[1..], ip)[k]
  {
  }

  lemma FirstRefused(p: Limits, m: Buckets, run: seq<Event>, now: real, ip: string, j: nat)
    requires p.rate > 0.0 && p.burst >= 1 && Level(p, m, now)
    requires run != [] && run[0].Call? && run[0].ip == ip && now <= run[0].at
    requires 0 < j < |Answers(p, m, run, ip)| && Refusals(Answers(p, m, run, ip), 0, j)
    requires Answers(p, m, run, ip)[j].at >= Answers(p, m, run, ip)[0].at + 1.0 / p.rate
    ensures Answers(p, m, run, ip)[j].ok
  {
    var e, a := run[0], Answers(p, m, run, ip);
    var rest := Answers(p, After(p, m, e), run[1..], ip);
    assert forall k :: 0 <= k < |rest| ==> a[k + 1] == rest[k];
    assert !a[0].ok;
    LevelAt(p, m, now, e.at);
    RefusalGivesCredit(p, m, ip, e.at);
    CreditServes(p, After(p, m, e), run[1..], ip, e.at, j - 1);
  }

  lemma FrontAnswer(p: Limits, m: Buckets, ip: string, at: real, run: seq<Event>)
    ensures Answers(p, m, [Call(ip, at)] + run, ip) ==
            [Answer(at, Allowed(p, BucketOf(p, m, ip, at), at))] + Answers(p, After(p, m, Call(ip, at)), run, ip)
  {
    assert ([Call(ip, at)] + run)[1..] == run;
  }

  /** For example a client that asks every quarter of a second at two per second: its third call is served. */
  lemma PollingIsServed(p: Limits, ip: string)
    requires p == Limits(2.0, 1)
    ensures Answers(p, map[], [Call(ip, 0.0)] + ([Call(ip, 0.25)] + ([Call(ip, 0.5)] + [])), ip) ==
            [Answer(0.0, true)] + ([Answer(0.25, false)] + ([Answer(0.5, true)] + []))
  {
    var none: Buckets := map[];
    var m1 := After(p, none, Call(ip, 0.0));
    var m2 := After(p, m1, Call(ip, 0.25));
    PollingBuckets(p, ip);
    FrontAnswer(p, none, ip, 0.0, [Call(ip, 0.25)] + ([Call(ip, 0.5)] + []));
    FrontAnswer(p, m1, ip, 0.25, [Call(ip, 0.5)] + []);
    FrontAnswer(p, m2, ip, 0.5, []);
  }

  lemma PollingBuckets(p: Limits, ip: string)
    requires p == Limits(2.0, 1)
    ensures var none: Buckets := map[];
            var m1 := After(p, none, Call(ip, 0.0));
            var m2 := After(p, m1, Call(ip, 0.25));
            && Allowed(p, BucketOf(p, none, ip, 0.0), 0.0)
            && !Allowed(p, BucketOf(p, m1, ip, 0.25), 0.25)
            && Allowed(p, BucketOf(p, m2, ip, 0.5), 0.5)
  {
    var none: Buckets := map[];
    assert After(p, none, Call(ip, 0.0))[ip] == Bucket(0.0, 0.0);
    assert After(p, After(p, none, Call(ip, 0.0)), Call(ip, 0.25))[ip] == Bucket(0.5, 0.25);
  }

  lemma LevelAt(p: Limits, m: Buckets, now: real, later: real)
    requires Level(p, m, now) && now <= later
    ensures Level(p, m, later)
  {
  }

  /** m' is m after sweeps: what is missing has been idle so long that it would be full by now. */
  ghost predicate SweptOf(p: Limits, m: Buckets, m': Buckets, now: real) {
    && (forall ip :: ip in m' ==> ip in m && m'[ip] == m[ip])
    && (forall ip :: ip in m && ip !in m' ==> m[ip].last < now - IDLE)
  }

  /** A bucket idle for more than ten minutes refills completely when rate * 600 >= burst. */
  lemma IdleIsFull(p: Limits, b: Bucket, now: real)
    requires p.rate > 0.0 && Earned(p, IDLE) >= p.burst as real
    requires 0.0 <= b.tokens && b.last < now - IDLE
    ensures Refilled(p, b, now) == p.burst as real
  {
    EarnedGrows(p, now - b.last, IDLE);
  }

  lemma SweptOfKept(p: Limits, m: Buckets, m': Buckets, now: real, e: Event)
    requires p.rate > 0.0 && p.burst >= 1 && Earned(p, IDLE) >= p.burst as real
    requires Level(p, m, now) && SweptOf(p, m, m', now) && now <= e.at
    ensures e.Tick? ==> SweptOf(p, m, After(p, m', e), e.at)
    ensures e.Call? ==> SweptOf(p, After(p, m, e), After(p, m', e), e.at)
    ensures e.Call? ==>
              Refilled(p, BucketOf(p, m, e.ip, e.at), e.at) == Refilled(p, BucketOf(p, m', e.ip, e.at), e.at)
  {
    if e.Call? && e.ip !in m' {
      EarnedSplits(p, e.at, e.at);
      if e.ip in m {
        IdleIsFull(p, m[e.ip], e.at);
      }
      assert Refilled(p, BucketOf(p, m, e.ip, e.at), e.at) == p.burst as real;
    }
  }

  lemma {:induction false} SweepsInvisible(p: Limits, m: Buckets, m': Buckets, now: real, run: seq<Event>, ip: string)
    requires p.rate > 0.0 && p.burst >= 1 && Earned(p, IDLE) >= p.burst as real
    requires Level(p, m, now) && SweptOf(p, m, m', now) && Monotone(run, now)
    ensures Answers(p, m', run, ip) == Answers(p, m, NoTicks(run), ip)
    decreases |run|
  {
    if run != [] {
      var e := run[0];
      SweptOfKept(p, m, m', now, e);
      LevelKept(p, m, e, now);
      if e.Tick? {
        SweepsInvisible(p, m, After(p, m', e), e.at, run[1..], ip);
      } else {
        SweepsInvisible(p, After(p, m, e), After(p, m', e), e.at, run[1..], ip);
        assert ([e] + NoTicks(run[1..]))[1..] == NoTicks(run[1..]);
      }
    }
  }

  // ---- The sweeper can be seen exactly when ten minutes do not refill a bucket ----

  function Burst(ip: string, at: real, n: nat): seq<Event> {
    seq(n, _ => Call(ip, at))
  }

  /** k tokens serve k calls at one instant, and no more. */
  lemma {:induction false} BurstAnswers(p: Limits, m: Buckets, ip: string, at: real, n: nat, level: real)
    requires p.burst >= 1 && level <= p.burst as real
    requires Refilled(p, BucketOf(p, m, ip, at), at) == level
    ensures |Answers(p, m, Burst(ip, at, n), ip)| == n
    ensures forall k :: 0 <= k < n ==>
              (Answers(p, m, Burst(ip, at, n), ip)[k].ok <==>
                  (if 0.0 <= level then k as real + 1.0 <= level else false))
    decreases n
  {
    if n > 0 {
      var m1 := After(p, m, Call(ip, at));
      assert Burst(ip, at, n)[1..] == Burst(ip, at, n - 1);
      var left := if level >= 1.0 then level - 1.0 else level;
      assert m1[ip] == Bucket(left, at);
      EarnedSplits(p, at, at);
      BurstAnswers(p, m1, ip, at, n - 1, left);
      var a, b := Answers(p, m, Burst(ip, at, n), ip), Answers(p, m1, Burst(ip, at, n - 1), ip);
      forall k | 0 <= k < n
        ensures a[k].ok <==> (if 0.0 <= level then k as real + 1.0 <= level else false)
      {
        assert k > 0 ==> a[k] == b[k - 1];
      }
    }
  }

  lemma {:induction false} AnswersConcat(p: Limits, m: Buckets, a: seq<Event>, b: seq<Event>, ip: string)
    ensures Answers(p, m, a + b, ip) == Answers(p, m, a, ip) + Answers(p, AfterAll(p, m, a), b, ip)
    decreases |a|
  {
    if a == [] {
      assert a + b == b;
    } else {
      assert (a + b)[1..] == a[1..] + b;
      AnswersConcat(p, After(p, m, a[0]), a[1..], b, ip);
    }
  }

  function AfterAll(p: Limits, m: Buckets, run: seq<Event>): Buckets
    decreases |run|
  {
    if run == [] then m else AfterAll(p, After(p, m, run[0]), run[1..])
  }

  /** Spending a full bucket at one instant leaves exactly zero tokens. */
  lemma {:induction false} BurstDrains(p: Limits, m: Buckets, ip: string, at: real, n: nat)
    requires ip in m && n as real <= m[ip].tokens <= p.burst as real && m[ip].last == at
    ensures AfterAll(p, m, Burst(ip, at, n)) == m[ip := Bucket(m[ip].tokens - n as real, at)]
    decreases n
  {
    if n > 0 {
      var m1 := After(p, m, Call(ip, at));
      EarnedSplits(p, at, at);
      assert Refilled(p, m[ip], at) == m[ip].tokens;
      assert Burst(ip, at, n)[1..] == Burst(ip, at, n - 1);
      assert m1 == m[ip := Bucket(m[ip].tokens - 1.0, at)];
      BurstDrains(p, m1, ip, at, n - 1);
    }
  }

  /** From a bucket drained at time 0: without a sweep the last of `burst` calls at `late` is refused,
      with a sweep just before them it is served. */
  lemma DrainedThenSwept(p: Limits, ip: string, late: real)
    requires p.rate > 0.0 && p.burst >= 1
    requires late > IDLE && Earned(p, late) < p.burst as real
    ensures var drained := map[ip := Bucket(0.0, 0.0)];
            Answers(p, drained, [Tick(late)] + Burst(ip, late, p.burst), ip) !=
            Answers(p, drained, Burst(ip, late, p.burst), ip)
  {
    var drained: Buckets := map[ip := Bucket(0.0, 0.0)];
    var calls := Burst(ip, late, p.burst);
    assert ([Tick(late)] + calls)[1..] == calls;
    assert Swept(drained, late) == map[];
    EarnedSplits(p, late, late);
    EarnedGrows(p, late, 0.0);
    BurstAnswers(p, drained, ip, late, p.burst, Earned(p, late));
    BurstAnswers(p, map[], ip, late, p.burst, p.burst as real);
    assert !Answers(p, drained, calls, ip)[p.burst - 1].ok;
    assert Answers(p, map[], calls, ip)[p.burst - 1].ok;
  }

  /** No run from an empty limiter with monotone time can tell whether the sweeper runs. */
  ghost predicate SweeperUnobservable(p: Limits) {
    forall run, ip :: Monotone(run, 0.0) ==> Answers(p, map[], run, ip) == Answers(p, map[], NoTicks(run), ip)
  }

  lemma {:induction false} NoTicksOfCalls(run: seq<Event>)
    requires forall i :: 0 <= i < |run| ==> run[i].Call?
    ensures NoTicks(run) == run
  {
    if run != [] {
      NoTicksOfCalls(run[1..]);
    }
  }

  lemma {:induction false} NoTicksConcat(a: seq<Event>, b: seq<Event>)
    ensures NoTicks(a + b) == NoTicks(a) + NoTicks(b)
  {
    if a == [] {
      assert a + b == b;
    } else {
      assert (a + b)[1..] == a[1..] + b;
      NoTicksConcat(a[1..], b);
    }
  }

  /** When ten minutes do not refill a bucket, this run shows the sweep. */
  lemma SweepSeen(p: Limits, ip: string) returns (run: seq<Event>)
    requires p.rate > 0.0 && p.burst >= 1 && Earned(p, IDLE) < p.burst as real
    ensures Monotone(run, 0.0)
    ensures Answers(p, map[], run, ip) != Answers(p, map[], NoTicks(run), ip)
  {
    var late := JustAfter(p);
    var drain, calls := Burst(ip, 0.0, p.burst), Burst(ip, late, p.burst);
    run := drain + ([Tick(late)] + calls);
    NoTicksOfCalls(drain);
    NoTicksOfCalls(calls);
    SweepTells(p, ip, late, drain, calls);
  }

  lemma SweepTells(p: Limits, ip: string, late: real, drain: seq<Event>, calls: seq<Event>)
    requires p.rate > 0.0 && p.burst >= 1
    requires late > IDLE && Earned(p, late) < p.burst as real
    requires drain == Burst(ip, 0.0, p.burst) && calls == Burst(ip, late, p.burst)
    requires NoTicks(drain) == drain && NoTicks(calls) == calls
    ensures var run := drain + ([Tick(late)] + calls);
            Answers(p, map[], run, ip) != Answers(p, map[], NoTicks(run), ip)
  {
    var tail := [Tick(late)] + calls;
    assert tail[1..] == calls;
    NoTicksConcat(drain, tail);
    DrainFromEmpty(p, ip);
    AnswersConcat(p, map[], drain, tail, ip);
    AnswersConcat(p, map[], drain, calls, ip);
    DrainedThenSwept(p, ip, late);
    var drained: Buckets := map[ip := Bucket(0.0, 0.0)];
    CancelLeft(Answers(p, map[], drain, ip), Answers(p, drained, tail, ip), Answers(p, drained, calls, ip));
  }

  lemma CancelLeft(x: seq<Answer>, a: seq<Answer>, b: seq<Answer>)
    requires a != b
    ensures x + a != x + b
  {
    assert (x + a)[|x|..] == a && (x + b)[|x|..] == b;
  }

  /** Sweeping is unobservable over whole runs if and only if ten minutes refill a whole burst. */
  lemma SweeperUnobservableIff(p: Limits)
    requires p.rate > 0.0 && p.burst >= 1
    ensures SweeperUnobservable(p) <==> Earned(p, IDLE) >= p.burst as real
  {
    if Earned(p, IDLE) >= p.burst as real {
      forall run, ip | Monotone(run, 0.0)
        ensures Answers(p, map[], run, ip) == Answers(p, map[], NoTicks(run), ip)
      {
        SweepsInvisible(p, map[], map[], 0.0, run, ip);
      }
    } else {
      var run := SweepSeen(p, "client");
    }
  }

  lemma JustAfter(p: Limits) returns (late: real)
    requires p.rate > 0.0 && Earned(p, IDLE) < p.burst as real
    ensures late > IDLE && Earned(p, late) < p.burst as real
  {
    var slack := p.burst as real - Earned(p, IDLE);
    var step := slack / (2.0 * p.rate);
    assert step * p.rate == slack / 2.0;
    late := IDLE + step;
    EarnedSplits(p, late, IDLE);
  }

  lemma DrainFromEmpty(p: Limits, ip: string)
    requires p.burst >= 1
    ensures AfterAll(p, map[], Burst(ip, 0.0, p.burst)) == map[ip := Bucket(0.0, 0.0)]
  {
    var calls := Burst(ip, 0.0, p.burst);
    var full: Buckets := map[ip := Bucket(p.burst as real, 0.0)];
    EarnedSplits(p, 0.0, 0.0);
    assert After(p, map[], calls[0]) == After(p, full, calls[0]);
    BurstDrains(p, full, ip, 0.0, p.burst);
    assert AfterAll(p, map[], calls) == AfterAll(p, full, calls);
    assert full[ip := Bucket(0.0, 0.0)] == map[ip := Bucket(0.0, 0.0)];
  }

  // ---- The bound with the sweeper running ----

  /** In every window of an address's answers that ends in an allowed call, at most burst + rate * (elapsed)
      were allowed. */
  ghost predicate WithinBound(p: Limits, a: seq<Answer>) {
    forall i, j :: 0 <= i <= j < |a| && a[j].ok ==> WindowWithin(p, a, i, j)
  }

  /** The limiter keeps its promise over every run from empty with monotone time and sweeps anywhere. */
  ghost predicate Bounded(p: Limits) {
    forall run, ip :: Monotone(run, 0.0) ==> WithinBound(p, Answers(p, map[], run, ip))
  }

  lemma {:induction false} NoTicksAreCalls(run: seq<Event>)
    ensures forall k :: 0 <= k < |NoTicks(run)| ==> NoTicks(run)[k].Call?
  {
    if run != [] {
      NoTicksAreCalls(run[1..]);
    }
  }

  lemma {:induction false} AllOk(a: seq<Answer>)
    requires forall k :: 0 <= k < |a| ==> a[k].ok
    ensures CountOk(a) == |a|
  {
    if a != [] {
      AllOk(a[1..]);
    }
  }

  lemma {:induction false} BurstAt(p: Limits, m: Buckets, ip: string, at: real, n: nat)
    ensures forall k :: 0 <= k < |Answers(p, m, Burst(ip, at, n), ip)| ==>
            Answers(p, m, Burst(ip, at, n), ip)[k].at == at
  {
    AnswersLength(p, m, Burst(ip, at, n), ip);
  }

  /** A fresh limiter serves a whole burst. */
  lemma FullBurst(p: Limits, ip: string, at: real)
    requires p.burst >= 1
    ensures var a := Answers(p, map[], Burst(ip, at, p.burst), ip);
            |a| == p.burst && CountOk(a) == p.burst && forall k :: 0 <= k < p.burst ==> a[k] == Answer(at, true)
  {
    EarnedSplits(p, at, at);
    BurstAnswers(p, map[], ip, at, p.burst, p.burst as real);
    BurstAt(p, map[], ip, at, p.burst);
    AllOk(Answers(p, map[], Burst(ip, at, p.burst), ip));
  }

  lemma CountOkConcat(a: seq<Answer>, b: seq<Answer>)
    ensures CountOk(a + b) == CountOk(a) + CountOk(b)
  {
    if a == [] {
      assert a + b == b;
    } else {
      assert (a + b)[1..] == a[1..] + b;
      CountOkConcat(a[1..], b);
    }
  }

  /** Two bursts with a sweep between them: when ten minutes do not refill a bucket, both are served in full. */
  function TwoBursts(p: Limits, ip: string, late: real): seq<Event>
    requires p.burst >= 0
  {
    Burst(ip, 0.0, p.burst) + ([Tick(late)] + Burst(ip, late, p.burst))
  }

  lemma TwoBurstsServed(p: Limits, ip: string, late: real)
    requires p.burst >= 1 && late > IDLE
    ensures var a := Answers(p, map[], TwoBursts(p, ip, late), ip);
            && |a| == 2 * p.burst && CountOk(a) == 2 * p.burst
            && a[0] == Answer(0.0, true) && a[2 * p.burst - 1] == Answer(late, true)
  {
    var drain, calls := Burst(ip, 0.0, p.burst), Burst(ip, late, p.burst);
    var drained: Buckets := map[ip := Bucket(0.0, 0.0)];
    AnswersConcat(p, map[], drain, [Tick(late)] + calls, ip);
    DrainFromEmpty(p, ip);
    assert ([Tick(late)] + calls)[1..] == calls;
    assert Swept(drained, late) == map[];
    FullBurst(p, ip, 0.0);
    FullBurst(p, ip, late);
    CountOkConcat(Answers(p, map[], drain, ip), Answers(p, map[], calls, ip));
  }

  /** So the bound fails: 2 * burst allowed in a time that does not even earn one burst. */
  lemma SweepBreaksBound(p: Limits, ip: string) returns (late: real)
    requires p.rate > 0.0 && p.burst >= 1 && Earned(p, IDLE) < p.burst as real
    ensures Monotone(TwoBursts(p, ip, late), 0.0)
    ensures !WithinBound(p, Answers(p, map[], TwoBursts(p, ip, late), ip))
  {
    late := JustAfter(p);
    TwoBurstsServed(p, ip, late);
    TooMany(p, Answers(p, map[], TwoBursts(p, ip, late), ip), late);
    TwoBurstsMonotone(p, ip, late);
  }

  lemma TwoBurstsMonotone(p: Limits, ip: string, late: real)
    requires p.burst >= 0 && late >= 0.0
    ensures Monotone(TwoBursts(p, ip, late), 0.0)
  {
  }

  lemma TooMany(p: Limits, a: seq<Answer>, late: real)
    requires p.burst >= 1 && Earned(p, late) < p.burst as real
    requires |a| == 2 * p.burst == CountOk(a)
    requires a[0] == Answer(0.0, true) && a[2 * p.burst - 1] == Answer(late, true)
    ensures !WithinBound(p, a)
  {
    var j := |a| - 1;
    assert a[0..j + 1] == a;
    assert !WindowWithin(p, a, 0, j);
    assert CountOk(a[0..j + 1]) as real == p.burst as real + p.burst as real;
    assert a[j].at - a[0].at == late;
  }

  /** With the sweeper running the bound holds over whole runs if and only if ten minutes refill a whole burst. */
  lemma BoundedIff(p: Limits)
    requires p.rate > 0.0 && p.burst >= 1
    ensures Bounded(p) <==> Earned(p, IDLE) >= p.burst as real
  {
    if Earned(p, IDLE) >= p.burst as real {
      forall run, ip | Monotone(run, 0.0)
        ensures WithinBound(p, Answers(p, map[], run, ip))
      {
        SweepsInvisible(p, map[], map[], 0.0, run, ip);
        NoTicksAreCalls(run);
        WithinWithoutTicks(p, NoTicks(run), ip);
      }
    } else {
      var late := SweepBreaksBound(p, "client");
    }
  }

  lemma WithinWithoutTicks(p: Limits, run: seq<Event>, ip: string)
    requires forall k :: 0 <= k < |run| ==> run[k].Call?
    ensures WithinBound(p, Answers(p, map[], run, ip))
  {
    var a := Answers(p, map[], run, ip);
    forall i, j | 0 <= i <= j < |a| && a[j].ok
      ensures WindowWithin(p, a, i, j)
    {
      WindowBound(p, map[], run, ip, i, j);
    }
  }
}
