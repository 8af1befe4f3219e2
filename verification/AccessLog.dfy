/** internal/monitor/monitor.go: the last hundred requests. */
module Monitor {
  import opened Numbers

  const MAX_REQUEST_LOGS := 100

  datatype Value = Str(s: string) | Int(n: int) | Float(r: real)
  type Fields = map<string, Value>

  datatype RequestLog = RequestLog(identifier: string, domain: string, httpMethod: string, url: string,
                                   statusCode: int, durationSec: real)

  function StrField(f: Fields, key: string): string {
    if key in f && f[key].Str? then f[key].s else ""
  }

  function RequestLogOf(identifier: string, f: Fields): RequestLog {
    RequestLog(identifier, StrField(f, "domain"), StrField(f, "method"), StrField(f, "url"),
               if "status_code" in f && f["status_code"].Int? then f["status_code"].n else 0,
               if "duration_sec" in f && f["duration_sec"].Float? then f["duration_sec"].r else 0.0)
  }

  function Last<T>(s: seq<T>, n: nat): seq<T> {
    if |s| <= n then s else s[|s| - n..]
  }

  /** Truncating after every append keeps exactly what truncating once would. */
  lemma LastOfAppend<T>(s: seq<T>, x: T, n: nat)
    ensures Last(Last(s, n) + [x], n) == Last(s + [x], n)
  {
  }

  class RequestMonitor {
    var items: seq<RequestLog>
    var count: nat
    /** Every entry ever added. */
    ghost var added: seq<RequestLog>

    ghost predicate Valid()
      reads this
    {
      items == Last(added, MAX_REQUEST_LOGS) && count == Wrapped(|added|)
    }

    constructor ()
      ensures Valid() && added == []
    {
      items, count, added := [], 0, [];
    }

    method AddRequestLog(identifier: string, fields: Fields)
      requires Valid()
      modifies this
      ensures Valid() && added == old(added) + [RequestLogOf(identifier, fields)]
    {
      var entry := RequestLogOf(identifier, fields);
      LastOfAppend(added, entry, MAX_REQUEST_LOGS);
      count := Wrapped(count + 1);
      NextMod(|added|, UINT64);
      items := items + [entry];
      if |items| > MAX_REQUEST_LOGS {
        items := items[|items| - MAX_REQUEST_LOGS..];
      }
      added := added + [entry];
    }

    /** The most recent entries, oldest first: `limit` of them, or all that are kept. */
    method RecentRequestLogs(limit: int) returns (r: seq<RequestLog>)
      requires Valid()
      ensures r == Last(added, if 0 < limit <= MAX_REQUEST_LOGS then limit else MAX_REQUEST_LOGS)
    {
      var n := if limit <= 0 || limit > |items| then |items| else limit;
      r := items[|items| - n..];
    }
  }
}

/** internal/server/middleware/async_logger.go: pooled entries, a bounded queue and one worker. */
module AsyncLog {
  import opened Strings
  import opened Numbers
  import opened Monitor

  datatype Payload = Payload(
    message: string, identifier: string, httpMethod: string, url: string,
    remoteAddr: string, domain: string, statusCode: int, duration: real)

  const BLANK := Payload("", "", "", "", "", "", 0, 0.0)

  class LogEntry {
    var data: Payload

    constructor ()
      ensures data == BLANK
    {
      data := BLANK;
    }
  }

  /** What of a request is shown where: each value under its own name, in the file and in the monitor. */
  lemma EachUnderItsName(p: Payload)
    ensures var f := LineOf(p).fields;
            && LineOf(p).message == p.message
            && f.Keys == {"method", "url", "remote_addr", "status_code", "duration_sec", "domain"}
            && f["method"] == Str(p.httpMethod) && f["url"] == Str(p.url) && f["remote_addr"] == Str(p.remoteAddr)
            && f["status_code"] == Int(p.statusCode) && f["duration_sec"] == Float(p.duration)
            && f["domain"] == Str(p.domain)
    ensures var l := RequestLogOf(p.identifier, LineOf(p).fields);
            && l == LogOf(p)
            && l.identifier == p.identifier && l.domain == p.domain && l.httpMethod == p.httpMethod && l.url == p.url
            && l.statusCode == p.statusCode && l.durationSec == p.duration
  {
  }

  function LogsOf(ps: seq<Payload>): (r: seq<RequestLog>)
    ensures |r| == |ps|
  {
    seq(|ps|, i requires 0 <= i < |ps| => LogOf(ps[i]))
  }

  function LinesOf(ps: seq<Payload>): (r: seq<Line>)
    ensures |r| == |ps|
  {
    seq(|ps|, i requires 0 <= i < |ps| => LineOf(ps[i]))
  }

  /** Who may touch an entry. Each entry has one owner at a time. */
  datatype Owner = Pooled | HeldBy(t: nat) | Queued | Working

  datatype Submission = Submission(payload: Payload, dropped: bool, queueLength: nat)

  function Accepted(log: seq<Submission>): seq<Payload> {
    if log == [] then []
    else Accepted(log[..|log| - 1]) + if log[|log| - 1].dropped then [] else [log[|log| - 1].payload]
  }

  function DroppedCount(log: seq<Submission>): nat {
    if log == [] then 0
    else DroppedCount(log[..|log| - 1]) + if log[|log| - 1].dropped then 1 else 0
  }

  /** Nothing is lost: every submission was accepted or dropped. */
  lemma {:induction false} SubmissionsSplit(log: seq<Submission>)
    ensures |log| == |Accepted(log)| + DroppedCount(log)
  {
    if log != [] {
      SubmissionsSplit(log[..|log| - 1]);
    }
  }

  lemma LogAppend(log: seq<Submission>, s: Submission)
    ensures Accepted(log + [s]) == Accepted(log) + if s.dropped then [] else [s.payload]
  {
    assert (log + [s])[..|log|] == log;
  }

  function FieldsOf(p: Payload): Fields {
    map["method" := Str(p.httpMethod), "url" := Str(p.url), "remote_addr" := Str(p.remoteAddr),
        "status_code" := Int(p.statusCode), "duration_sec" := Float(p.duration), "domain" := Str(p.domain)]
  }

  /** The monitor finds in the fields everything it keeps. */
  lemma FieldsCarryAll(p: Payload)
    ensures RequestLogOf(p.identifier, FieldsOf(p)) == LogOf(p)
  {
  }

  /** A record in the log file. */
  datatype Line = Line(message: string, fields: Fields)

  function LineOf(p: Payload): Line {
    Line(p.message, FieldsOf(p))
  }

  function LogOf(p: Payload): RequestLog {
    RequestLog(p.identifier, p.domain, p.httpMethod, p.url, p.statusCode, p.duration)
  }

  /** Each entry is where its owner says, and nowhere else. */
  ghost predicate OwnedBy(owner: map<LogEntry, Owner>, queue: seq<LogEntry>, pool: set<LogEntry>, working: LogEntry?,
                          held: map<nat, LogEntry>) {
    && (forall e :: e in pool ==> e in owner && owner[e] == Pooled)
    && (forall t :: t in held ==> held[t] in owner && owner[held[t]] == HeldBy(t))
    && (forall e :: e in queue ==> e in owner && owner[e] == Queued)
    && (forall i, j :: 0 <= i < j < |queue| ==> queue[i] != queue[j])
    && (working != null ==> working in owner && owner[working] == Working)
    && (forall e :: e in owner ==>
          match owner[e]
          case Pooled => e in pool
          case HeldBy(t) => t in held && held[t] == e
          case Queued => e in queue
          case Working => working == e)
  }

  /** An entry held by a goroutine is in no other place. */
  lemma OneOwner(owner: map<LogEntry, Owner>, queue: seq<LogEntry>, pool: set<LogEntry>, working: LogEntry?,
                 held: map<nat, LogEntry>, t: nat)
    requires OwnedBy(owner, queue, pool, working, held) && t in held
    ensures held[t] !in queue && held[t] !in pool && held[t] != working
    ensures forall u :: u in held && u != t ==> held[u] != held[t]
  {
  }

  lemma IsOwned(owner: map<LogEntry, Owner>, queue: seq<LogEntry>, pool: set<LogEntry>, working: LogEntry?,
                held: map<nat, LogEntry>, t: nat)
    requires OwnedBy(owner, queue, pool, working, held) && t in held
    ensures held[t] in owner
  {
  }

  lemma WorkerApart(owner: map<LogEntry, Owner>, queue: seq<LogEntry>, pool: set<LogEntry>, working: LogEntry,
                    held: map<nat, LogEntry>)
    requires OwnedBy(owner, queue, pool, working, held)
    ensures working !in queue && working !in pool
    ensures forall u :: u in held ==> held[u] != working
  {
  }

  lemma HandOut(owner: map<LogEntry, Owner>, queue: seq<LogEntry>, pool: set<LogEntry>, working: LogEntry?,
                held: map<nat, LogEntry>, t: nat, e: LogEntry)
    requires OwnedBy(owner, queue, pool, working, held)
    requires t !in held && (e in pool || e !in owner)
    ensures OwnedBy(owner[e := HeldBy(t)], queue, pool - {e}, working, held[t := e])
  {
  }

  lemma Enqueue(owner: map<LogEntry, Owner>, queue: seq<LogEntry>, pool: set<LogEntry>, working: LogEntry?,
                held: map<nat, LogEntry>, t: nat)
    requires OwnedBy(owner, queue, pool, working, held) && t in held
    ensures OwnedBy(owner[held[t] := Queued], queue + [held[t]], pool, working, held - {t})
  {
  }

  lemma GiveBack(owner: map<LogEntry, Owner>, queue: seq<LogEntry>, pool: set<LogEntry>, working: LogEntry?,
                 held: map<nat, LogEntry>, t: nat)
    requires OwnedBy(owner, queue, pool, working, held) && t in held
    ensures OwnedBy(owner[held[t] := Pooled], queue, pool + {held[t]}, working, held - {t})
  {
  }

  lemma Dequeue(owner: map<LogEntry, Owner>, queue: seq<LogEntry>, pool: set<LogEntry>, held: map<nat, LogEntry>)
    requires OwnedBy(owner, queue, pool, null, held) && queue != []
    ensures OwnedBy(owner[queue[0] := Working], queue[1..], pool, queue[0], held)
  {
  }

  lemma Retire(owner: map<LogEntry, Owner>, queue: seq<LogEntry>, pool: set<LogEntry>, working: LogEntry,
               held: map<nat, LogEntry>)
    requires OwnedBy(owner, queue, pool, working, held)
    ensures OwnedBy(owner[working := Pooled], queue, pool + {working}, null, held)
  {
  }

  /** One step of the whole system. */
  datatype Step =
    | Get(t: nat)
    | FillIn(t: nat, payload: Payload)
    | Submit(t: nat)
    | Take
    | Deliver
    | Collect(e: LogEntry)

  // ---- The same system over payloads: no entries, no pool ----

  /** Who holds what, what is queued and in the worker's hands, every submission, and every delivery. */
  datatype Machine = Machine(
    held: map<nat, Payload>, queue: seq<Payload>, working: Option<Payload>,
    log: seq<Submission>, delivered: seq<Payload>)

  const IDLE := Machine(map[], [], None, [], [])

  /** Which entry a goroutine gets and what the collector takes are not seen here: what is handed out is blank. */
  function Next(capacity: nat, m: Machine, s: Step): Machine {
    match s
    case Get(t) => if t in m.held then m else m.(held := m.held[t := BLANK])
    case FillIn(t, payload) => if t in m.held then m.(held := m.held[t := payload]) else m
    case Submit(t) =>
      if t !in m.held then m
      else
        var full := |m.queue| >= capacity;
        m.(held := m.held - {t},
           queue := if full then m.queue else m.queue + [m.held[t]],
           log := m.log + [Submission(m.held[t], full, |m.queue|)])
    case Take =>
      if m.working.None? && m.queue != [] then m.(working := Some(m.queue[0]), queue := m.queue[1..]) else m
    case Deliver =>
      if m.working.Some? then m.(working := None, delivered := m.delivered + [m.working.value]) else m
    case Collect(_) => m
  }

  function RunOf(capacity: nat, m: Machine, schedule: seq<Step>): Machine {
    if schedule == [] then m
    else Next(capacity, RunOf(capacity, m, schedule[..|schedule| - 1]), schedule[|schedule| - 1])
  }

  function InHand(m: Machine): seq<Payload> {
    if m.working.None? then [] else [m.working.value]
  }

  /** First in, first out, with nothing lost on the way; and an entry is dropped exactly when the queue is full. */
  ghost predicate Orderly(capacity: nat, m: Machine) {
    && |m.queue| <= capacity
    && Accepted(m.log) == m.delivered + InHand(m) + m.queue
    && forall i :: 0 <= i < |m.log| ==> (m.log[i].dropped <==> m.log[i].queueLength == capacity)
  }

  lemma OrderlyKept(capacity: nat, m: Machine, s: Step)
    requires Orderly(capacity, m)
    ensures Orderly(capacity, Next(capacity, m, s))
  {
    match s
    case Submit(t) =>
      if t in m.held {
        SubmitOrderly(capacity, m, t);
      }
    case Take => TakeOrderly(capacity, m);
    case Deliver =>
      if m.working.Some? {
        AddAssoc(m.delivered, [m.working.value], m.queue);
      }
    case _ =>
  }

  lemma AddAssoc(a: seq<Payload>, b: seq<Payload>, c: seq<Payload>)
    ensures (a + b) + c == a + (b + c)
    ensures a + [] + c == a + c
  {
  }

  lemma SubmitOrderly(capacity: nat, m: Machine, t: nat)
    requires Orderly(capacity, m) && t in m.held
    ensures Orderly(capacity, Next(capacity, m, Submit(t)))
  {
    LogAppend(m.log, Submission(m.held[t], |m.queue| >= capacity, |m.queue|));
    AddAssoc(m.delivered + InHand(m), m.queue, [m.held[t]]);
  }

  lemma TakeOrderly(capacity: nat, m: Machine)
    requires Orderly(capacity, m)
    ensures Orderly(capacity, Next(capacity, m, Take))
  {
    if m.working.None? && m.queue != [] {
      var m' := Next(capacity, m, Take);
      assert m.queue == [m.queue[0]] + m.queue[1..];
      AddAssoc(m.delivered, InHand(m'), m'.queue);
      AddAssoc(m.delivered, [], m.queue);
    }
  }

  lemma {:induction false} RunIsOrderly(capacity: nat, m: Machine, schedule: seq<Step>)
    requires Orderly(capacity, m)
    ensures Orderly(capacity, RunOf(capacity, m, schedule))
  {
    if schedule != [] {
      var init := schedule[..|schedule| - 1];
      RunIsOrderly(capacity, m, init);
      OrderlyKept(capacity, RunOf(capacity, m, init), schedule[|schedule| - 1]);
    }
  }

  /** What the goroutines hold, told from their own steps alone. */
  function HeldAfter(schedule: seq<Step>): map<nat, Payload> {
    if schedule == [] then map[]
    else
      var held := HeldAfter(schedule[..|schedule| - 1]);
      match schedule[|schedule| - 1]
      case Get(t) => if t in held then held else held[t := BLANK]
      case FillIn(t, payload) => if t in held then held[t := payload] else held
      case Submit(t) => held - {t}
      case _ => held
  }

  /** What the goroutines submit, in order, told from their own steps alone. */
  function Submitted(schedule: seq<Step>): seq<Payload> {
    if schedule == [] then []
    else
      var init, s := schedule[..|schedule| - 1], schedule[|schedule| - 1];
      Submitted(init) + if s.Submit? && s.t in HeldAfter(init) then [HeldAfter(init)[s.t]] else []
  }

  function PayloadsOf(log: seq<Submission>): (r: seq<Payload>)
    ensures |r| == |log|
  {
    seq(|log|, i requires 0 <= i < |log| => log[i].payload)
  }

  /** Neither the worker nor the size of the queue has any influence on what is submitted. */
  lemma {:induction false} SubmissionsAreOwn(capacity: nat, schedule: seq<Step>)
    ensures RunOf(capacity, IDLE, schedule).held == HeldAfter(schedule)
    ensures PayloadsOf(RunOf(capacity, IDLE, schedule).log) == Submitted(schedule)
  {
    if schedule != [] {
      SubmissionsAreOwn(capacity, schedule[..|schedule| - 1]);
    }
  }

  /** Every run from an idle logger: what was submitted is delivered, dropped, queued or in the worker's hands; the
      deliveries are the accepted submissions in order, up to those under way; drops happen only at a full queue. */
  lemma RunConserves(capacity: nat, schedule: seq<Step>)
    ensures var m := RunOf(capacity, IDLE, schedule);
            && Orderly(capacity, m)
            && |Submitted(schedule)| == |m.delivered| + DroppedCount(m.log) + |m.queue| + |InHand(m)|
            && m.delivered <= Accepted(m.log)
  {
    var m := RunOf(capacity, IDLE, schedule);
    RunIsOrderly(capacity, IDLE, schedule);
    SubmissionsAreOwn(capacity, schedule);
    SubmissionsSplit(m.log);
  }

  class AsyncLogger {
    const capacity: nat
    var queue: seq<LogEntry>
    var pool: set<LogEntry>
    var working: LogEntry?
    var scratch: Fields
    const monitor: RequestMonitor
    /** The log file. */
    var lines: seq<Line>
    /** Entries in the hands of request goroutines. */
    var held: map<nat, LogEntry>

    ghost var owner: map<LogEntry, Owner>
    ghost var log: seq<Submission>
    ghost var delivered: seq<Payload>

    ghost function Payloads(es: seq<LogEntry>): (r: seq<Payload>)
      reads es
      ensures |r| == |es|
      ensures forall i :: 0 <= i < |es| ==> r[i] == es[i].data
    {
      seq(|es|, i requires 0 <= i < |es| reads es => es[i].data)
    }

    ghost function HeldData(): map<nat, Payload>
      reads this, held.Values
    {
      map t | t in held :: held[t].data
    }

    /** The logger as the machine over payloads. */
    ghost function Abstract(): Machine
      reads this, held.Values, queue, working
    {
      Machine(HeldData(), Payloads(queue),
              if working == null then None else Some(working.data), log, delivered)
    }

    /** Each entry has one owner, pooled entries are blank, and file and monitor show the deliveries. */
    ghost predicate Owned()
      reads this, pool, monitor
    {
      && OwnedBy(owner, queue, pool, working, held)
      && (forall e :: e in pool ==> e.data == BLANK)
      && Recorded()
    }

    ghost predicate Valid()
      reads this, pool, monitor, held.Values, queue, working
    {
      Owned() && Orderly(capacity, Abstract())
    }

    /** The worker is the only writer, so file and monitor show exactly what was delivered. */
    ghost predicate Recorded()
      reads this, monitor
    {
      monitor.Valid() && monitor.added == LogsOf(delivered) && lines == LinesOf(delivered)
    }

    constructor (bufferSize: nat)
      ensures Valid() && capacity == bufferSize
      ensures fresh(monitor) && owner == map[] && Abstract() == IDLE
    {
      capacity, queue, pool, working, scratch := bufferSize, [], {}, null, map[];
      monitor := new RequestMonitor();
      held, lines := map[], [];
      owner, log, delivered := map[], [], [];
    }

    /** sync.Pool.Get: a pooled entry, any of them, or a new one. */
    method GetEntry(t: nat) returns (e: LogEntry)
      requires Owned() && t !in held
      modifies this`pool, this`held, this`owner
      ensures Owned()
      ensures held == old(held)[t := e] && e.data == BLANK
      ensures (e in old(owner) && old(owner[e]) == Pooled) || fresh(e)
      ensures owner == old(owner)[e := HeldBy(t)]
    {
      var reuse: bool := *;
      if reuse && pool != {} {
        e :| e in pool;
        pool := pool - {e};
      } else {
        e := new LogEntry();
        assert e !in owner;
      }
      HandOut(old(owner), queue, old(pool), working, held, t, e);
      held := held[t := e];
      owner := owner[e := HeldBy(t)];
      assert pool == old(pool) - {e};
    }

    /** The goroutine fills the entry it holds. */
    method Fill(t: nat, payload: Payload)
      requires Owned() && t in held
      modifies held[t]
      ensures Owned() && held[t].data == payload
    {
      OneOwner(owner, queue, pool, working, held, t);
      held[t].data := payload;
    }

    /** Hands a filled entry to the worker. Never blocks: a full queue drops the entry. */
    method Log(t: nat)
      requires Owned() && t in held && |queue| <= capacity
      modifies this, held[t]
      ensures Owned() && working == old(working) && delivered == old(delivered)
      ensures held == old(held) - {t}
      ensures log == old(log) + [Submission(old(held[t].data), |old(queue)| == capacity, |old(queue)|)]
      ensures queue == if |old(queue)| < capacity then old(queue) + [old(held[t])] else old(queue)
      ensures old(held[t]).data == if |old(queue)| < capacity then old(held[t].data) else BLANK
      ensures owner == old(owner)[old(held[t]) := if |old(queue)| < capacity then Queued else Pooled]
    {
      if |queue| < capacity {
        Accept(t);
      } else {
        Drop(t);
      }
    }

    method Accept(t: nat)
      requires Owned() && t in held && |queue| < capacity
      modifies this`queue, this`owner, this`held, this`log
      ensures Owned()
      ensures held == old(held) - {t}
      ensures log == old(log) + [Submission(old(held[t].data), false, |old(queue)|)]
      ensures queue == old(queue) + [old(held[t])]
      ensures owner == old(owner)[old(held[t]) := Queued]
    {
      var entry := held[t];
      Enqueue(owner, queue, pool, working, held, t);
      log := log + [Submission(entry.data, false, |queue|)];
      held := held - {t};
      queue := queue + [entry];
      owner := owner[entry := Queued];
    }

    method Drop(t: nat)
      requires Owned() && t in held && |queue| == capacity
      modifies this`pool, this`owner, this`held, this`log, held[t]
      ensures Owned() && old(held[t]).data == BLANK
      ensures log == old(log) + [Submission(old(held[t].data), true, |queue|)]
      ensures held == old(held) - {t}
      ensures owner == old(owner)[old(held[t]) := Pooled]
    {
      var entry := held[t];
      GiveBack(owner, queue, pool, working, held, t);
      log := log + [Submission(entry.data, true, |queue|)];
      held := held - {t};
      PutEntry(entry);
    }

    /** Blanks an entry before it can be handed out again. */
    method PutEntry(entry: LogEntry)
      modifies this`pool, this`owner, entry
      ensures entry.data == BLANK
      ensures pool == old(pool) + {entry} && owner == old(owner)[entry := Pooled]
    {
      entry.data := BLANK;
      pool := pool + {entry};
      owner := owner[entry := Pooled];
    }

    /** The worker receives from the channel. */
    method WorkerTake()
      requires Owned() && working == null && queue != []
      modifies this`queue, this`working, this`owner
      ensures Owned()
      ensures working == old(queue[0]) && queue == old(queue)[1..]
      ensures owner == old(owner)[old(queue[0]) := Working]
    {
      Dequeue(owner, queue, pool, held);
      working := queue[0];
      queue := queue[1..];
      owner := owner[working := Working];
    }

    /** The worker's loop body: records the entry and gives it back. */
    method WorkerDeliver()
      requires Owned() && working != null
      modifies this, monitor, working
      ensures Owned()
      ensures working == null && queue == old(queue) && held == old(held) && log == old(log)
      ensures delivered == old(delivered) + [old(working.data)]
      ensures owner == old(owner)[old(working) := Pooled]
    {
      var entry := working;
      Retire(owner, queue, pool, working, held);
      Record(entry.data);
      working := null;
      PutEntry(entry);
    }

    method Record(p: Payload)
      requires Recorded()
      modifies this`scratch, this`lines, this`delivered, monitor
      ensures Recorded() && delivered == old(delivered) + [p]
    {
      Rebuild(p);
      FieldsCarryAll(p);
      lines := lines + [Line(p.message, scratch)];
      monitor.AddRequestLog(p.identifier, scratch);
      delivered := delivered + [p];
    }

    /** The scratch map still holds the previous entry's fields; none of them survives. */
    method Rebuild(p: Payload)
      modifies this`scratch
      ensures scratch == FieldsOf(p)
    {
      ClearScratch();
      scratch := scratch["method" := Str(p.httpMethod)];
      scratch := scratch["url" := Str(p.url)];
      scratch := scratch["remote_addr" := Str(p.remoteAddr)];
      scratch := scratch["status_code" := Int(p.statusCode)];
      scratch := scratch["duration_sec" := Float(p.duration)];
      scratch := scratch["domain" := Str(p.domain)];
    }

    method ClearScratch()
      modifies this`scratch
      ensures scratch == map[]
    {
      while scratch != map[]
        decreases |scratch|
      {
        var k :| k in scratch;
        scratch := scratch - {k};
      }
    }

    /** The garbage collector may take any pooled entry. */
    method CollectPooled(e: LogEntry)
      requires Owned() && e in pool
      modifies this`pool, this`owner
      ensures Owned() && Abstract() == old(Abstract())
      ensures held == old(held) && owner == old(owner) - {e}
    {
      pool := pool - {e};
      owner := owner - {e};
    }

    // ---- The same steps, as the machine over payloads sees them ----

    method PerformGet(t: nat)
      requires Owned() && t !in held
      modifies this`pool, this`held, this`owner
      ensures Owned() && Abstract() == Next(capacity, old(Abstract()), Get(t))
      ensures forall e :: e in owner ==> e in old(owner) || fresh(e)
    {
      var e := GetEntry(t);
      SeenGet(t, e);
    }

    twostate lemma SeenGet(t: nat, new e: LogEntry)
      requires t !in old(held) && held == old(held)[t := e] && e.data == BLANK
      requires queue == old(queue) && working == old(working) && log == old(log) && delivered == old(delivered)
      requires forall u :: u in old(held) ==> old(held)[u].data == old(held[u].data)
      requires Payloads(queue) == old(Payloads(queue)) && (working != null ==> working.data == old(working.data))
      ensures Abstract() == Next(capacity, old(Abstract()), Get(t))
    {
      assert HeldData() == old(HeldData())[t := BLANK];
    }

    method PerformFill(t: nat, payload: Payload)
      requires Owned() && t in held
      modifies held[t]
      ensures Owned() && Abstract() == Next(capacity, old(Abstract()), FillIn(t, payload))
    {
      OneOwner(owner, queue, pool, working, held, t);
      Fill(t, payload);
      assert Payloads(queue) == old(Payloads(queue));
      assert HeldData() == old(HeldData())[t := payload];
    }

    method PerformSubmit(t: nat)
      requires Owned() && t in held && |queue| <= capacity
      modifies this, held[t]
      ensures Owned() && Abstract() == Next(capacity, old(Abstract()), Submit(t))
      ensures owner.Keys == old(owner).Keys
    {
      OneOwner(owner, queue, pool, working, held, t);
      IsOwned(owner, queue, pool, working, held, t);
      Log(t);
      assert Payloads(old(queue)) == old(Payloads(queue));
      SeenSubmit(t);
    }

    twostate lemma SeenSubmit(t: nat)
      requires t in old(held) && held == old(held) - {t} && |old(queue)| <= capacity
      requires working == old(working) && delivered == old(delivered)
      requires log == old(log) + [Submission(old(held[t].data), |old(queue)| == capacity, |old(queue)|)]
      requires queue == if |old(queue)| < capacity then old(queue) + [old(held[t])] else old(queue)
      requires |old(queue)| < capacity ==> old(held[t]).data == old(held[t].data)
      requires forall u :: u in held ==> held[u].data == old(held[u].data)
      requires Payloads(old(queue)) == old(Payloads(queue)) && (working != null ==> working.data == old(working.data))
      ensures Abstract() == Next(capacity, old(Abstract()), Submit(t))
    {
      assert HeldData() == old(HeldData()) - {t};
      if |old(queue)| < capacity {
        assert Payloads(queue) == Payloads(old(queue)) + [old(held[t].data)];
      }
    }

    method PerformTake()
      requires Owned() && working == null && queue != []
      modifies this`queue, this`working, this`owner
      ensures Owned() && Abstract() == Next(capacity, old(Abstract()), Take)
      ensures owner.Keys == old(owner).Keys
    {
      assert queue[0] in owner;
      WorkerTake();
      assert Payloads(queue) == old(Payloads(queue))[1..];
    }

    method PerformDeliver()
      requires Owned() && working != null
      modifies this, monitor, working
      ensures Owned() && Abstract() == Next(capacity, old(Abstract()), Deliver)
      ensures owner.Keys == old(owner).Keys
    {
      WorkerApart(owner, queue, pool, working, held);
      WorkerDeliver();
      assert Payloads(queue) == old(Payloads(queue));
      assert HeldData() == old(HeldData());
    }

    /** One step, skipped when it cannot happen. */
    method Perform(s: Step)
      requires Valid()
      modifies this, monitor, owner.Keys
      ensures Valid() && Abstract() == Next(capacity, old(Abstract()), s)
      ensures forall e :: e in owner ==> e in old(owner) || fresh(e)
    {
      OrderlyKept(capacity, Abstract(), s);
      match s {
        case Get(t) =>
          if t !in held {
            PerformGet(t);
          }
        case FillIn(t, payload) =>
          if t in held {
            PerformFill(t, payload);
          }
        case Submit(t) =>
          if t in held {
            PerformSubmit(t);
          }
        case Take =>
          if working == null && queue != [] {
            PerformTake();
          }
        case Deliver =>
          if working != null {
            PerformDeliver();
          }
        case Collect(e) =>
          if e in pool {
            CollectPooled(e);
          }
      }
    }

    /** Any interleaving of request goroutines, worker and collector does what the machine over payloads does, so
        that sharing, reusing and collecting entries is never seen. */
    method Interleave(schedule: seq<Step>)
      requires Valid()
      modifies this, monitor, owner.Keys
      ensures Valid() && Abstract() == RunOf(capacity, old(Abstract()), schedule)
    {
      ghost var m := Abstract();
      for i := 0 to |schedule|
        invariant Valid() && Abstract() == RunOf(capacity, m, schedule[..i])
        invariant forall e :: e in owner ==> e in old(owner) || fresh(e)
      {
        assert schedule[..i + 1][..i] == schedule[..i];
        Perform(schedule[i]);
      }
      assert schedule[..|schedule|] == schedule;
    }
  }

  /** A logger's whole life: the log file has a line for every delivery, the monitor shows the last hundred of them,
      and the deliveries are those of the machine over payloads. */
  method Serve(bufferSize: nat, schedule: seq<Step>) returns (al: AsyncLogger, recent: seq<RequestLog>)
    ensures fresh(al) && al.Abstract() == RunOf(bufferSize, IDLE, schedule)
    ensures al.lines == LinesOf(RunOf(bufferSize, IDLE, schedule).delivered)
    ensures recent == Last(LogsOf(RunOf(bufferSize, IDLE, schedule).delivered), MAX_REQUEST_LOGS)
  {
    al := new AsyncLogger(bufferSize);
    al.Interleave(schedule);
    recent := al.monitor.RecentRequestLogs(0);
  }
}
