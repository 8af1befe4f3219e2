/** plugins/auth.go: sessions, their expiry and the goroutine that removes expired ones. */
module Sessions {
  import opened Strings

  const SECOND: int := 1_000_000_000

  /** `expiry` is None for Go's zero time: the session never expires. */
  datatype Session = Session(user: string, expiry: Option<int>)
  type Table = map<string, Session>

  predicate Expired(s: Session, now: int) {
    s.expiry.Some? && s.expiry.value < now
  }

  function NewSession(user: string, expiration: int, now: int): Session {
    Session(user, if expiration == -1 then None else Some(now + expiration * SECOND))
  }

  function Lookup(t: Table, token: string, now: int): Option<Session> {
    if token in t && !Expired(t[token], now) then Some(t[token]) else None
  }

  /** The clock is read anew for each session. */
  function Cleaned(t: Table, readings: string -> int): Table {
    map token | token in t && !Expired(t[token], readings(token)) :: t[token]
  }

  class AuthPluginState {
    var sessions: Table

    constructor ()
      ensures sessions == map[]
    {
      sessions := map[];
    }

    method CreateSession(token: string, user: string, expiration: int, now: int)
      modifies this
      ensures sessions == old(sessions)[token := NewSession(user, expiration, now)]
    {
      var expiry: Option<int> := None;
      if expiration != -1 {
        expiry := Some(now + expiration * SECOND);
      }
      sessions := sessions[token := Session(user, expiry)];
    }

    method GetSession(token: string, now: int) returns (r: Option<Session>)
      ensures r == Lookup(sessions, token, now)
    {
      if token !in sessions {
        return None;
      }
      var sess := sessions[token];
      if sess.expiry != None && sess.expiry.value < now {
        return None;
      }
      return Some(sess);
    }

    method CleanupExpiredSessions(readings: string -> int)
      modifies this
      ensures sessions == Cleaned(old(sessions), readings)
    {
      var todo := sessions.Keys;
      while todo != {}
        invariant todo <= old(sessions).Keys
        invariant sessions == map t | t in old(sessions) &&
                  (t in todo || !Expired(old(sessions)[t], readings(t))) :: old(sessions)[t]
        decreases |todo|
      {
        var token :| token in todo;
        if Expired(sessions[token], readings(token)) {
          sessions := sessions - {token};
        }
        todo := todo - {token};
      }
    }
  }

  // ---- Whole runs ----

  datatype Event =
    | Create(token: string, user: string, expiration: int, at: int)
    | Get(token: string, at: int)
    | Clean(readings: string -> int, at: int)

  function After(t: Table, e: Event): Table {
    match e
    case Create(token, user, expiration, at) => t[token := NewSession(user, expiration, at)]
    case Get(_, _) => t
    case Clean(readings, _) => Cleaned(t, readings)
  }

  function Final(run: seq<Event>): Table {
    if run == [] then map[] else After(Final(run[..|run| - 1]), run[|run| - 1])
  }

  /** Events in the order of time; a cleanup's readings fall between its neighbours. */
  ghost predicate Timed(run: seq<Event>) {
    && (forall i, j :: 0 <= i < j < |run| ==> run[i].at <= run[j].at)
    && (forall i, token :: 0 <= i < |run| && run[i].Clean? ==> run[i].readings(token) <= run[i].at)
  }

  /** The last creation of a token, if it was ever created. */
  function LastCreation(run: seq<Event>, token: string): Option<Session> {
    if run == [] then None
    else
      var e := run[|run| - 1];
      if e.Create? && e.token == token then Some(NewSession(e.user, e.expiration, e.at))
      else LastCreation(run[..|run| - 1], token)
  }

  /** The reference: validity by the last creation alone, as if nothing were ever removed. */
  function ValidAt(run: seq<Event>, token: string, now: int): Option<Session> {
    var s := LastCreation(run, token);
    if s.Some? && !Expired(s.value, now) then s else None
  }

  /** After any run, with cleanups anywhere in it, every lookup answers by the last creation alone. */
  lemma {:induction false} CleanupInvisible(run: seq<Event>, token: string, now: int)
    requires Timed(run)
    requires forall i :: 0 <= i < |run| ==> run[i].at <= now
    ensures Lookup(Final(run), token, now) == ValidAt(run, token, now)
  {
    if run != [] {
      var init, e := run[..|run| - 1], run[|run| - 1];
      CleanupInvisible(init, token, now);
      if e.Clean? {
        assert run[|run| - 1].readings(token) <= e.at;
      }
    }
  }

  function NoCleans(run: seq<Event>): seq<Event> {
    if run == [] then []
    else
      var e := run[|run| - 1];
      NoCleans(run[..|run| - 1]) + if e.Clean? then [] else [e]
  }

  lemma {:induction false} NoCleansSameCreations(run: seq<Event>, token: string)
    ensures LastCreation(NoCleans(run), token) == LastCreation(run, token)
  {
    if run != [] {
      NoCleansSameCreations(run[..|run| - 1], token);
      var init, e := NoCleans(run[..|run| - 1]), run[|run| - 1];
      assert (init + [e])[..|init|] == init;
      assert init + [] == init;
    }
  }

  lemma {:induction false} NoCleansTimed(run: seq<Event>)
    requires Timed(run)
    ensures Timed(NoCleans(run))
    ensures run != [] ==> forall i :: 0 <= i < |NoCleans(run)| ==> NoCleans(run)[i].at <= run[|run| - 1].at
    ensures forall i :: 0 <= i < |NoCleans(run)| ==> !NoCleans(run)[i].Clean?
  {
    if run != [] {
      NoCleansTimed(run[..|run| - 1]);
    }
  }

  /** So a run with cleanups and the same run without them cannot be told apart. */
  lemma CleanupUnobservable(run: seq<Event>, token: string, now: int)
    requires Timed(run)
    requires forall i :: 0 <= i < |run| ==> run[i].at <= now
    ensures Lookup(Final(run), token, now) == Lookup(Final(NoCleans(run)), token, now)
  {
    NoCleansTimed(run);
    NoCleansSameCreations(run, token);
    CleanupInvisible(run, token, now);
    CleanupInvisible(NoCleans(run), token, now);
  }

  /** A token's whole life, cleanups anywhere: created at t0 and not again, it is valid for `expiration` seconds, the
      last moment included, and for ever if that is -1. */
  lemma TokenLives(before: seq<Event>, token: string, user: string, expiration: int, t0: int, after: seq<Event>,
                   now: int)
    requires var run := before + [Create(token, user, expiration, t0)] + after;
             Timed(run) && forall i :: 0 <= i < |run| ==> run[i].at <= now
    requires forall i :: 0 <= i < |after| ==> !(after[i].Create? && after[i].token == token)
    ensures var found := Lookup(Final(before + [Create(token, user, expiration, t0)] + after), token, now);
            && (found.Some? <==> expiration == -1 || now <= t0 + expiration * 1_000_000_000)
            && (found.Some? ==> found.value.user == user)
  {
    var created := before + [Create(token, user, expiration, t0)];
    CleanupInvisible(created + after, token, now);
    LaterCreations(created, after, token);
    assert created[..|created| - 1] == before;
  }

  lemma {:induction false} LaterCreations(run: seq<Event>, after: seq<Event>, token: string)
    requires forall i :: 0 <= i < |after| ==> !(after[i].Create? && after[i].token == token)
    ensures LastCreation(run + after, token) == LastCreation(run, token)
    decreases |after|
  {
    if after == [] {
      assert run + after == run;
    } else {
      assert (run + after)[..|run + after| - 1] == run + after[..|after| - 1];
      LaterCreations(run, after[..|after| - 1], token);
    }
  }
}
