/** internal/dns/handler.go: from a request to the one message that answers it. */
module DnsServer {
  import opened Strings
  import opened DnsIndex

  const SUCCESS := 0
  const SERVER_FAILURE := 2
  const NAME_ERROR := 3
  const REFUSED := 5

  datatype Question = Question(name: string, qtype: nat)
  datatype Msg = Msg(rcode: int, answer: seq<RR>, authoritative: bool)

  class ResponseWriter {
    var sent: seq<Msg>

    method WriteMsg(m: Msg)
      modifies this
      ensures sent == old(sent) + [m]
    {
      sent := sent + [m];
    }
  }

  /** The address a resolver is asked at: port 53 unless one is given. */
  function Target(upstream: string): string {
    if ':' in upstream then upstream else upstream + ":53"
  }

  /** Outcome of asking the i-th resolver at an address; None when the exchange fails. */
  type Exchange = (nat, string) -> Option<Msg>

  /** Every resolver before the i-th failed. */
  predicate AllFailed(upstreams: seq<string>, exchange: Exchange, i: nat)
    requires i <= |upstreams|
  {
    forall k :: 0 <= k < i ==> exchange(k, Target(upstreams[k])).None?
  }

  /** What forwarding owes: the first success in order, never marked authoritative, or a server failure. */
  ghost predicate Forwarded(upstreams: seq<string>, exchange: Exchange, m: Msg) {
    if AllFailed(upstreams, exchange, |upstreams|) then m == Msg(SERVER_FAILURE, [], false)
    else exists i :: 0 <= i < |upstreams| && AllFailed(upstreams, exchange, i)
           && exchange(i, Target(upstreams[i])).Some?
           && m == exchange(i, Target(upstreams[i])).value.(authoritative := false)
  }

  method HandleForwarding(w: ResponseWriter, upstreams: seq<string>, exchange: Exchange)
    modifies w
    ensures |w.sent| == |old(w.sent)| + 1 && w.sent[..|old(w.sent)|] == old(w.sent)
    ensures Forwarded(upstreams, exchange, w.sent[|old(w.sent)|])
  {
    for i := 0 to |upstreams|
      invariant w.sent == old(w.sent)
      invariant AllFailed(upstreams, exchange, i)
    {
      var resp := exchange(i, Target(upstreams[i]));
      if resp.Some? {
        w.WriteMsg(resp.value.(authoritative := false));
        return;
      }
    }
    w.WriteMsg(Msg(SERVER_FAILURE, [], false));
  }

  // ---- What a request is owed, in terms of the configuration alone ----

  ghost predicate Unmatched(config: Zones, q: Question) {
    IsZoneOf(config, Lower(q.name), "")
  }

  /** No zone holds the name, or the zone that does has no record there. */
  ghost predicate NameErrorFor(config: Zones, q: Question) {
    Unmatched(config, q) || !Configured(config, Lower(q.name))
  }

  ghost predicate SomeUnmatched(config: Zones, questions: seq<Question>) {
    exists i :: 0 <= i < |questions| && Unmatched(config, questions[i])
  }

  ghost predicate SomeNameError(config: Zones, questions: seq<Question>) {
    exists i :: 0 <= i < |questions| && NameErrorFor(config, questions[i])
  }

  /** The answers to all questions, one after the other. */
  ghost function AllAnswers(lib: Library, config: Zones, order: seq<string>, questions: seq<Question>): seq<RR>
    requires IsOrderOf(order, config)
  {
    if questions == [] then []
    else
      var q := questions[|questions| - 1];
      AllAnswers(lib, config, order, questions[..|questions| - 1])
      + if Unmatched(config, q) then [] else ScanAnswers(lib, Flat(config, order), Lower(q.name), q.qtype)
  }

  ghost predicate IsReply(lib: Library, config: Zones, order: seq<string>, questions: seq<Question>,
                          upstreams: seq<string>, allowed: bool, exchange: Exchange, m: Msg)
    requires IsOrderOf(order, config)
  {
    if upstreams != [] && SomeUnmatched(config, questions) then
      if !allowed then m == Msg(REFUSED, [], false) else Forwarded(upstreams, exchange, m)
    else
      m == Msg(if SomeNameError(config, questions) then NAME_ERROR else SUCCESS,
               AllAnswers(lib, config, order, questions), true)
  }

  /** The zone of a question's name and, if there is one, the records found in the index. */
  method Lookup(h: Handler, q: Question) returns (zone: string, answers: seq<RR>, found: bool)
    requires h.Valid()
    ensures zone == "" <==> Unmatched(h.config, q)
    ensures zone != "" ==>
              && answers == ScanAnswers(h.lib, Flat(h.config, h.order), Lower(q.name), q.qtype)
              && (found <==> Configured(h.config, Lower(q.name)))
              && (answers != [] ==> found)
  {
    var name := Lower(q.name);
    answers, found := [], false;
    zone := h.MatchZone(name);
    if zone != "" {
      if Unmatched(h.config, q) {
        ZoneIsUnique(h.config, name, zone, "");
      }
      var r := h.FindRecords(name, q.qtype);
      answers, found := r.0, r.1;
      NameInConfig(h.config, h.order, name);
      if answers != [] {
        AnswersNeedName(h.lib, Flat(h.config, h.order), name, q.qtype);
      }
    }
  }

  /** `allowed` is the verdict of recursionAllowed on the client's address. */
  method ServeDNS(h: Handler, w: ResponseWriter, questions: seq<Question>,
                  upstreams: seq<string>, allowed: bool, exchange: Exchange)
    requires h.Valid()
    modifies w
    ensures h.Valid() && h.order == old(h.order)
    ensures |w.sent| == |old(w.sent)| + 1 && w.sent[..|old(w.sent)|] == old(w.sent)
    ensures IsReply(h.lib, h.config, h.order, questions, upstreams, allowed, exchange, w.sent[|old(w.sent)|])
  {
    var msg := Msg(SUCCESS, [], true);
    for i := 0 to |questions|
      invariant h.Valid() && h.order == old(h.order)
      invariant w.sent == old(w.sent)
      invariant upstreams != [] ==> !SomeUnmatched(h.config, questions[..i])
      invariant msg == Msg(if SomeNameError(h.config, questions[..i]) then NAME_ERROR else SUCCESS,
                           AllAnswers(h.lib, h.config, h.order, questions[..i]), true)
    {
      var q := questions[i];
      var zone, answers, found := Lookup(h, q);
      NextQuestion(h.lib, h.config, h.order, questions, i);
      if zone == "" {
        if upstreams != [] {
          if !allowed {
            w.WriteMsg(Msg(REFUSED, [], false));
            return;
          }
          HandleForwarding(w, upstreams, exchange);
          return;
        }
        msg := msg.(rcode := NAME_ERROR);
      } else {
        if answers != [] {
          msg := msg.(answer := msg.answer + answers);
        } else if !found {
          msg := msg.(rcode := NAME_ERROR);
        }
      }
    }
    assert questions[..|questions|] == questions;
    w.WriteMsg(msg);
  }

  lemma AnswersNeedName(lib: Library, flat: seq<(string, Record)>, name: string, qtype: nat)
    requires ScanAnswers(lib, flat, name, qtype) != []
    ensures NameExists(flat, name)
  {
    if !NameExists(flat, name) {
      ScanOfMissing(lib, flat, name, false, qtype);
      ScanOfMissing(lib, flat, name, true, qtype);
    }
  }

  /** One more question in the declarative account. */
  lemma NextQuestion(lib: Library, config: Zones, order: seq<string>, questions: seq<Question>, i: nat)
    requires i < |questions| && IsOrderOf(order, config)
    ensures SomeUnmatched(config, questions[..i + 1]) <==>
            SomeUnmatched(config, questions[..i]) || Unmatched(config, questions[i])
    ensures SomeNameError(config, questions[..i + 1]) <==>
            SomeNameError(config, questions[..i]) || NameErrorFor(config, questions[i])
    ensures AllAnswers(lib, config, order, questions[..i + 1]) == AllAnswers(lib, config, order, questions[..i])
              + if Unmatched(config, questions[i]) then []
                else ScanAnswers(lib, Flat(config, order), Lower(questions[i].name), questions[i].qtype)
    ensures Unmatched(config, questions[i]) ==> SomeUnmatched(config, questions)
  {
    var a, b := questions[..i], questions[..i + 1];
    assert b == a + [questions[i]];
    assert b[..|b| - 1] == a;
    assert b[i] == questions[i];
    assert forall k :: 0 <= k < i ==> b[k] == a[k];
  }

  /** One question: which of the outcomes it gets, told from the configuration alone; 0 is NOERROR, 2 SERVFAIL,
      3 NXDOMAIN and 5 REFUSED. RFC 1034 section
      4.3.2 and RFC 2308 sections 2.1 and 2.2: NXDOMAIN for a missing name, NODATA for a missing type. */
  lemma OneQuestion(lib: Library, config: Zones, order: seq<string>, q: Question,
                    upstreams: seq<string>, allowed: bool, exchange: Exchange, m: Msg)
    requires IsOrderOf(order, config)
    requires IsReply(lib, config, order, [q], upstreams, allowed, exchange, m)
    ensures m.authoritative <==> upstreams == [] || !Unmatched(config, q)
    ensures m.authoritative ==>
              && (m.rcode == 3 <==> Unmatched(config, q) || !Configured(config, Lower(q.name)))
              && (m.rcode == 0 <==> !Unmatched(config, q) && Configured(config, Lower(q.name)))
              && (forall rr :: rr in m.answer <==>
                  !Unmatched(config, q) && Answers(lib, config, Lower(q.name), q.qtype, rr))
              && (m.rcode == 3 ==> m.answer == [])
    ensures !m.authoritative ==>
              if !allowed then m.rcode == 5 && m.answer == []
              else if AllFailed(upstreams, exchange, |upstreams|) then m.rcode == 2 && m.answer == []
              else Forwarded(upstreams, exchange, m)
  {
    var name := Lower(q.name);
    var flat := Flat(config, order);
    assert [q][0] == q;
    assert SomeUnmatched(config, [q]) <==> Unmatched(config, q);
    assert SomeNameError(config, [q]) <==> NameErrorFor(config, q);
    assert [q][..0] == [];
    assert AllAnswers(lib, config, order, [q][..0]) == [];
    assert AllAnswers(lib, config, order, [q]) ==
           if Unmatched(config, q) then [] else ScanAnswers(lib, flat, name, q.qtype);
    forall rr
      ensures rr in ScanAnswers(lib, flat, name, q.qtype) <==> Answers(lib, config, name, q.qtype, rr)
    {
      AnswersMeaning(lib, config, order, name, q.qtype, rr);
    }
    NameInConfig(config, order, name);
    if !Configured(config, name) {
      ScanOfMissing(lib, flat, name, false, q.qtype);
      ScanOfMissing(lib, flat, name, true, q.qtype);
    }
  }

  /** A valid record of a named zone is answered under its own name, given label by label, whatever other zones and
      resolvers are configured. */
  lemma RecordIsAnswered(lib: Library, config: Zones, order: seq<string>, zone: string, i: nat, q: Question,
                         upstreams: seq<string>, allowed: bool, exchange: Exchange, m: Msg)
    requires IsOrderOf(order, config) && zone in config && zone != "" && i < |config[zone]|
    requires var rec := config[zone][i];
             && Split(Lower(q.name), '.') ==
                (if rec.name == "@" then [] else Split(Lower(rec.name), '.')) + Split(Lower(zone), '.') + [""]
             && CreateRR(lib, rec, Lower(q.name)).Some?
             && (rec.rtype == "CNAME" || CreateRR(lib, rec, Lower(q.name)).value.qtype == q.qtype)
    requires IsReply(lib, config, order, [q], upstreams, allowed, exchange, m)
    ensures m.authoritative && m.rcode == 0
    ensures CreateRR(lib, config[zone][i], Lower(q.name)).value in m.answer
  {
    var rec, name := config[zone][i], Lower(q.name);
    FqdnLabels(zone, rec);
    JoinSplit(name, '.');
    JoinSplit(Fqdn(zone, rec), '.');
    assert Fqdn(zone, rec) == name;
    RecordInItsZone(zone, rec);
    assert HasZone(config, Lower(zone)) && Lower(zone) != "";
    assert !Unmatched(config, q);
    assert Configured(config, name);
    CnameType(lib, rec, name);
    assert Answers(lib, config, name, q.qtype, CreateRR(lib, rec, name).value);
    OneQuestion(lib, config, order, q, upstreams, allowed, exchange, m);
  }

  /** A resolver with a port is asked there, one without at port 53. */
  lemma TargetPort(upstream: string)
    ensures ':' in Target(upstream)
    ensures ':' in upstream ==> Target(upstream) == upstream
    ensures ':' !in upstream ==> Split(Target(upstream), ':') == [upstream, "53"]
  {
    if ':' !in upstream {
      assert upstream + ":53" == upstream + [':'] + "53";
      SplitConcat(upstream, "53", ':');
      SplitAtom(upstream, ':');
      SplitAtom("53", ':');
      assert (upstream + ":53")[|upstream|] == ':';
    }
  }
}
