/** internal/server/middleware/gzip.go: the response writer that decides late whether to compress. */
module Gzip {
  import opened Strings
  import opened ETag

  newtype byte = x: int | 0 <= x < 256
  type Bytes = seq<byte>
  type Header = map<string, string>

  function Get(h: Header, key: string): string {
    if key in h then h[key] else ""
  }

  // ---- compress/gzip: any streaming encoder with a decoder ----

  datatype Op = Data(bytes: Bytes) | Sync

  /** State and emitted bytes after each call; `close` emits what is left. */
  datatype Codec<!S> = Codec(
    init: S,
    write: (S, Bytes) -> (S, Bytes),
    flush: S -> (S, Bytes),
    close: S -> Bytes,
    decode: Bytes -> Option<Bytes>)

  function StateAfter<S>(c: Codec<S>, ops: seq<Op>): S {
    if ops == [] then c.init
    else
      var s := StateAfter(c, ops[..|ops| - 1]);
      match ops[|ops| - 1]
      case Data(b) => c.write(s, b).0
      case Sync => c.flush(s).0
  }

  function Emitted<S>(c: Codec<S>, ops: seq<Op>): Bytes {
    if ops == [] then []
    else
      var s := StateAfter(c, ops[..|ops| - 1]);
      Emitted(c, ops[..|ops| - 1]) +
      match ops[|ops| - 1]
      case Data(b) => c.write(s, b).1
      case Sync => c.flush(s).1
  }

  function Input(ops: seq<Op>): Bytes {
    if ops == [] then []
    else Input(ops[..|ops| - 1]) + match ops[|ops| - 1] case Data(b) => b case Sync => []
  }

  /** The contract of the library: a closed stream decodes to what was written, however it was flushed. */
  ghost predicate Lawful<S(!new)>(c: Codec<S>) {
    forall ops :: c.decode(Emitted(c, ops) + c.close(StateAfter(c, ops))) == Some(Input(ops))
  }

  // ---- net/http: headers are live until committed, and committed once ----

  datatype Head = Head(status: int, header: Header)

  /** The statuses net/http accepts; for others it panics. */
  predicate IsStatus(status: int) {
    100 <= status <= 999
  }

  /** Interim responses, after which the final one is still to come. */
  predicate Informational(status: int) {
    100 <= status < 200 && status != 101
  }

  predicate AllowsBody(status: int) {
    status >= 200 && status != 204 && status != 304
  }

  class ResponseWriter {
    var header: Header
    var committed: Option<Head>
    var body: Bytes

    method WriteHeader(status: int)
      requires IsStatus(status)
      modifies this`committed
      ensures committed == if old(committed).Some? || Informational(status) then old(committed)
                           else Some(Head(status, header))
    {
      if committed.None? && !Informational(status) {
        committed := Some(Head(status, header));
      }
    }

    method Write(b: Bytes)
      modifies this`committed, this`body
      ensures committed == if old(committed).Some? then old(committed) else Some(Head(200, header))
      ensures body == old(body) + if AllowsBody(committed.value.status) then b else []
    {
      WriteHeader(200);
      if AllowsBody(committed.value.status) {
        body := body + b;
      }
    }

    method Flush()
      modifies this`committed
      ensures committed == if old(committed).Some? then old(committed) else Some(Head(200, header))
    {
      WriteHeader(200);
    }
  }

  // ---- What a handler does, and what is owed for it ----

  /** ReadFrom is given its source in the chunks in which io.Copy reads it, up to its end or a read error. */
  datatype Call =
    | SetHeader(key: string, value: string)
    | DelHeader(key: string)
    | CallWriteHeader(status: int)
    | CallWrite(bytes: Bytes)
    | CallReadFrom(chunks: seq<Bytes>)
    | CallFlush

  predicate IsCall(call: Call) {
    call.CallWriteHeader? ==> IsStatus(call.status)
  }

  function Flat(chunks: seq<Bytes>): Bytes {
    if chunks == [] then [] else Flat(chunks[..|chunks| - 1]) + chunks[|chunks| - 1]
  }

  /** Every byte the handler wrote. */
  function Written(calls: seq<Call>): Bytes {
    if calls == [] then []
    else
      Written(calls[..|calls| - 1]) + BytesOf(calls[|calls| - 1])
  }

  /** The bytes of one call. */
  function BytesOf(call: Call): Bytes {
    match call case CallWrite(b) => b case CallReadFrom(chunks) => Flat(chunks) case _ => []
  }

  lemma WrittenLast(calls: seq<Call>, call: Call)
    ensures Written(calls + [call]) == Written(calls) + BytesOf(call)
  {
    assert (calls + [call])[..|calls|] == calls;
  }

  lemma CallsAssoc(a: seq<Call>, b: seq<Call>, c: seq<Call>)
    ensures a + (b + c) == (a + b) + c
  {
  }

  /** Every Write and every chunk counts, in full and in order, and nothing else does. */
  lemma {:induction false} WrittenOfMore(calls: seq<Call>, more: seq<Call>)
    ensures Written(calls + more) == Written(calls) + Written(more)
    decreases |more|
  {
    if more == [] {
      assert calls + more == calls;
    } else {
      var init, last := more[..|more| - 1], more[|more| - 1];
      WrittenOfMore(calls, init);
      WrittenStep(calls, init, last, more);
    }
  }

  lemma WrittenStep(calls: seq<Call>, init: seq<Call>, last: Call, more: seq<Call>)
    requires more == init + [last] && Written(calls + init) == Written(calls) + Written(init)
    ensures Written(calls + more) == Written(calls) + Written(more)
  {
    WrittenLast(calls + init, last);
    WrittenLast(init, last);
    CallsAssoc(calls, init, [last]);
    AddAssoc(Written(calls), Written(init), BytesOf(last));
  }

  lemma WrittenOfOne(call: Call)
    ensures call.CallWrite? ==> Written([call]) == call.bytes
    ensures forall a, b :: call == CallReadFrom([a, b]) ==> Written([call]) == a + b
    ensures call == CallReadFrom([]) || !(call.CallWrite? || call.CallReadFrom?) ==> Written([call]) == []
  {
    assert [call][..0] == [];
    forall a, b | call == CallReadFrom([a, b])
      ensures Written([call]) == a + b
    {
      assert [a, b][..1] == [a] && [a][..0] == [];
      assert Flat([a]) == a;
      assert Flat([a, b]) == a + b;
    }
  }

  lemma {:induction false} FlatOfMore(chunks: seq<Bytes>, more: seq<Bytes>)
    ensures Flat(chunks + more) == Flat(chunks) + Flat(more)
    decreases |more|
  {
    if more == [] {
      assert chunks + more == chunks;
    } else {
      assert (chunks + more)[..|chunks + more| - 1] == chunks + more[..|more| - 1];
      FlatOfMore(chunks, more[..|more| - 1]);
    }
  }

  /** The parameters of one response: request Range header, content sniffing, initial headers. */
  datatype Setting = Setting(rangeHeader: string, detect: Bytes -> string, start: Header)

  predicate CompressibleType(ct: string) {
    ct in {"text/html", "text/css", "text/plain", "text/javascript", "application/javascript",
           "application/x-javascript", "application/json", "application/xml", "text/xml", "image/svg+xml"}
  }

  function MediaType(ct: string): string {
    Split(ct, ';')[0]
  }

  predicate Eligible(c: Setting, h: Header) {
    && Get(h, "Content-Encoding") == ""
    && c.rangeHeader == ""
    && CompressibleType(MediaType(Get(h, "Content-Type")))
  }

  function Relabelled(h: Header): Header {
    var h' := (h - {"Content-Length"})["Content-Encoding" := "gzip"]["Vary" := "Accept-Encoding"];
    if Get(h', "ETag") != "" then h'["ETag" := WeakGzipETag(Get(h', "ETag"))] else h'
  }

  /** The headers once the decision has been taken on h. */
  function Settled(c: Setting, h: Header): Header {
    if Eligible(c, h) then Relabelled(h) else h
  }

  /** What matters of the calls so far: the live headers; the status and headers on which the one decision was taken;
      the head that went out; all bytes written; and what a compressor would have been fed. */
  datatype View = View(live: Header, decision: Option<Head>, committed: Option<Head>, written: Bytes, fed: seq<Op>)

  function Sniffed(c: Setting, h: Header, b: Bytes): Header {
    if Get(h, "Content-Type") == "" then h["Content-Type" := c.detect(b)] else h
  }

  function Decided(c: Setting, v: View, status: int): View {
    if v.decision.Some? then v
    else v.(decision := Some(Head(status, v.live)), live := Settled(c, v.live))
  }

  function Commit(v: View, status: int): View {
    if v.committed.Some? || Informational(status) then v else v.(committed := Some(Head(status, v.live)))
  }

  function Sent(v: View, b: Bytes): View {
    var w := Commit(v, 200);
    w.(written := w.written + b, fed := w.fed + [Data(b)])
  }

  function SentAll(v: View, chunks: seq<Bytes>): View {
    if chunks == [] then v else Sent(SentAll(v, chunks[..|chunks| - 1]), chunks[|chunks| - 1])
  }

  /** The implicit WriteHeader(200) of a first Write or ReadFrom. */
  function Opened(c: Setting, v: View): View {
    if v.decision.Some? then v else Commit(Decided(c, v, 200), 200)
  }

  /** The content sniffing of a first Write. */
  function Typed(c: Setting, v: View, b: Bytes): View {
    if v.decision.Some? then v else v.(live := Sniffed(c, v.live, b))
  }

  function Next(c: Setting, v: View, call: Call): View {
    match call
    case SetHeader(key, value) => v.(live := v.live[key := value])
    case DelHeader(key) => v.(live := v.live - {key})
    case CallWriteHeader(status) => Commit(Decided(c, v, status), status)
    case CallWrite(b) =>
      Sent(Opened(c, Typed(c, v, b)), b)
    case CallReadFrom(chunks) => SentAll(Opened(c, v), chunks)
    case CallFlush => Commit(if v.decision.Some? then v.(fed := v.fed + [Sync]) else v, 200)
  }

  function ViewOf(c: Setting, calls: seq<Call>): View {
    if calls == [] then View(c.start, None, None, [], [])
    else Next(c, ViewOf(c, calls[..|calls| - 1]), calls[|calls| - 1])
  }

  predicate Compresses(c: Setting, v: View) {
    v.decision.Some? && Eligible(c, v.decision.value.header)
  }

  predicate HasBody(v: View) {
    v.committed.Some? && AllowsBody(v.committed.value.status)
  }

  function Body<S>(codec: Codec<S>, c: Setting, v: View): Bytes {
    if !HasBody(v) then []
    else if Compresses(c, v) then Emitted(codec, v.fed)
    else v.written
  }

  /** After Close: the end of the compressed stream commits the headers if nothing else has. */
  function Closed(c: Setting, v: View): View {
    if Compresses(c, v) then Commit(v, 200) else v
  }

  function FinalBody<S>(codec: Codec<S>, c: Setting, v: View): Bytes {
    if Compresses(c, v) && HasBody(Closed(c, v)) then Emitted(codec, v.fed) + codec.close(StateAfter(codec, v.fed))
    else Body(codec, c, v)
  }

  class SmartGzipWriter<S> {
    const rw: ResponseWriter
    const codec: Codec<S>
    const setting: Setting
    var gz: S
    var shouldCompress: bool
    var checked: bool
    var status: int
    /** Every call the handler has made, in order. */
    ghost var calls: seq<Call>

    /** The writer is as it owes to be after calls that come to v. */
    ghost predicate Shows(v: View)
      reads this, rw
    {
      && checked == v.decision.Some?
      && shouldCompress == Compresses(setting, v)
      && (!checked || v.committed.None? ==> v.written == [] && v.fed == [])
      && (shouldCompress ==> gz == StateAfter(codec, v.fed))
      && rw.header == v.live
      && rw.committed == v.committed
      && rw.body == Body(codec, setting, v)
    }

    ghost predicate Valid()
      reads this, rw
    {
      Shows(ViewOf(setting, calls))
    }

    constructor (rw: ResponseWriter, codec: Codec<S>, rangeHeader: string, detect: Bytes -> string)
      requires rw.committed == None && rw.body == []
      ensures Valid() && calls == []
      ensures this.rw == rw && this.codec == codec && setting == Setting(rangeHeader, detect, rw.header)
    {
      this.rw, this.codec, this.setting := rw, codec, Setting(rangeHeader, detect, rw.header);
      gz, shouldCompress, checked, status, calls := codec.init, false, false, 0, [];
    }

    /** The handler's Header().Set and Header().Del. */
    method ChangeHeader(call: Call)
      requires Valid() && (call.SetHeader? || call.DelHeader?)
      modifies this`calls, rw`header
      ensures Valid() && calls == old(calls) + [call]
    {
      ghost var v := ViewOf(setting, calls);
      OneMore(setting, calls, call);
      rw.header := if call.SetHeader? then rw.header[call.key := call.value] else rw.header - {call.key};
      assert Next(setting, v, call) == v.(live := rw.header);
      assert Shows(v.(live := rw.header));
      calls := calls + [call];
    }

    method CheckCompression()
      modifies this`checked, this`shouldCompress, this`gz
      ensures checked
      ensures old(checked) ==> shouldCompress == old(shouldCompress) && gz == old(gz)
      ensures !old(checked) ==> shouldCompress == Eligible(setting, rw.header)
      ensures !old(checked) && shouldCompress ==> gz == codec.init
    {
      if checked {
        return;
      }
      checked := true;
      if Get(rw.header, "Content-Encoding") != "" {
        shouldCompress := false;
        return;
      }
      if setting.rangeHeader != "" {
        shouldCompress := false;
        return;
      }
      if !CompressibleType(MediaType(Get(rw.header, "Content-Type"))) {
        shouldCompress := false;
        return;
      }
      gz := codec.init;
      shouldCompress := true;
    }

    /** The first WriteHeader, called by the handler or for it: takes the decision on the headers as they stand,
        relabels them if they promise compression, and commits them unless the status is only interim. */
    method Decide(status: int, ghost v: View)
      requires Shows(v) && !checked && IsStatus(status)
      modifies this`checked, this`shouldCompress, this`gz, this`status, rw`header, rw`committed
      ensures Shows(Commit(Decided(setting, v, status), status)) && checked
    {
      this.status := status;
      CheckCompression();
      if shouldCompress {
        rw.header := rw.header - {"Content-Length"};
        rw.header := rw.header["Content-Encoding" := "gzip"];
        rw.header := rw.header["Vary" := "Accept-Encoding"];
        var et := Get(rw.header, "ETag");
        if et != "" {
          rw.header := rw.header["ETag" := WeakGzipETag(et)];
        }
      }
      rw.WriteHeader(status);
    }

    /** Passes bytes on, through the compressor when there is one. */
    method Send(b: Bytes, ghost v: View)
      requires Shows(v) && checked
      modifies this`gz, rw`body, rw`committed
      ensures Shows(Sent(v, b))
    {
      FedOneMore(codec, v.fed, Data(b));
      if shouldCompress {
        var (s, out) := codec.write(gz, b);
        gz := s;
        rw.Write(out);
      } else {
        rw.Write(b);
      }
    }

    method FlushCompressor(ghost v: View)
      requires Shows(v) && shouldCompress
      modifies this`gz, rw`body, rw`committed
      ensures Shows(Commit(v.(fed := v.fed + [Sync]), 200))
    {
      FedOneMore(codec, v.fed, Sync);
      var (s, out) := codec.flush(gz);
      gz := s;
      rw.Write(out);
    }

    /** The loop of io.Copy. */
    method CopyAll(chunks: seq<Bytes>, ghost v: View)
      requires Shows(v) && checked
      modifies this`gz, rw`body, rw`committed
      ensures Shows(SentAll(v, chunks))
    {
      for i := 0 to |chunks|
        invariant Shows(SentAll(v, chunks[..i])) && checked
      {
        assert chunks[..i + 1][..i] == chunks[..i];
        Send(chunks[i], SentAll(v, chunks[..i]));
      }
      assert chunks[..|chunks|] == chunks;
    }

    method WriteHeader(status: int)
      requires Valid() && IsStatus(status)
      modifies this, rw
      ensures Valid() && calls == old(calls) + [CallWriteHeader(status)]
    {
      OneMore(setting, calls, CallWriteHeader(status));
      if checked {
        rw.WriteHeader(status);
      } else {
        Decide(status, ViewOf(setting, calls));
      }
      calls := calls + [CallWriteHeader(status)];
    }

    /** A first Write without a declared type. */
    method Sniff(b: Bytes, ghost v: View)
      requires Shows(v) && !checked
      modifies rw`header
      ensures Shows(Typed(setting, v, b))
    {
      if Get(rw.header, "Content-Type") == "" {
        rw.header := rw.header["Content-Type" := setting.detect(b)];
      }
    }

    /** What a first Write does before its bytes. */
    method Open(b: Bytes, ghost v: View)
      requires Shows(v)
      modifies this`checked, this`shouldCompress, this`gz, this`status, rw`header, rw`committed
      ensures Shows(Opened(setting, Typed(setting, v, b))) && checked
    {
      if !checked {
        Sniff(b, v);
        Decide(200, Typed(setting, v, b));
      }
    }

    method Write(b: Bytes)
      requires Valid()
      modifies this, rw
      ensures Valid() && calls == old(calls) + [CallWrite(b)]
    {
      ghost var v := ViewOf(setting, calls);
      Open(b, v);
      Send(b, Opened(setting, Typed(setting, v, b)));
      OneMore(setting, calls, CallWrite(b));
      calls := calls + [CallWrite(b)];
    }

    method ReadFrom(chunks: seq<Bytes>)
      requires Valid()
      modifies this, rw
      ensures Valid() && calls == old(calls) + [CallReadFrom(chunks)]
    {
      ghost var v := ViewOf(setting, calls);
      OneMore(setting, calls, CallReadFrom(chunks));
      if !checked {
        Decide(200, v);
      }
      CopyAll(chunks, Opened(setting, v));
      calls := calls + [CallReadFrom(chunks)];
    }

    method Flush()
      requires Valid()
      modifies this, rw
      ensures Valid() && calls == old(calls) + [CallFlush]
    {
      ghost var v := ViewOf(setting, calls);
      OneMore(setting, calls, CallFlush);
      if shouldCompress {
        FlushCompressor(v);
      }
      rw.Flush();
      calls := calls + [CallFlush];
    }

    /** Deferred by the middleware after the handler returns. */
    method Close()
      requires Valid()
      modifies rw
      ensures rw.committed == Closed(setting, ViewOf(setting, calls)).committed
      ensures rw.body == FinalBody(codec, setting, ViewOf(setting, calls))
    {
      if shouldCompress {
        rw.Write(codec.close(gz));
      }
    }
  }

  // ---- One call more ----

  lemma OneMore(c: Setting, calls: seq<Call>, call: Call)
    ensures ViewOf(c, calls + [call]) == Next(c, ViewOf(c, calls), call)
  {
    assert (calls + [call])[..|calls|] == calls;
  }

  lemma FedOneMore<S>(codec: Codec<S>, fed: seq<Op>, op: Op)
    ensures var s := StateAfter(codec, fed);
            var (s', out) := match op case Data(b) => codec.write(s, b) case Sync => codec.flush(s);
            StateAfter(codec, fed + [op]) == s' && Emitted(codec, fed + [op]) == Emitted(codec, fed) + out
  {
    assert (fed + [op])[..|fed|] == fed;
  }

  lemma AddAssoc(a: Bytes, b: Bytes, c: Bytes)
    ensures (a + b) + c == a + (b + c)
  {
  }

  ghost predicate Recorded(v: View, written: Bytes) {
    && v.written == Input(v.fed) == written
    && (v.decision.None? || v.committed.None? ==> v.written == [])
  }

  lemma InputOneMore(fed: seq<Op>, op: Op)
    ensures Input(fed + [op]) == Input(fed) + match op case Data(b) => b case Sync => []
  {
    assert (fed + [op])[..|fed|] == fed;
  }

  lemma SentRecords(v: View, b: Bytes, written: Bytes)
    requires Recorded(v, written) && v.decision.Some?
    ensures Recorded(Sent(v, b), written + b) && Sent(v, b).decision.Some?
  {
    InputOneMore(v.fed, Data(b));
  }

  /** All chunks of one source. */
  lemma {:induction false} SentAllRecords(v: View, chunks: seq<Bytes>, written: Bytes)
    requires Recorded(v, written) && v.decision.Some?
    ensures Recorded(SentAll(v, chunks), written + Flat(chunks)) && SentAll(v, chunks).decision.Some?
  {
    if chunks != [] {
      var init, last := chunks[..|chunks| - 1], chunks[|chunks| - 1];
      SentAllRecords(v, init, written);
      SentRecords(SentAll(v, init), last, written + Flat(init));
      AddAssoc(written, Flat(init), last);
    } else {
      assert written + [] == written;
    }
  }

  lemma OpenedRecords(c: Setting, v: View, written: Bytes)
    requires Recorded(v, written)
    ensures Recorded(Opened(c, v), written) && Opened(c, v).decision.Some?
  {
  }

  lemma TypedRecords(c: Setting, v: View, b: Bytes, written: Bytes)
    requires Recorded(v, written)
    ensures Recorded(Typed(c, v, b), written)
  {
  }

  lemma WriteRecords(c: Setting, v: View, b: Bytes, written: Bytes)
    requires Recorded(v, written)
    ensures Recorded(Next(c, v, CallWrite(b)), written + b)
  {
    TypedRecords(c, v, b, written);
    OpenedRecords(c, Typed(c, v, b), written);
    SentRecords(Opened(c, Typed(c, v, b)), b, written);
  }

  lemma ReadRecords(c: Setting, v: View, chunks: seq<Bytes>, written: Bytes)
    requires Recorded(v, written)
    ensures Recorded(Next(c, v, CallReadFrom(chunks)), written + Flat(chunks))
  {
    OpenedRecords(c, v, written);
    SentAllRecords(Opened(c, v), chunks, written);
  }

  lemma FlushRecords(c: Setting, v: View, written: Bytes)
    requires Recorded(v, written)
    ensures Recorded(Next(c, v, CallFlush), written)
  {
    InputOneMore(v.fed, Sync);
    assert Input(v.fed) + [] == Input(v.fed);
  }

  lemma HeaderRecords(c: Setting, v: View, call: Call, written: Bytes)
    requires Recorded(v, written) && (SetsHeader(call) || call.CallWriteHeader?)
    ensures Recorded(Next(c, v, call), written)
  {
  }

  /** What is recorded as written is what the handler wrote, and a compressor is fed all of it; nothing is written
      before the decision, nor before the headers are out. */
  lemma {:induction false} AllIsRecorded(c: Setting, calls: seq<Call>)
    ensures Recorded(ViewOf(c, calls), Written(calls))
  {
    if calls != [] {
      var init := calls[..|calls| - 1];
      AllIsRecorded(c, init);
      match calls[|calls| - 1] {
        case CallWrite(b) => WriteRecords(c, ViewOf(c, init), b, Written(init));
        case CallReadFrom(chunks) => ReadRecords(c, ViewOf(c, init), chunks, Written(init));
        case CallFlush => FlushRecords(c, ViewOf(c, init), Written(init));
        case _ => HeaderRecords(c, ViewOf(c, init), calls[|calls| - 1], Written(init));
      }
    }
  }

  // ---- What the client sees, for every sequence of calls ----

  /** The body is the handler's bytes: as they are, or as a closed gzip stream that decodes to them. */
  lemma BodyIsWritten<S(!new)>(codec: Codec<S>, c: Setting, calls: seq<Call>)
    requires Lawful(codec)
    requires var w := Closed(c, ViewOf(c, calls)); w.committed.Some? ==> HasBody(w)
    ensures var v := ViewOf(c, calls);
            if Compresses(c, v) then codec.decode(FinalBody(codec, c, v)) == Some(Written(calls))
            else FinalBody(codec, c, v) == Written(calls)
  {
    var v := ViewOf(c, calls);
    AllIsRecorded(c, calls);
    assert codec.decode(Emitted(codec, v.fed) + codec.close(StateAfter(codec, v.fed))) == Some(Input(v.fed));
  }

  /** A whole response: whatever a handler does with its writer, the client gets the handler's bytes, as they are or
      gzipped, under the headers that were committed. */
  method Respond<S(!new)>(rw: ResponseWriter, codec: Codec<S>, rangeHeader: string, detect: Bytes -> string,
                          calls: seq<Call>)
    requires rw.committed == None && rw.body == []
    requires forall i :: 0 <= i < |calls| ==> IsCall(calls[i])
    modifies rw
    ensures var c := Setting(rangeHeader, detect, old(rw.header));
            rw.committed == Closed(c, ViewOf(c, calls)).committed
    ensures Lawful(codec) && (rw.committed.Some? ==> AllowsBody(rw.committed.value.status)) ==>
              var c := Setting(rangeHeader, detect, old(rw.header));
              if Compresses(c, ViewOf(c, calls)) then codec.decode(rw.body) == Some(Written(calls))
              else rw.body == Written(calls)
  {
    ghost var c := Setting(rangeHeader, detect, rw.header);
    var w := new SmartGzipWriter(rw, codec, rangeHeader, detect);
    Play(w, calls);
    w.Close();
    if Lawful(codec) && (rw.committed.Some? ==> AllowsBody(rw.committed.value.status)) {
      BodyIsWritten(codec, c, calls);
    }
  }

  method PlayOne<S>(w: SmartGzipWriter<S>, call: Call)
    requires w.Valid() && IsCall(call)
    modifies w, w.rw
    ensures w.Valid() && w.calls == old(w.calls) + [call]
  {
    match call {
      case SetHeader(_, _) => w.ChangeHeader(call);
      case DelHeader(_) => w.ChangeHeader(call);
      case CallWriteHeader(status) => w.WriteHeader(status);
      case CallWrite(b) => w.Write(b);
      case CallReadFrom(chunks) => w.ReadFrom(chunks);
      case CallFlush => w.Flush();
    }
  }

  method Play<S>(w: SmartGzipWriter<S>, calls: seq<Call>)
    requires w.Valid() && w.calls == []
    requires forall i :: 0 <= i < |calls| ==> IsCall(calls[i])
    modifies w, w.rw
    ensures w.Valid() && w.calls == calls
  {
    for i := 0 to |calls|
      invariant w.Valid() && w.calls == calls[..i]
    {
      assert calls[..i + 1] == calls[..i] + [calls[i]];
      assert IsCall(calls[i]);
      PlayOne(w, calls[i]);
    }
    assert calls[..|calls|] == calls;
  }

  /** The decision stands: nothing the handler does later changes it. */
  lemma {:induction false} DecidedOnce(c: Setting, calls: seq<Call>, later: seq<Call>)
    requires ViewOf(c, calls).decision.Some?
    ensures ViewOf(c, calls + later).decision == ViewOf(c, calls).decision
    ensures ViewOf(c, calls).committed.Some? ==> ViewOf(c, calls + later).committed == ViewOf(c, calls).committed
    decreases |later|
  {
    if later == [] {
      assert calls + later == calls;
    } else {
      var init, call := later[..|later| - 1], later[|later| - 1];
      assert calls + later == (calls + init) + [call];
      DecidedOnce(c, calls, init);
      OneMore(c, calls + init, call);
      NextKeeps(c, ViewOf(c, calls + init), call);
    }
  }

  /** What one call can change of decision, committed head and, after the decision, live headers. */
  lemma NextKeeps(c: Setting, v: View, call: Call)
    ensures v.committed.Some? ==> Next(c, v, call).committed == v.committed
    ensures v.decision.Some? ==>
              var w := Next(c, v, call);
              && w.decision == v.decision
              && w.live == Change(v.live, call)
              && w.committed == if Commits(call) then Commit(v, StatusOf(call)).committed else v.committed
  {
    if call.CallReadFrom? {
      ReadKeeps(Opened(c, v), call.chunks);
    }
  }

  lemma {:induction false} ReadKeeps(v: View, chunks: seq<Bytes>)
    ensures SentAll(v, chunks).decision == v.decision && SentAll(v, chunks).live == v.live
    ensures SentAll(v, chunks).committed == if chunks == [] then v.committed else Commit(v, 200).committed
  {
    if chunks != [] {
      ReadKeeps(v, chunks[..|chunks| - 1]);
    }
  }

  // ---- Which headers go out ----

  function Change(h: Header, call: Call): Header {
    match call case SetHeader(key, value) => h[key := value] case DelHeader(key) => h - {key} case _ => h
  }

  /** The headers after some calls, as the handler alone changes them. */
  function Changes(h: Header, calls: seq<Call>): Header {
    if calls == [] then h else Change(Changes(h, calls[..|calls| - 1]), calls[|calls| - 1])
  }

  predicate SetsHeader(call: Call) {
    call.SetHeader? || call.DelHeader?
  }

  /** Calls that send the final headers off, after the decision. A source without chunks does not. */
  predicate Commits(call: Call) {
    match call
    case CallWriteHeader(status) => !Informational(status)
    case CallWrite(_) => true
    case CallReadFrom(chunks) => chunks != []
    case CallFlush => true
    case _ => false
  }

  function StatusOf(call: Call): int {
    if call.CallWriteHeader? then call.status else 200
  }

  /** The first call, from `from` on, of a kind; the number of calls if there is none. */
  function First(calls: seq<Call>, from: nat, kind: Call -> bool): (i: nat)
    requires from <= |calls|
    ensures from <= i <= |calls|
    ensures i < |calls| ==> kind(calls[i])
    ensures forall k :: from <= k < i ==> !kind(calls[k])
    decreases |calls| - from
  {
    if from == |calls| || kind(calls[from]) then from else First(calls, from + 1, kind)
  }

  /** The first call other than setting headers: what happens at it settles the rest. */
  function Opening(calls: seq<Call>): (i: nat)
    ensures i <= |calls|
  {
    First(calls, 0, call => !SetsHeader(call))
  }

  /** The handler flushes before its first WriteHeader, Write or ReadFrom. */
  predicate FlushFirst(calls: seq<Call>) {
    Opening(calls) < |calls| && calls[Opening(calls)].CallFlush?
  }

  /** The handler's first WriteHeader, Write or ReadFrom is an interim status. */
  predicate InterimFirst(calls: seq<Call>) {
    Opening(calls) < |calls| && calls[Opening(calls)].CallWriteHeader? && Informational(calls[Opening(calls)].status)
  }

  /** Only headers have been set so far. */
  lemma {:induction false} OnlyHeaders(c: Setting, calls: seq<Call>)
    requires forall k :: 0 <= k < |calls| ==> SetsHeader(calls[k])
    ensures ViewOf(c, calls) == View(Changes(c.start, calls), None, None, [], [])
  {
    if calls != [] {
      OnlyHeaders(c, calls[..|calls| - 1]);
    }
  }

  /** The headers on which a call other than Flush takes the decision. */
  function DecisionHeader(c: Setting, h: Header, call: Call): Header {
    if call.CallWrite? then Sniffed(c, h, call.bytes) else h
  }

  /** The opening call takes the decision, unless it is a Flush, and commits, unless it is interim. */
  lemma AtOpening(c: Setting, before: seq<Call>, call: Call)
    requires forall k :: 0 <= k < |before| ==> SetsHeader(before[k])
    requires !SetsHeader(call)
    ensures var v, h := ViewOf(c, before + [call]), Changes(c.start, before);
            if call.CallFlush? then v == View(h, None, Some(Head(200, h)), [], [])
            else
              var d := DecisionHeader(c, h, call);
              && v.decision == Some(Head(StatusOf(call), d)) && v.live == Settled(c, d)
              && v.committed == if Informational(StatusOf(call)) then None
                                else Some(Head(StatusOf(call), Settled(c, d)))
  {
    OnlyHeaders(c, before);
    OneMore(c, before, call);
    FirstStep(c, Changes(c.start, before), call);
  }

  lemma FirstStep(c: Setting, h: Header, call: Call)
    requires !SetsHeader(call)
    ensures var v := Next(c, View(h, None, None, [], []), call);
            if call.CallFlush? then v == View(h, None, Some(Head(200, h)), [], [])
            else
              var d := DecisionHeader(c, h, call);
              && v.decision == Some(Head(StatusOf(call), d)) && v.live == Settled(c, d)
              && v.committed == if Informational(StatusOf(call)) then None
                                else Some(Head(StatusOf(call), Settled(c, d)))
  {
    if call.CallReadFrom? {
      ReadKeeps(Opened(c, View(h, None, None, [], [])), call.chunks);
    }
  }

  lemma OpeningSplits(calls: seq<Call>)
    requires Opening(calls) < |calls|
    ensures var i := Opening(calls);
            && calls == (calls[..i] + [calls[i]]) + calls[i + 1..]
            && !SetsHeader(calls[i]) && forall k :: 0 <= k < i ==> SetsHeader(calls[..i][k])
  {
  }

  /** Unless a Flush or an interim status came first, the headers fit the body. Compressed: labelled gzip, no
      length, and otherwise the handler's headers but for Vary and ETag. Not compressed: exactly the
      handler's headers at the decision. */
  lemma HeadersFitBody(c: Setting, calls: seq<Call>)
    requires !FlushFirst(calls) && !InterimFirst(calls) && Opening(calls) < |calls|
    ensures var v := ViewOf(c, calls);
            && v.decision.Some? && v.committed.Some?
            && var d, head := v.decision.value, v.committed.value;
               && d == Head(StatusOf(calls[Opening(calls)]),
                            DecisionHeader(c, Changes(c.start, calls[..Opening(calls)]), calls[Opening(calls)]))
               && head.status == d.status
               && (!Compresses(c, v) ==> head.header == d.header)
               && (Compresses(c, v) ==> FitsGzip(d.header, head.header))
  {
    var i := Opening(calls);
    OpeningSplits(calls);
    AtOpening(c, calls[..i], calls[i]);
    DecidedOnce(c, calls[..i] + [calls[i]], calls[i + 1..]);
    RelabelledFits(ViewOf(c, calls[..i] + [calls[i]]).decision.value.header);
  }

  /** A declared Content-Type is left alone, and sniffing touches nothing else: the decision of a Write that comes first
      is taken on the handler's headers, or, if they declare no type, on those with the detected one. */
  lemma SniffedOnlyIfMissing(c: Setting, calls: seq<Call>)
    requires Opening(calls) < |calls| && calls[Opening(calls)].CallWrite?
    ensures var h, b := Changes(c.start, calls[..Opening(calls)]), calls[Opening(calls)].bytes;
            && ViewOf(c, calls).decision.Some? && ViewOf(c, calls).committed.Some?
            && var d, head := ViewOf(c, calls).decision.value, ViewOf(c, calls).committed.value;
               && d.status == 200 && head.status == 200
               && (Get(h, "Content-Type") != "" ==>
                     d.header == h && Get(head.header, "Content-Type") == Get(h, "Content-Type"))
               && (Get(h, "Content-Type") == "" ==>
                     && d.header.Keys == h.Keys + {"Content-Type"} && d.header["Content-Type"] == c.detect(b)
                     && (forall k :: k in h && k != "Content-Type" ==> d.header[k] == h[k])
                     && Get(head.header, "Content-Type") == c.detect(b))
  {
    HeadersFitBody(c, calls);
  }

  /** A WriteHeader or ReadFrom that comes first does not sniff at all. */
  lemma OthersDoNotSniff(c: Setting, calls: seq<Call>)
    requires Opening(calls) < |calls| && (calls[Opening(calls)].CallWriteHeader? || calls[Opening(calls)].CallReadFrom?)
    ensures ViewOf(c, calls).decision.Some?
    ensures ViewOf(c, calls).decision.value.header == Changes(c.start, calls[..Opening(calls)])
  {
    var i := Opening(calls);
    OpeningSplits(calls);
    AtOpening(c, calls[..i], calls[i]);
    DecidedOnce(c, calls[..i] + [calls[i]], calls[i + 1..]);
  }

  /** What the handler's header calls do, one more at a time. */
  lemma ChangesByKey(h: Header, calls: seq<Call>, key: string, value: string, other: string)
    requires other != key
    ensures var before := Changes(h, calls);
            var set_, del := Changes(h, calls + [SetHeader(key, value)]), Changes(h, calls + [DelHeader(key)]);
            && Get(set_, key) == value && Get(del, key) == ""
            && Get(set_, other) == Get(before, other) == Get(del, other)
  {
    assert (calls + [SetHeader(key, value)])[..|calls|] == calls;
    assert (calls + [DelHeader(key)])[..|calls|] == calls;
  }

  /** Is it a media type, with or without parameters? */
  predicate IsTyped(ct: string, media: string) {
    ct == media || (|ct| > |media| && ct[..|media|] == media && ct[|media|] == ';')
  }

  lemma FirstPart(ct: string, media: string)
    requires ';' !in media
    ensures Split(ct, ';')[0] == media <==> IsTyped(ct, media)
  {
    if ct == media {
      SplitAtom(media, ';');
    } else if IsTyped(ct, media) {
      assert ct == media + [';'] + ct[|media| + 1..];
      SplitConcat(media, ct[|media| + 1..], ';');
      SplitAtom(media, ';');
    }
    var parts := Split(ct, ';');
    JoinSplit(ct, ';');
    if parts[0] == media && |parts| > 1 {
      assert ct == media + [';'] + Join(parts[1..], ';');
      assert ct[..|media|] == media && ct[|media|] == ';';
    }
  }

  /** Exactly the responses that are compressed: decided, without an encoding of their own, not for a Range, and of
      one of ten media types. */
  lemma CompressesIff(c: Setting, calls: seq<Call>)
    ensures Compresses(c, ViewOf(c, calls)) <==>
            && ViewOf(c, calls).decision.Some?
            && Get(ViewOf(c, calls).decision.value.header, "Content-Encoding") == ""
            && c.rangeHeader == ""
            && exists media :: media in COMPRESSIBLE
                 && IsTyped(Get(ViewOf(c, calls).decision.value.header, "Content-Type"), media)
  {
    if ViewOf(c, calls).decision.Some? {
      var ct := Get(ViewOf(c, calls).decision.value.header, "Content-Type");
      forall media | media in COMPRESSIBLE
        ensures Split(ct, ';')[0] == media <==> IsTyped(ct, media)
      {
        NoSemicolons(media);
        FirstPart(ct, media);
      }
    }
  }

  lemma NoSemicolons(media: string)
    requires media in COMPRESSIBLE
    ensures ';' !in media
  {
  }

  /** The types the middleware lists. */
  const COMPRESSIBLE: set<string> :=
    {"text/html", "text/css", "text/plain", "text/javascript", "application/javascript", "application/x-javascript",
     "application/json", "application/xml", "text/xml", "image/svg+xml"}

  function GzipETag(et: string): string {
    if et == "" then "" else WeakGzipETag(et)
  }

  /** The headers r suit a compressed body under a handler's headers h. */
  ghost predicate FitsGzip(h: Header, r: Header) {
    && Get(r, "Content-Encoding") == "gzip"
    && "Content-Length" !in r
    && Get(r, "Vary") == "Accept-Encoding"
    && Get(r, "ETag") == GzipETag(Get(h, "ETag"))
    && forall k :: k !in {"Content-Encoding", "Content-Length", "Vary", "ETag"} ==>
         (k in r <==> k in h) && Get(r, k) == Get(h, k)
  }

  lemma RelabelledFits(h: Header)
    ensures FitsGzip(h, Relabelled(h))
  {
  }

  /** What was already encoded, and any answer to a Range request, passes through unencoded. */
  lemma NeverReencoded<S>(codec: Codec<S>, c: Setting, calls: seq<Call>)
    requires ViewOf(c, calls).decision.Some? && HasBody(ViewOf(c, calls))
    requires c.rangeHeader != "" || Get(ViewOf(c, calls).decision.value.header, "Content-Encoding") != ""
    ensures FinalBody(codec, c, ViewOf(c, calls)) == Written(calls)
  {
    AllIsRecorded(c, calls);
  }

  // ---- Flushing first ----

  lemma {:induction false} CommittedStays(c: Setting, calls: seq<Call>, later: seq<Call>)
    requires ViewOf(c, calls).committed.Some?
    ensures ViewOf(c, calls + later).committed == ViewOf(c, calls).committed
    decreases |later|
  {
    if later == [] {
      assert calls + later == calls;
    } else {
      var init, call := later[..|later| - 1], later[|later| - 1];
      assert calls + later == (calls + init) + [call];
      CommittedStays(c, calls, init);
      OneMore(c, calls + init, call);
      NextKeeps(c, ViewOf(c, calls + init), call);
    }
  }

  /** After a Flush as the first call of note the headers are gone, whatever is decided later. */
  lemma FlushFirstCommits(c: Setting, calls: seq<Call>)
    requires FlushFirst(calls)
    ensures ViewOf(c, calls).committed == Some(Head(200, Changes(c.start, calls[..Opening(calls)])))
  {
    var i := Opening(calls);
    OpeningSplits(calls);
    AtOpening(c, calls[..i], calls[i]);
    CommittedStays(c, calls[..i] + [calls[i]], calls[i + 1..]);
  }

  // ---- An interim status first ----

  /** Between the decision and the call that commits, the handler's changes to the relabelled headers count. */
  lemma {:induction false} Between(c: Setting, v0: View, before: seq<Call>, between: seq<Call>)
    requires v0 == ViewOf(c, before) && v0.decision.Some? && v0.committed.None?
    requires forall k :: 0 <= k < |between| ==> !Commits(between[k])
    ensures var v := ViewOf(c, before + between);
            v.decision == v0.decision && v.committed == None && v.live == Changes(v0.live, between)
    decreases |between|
  {
    if between == [] {
      assert before + between == before;
    } else {
      var init, call := between[..|between| - 1], between[|between| - 1];
      assert before + between == (before + init) + [call];
      Between(c, v0, before, init);
      OneMore(c, before + init, call);
      NextKeeps(c, ViewOf(c, before + init), call);
    }
  }

  /** The index of the call that commits the headers after an interim opening; Close does if there is none. */
  function CommitIndex(calls: seq<Call>): (j: nat)
    requires Opening(calls) < |calls|
    ensures Opening(calls) < j <= |calls|
  {
    First(calls, Opening(calls) + 1, call => Commits(call))
  }

  /** What the handler has made of the decision's headers by the time they are committed. */
  function InterimSends(c: Setting, calls: seq<Call>): Header
    requires InterimFirst(calls)
  {
    Changes(Settled(c, Changes(c.start, calls[..Opening(calls)])), calls[Opening(calls) + 1..CommitIndex(calls)])
  }

  /** After an interim opening the decision is taken on the headers of that moment, and what goes out is those headers,
      relabelled if they promise compression, with all that the handler changed since. */
  lemma InterimHeaders(c: Setting, calls: seq<Call>)
    requires InterimFirst(calls)
    ensures var i, j, v := Opening(calls), CommitIndex(calls), ViewOf(c, calls);
            && v.decision == Some(Head(calls[i].status, Changes(c.start, calls[..i])))
            && (j < |calls| ==> v.committed == Some(Head(StatusOf(calls[j]), InterimSends(c, calls))))
            && (j == |calls| ==> v.committed == None && v.live == InterimSends(c, calls))
  {
    var j := CommitIndex(calls);
    InterimUpTo(c, calls);
    if j < |calls| {
      EndsAt(c, calls, j);
    } else {
      assert calls[..j] == calls;
    }
  }

  lemma EndsAt(c: Setting, calls: seq<Call>, j: nat)
    requires j < |calls| && Commits(calls[j])
    requires ViewOf(c, calls[..j]).decision.Some? && ViewOf(c, calls[..j]).committed.None?
    ensures ViewOf(c, calls).decision == ViewOf(c, calls[..j]).decision
    ensures ViewOf(c, calls).committed == Some(Head(StatusOf(calls[j]), ViewOf(c, calls[..j]).live))
  {
    CommitThen(c, calls[..j], calls[j], calls[j + 1..]);
    CutAt(calls, j);
  }

  lemma CutAt<T>(s: seq<T>, j: nat)
    requires j < |s|
    ensures s[..j] + [s[j]] + s[j + 1..] == s
  {
  }

  lemma CommitThen(c: Setting, front: seq<Call>, call: Call, later: seq<Call>)
    requires ViewOf(c, front).decision.Some? && ViewOf(c, front).committed.None? && Commits(call)
    ensures var v0, v := ViewOf(c, front), ViewOf(c, front + [call] + later);
            v.decision == v0.decision && v.committed == Some(Head(StatusOf(call), v0.live))
  {
    OneMore(c, front, call);
    NextKeeps(c, ViewOf(c, front), call);
    DecidedOnce(c, front + [call], later);
  }

  /** Up to the call that commits. */
  lemma InterimUpTo(c: Setting, calls: seq<Call>)
    requires InterimFirst(calls)
    ensures var i, j := Opening(calls), CommitIndex(calls);
            var v := ViewOf(c, calls[..j]);
            && v.decision == Some(Head(calls[i].status, Changes(c.start, calls[..i])))
            && v.committed == None && v.live == InterimSends(c, calls)
  {
    var i, j := Opening(calls), CommitIndex(calls);
    OpeningSplits(calls);
    AtOpening(c, calls[..i], calls[i]);
    var upTo := calls[..i] + [calls[i]];
    Between(c, ViewOf(c, upTo), upTo, calls[i + 1..j]);
    assert upTo + calls[i + 1..j] == calls[..j];
  }

  // ---- Is the body labelled? ----

  /** Can the client tell how the body is encoded? */
  predicate Labelled(c: Setting, calls: seq<Call>) {
    var w := Closed(c, ViewOf(c, calls));
    Compresses(c, w) ==> w.committed.Some? && Get(w.committed.value.header, "Content-Encoding") == "gzip"
  }

  /** The label is right whenever neither a Flush nor an interim status precedes the other calls. After a Flush it is
      right exactly if the flushed headers happened to say gzip, or what is decided later is not to compress;
      after an interim status, if the handler leaves the label in place until the headers are committed, or
      what was decided is not to compress. */
  lemma LabelledIff(c: Setting, calls: seq<Call>)
    ensures !FlushFirst(calls) && !InterimFirst(calls) ==> Labelled(c, calls)
    ensures FlushFirst(calls) ==>
              (Labelled(c, calls) <==>
                 || ViewOf(c, calls).decision.None?
                 || !Eligible(c, ViewOf(c, calls).decision.value.header)
                 || Get(Changes(c.start, calls[..Opening(calls)]), "Content-Encoding") == "gzip")
    ensures InterimFirst(calls) ==>
              (Labelled(c, calls) <==>
                 || !Eligible(c, Changes(c.start, calls[..Opening(calls)]))
                 || Get(InterimSends(c, calls), "Content-Encoding") == "gzip")
  {
    if FlushFirst(calls) {
      FlushFirstCommits(c, calls);
    } else if InterimFirst(calls) {
      InterimHeaders(c, calls);
    } else if Opening(calls) < |calls| {
      HeadersFitBody(c, calls);
    } else {
      OnlyHeaders(c, calls);
    }
  }

  /** A failing family: flush first, then write something worth compressing. */
  lemma FlushThenWriteMislabels(c: Setting, b: Bytes)
    requires Get(c.start, "Content-Encoding") == "" && Eligible(c, Sniffed(c, c.start, b))
    ensures !Labelled(c, [CallFlush, CallWrite(b)])
  {
    var none: seq<Call> := [];
    AtOpening(c, none, CallFlush);
    OneMore(c, none + [CallFlush], CallWrite(b));
    assert none + [CallFlush] + [CallWrite(b)] == [CallFlush, CallWrite(b)];
  }

  /** One member of it: an HTML page. */
  lemma EarlyFlushMislabels()
    ensures var c := Setting("", (_: Bytes) => "text/plain", map["Content-Type" := "text/html"]);
            !Labelled(c, [CallFlush, CallWrite([104, 105])])
  {
    var c := Setting("", (_: Bytes) => "text/plain", map["Content-Type" := "text/html"]);
    SplitAtom("text/html", ';');
    FlushThenWriteMislabels(c, [104, 105]);
  }

  /** Early hints, then a length: for every compressible page the length of the page goes out over its gzip form. */
  lemma InterimLeavesLength(c: Setting, length: string, b: Bytes)
    requires Eligible(c, c.start)
    ensures var calls := [CallWriteHeader(103), SetHeader("Content-Length", length), CallWrite(b)];
            var v := ViewOf(c, calls);
            && Compresses(c, v) && v.committed.Some?
            && Get(v.committed.value.header, "Content-Encoding") == "gzip"
            && "Content-Length" in v.committed.value.header && v.committed.value.header["Content-Length"] == length
  {
    var none: seq<Call> := [];
    var hint, size, write := CallWriteHeader(103), SetHeader("Content-Length", length), CallWrite(b);
    OneMore(c, none, hint);
    OneMore(c, none + [hint], size);
    OneMore(c, none + [hint] + [size], write);
    assert none + [hint] + [size] + [write] == [hint, size, write];
    RelabelledFits(c.start);
  }
}
