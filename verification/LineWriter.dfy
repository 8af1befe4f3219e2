/** internal/logger/logger.go: turning a child process's output stream into log lines. */
module LineWriter {
  import opened Strings

  function TrimCR(line: string): string {
    if |line| > 0 && line[|line| - 1] == '\r' then line[..|line| - 1] else line
  }

  /** One carriage return at the end is cut, and nothing else. */
  lemma TrimCRCuts(line: string)
    ensures TrimCR(line + "\r") == line
    ensures line == "" || line[|line| - 1] != '\r' ==> TrimCR(line) == line
  {
    assert (line + "\r")[..|line|] == line;
  }

  function TrimAll(lines: seq<string>): (r: seq<string>)
    ensures |r| == |lines|
  {
    seq(|lines|, i requires 0 <= i < |lines| => TrimCR(lines[i]))
  }

  /** The index of the first newline, or -1. */
  method IndexOfNewline(buf: string) returns (idx: int)
    ensures -1 <= idx < |buf|
    ensures idx == -1 <==> '\n' !in buf
    ensures idx >= 0 ==> buf[idx] == '\n' && '\n' !in buf[..idx]
  {
    for i := 0 to |buf|
      invariant '\n' !in buf[..i]
    {
      if buf[i] == '\n' {
        return i;
      }
    }
    return -1;
  }

  // ---- The reference: the whole stream split at once ----

  /** The pieces of the stream that a newline has ended. */
  function Complete(stream: string): seq<string> {
    var parts := Split(stream, '\n');
    parts[..|parts| - 1]
  }

  /** What follows the last newline. */
  function Unterminated(stream: string): string {
    var parts := Split(stream, '\n');
    parts[|parts| - 1]
  }

  /** The log lines a closed stream is owed. */
  function LinesOf(stream: string): seq<string> {
    TrimAll(Complete(stream)) + if Unterminated(stream) == "" then [] else [TrimCR(Unterminated(stream))]
  }

  /** A stream is its complete pieces, a newline and the rest. */
  lemma StreamParts(a: string)
    ensures Split(a, '\n') == Complete(a) + [Unterminated(a)]
    ensures Complete(a) == [] ==> Unterminated(a) == a
    ensures Complete(a) != [] ==> a == Join(Complete(a), '\n') + ['\n'] + Unterminated(a)
    ensures Complete(a) != [] ==> Split(Join(Complete(a), '\n'), '\n') == Complete(a)
  {
    JoinSplit(a, '\n');
    if Complete(a) != [] {
      JoinConcat(Complete(a), [Unterminated(a)], '\n');
      SplitJoin(Complete(a), '\n');
    }
  }

  /** More bytes only extend the last piece. */
  lemma SplitExtends(a: string, b: string)
    ensures Split(a + b, '\n') == Complete(a) + Split(Unterminated(a) + b, '\n')
  {
    StreamParts(a);
    if Complete(a) != [] {
      Regroup(Join(Complete(a), '\n'), ['\n'], Unterminated(a), b);
      SplitConcat(Join(Complete(a), '\n'), Unterminated(a) + b, '\n');
    }
  }

  /** Taking one line off the front of a buffer. */
  lemma OneLine(buf: string, idx: nat, done: seq<string>)
    requires idx < |buf| && buf[idx] == '\n' && '\n' !in buf[..idx]
    ensures done + Split(buf, '\n') == (done + [buf[..idx]]) + Split(buf[idx + 1..], '\n')
  {
    var line, rest := buf[..idx], buf[idx + 1..];
    CutAt(buf, idx);
    LineSplit(line, rest);
    Shift(done, line, Split(rest, '\n'));
  }

  lemma CutAt(buf: string, idx: nat)
    requires idx < |buf| && buf[idx] == '\n'
    ensures buf[..idx] + ['\n'] + buf[idx + 1..] == buf
  {
  }

  lemma Shift(done: seq<string>, line: string, rest: seq<string>)
    ensures done + ([line] + rest) == (done + [line]) + rest
  {
  }

  lemma TrimOneMore(done: seq<string>, line: string)
    ensures TrimAll(done + [line]) == TrimAll(done) + [TrimCR(line)]
  {
  }

  lemma LineSplit(line: string, rest: string)
    requires '\n' !in line
    ensures Split(line + ['\n'] + rest, '\n') == [line] + Split(rest, '\n')
  {
    SplitConcat(line, rest, '\n');
    SplitAtom(line, '\n');
  }

  /** The lines of a stream, one at a time: each newline ends one, empty ones included; what is left without a newline
      is one if there is anything left. */
  lemma LinesOneByOne(line: string, rest: string)
    requires '\n' !in line
    ensures LinesOf("") == []
    ensures line != "" ==> LinesOf(line) == [TrimCR(line)]
    ensures LinesOf(line + "\n" + rest) == [TrimCR(line)] + LinesOf(rest)
  {
    SplitAtom(line, '\n');
    SplitAtom("", '\n');
    LineInFront(line, rest);
  }

  lemma LineInFront(line: string, rest: string)
    requires '\n' !in line
    ensures LinesOf(line + "\n" + rest) == [TrimCR(line)] + LinesOf(rest)
  {
    var whole := line + "\n" + rest;
    LineSplit(line, rest);
    assert whole == line + ['\n'] + rest;
    FrontOfParts(line, Split(rest, '\n'));
    assert Complete(whole) == [line] + Complete(rest) && Unterminated(whole) == Unterminated(rest);
    TrimFront(line, Complete(rest));
  }

  lemma FrontOfParts(line: string, parts: seq<string>)
    requires parts != []
    ensures var all := [line] + parts;
            all[..|all| - 1] == [line] + parts[..|parts| - 1] && all[|all| - 1] == parts[|parts| - 1]
  {
  }

  lemma TrimFront(line: string, lines: seq<string>)
    ensures TrimAll([line] + lines) == [TrimCR(line)] + TrimAll(lines)
  {
  }

  class LineWriter {
    var buf: string
    /** The lines handed to the logger. */
    var logged: seq<string>
    /** Every byte written so far. */
    ghost var stream: string

    /** Between writes the buffer holds exactly the unterminated tail. */
    ghost predicate Valid()
      reads this
    {
      buf == Unterminated(stream) && logged == TrimAll(Complete(stream))
    }

    constructor ()
      ensures Valid() && stream == "" && logged == []
    {
      buf, logged, stream := "", [], "";
    }

    method Write(p: string) returns (n: nat)
      requires Valid()
      modifies this
      ensures Valid() && stream == old(stream) + p
      ensures n == |p|
    {
      SplitExtends(stream, p);
      ghost var done := Complete(stream);
      stream := stream + p;
      buf := buf + p;
      while true
        invariant stream == old(stream) + p
        invariant Split(stream, '\n') == done + Split(buf, '\n')
        invariant logged == TrimAll(done)
        decreases |buf|
      {
        var idx := IndexOfNewline(buf);
        if idx == -1 {
          SplitAtom(buf, '\n');
          break;
        }
        OneLine(buf, idx, done);
        TrimOneMore(done, buf[..idx]);
        logged := logged + [TrimCR(buf[..idx])];
        done := done + [buf[..idx]];
        buf := buf[idx + 1..];
      }
      assert Complete(stream) == done;
      return |p|;
    }

    method Close()
      requires Valid()
      modifies this
      ensures stream == old(stream) && logged == LinesOf(stream) && buf == ""
    {
      if |buf| > 0 {
        logged := logged + [TrimCR(buf)];
        buf := "";
      }
    }
  }

  function Concat(chunks: seq<string>): string {
    if chunks == [] then "" else Concat(chunks[..|chunks| - 1]) + chunks[|chunks| - 1]
  }

  /** However the stream is cut into writes, closing leaves the lines of the whole stream. */
  method LogChunks(chunks: seq<string>) returns (logged: seq<string>)
    ensures logged == LinesOf(Concat(chunks))
  {
    var w := new LineWriter();
    for i := 0 to |chunks|
      invariant fresh(w) && w.Valid() && w.stream == Concat(chunks[..i])
    {
      var n := w.Write(chunks[i]);
      assert chunks[..i + 1][..i] == chunks[..i];
    }
    assert chunks[..|chunks|] == chunks;
    w.Close();
    return w.logged;
  }

  /** No line is lost or invented: the lines and their separators spell the stream, and no line holds a newline. */
  lemma PiecesSpellStream(stream: string)
    ensures Join(Complete(stream) + [Unterminated(stream)], '\n') == stream
    ensures forall i :: 0 <= i < |Complete(stream)| ==> '\n' !in Complete(stream)[i]
    ensures '\n' !in Unterminated(stream)
  {
    JoinSplit(stream, '\n');
    assert Complete(stream) + [Unterminated(stream)] == Split(stream, '\n');
  }
}
