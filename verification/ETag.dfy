/** internal/server/middleware/gzip.go: the ETag of a compressed response and its way back. */
module ETag {
  import opened Strings

  function TrimQuotesLeft(s: string): string {
    if s != "" && s[0] == '"' then TrimQuotesLeft(s[1..]) else s
  }

  function TrimQuotesRight(s: string): string {
    if s != "" && s[|s| - 1] == '"' then TrimQuotesRight(s[..|s| - 1]) else s
  }

  function WeakGzipETag(et: string): string {
    var trimmed := TrimQuotesRight(TrimQuotesLeft(TrimPrefix(et, "W/")));
    "W/\"" + trimmed + "-gzip\""
  }

  /** strings.ReplaceAll(s, `-gzip"`, `"`), applied to an inbound If-None-Match. */
  function Rewrite(s: string): string {
    if HasPrefix(s, "-gzip\"") then "\"" + Rewrite(s[6..])
    else if s == "" then ""
    else [s[0]] + Rewrite(s[1..])
  }

  /** An entity-tag: RFC 9110 section 8.8.3. */
  datatype Tag = Tag(weak: bool, opaque_: string)

  predicate WellFormed(t: Tag) {
    '"' !in t.opaque_
  }

  function Show(t: Tag): string {
    (if t.weak then "W/" else "") + "\"" + t.opaque_ + "\""
  }

  /** Weak comparison: RFC 9110 section 8.8.3.2. */
  predicate WeaklyMatches(a: Tag, b: Tag) {
    a.opaque_ == b.opaque_
  }

  /** A list of tags as it stands in a header, each tag with the separator in front of it. */
  function ShowList(tags: seq<Tag>, seps: seq<string>): string
    requires |tags| == |seps|
  {
    if tags == [] then "" else seps[0] + Show(tags[0]) + ShowList(tags[1..], seps[1..])
  }

  predicate IsSeparator(sep: string) {
    forall i :: 0 <= i < |sep| ==> sep[i] == ',' || sep[i] == ' ' || sep[i] == '\t'
  }

  function Gzipped(t: Tag): Tag {
    Tag(true, t.opaque_ + "-gzip")
  }

  function Rewritten(t: Tag): Tag {
    Tag(t.weak, TrimSuffix(t.opaque_, "-gzip"))
  }

  lemma {:induction false} TrimUnquoted(s: string)
    requires '"' !in s
    ensures TrimQuotesRight(TrimQuotesLeft("\"" + s + "\"")) == s
  {
    var q := "\"" + s + "\"";
    assert q[1..] == s + "\"";
    assert TrimQuotesLeft(s + "\"") == if s == "" then "" else s + "\"";
    assert (s + "\"")[..|s|] == s;
  }

  /** A compressed response's tag is weak and carries the suffix inside the quotes. */
  lemma GzipTagShape(t: Tag)
    requires WellFormed(t)
    ensures WeakGzipETag(Show(t)) == Show(Gzipped(t))
    ensures WellFormed(Gzipped(t)) && !WeaklyMatches(Gzipped(t), t)
  {
    TrimUnquoted(t.opaque_);
    var quoted := "\"" + t.opaque_ + "\"";
    if t.weak {
      assert Show(t)[2..] == quoted;
    } else {
      assert Show(t) == quoted;
    }
    assert "W/\"" + t.opaque_ + "-gzip\"" == "W/" + "\"" + (t.opaque_ + "-gzip") + "\"";
  }

  lemma PatternAtQuote(u: string, rest: string)
    requires '"' !in u
    ensures HasPrefix(u + "\"" + rest, "-gzip\"") <==> u == "-gzip"
  {
    var s := u + "\"" + rest;
    if HasPrefix(s, "-gzip\"") {
      var pat := "-gzip";
      assert s[..5] == s[..6][..5] == pat && s[5] == s[..6][5] == '"';
      assert forall i :: 0 <= i < 5 ==> s[i] == pat[i] && pat[i] != '"';
      assert s[|u|] == '"' && forall i :: 0 <= i < |u| ==> s[i] == u[i];
      assert u == s[..|u|];
    }
    if u == "-gzip" {
      assert s[..6] == "-gzip\"";
    }
  }

  lemma TrimSuffixStep(u: string)
    requires u != "" && u != "-gzip"
    ensures TrimSuffix(u, "-gzip") == [u[0]] + TrimSuffix(u[1..], "-gzip")
  {
    assert |u| > 5 ==> u[1..][|u| - 6..] == u[|u| - 5..];
    assert |u| == 5 ==> u[0..] == u;
  }

  lemma ConsAssoc(c: char, a: string, b: string, rest: string)
    ensures [c] + (a + b + rest) == ([c] + a) + b + rest
  {
  }

  /** Up to the next quote only a "-gzip" directly in front of that quote is dropped. */
  lemma {:induction false} RewriteToQuote(u: string, rest: string)
    requires '"' !in u
    ensures Rewrite(u + "\"" + rest) == TrimSuffix(u, "-gzip") + "\"" + Rewrite(rest)
  {
    var s := u + "\"" + rest;
    PatternAtQuote(u, rest);
    if u == "-gzip" {
      assert s[6..] == rest;
    } else if u == "" {
      assert s[1..] == rest;
    } else {
      assert s[0] == u[0] && s[1..] == u[1..] + "\"" + rest;
      RewriteToQuote(u[1..], rest);
      TrimSuffixStep(u);
      ConsAssoc(u[0], TrimSuffix(u[1..], "-gzip"), "\"", Rewrite(rest));
    }
  }

  lemma RewriteTag(sep: string, t: Tag, rest: string)
    requires IsSeparator(sep) && WellFormed(t)
    ensures Rewrite(sep + Show(t) + rest) == sep + Show(Rewritten(t)) + Rewrite(rest)
  {
    var front := sep + if t.weak then "W/" else "";
    var tail := t.opaque_ + "\"" + rest;
    ShowSplit(sep, t, rest);
    assert |front| >= 5 ==> front[|front| - 5..][4] == front[|front| - 1] != 'p';
    RewriteToQuote(front, tail);
    RewriteToQuote(t.opaque_, rest);
    ShowSplit(sep, Rewritten(t), Rewrite(rest));
  }

  lemma ShowSplit(sep: string, t: Tag, rest: string)
    ensures sep + Show(t) + rest == (sep + if t.weak then "W/" else "") + "\"" + (t.opaque_ + "\"" + rest)
  {
  }

  /** The rewrite of a whole header is the rewrite of each tag, separators untouched. */
  lemma {:induction false} RewriteList(tags: seq<Tag>, seps: seq<string>)
    requires |tags| == |seps|
    requires forall i :: 0 <= i < |tags| ==> WellFormed(tags[i]) && IsSeparator(seps[i])
    ensures Rewrite(ShowList(tags, seps)) ==
            ShowList(seq(|tags|, i requires 0 <= i < |tags| => Rewritten(tags[i])), seps)
    decreases |tags|
  {
    var after := seq(|tags|, i requires 0 <= i < |tags| => Rewritten(tags[i]));
    if tags != [] {
      RewriteTag(seps[0], tags[0], ShowList(tags[1..], seps[1..]));
      RewriteList(tags[1..], seps[1..]);
      assert after[1..] == seq(|tags[1..]|, i requires 0 <= i < |tags[1..]| => Rewritten(tags[1..][i]));
    }
  }

  lemma GzippedRewritten(t: Tag)
    ensures Rewritten(Gzipped(t)) == Tag(true, t.opaque_)
    ensures WellFormed(t) ==> WellFormed(Gzipped(t))
  {
    assert TrimSuffix(t.opaque_ + "-gzip", "-gzip") == t.opaque_;
  }

  /** A client that sends back the tags of compressed responses revalidates against the handler's own
      tags: each comes out weakly matching the tag it was made from. */
  lemma GzipTagsComeBack(tags: seq<Tag>, seps: seq<string>)
    requires |tags| == |seps|
    requires forall i :: 0 <= i < |tags| ==> WellFormed(tags[i]) && IsSeparator(seps[i])
    ensures var sent := seq(|tags|, i requires 0 <= i < |tags| => Gzipped(tags[i]));
            var back := seq(|tags|, i requires 0 <= i < |tags| => Tag(true, tags[i].opaque_));
            && Rewrite(ShowList(sent, seps)) == ShowList(back, seps)
            && forall i :: 0 <= i < |tags| ==> WeaklyMatches(back[i], tags[i])
  {
    var sent := seq(|tags|, i requires 0 <= i < |tags| => Gzipped(tags[i]));
    var back := seq(|tags|, i requires 0 <= i < |tags| => Tag(true, tags[i].opaque_));
    forall i | 0 <= i < |tags|
      ensures WellFormed(sent[i]) && Rewritten(sent[i]) == back[i]
    {
      GzippedRewritten(tags[i]);
    }
    RewriteList(sent, seps);
    assert seq(|sent|, i requires 0 <= i < |sent| => Rewritten(sent[i])) == back;
  }

  /** A tag of an uncompressed response survives the rewrite exactly when it does not itself end in "-gzip". */
  lemma IdentityTagKeptIff(t: Tag)
    requires WellFormed(t)
    ensures Rewrite(Show(t)) == Show(t) <==> !HasSuffix(t.opaque_, "-gzip")
  {
    RewriteTag("", t, "");
    assert "" + Show(t) + "" == Show(t);
    assert Rewrite("") == "";
    assert |Show(Rewritten(t))| == |Show(t)| - |t.opaque_| + |TrimSuffix(t.opaque_, "-gzip")|;
  }

  /** One that does not: a handler's own tag "v1-gzip" is cut to "v1", which it does not match. */
  lemma IdentityTagCut()
    ensures Rewrite(Show(Tag(false, "v1-gzip"))) == Show(Tag(false, "v1"))
    ensures !WeaklyMatches(Tag(false, "v1"), Tag(false, "v1-gzip"))
  {
    var t := Tag(false, "v1-gzip");
    RewriteTag("", t, "");
    assert TrimSuffix("v1-gzip", "-gzip") == "v1";
    assert "" + Show(t) + "" == Show(t);
    assert "" + Show(Tag(false, "v1")) + "" == Show(Tag(false, "v1"));
  }

  lemma UnquotedIsNoPattern(s: string)
    requires '"' !in s
    ensures !HasPrefix(s, "-gzip\"")
  {
    if |s| >= 6 {
      assert s[..6][5] == s[5] != '"';
    }
  }

  /** Without a quote there is nothing to rewrite. */
  lemma {:induction false} RewriteUnquoted(s: string)
    requires '"' !in s
    ensures Rewrite(s) == s
  {
    if s != "" {
      UnquotedIsNoPattern(s);
      RewriteUnquoted(s[1..]);
      assert [s[0]] + s[1..] == s;
    }
  }

  /** All quotes at either end go, whatever they enclose, before the suffix and new quotes are put on. */
  lemma {:induction false} AllQuotesTrimmed(left: nat, s: string, right: nat)
    requires s != "" && s[0] != '"' && s[|s| - 1] != '"'
    ensures TrimQuotesRight(TrimQuotesLeft(seq(left, _ => '"') + s + seq(right, _ => '"'))) == s
    decreases left + right
  {
    var whole := seq(left, _ => '"') + s + seq(right, _ => '"');
    if left > 0 {
      assert whole[0] == '"' && whole[1..] == seq(left - 1, _ => '"') + s + seq(right, _ => '"');
      AllQuotesTrimmed(left - 1, s, right);
    } else if right > 0 {
      assert whole[0] == s[0];
      assert whole[|whole| - 1] == '"' && whole[..|whole| - 1] == seq(0, _ => '"') + s + seq(right - 1, _ => '"');
      var less := whole[..|whole| - 1];
      assert less[0] == s[0];
      AllQuotesTrimmed(0, s, right - 1);
    } else {
      assert whole == s;
    }
  }
}
