/** The string functions of Go's `strings` package that the modelled code calls. */
module Strings {
  datatype Option<+T> = None | Some(value: T)

  predicate HasPrefix(s: string, p: string) {
    p <= s
  }

  predicate HasSuffix(s: string, p: string) {
    |p| <= |s| && s[|s| - |p|..] == p
  }

  function TrimPrefix(s: string, p: string): string {
    if HasPrefix(s, p) then s[|p|..] else s
  }

  function TrimSuffix(s: string, p: string): string {
    if HasSuffix(s, p) then s[..|s| - |p|] else s
  }

  /** strings.ReplaceAll for one-character patterns. */
  function ReplaceChar(s: string, old_: char, new_: char): (r: string)
    ensures |r| == |s|
    ensures forall i :: 0 <= i < |s| ==> r[i] == if s[i] == old_ then new_ else s[i]
  {
    seq(|s|, i requires 0 <= i < |s| => if s[i] == old_ then new_ else s[i])
  }

  function LowerChar(c: char): char {
    if 'A' <= c <= 'Z' then c - 'A' + 'a' else c
  }

  /** strings.ToLower on ASCII letters. */
  function Lower(s: string): (r: string)
    ensures |r| == |s|
  {
    seq(|s|, i requires 0 <= i < |s| => LowerChar(s[i]))
  }

  const UPPER := "ABCDEFGHIJKLMNOPQRSTUVWXYZ"
  const LOWER := "abcdefghijklmnopqrstuvwxyz"

  /** Capital letters become the small ones of the same place, and nothing else changes. */
  lemma LowerLetters(s: string, i: nat)
    requires i < |s|
    ensures forall k :: 0 <= k < 26 && s[i] == UPPER[k] ==> Lower(s)[i] == LOWER[k]
    ensures s[i] !in UPPER ==> Lower(s)[i] == s[i]
  {
    Letters(s[i]);
  }

  lemma Letters(c: char)
    ensures c in UPPER <==> 'A' <= c <= 'Z'
    ensures c in LOWER <==> 'a' <= c <= 'z'
  {
    CapitalLetters(c);
    SmallLetters(c);
  }

  lemma CapitalLetters(c: char)
    ensures c in UPPER <==> 'A' <= c <= 'Z'
  {
    if 'A' <= c <= 'Z' {
      assert UPPER[c as int - 65] == c;
    }
  }

  lemma SmallLetters(c: char)
    ensures c in LOWER <==> 'a' <= c <= 'z'
  {
    if 'a' <= c <= 'z' {
      assert LOWER[c as int - 97] == c;
    }
  }

  lemma ReplaceCharAt(s: string, old_: char, new_: char, i: nat)
    requires i < |s|
    ensures |ReplaceChar(s, old_, new_)| == |s|
    ensures ReplaceChar(s, old_, new_)[i] == if s[i] == old_ then new_ else s[i]
  {
  }

  /** Cutting a prefix or suffix undoes adding it, and only then cuts anything. */
  lemma TrimsUndo(s: string, t: string)
    ensures TrimPrefix(t + s, t) == s && TrimSuffix(s + t, t) == s
    ensures TrimPrefix(s, t) == s || s == t + TrimPrefix(s, t)
    ensures TrimSuffix(s, t) == s || s == TrimSuffix(s, t) + t
    ensures HasPrefix(s, t) <==> exists rest :: s == t + rest
    ensures HasSuffix(s, t) <==> exists rest :: s == rest + t
  {
    assert (t + s)[..|t|] == t && (t + s)[|t|..] == s;
    assert (s + t)[|s|..] == t && (s + t)[..|s|] == s;
    if HasPrefix(s, t) {
      assert s == t + s[|t|..];
    }
    if HasSuffix(s, t) {
      assert s == s[..|s| - |t|] + t;
    }
    if rest :| s == t + rest {
      assert s[..|t|] == t;
    }
    if rest :| s == rest + t {
      assert s[|s| - |t|..] == t;
    }
  }

  /** strings.Split for a one-character separator. */
  function Split(s: string, sep: char): (parts: seq<string>)
    ensures |parts| >= 1
    ensures forall i :: 0 <= i < |parts| ==> sep !in parts[i]
  {
    if s == "" then [""] else Grow(s[0], Split(s[1..], sep), sep)
  }

  /** The parts when one more character comes in front. */
  function Grow(c: char, parts: seq<string>, sep: char): (r: seq<string>)
    requires parts != []
    ensures r != []
  {
    if c == sep then [""] + parts else [[c] + parts[0]] + parts[1..]
  }

  /** strings.Join for a one-character separator. */
  function Join(parts: seq<string>, sep: char): string {
    if parts == [] then ""
    else if |parts| == 1 then parts[0]
    else parts[0] + [sep] + Join(parts[1..], sep)
  }

  /** Joining undoes splitting. */
  lemma {:induction false} JoinSplit(s: string, sep: char)
    ensures Join(Split(s, sep), sep) == s
  {
    if s != "" {
      JoinSplit(s[1..], sep);
      JoinGrow(s[0], Split(s[1..], sep), sep);
      assert [s[0]] + s[1..] == s;
    }
  }

  lemma JoinGrow(c: char, parts: seq<string>, sep: char)
    requires parts != []
    ensures Join(Grow(c, parts, sep), sep) == [c] + Join(parts, sep)
  {
    if c == sep {
      JoinFront("", parts, sep);
      assert "" + [sep] + Join(parts, sep) == [c] + Join(parts, sep);
    } else if |parts| > 1 {
      JoinFront([c] + parts[0], parts[1..], sep);
      JoinFront(parts[0], parts[1..], sep);
      assert parts == [parts[0]] + parts[1..];
      assert [c] + parts[0] + [sep] + Join(parts[1..], sep) == [c] + (parts[0] + [sep] + Join(parts[1..], sep));
    } else {
      assert [[c] + parts[0]] + parts[1..] == [[c] + parts[0]];
    }
  }

  lemma JoinFront(first: string, rest: seq<string>, sep: char)
    requires rest != []
    ensures Join([first] + rest, sep) == first + [sep] + Join(rest, sep)
  {
    assert ([first] + rest)[1..] == rest;
  }

  /** A string without the separator is its own only part. */
  lemma {:induction false} SplitAtom(s: string, sep: char)
    requires sep !in s
    ensures Split(s, sep) == [s]
  {
    if s != "" {
      SplitAtom(s[1..], sep);
      assert [s[0]] + s[1..] == s;
    }
  }

  lemma SplitCons(c: char, s: string, sep: char)
    ensures Split([c] + s, sep) == Grow(c, Split(s, sep), sep)
  {
    assert ([c] + s)[1..] == s;
  }

  lemma GrowAdds(c: char, parts: seq<string>, more: seq<string>, sep: char)
    requires parts != []
    ensures Grow(c, parts + more, sep) == Grow(c, parts, sep) + more
  {
    assert (parts + more)[0] == parts[0] && (parts + more)[1..] == parts[1..] + more;
  }

  /** Splitting distributes over concatenation at a separator. */
  lemma {:induction false} SplitConcat(a: string, b: string, sep: char)
    ensures Split(a + [sep] + b, sep) == Split(a, sep) + Split(b, sep)
  {
    if a == "" {
      assert a + [sep] + b == [sep] + b;
      SplitCons(sep, b, sep);
    } else {
      var c, rest := a[0], a[1..];
      SplitConcat(rest, b, sep);
      SplitCons(c, rest, sep);
      SplitCons(c, rest + [sep] + b, sep);
      GrowAdds(c, Split(rest, sep), Split(b, sep), sep);
      assert [c] + rest == a;
      assert [c] + (rest + [sep] + b) == a + [sep] + b;
    }
  }

  /** Split undoes Join on separator-free parts, so Join is injective on them. */
  lemma {:induction false} SplitJoin(parts: seq<string>, sep: char)
    requires parts != []
    requires forall i :: 0 <= i < |parts| ==> sep !in parts[i]
    ensures Split(Join(parts, sep), sep) == parts
  {
    SplitAtom(parts[0], sep);
    if |parts| > 1 {
      SplitJoin(parts[1..], sep);
      SplitConcat(parts[0], Join(parts[1..], sep), sep);
    }
  }

  lemma {:induction false} JoinConcat(a: seq<string>, b: seq<string>, sep: char)
    requires a != [] && b != []
    ensures Join(a + b, sep) == Join(a, sep) + [sep] + Join(b, sep)
  {
    if |a| > 1 {
      JoinConcat(a[1..], b, sep);
      assert (a + b)[1..] == a[1..] + b;
    } else {
      assert (a + b)[1..] == b;
    }
  }

  lemma Regroup(x: string, y: string, z: string, b: string)
    ensures (x + y + z) + b == x + y + (z + b)
  {
  }
}
