/** Go's `path` and `path/filepath` (Unix form), as the request-path code uses them. */
module GoPath {
  import opened Strings

  predicate Rooted(p: string) {
    p != "" && p[0] == '/'
  }

  /** One element of a path applied to the stack of elements kept so far. */
  function Push(rooted: bool, st: seq<string>, elem: string): seq<string> {
    if elem == "" || elem == "." then st
    else if elem != ".." then st + [elem]
    else if st != [] && st[|st| - 1] != ".." then st[..|st| - 1]
    else if rooted then st
    else st + [".."]
  }

  function Reduce(rooted: bool, st: seq<string>, elems: seq<string>): seq<string>
    decreases |elems|
  {
    if elems == [] then st else Reduce(rooted, Push(rooted, st, elems[0]), elems[1..])
  }

  function Print(rooted: bool, st: seq<string>): string {
    if rooted then "/" + Join(st, '/')
    else if st == [] then "."
    else Join(st, '/')
  }

  /** The elements that survive path.Clean. */
  function CleanElems(p: string): seq<string> {
    Reduce(Rooted(p), [], Split(p, '/'))
  }

  /** path.Clean and, on Unix, filepath.Clean. */
  function Clean(p: string): string {
    Print(Rooted(p), CleanElems(p))
  }

  /** filepath.Join of two elements. */
  function JoinPath(a: string, b: string): string {
    if a != "" then Clean(a + "/" + b)
    else if b != "" then Clean(b)
    else ""
  }

  /** fs.ValidPath, without its test for valid UTF-8. */
  predicate ValidPath(p: string) {
    p == "." || forall i :: 0 <= i < |Split(p, '/')| ==> Normal(Split(p, '/')[i])
  }

  /** filepath.Localize on Unix. */
  function Localize(p: string): Option<string> {
    if ValidPath(p) && '\0' !in p then Some(p) else None
  }

  function Elems(p: string): seq<string> {
    var q := TrimPrefix(p, "/");
    if q == "" then [] else Split(q, '/')
  }

  /** filepath.Rel on Unix. */
  function Rel(basepath: string, targpath: string): Option<string> {
    var base := Clean(basepath);
    var targ := Clean(targpath);
    if targ == base then Some(".")
    else
      var base' := if base == "." then "" else base;
      if Rooted(base') != Rooted(targ) then None
      else RelElems(Elems(base'), Elems(targ))
  }

  function RelElems(base: seq<string>, targ: seq<string>): Option<string> {
    if base != [] && targ != [] && base[0] == targ[0] then RelElems(base[1..], targ[1..])
    else if base != [] && targ != [] && base[0] == ".." then None
    else Some(Join(seq(|base|, _ => "..") + targ, '/'))
  }

  /** The test by which both callers reject the answer of filepath.Rel. */
  predicate Escapes(rel: Option<string>) {
    rel.None? || rel.value == ".." || HasPrefix(rel.value, "../")
  }

  /** An ordinary path element: it names exactly one directory entry. */
  predicate Normal(elem: string) {
    elem != "" && elem != "." && elem != ".." && '/' !in elem
  }

  ghost predicate AllNormal(elems: seq<string>) {
    forall i :: 0 <= i < |elems| ==> Normal(elems[i])
  }

  /** What path.Clean leaves: ordinary elements, after leading ".." when the path is relative. */
  ghost predicate Reduced(rooted: bool, st: seq<string>) {
    && (forall i :: 0 <= i < |st| ==> Normal(st[i]) || (st[i] == ".." && !rooted))
    && (forall i, j :: 0 <= i < j < |st| && st[j] == ".." ==> st[i] == "..")
  }

  lemma {:induction false} ReduceIsReduced(rooted: bool, st: seq<string>, elems: seq<string>)
    requires Reduced(rooted, st)
    requires forall i :: 0 <= i < |elems| ==> '/' !in elems[i]
    ensures Reduced(rooted, Reduce(rooted, st, elems))
    decreases |elems|
  {
    if elems != [] {
      ReduceIsReduced(rooted, Push(rooted, st, elems[0]), elems[1..]);
    }
  }

  lemma {:induction false} ReduceConcat(rooted: bool, st: seq<string>, a: seq<string>, b: seq<string>)
    ensures Reduce(rooted, st, a + b) == Reduce(rooted, Reduce(rooted, st, a), b)
    decreases |a|
  {
    if a == [] {
      assert a + b == b;
    } else {
      assert (a + b)[1..] == a[1..] + b;
      ReduceConcat(rooted, Push(rooted, st, a[0]), a[1..], b);
    }
  }

  /** Elements that are already reduced are only appended. */
  lemma {:induction false} ReduceAppends(rooted: bool, st: seq<string>, elems: seq<string>)
    requires Reduced(rooted, st + elems)
    ensures Reduce(rooted, st, elems) == st + elems
    decreases |elems|
  {
    if elems == [] {
      assert st + elems == st;
    } else {
      var whole := st + elems;
      assert elems[0] == whole[|st|];
      assert st == [] || st[|st| - 1] == whole[|st| - 1];
      assert st + elems == (st + [elems[0]]) + elems[1..];
      ReduceAppends(rooted, st + [elems[0]], elems[1..]);
    }
  }

  lemma ReduceSkips(rooted: bool, st: seq<string>, elems: seq<string>)
    ensures Reduce(rooted, st, [""] + elems) == Reduce(rooted, st, elems)
  {
    assert ([""] + elems)[1..] == elems;
  }

  lemma CleanElemsReduced(p: string)
    ensures Reduced(Rooted(p), CleanElems(p))
  {
    ReduceIsReduced(Rooted(p), [], Split(p, '/'));
  }

  lemma SplitOfJoined(st: seq<string>)
    requires forall i :: 0 <= i < |st| ==> '/' !in st[i]
    ensures Split(Join(st, '/'), '/') == if st == [] then [""] else st
  {
    if st != [] {
      SplitJoin(st, '/');
    }
  }

  lemma JoinStarts(st: seq<string>)
    requires st != [] && st[0] != ""
    ensures Join(st, '/') != "" && Join(st, '/')[0] == st[0][0]
  {
  }

  lemma RootedElems(rel: string)
    ensures CleanElems("/" + rel) == Reduce(true, [], Split(rel, '/'))
  {
    assert "/" + rel == "" + ['/'] + rel;
    SplitConcat("", rel, '/');
    ReduceSkips(true, [], Split(rel, '/'));
  }

  lemma RootedPrint(st: seq<string>)
    requires Reduced(true, st)
    ensures Rooted(Print(true, st)) && CleanElems(Print(true, st)) == st
  {
    RootedElems(Join(st, '/'));
    SplitOfJoined(st);
    if st == [] {
      ReduceSkips(true, [], []);
    } else {
      AppendsToNothing(true, st);
    }
  }

  lemma RelativePrint(st: seq<string>)
    requires Reduced(false, st) && st != []
    ensures !Rooted(Print(false, st)) && CleanElems(Print(false, st)) == st
  {
    SplitOfJoined(st);
    JoinStarts(st);
    AppendsToNothing(false, st);
  }

  lemma AppendsToNothing(rooted: bool, st: seq<string>)
    requires Reduced(rooted, st)
    ensures Reduce(rooted, [], st) == st
  {
    assert [] + st == st;
    ReduceAppends(rooted, [], st);
  }

  /** Printing and re-reading reduced elements gives them back. */
  lemma CleanElemsOfPrint(rooted: bool, st: seq<string>)
    requires Reduced(rooted, st)
    ensures Rooted(Print(rooted, st)) == rooted
    ensures CleanElems(Print(rooted, st)) == st
  {
    if rooted {
      RootedPrint(st);
    } else if st == [] {
      DotElems();
    } else {
      RelativePrint(st);
    }
  }

  lemma DotElems()
    ensures CleanElems(".") == []
  {
    SplitAtom(".", '/');
    assert ["."][1..] == [];
  }

  /** path.Clean is idempotent on every string. */
  lemma CleanIdempotent(p: string)
    ensures Clean(Clean(p)) == Clean(p)
  {
    CleanElemsReduced(p);
    CleanElemsOfPrint(Rooted(p), CleanElems(p));
  }

  // ---- The rules of path.Clean, over strings ----

  /** Splitting at an element in the middle. */
  lemma SplitMiddle(a: string, x: string, b: string)
    requires '/' !in x
    ensures Split(a + "/" + x + "/" + b, '/') == Split(a, '/') + ([x] + Split(b, '/'))
    ensures Split(a + "/" + b, '/') == Split(a, '/') + Split(b, '/')
    ensures Rooted(a + "/" + x + "/" + b) == Rooted(a + "/" + b)
  {
    assert a + "/" + x + "/" + b == a + ['/'] + (x + ['/'] + b);
    SplitConcat(a, x + ['/'] + b, '/');
    SplitConcat(x, b, '/');
    SplitAtom(x, '/');
    SplitConcat(a, b, '/');
  }

  /** An empty element or "." in the middle changes nothing. */
  lemma CleanDropsDot(a: string, x: string, b: string)
    requires x == "" || x == "."
    ensures Clean(a + "/" + x + "/" + b) == Clean(a + "/" + b)
  {
    var p, rooted := a + "/" + b, Rooted(a + "/" + b);
    SplitMiddle(a, x, b);
    ReduceConcat(rooted, [], Split(a, '/'), [x] + Split(b, '/'));
    ReduceConcat(rooted, [], Split(a, '/'), Split(b, '/'));
    ReduceOne(rooted, Reduce(rooted, [], Split(a, '/')), x, Split(b, '/'));
  }

  lemma ReduceOne(rooted: bool, st: seq<string>, x: string, rest: seq<string>)
    ensures Reduce(rooted, st, [x] + rest) == Reduce(rooted, Push(rooted, st, x), rest)
  {
    assert ([x] + rest)[1..] == rest;
  }

  /** ".." takes away the ordinary element before it, and no other. */
  lemma CleanUp(a: string, x: string, b: string)
    requires Normal(x)
    ensures Clean(a + "/" + x + "/../" + b) == Clean(a + "/" + b)
  {
    var rooted := Rooted(a + "/" + b);
    var rest := ".." + "/" + b;
    assert a + "/" + x + "/../" + b == a + "/" + x + "/" + rest;
    assert ".." + "/" + b == ".." + ['/'] + b;
    SplitMiddle(a, x, rest);
    SplitMiddle(a, x, b);
    SplitConcat("..", b, '/');
    SplitAtom("..", '/');
    assert Rooted(a + "/" + rest) == rooted;
    ReduceConcat(rooted, [], Split(a, '/'), [x] + ([".."] + Split(b, '/')));
    ReduceConcat(rooted, [], Split(a, '/'), Split(b, '/'));
    UpAgain(rooted, Reduce(rooted, [], Split(a, '/')), x, Split(b, '/'));
  }

  lemma UpAgain(rooted: bool, st: seq<string>, x: string, rest: seq<string>)
    requires Normal(x)
    ensures Reduce(rooted, st, [x] + ([".."] + rest)) == Reduce(rooted, st, rest)
  {
    ReduceOne(rooted, st, x, [".."] + rest);
    ReduceOne(rooted, st + [x], "..", rest);
    assert (st + [x])[..|st|] == st;
  }

  /** ".." at the root stays at the root. */
  lemma CleanAboveRoot(b: string)
    ensures Clean("/../" + b) == Clean("/" + b)
  {
    assert "/../" + b == "" + "/" + ".." + "/" + b;
    assert "/" + b == "" + "/" + b;
    SplitMiddle("", "..", b);
    SplitAtom("", '/');
    ReduceOne(true, [], "", [".."] + Split(b, '/'));
    ReduceOne(true, [], "..", Split(b, '/'));
    ReduceOne(true, [], "", Split(b, '/'));
  }

  /** A slash at the end is dropped, and the empty path is ".". */
  lemma CleanEnds(p: string)
    ensures p != "" ==> Clean(p + "/") == Clean(p)
    ensures Clean("") == "."
  {
    assert p + "/" == p + ['/'] + "";
    SplitConcat(p, "", '/');
    SplitAtom("", '/');
    ReduceConcat(Rooted(p), [], Split(p, '/'), [""]);
    ReduceOne(Rooted(p), CleanElems(p), "", []);
    ReduceOne(false, [], "", []);
    assert [""] + [] == [""];
  }

  /** Ordinary elements are left as they are, rooted or, after any number of "..", relative. */
  lemma CleanLeaves(ups: nat, elems: seq<string>)
    requires AllNormal(elems)
    ensures Clean("/" + Join(elems, '/')) == "/" + Join(elems, '/')
    ensures var p := seq(ups, _ => "..") + elems;
            p != [] ==> Clean(Join(p, '/')) == Join(p, '/')
  {
    RootedPrint(elems);
    var p := seq(ups, _ => "..") + elems;
    if p != [] {
      RelativePrint(p);
    }
  }

  /** Joining ordinary elements below a non-empty base appends them to the cleaned base. */
  lemma JoinAppends(base: string, elems: seq<string>)
    requires base != ""
    requires AllNormal(elems)
    ensures Reduced(Rooted(base), CleanElems(base) + elems)
    ensures JoinPath(base, Join(elems, '/')) == Print(Rooted(base), CleanElems(base) + elems)
  {
    var rel := Join(elems, '/');
    var p := base + "/" + rel;
    var st := CleanElems(base);
    CleanElemsReduced(base);
    SplitConcat(base, rel, '/');
    SplitOfJoined(elems);
    ReduceConcat(Rooted(base), [], Split(base, '/'), Split(rel, '/'));
    if elems == [] {
      assert st + elems == st;
    } else {
      ReduceAppends(Rooted(base), st, elems);
    }
  }

  lemma {:induction false} RelElemsBelow(base: seq<string>, rest: seq<string>)
    ensures RelElems(base, base + rest) == Some(Join(rest, '/'))
  {
    if base == [] {
      assert base + rest == rest;
      assert seq(0, _ => "..") + rest == rest;
    } else {
      assert (base + rest)[1..] == base[1..] + rest;
      RelElemsBelow(base[1..], rest);
    }
  }

  lemma ElemsOfPrint(rooted: bool, st: seq<string>)
    requires Reduced(rooted, st)
    requires rooted || st != []
    ensures Elems(Print(rooted, st)) == st
  {
    SplitOfJoined(st);
    if st != [] {
      JoinStarts(st);
    }
    assert rooted ==> Print(rooted, st)[1..] == Join(st, '/');
  }

  /** No join of ordinary elements starts by climbing out of its base. */
  lemma NormalDoesNotEscape(elems: seq<string>)
    requires AllNormal(elems) && elems != []
    ensures !Escapes(Some(Join(elems, '/')))
  {
    var rel := Join(elems, '/');
    SplitJoin(elems, '/');
    if HasPrefix(rel, "../") {
      assert rel == ".." + ['/'] + rel[3..];
      SplitConcat("..", rel[3..], '/');
      SplitAtom("..", '/');
    } else if rel == ".." {
      SplitAtom("..", '/');
    }
  }

  /** A path that extends another, both clean, is reached from it by the extension. */
  lemma RelOfPrints(base: string, targ: string, rooted: bool, st: seq<string>, elems: seq<string>)
    requires AllNormal(elems) && elems != []
    requires Reduced(rooted, st) && Reduced(rooted, st + elems)
    requires Clean(base) == Print(rooted, st) && Clean(targ) == Print(rooted, st + elems)
    ensures Rel(base, targ) == Some(Join(elems, '/'))
  {
    CleanElemsOfPrint(rooted, st);
    CleanElemsOfPrint(rooted, st + elems);
    ElemsOfPrint(rooted, st + elems);
    RelElemsBelow(st, elems);
    assert Clean(targ) != Clean(base);
    SplitAtom(".", '/');
    if st != [] || rooted {
      ElemsOfPrint(rooted, st);
      assert CleanElems(".") == [];
      assert Clean(base) != "." by {
        if rooted { assert Rooted(Clean(base)); }
      }
    }
  }

  /** The escape test accepts every join of ordinary elements below any base. */
  lemma RelBelowBase(base: string, elems: seq<string>)
    requires AllNormal(elems)
    ensures Rel(base, JoinPath(base, Join(elems, '/'))) == Some(if elems == [] then "." else Join(elems, '/'))
    ensures !Escapes(Rel(base, JoinPath(base, Join(elems, '/'))))
  {
    var st := CleanElems(base);
    var joined := JoinPath(base, Join(elems, '/'));
    CleanElemsReduced(base);
    if elems == [] {
      assert st + elems == st;
      JoinOfNothing(base);
    } else {
      NormalDoesNotEscape(elems);
      JoinPrints(base, elems);
      RelOfPrints(base, joined, Rooted(base), st, elems);
    }
  }

  /** What joining ordinary elements cleans to, below an empty base too. */
  lemma JoinPrints(base: string, elems: seq<string>)
    requires AllNormal(elems) && elems != []
    ensures Reduced(Rooted(base), CleanElems(base) + elems)
    ensures Clean(JoinPath(base, Join(elems, '/'))) == Print(Rooted(base), CleanElems(base) + elems)
  {
    if base == "" {
      JoinStarts(elems);
      CleanElemsOfPrint(false, elems);
      CleanIdempotent(Join(elems, '/'));
      assert CleanElems("") + elems == elems;
    } else {
      JoinAppends(base, elems);
      CleanElemsOfPrint(Rooted(base), CleanElems(base) + elems);
    }
  }

  lemma JoinOfNothing(base: string)
    ensures Clean(JoinPath(base, "")) == Clean(base)
  {
    if base != "" {
      JoinAppends(base, []);
      assert CleanElems(base) + [] == CleanElems(base);
      CleanIdempotent(base);
    }
  }
}

/** internal/server/static_handler.go: from a request path to a file below the site root. */
module StaticHandler {
  import opened Strings
  import opened GoPath

  datatype PathError = NoRoot | Hidden | NotLocal
  datatype LocalPath = Found(clean: string, full: string) | Refused(error: PathError)

  predicate IsHiddenName(name: string) {
    HasPrefix(name, ".") && name != ".well-known"
  }

  function StaticLocalPath(root: string, urlPath: string): LocalPath {
    if root == "" then Refused(NoRoot)
    else
      var slashed := ReplaceChar(urlPath, '\\', '/');
      var clean := Clean("/" + TrimPrefix(slashed, "/"));
      var rel := TrimPrefix(clean, "/");
      if rel == "" then Found(clean, root)
      else if exists i :: 0 <= i < |Split(rel, '/')| && IsHiddenName(Split(rel, '/')[i]) then Refused(Hidden)
      else
        match Localize(rel)
        case None => Refused(NotLocal)
        case Some(local) => Found(clean, JoinPath(root, local))
  }

  /** The elements a request path asks for, backslashes read as slashes. */
  function RequestElems(urlPath: string): seq<string> {
    CleanElems("/" + ReplaceChar(urlPath, '\\', '/'))
  }

  lemma RequestElemsNormal(urlPath: string)
    ensures AllNormal(RequestElems(urlPath))
  {
    CleanElemsReduced("/" + ReplaceChar(urlPath, '\\', '/'));
  }

  /** An extra slash in front of a rooted path changes none of its elements. */
  lemma LeadingSlash(p: string)
    ensures CleanElems("/" + TrimPrefix(p, "/")) == CleanElems("/" + p)
  {
    if HasPrefix(p, "/") {
      var q := p[1..];
      assert "/" + p == "" + ['/'] + ("/" + q);
      assert "/" + q == "" + ['/'] + q;
      SplitConcat("", "/" + q, '/');
      SplitConcat("", q, '/');
      ReduceConcat(true, [], [""], Split("/" + q, '/'));
    }
  }

  lemma TrimRooted(elems: seq<string>)
    requires AllNormal(elems)
    ensures TrimPrefix(Print(true, elems), "/") == Join(elems, '/')
    ensures (Join(elems, '/') == "") == (elems == [])
    ensures elems != [] ==> Split(Join(elems, '/'), '/') == elems
  {
    assert Print(true, elems)[1..] == Join(elems, '/');
    SplitOfJoined(elems);
    if elems != [] {
      JoinStarts(elems);
    }
  }

  lemma {:induction false} CharInJoin(parts: seq<string>, c: char)
    requires c != '/'
    ensures c in Join(parts, '/') <==> exists i :: 0 <= i < |parts| && c in parts[i]
  {
    if |parts| > 1 {
      CharInJoin(parts[1..], c);
      if c in Join(parts[1..], '/') {
        var i :| 0 <= i < |parts[1..]| && c in parts[1..][i];
        assert c in parts[i + 1];
      }
      forall i | 0 <= i < |parts| && c in parts[i] ensures c in Join(parts, '/') {
        assert i == 0 || parts[i] == parts[1..][i - 1];
      }
    } else if |parts| == 1 {
      assert c in Join(parts, '/') ==> c in parts[0];
    }
  }

  lemma LocalizeNormal(elems: seq<string>)
    requires AllNormal(elems) && elems != []
    ensures Localize(Join(elems, '/')) ==
            if exists i :: 0 <= i < |elems| && '\0' in elems[i] then None else Some(Join(elems, '/'))
  {
    SplitOfJoined(elems);
    CharInJoin(elems, '\0');
  }

  /** Exactly which requests are served and which file they name. */
  lemma StaticOutcome(root: string, urlPath: string)
    ensures var elems := RequestElems(urlPath);
            StaticLocalPath(root, urlPath) ==
            if root == "" then Refused(NoRoot)
            else if elems == [] then Found("/", root)
            else if exists i :: 0 <= i < |elems| && IsHiddenName(elems[i]) then Refused(Hidden)
            else if exists i :: 0 <= i < |elems| && '\0' in elems[i] then Refused(NotLocal)
            else Found(Print(true, elems), Print(Rooted(root), CleanElems(root) + elems))
  {
    var elems := RequestElems(urlPath);
    RequestElemsNormal(urlPath);
    LeadingSlash(ReplaceChar(urlPath, '\\', '/'));
    TrimRooted(elems);
    if root != "" && elems != [] {
      LocalizeNormal(elems);
      JoinAppends(root, elems);
    }
  }

  /** A served file is below the root, by ordinary, unhidden elements only, and cleaning is final. */
  lemma ServedIsContained(root: string, urlPath: string)
    requires StaticLocalPath(root, urlPath).Found?
    ensures var r := StaticLocalPath(root, urlPath);
            && Clean(r.clean) == r.clean
            && Rooted(r.full) == Rooted(root)
            && CleanElems(r.full) == CleanElems(root) + RequestElems(urlPath)
            && AllNormal(RequestElems(urlPath))
            && forall elem :: elem in RequestElems(urlPath) ==> !IsHiddenName(elem) && '\0' !in elem
  {
    var elems := RequestElems(urlPath);
    RequestElemsNormal(urlPath);
    StaticOutcome(root, urlPath);
    CleanElemsOfPrint(true, elems);
    CleanElemsReduced(root);
    if elems == [] {
      assert CleanElems(root) + elems == CleanElems(root);
      assert Print(true, elems) == "/";
    } else {
      JoinAppends(root, elems);
      CleanElemsOfPrint(Rooted(root), CleanElems(root) + elems);
    }
  }

  function Pow1024(e: nat): nat {
    if e == 0 then 1 else 1024 * Pow1024(e - 1)
  }

  /** The loop of formatSizeBytes: the divisor and the index into "KMGTPE". */
  method SizeUnit(b: int) returns (div: int, exp: nat)
    requires 1024 <= b < 0x8000_0000_0000_0000
    ensures div == Pow1024(exp + 1)
    ensures div <= b < 1024 * div
    ensures exp <= 5
  {
    div, exp := 1024, 0;
    var n := b / 1024;
    while n >= 1024
      invariant div == Pow1024(exp + 1)
      invariant n * div <= b < (n + 1) * div
      invariant n >= 1
      decreases n
    {
      assert (n / 1024) * 1024 <= n < (n / 1024 + 1) * 1024;
      ScaleDown(n, div, b);
      div := div * 1024;
      exp := exp + 1;
      n := n / 1024;
    }
    assert div <= n * div && (n + 1) * div <= 1024 * div by { ScaleBounds(n, div); }
    assert Pow1024(7) == 0x40_0000_0000_0000_0000;
    if exp >= 6 {
      PowGrows(7, exp + 1);
      assert false;
    }
  }

  lemma ScaleBounds(n: int, div: nat)
    requires 1 <= n < 1024
    ensures div <= n * div && (n + 1) * div <= 1024 * div
  {
    assert (n - 1) * div >= 0;
    assert (1023 - n) * div >= 0;
  }

  lemma ScaleDown(n: int, div: nat, b: int)
    requires n * div <= b < (n + 1) * div && n >= 0
    ensures (n / 1024) * (div * 1024) <= b < (n / 1024 + 1) * (div * 1024)
  {
    var q := n / 1024;
    MulMonotone(q * 1024, n, div);
    MulMonotone(n + 1, (q + 1) * 1024, div);
    MulSwap(q, div);
    MulSwap(q + 1, div);
  }

  lemma MulMonotone(a: int, b: int, d: nat)
    requires a <= b
    ensures a * d <= b * d
  {
    assert (b - a) * d >= 0;
  }

  lemma MulSwap(a: int, d: int)
    ensures a * (d * 1024) == (a * 1024) * d
  {
  }

  lemma {:induction false} PowGrows(a: nat, b: nat)
    requires a <= b
    ensures Pow1024(a) <= Pow1024(b)
    decreases b
  {
    if a < b {
      PowGrows(a, b - 1);
    }
  }
}

/** internal/config/paths.go: domain validation and joins below a base directory. */
module ConfigPaths {
  import opened Strings
  import opened GoPath

  datatype PathResult = Ok(path: string) | Err

  function SafeJoin(base: string, rel: string): PathResult {
    var cleanRel := TrimPrefix(Clean("/" + ReplaceChar(rel, '\\', '/')), "/");
    var joined := JoinPath(base, cleanRel);
    if Escapes(Rel(base, joined)) then Err else Ok(joined)
  }

  predicate LabelChar(c: char) {
    'a' <= c <= 'z' || 'A' <= c <= 'Z' || '0' <= c <= '9' || c == '-' || c == '_' || c == '*'
  }

  lemma LabelCharIff(c: char)
    ensures LabelChar(c) <==> c in UPPER || c in LOWER || c in "0123456789-_*"
  {
    Letters(c);
    if '0' <= c <= '9' {
      assert "0123456789-_*"[c as int - 48] == c;
    }
    assert "0123456789-_*"[10] == '-' && "0123456789-_*"[11] == '_' && "0123456789-_*"[12] == '*';
  }

  predicate ContainsDotDot(s: string) {
    exists i :: 0 <= i < |s| - 1 && s[i] == '.' && s[i + 1] == '.'
  }

  predicate ValidateDomain(domain: string) {
    && domain != ""
    && |domain| <= 253
    && '/' !in domain && '\\' !in domain && '\0' !in domain
    && !ContainsDotDot(domain)
    && forall i :: 0 <= i < |Split(domain, '.')| ==> forall c :: c in Split(domain, '.')[i] ==> LabelChar(c)
  }

  function SiteConfigPath(configDir: string, domain: string): PathResult {
    if ValidateDomain(domain) then SafeJoin(configDir, domain + ".json") else Err
  }

  /** Every character of a string is a separator or belongs to one of its parts. */
  lemma {:induction false} SplitChars(s: string, sep: char)
    ensures forall c :: c in s && c != sep ==> exists i :: 0 <= i < |Split(s, sep)| && c in Split(s, sep)[i]
    ensures forall i, c :: 0 <= i < |Split(s, sep)| && c in Split(s, sep)[i] ==> c in s
  {
    if s != "" {
      SplitChars(s[1..], sep);
      var rest := Split(s[1..], sep);
      var parts := Split(s, sep);
      forall c | c in s && c != sep ensures exists i :: 0 <= i < |parts| && c in parts[i] {
        if c == s[0] {
          assert c in parts[0];
        } else {
          assert c in s[1..];
          var i :| 0 <= i < |rest| && c in rest[i];
          assert c in parts[if s[0] == sep then i + 1 else i];
        }
      }
      forall i, c | 0 <= i < |parts| && c in parts[i] ensures c in s {
        if c != s[0] {
          assert c in rest[if s[0] == sep then i - 1 else i];
          assert c in s[1..];
        }
      }
    }
  }

  /** What the scan over the labels accepts, said of the characters. */
  lemma ValidateDomainIff(domain: string)
    ensures ValidateDomain(domain) <==>
            && 0 < |domain| <= 253
            && !ContainsDotDot(domain)
            && forall c :: c in domain ==> c == '.' || LabelChar(c)
  {
    SplitChars(domain, '.');
    var parts := Split(domain, '.');
    if ValidateDomain(domain) {
      forall c | c in domain ensures c == '.' || LabelChar(c) {
        if c != '.' {
          var i :| 0 <= i < |parts| && c in parts[i];
        }
      }
    }
    if forall c :: c in domain ==> c == '.' || LabelChar(c) {
      forall i, c | 0 <= i < |parts| && c in parts[i] ensures LabelChar(c) {
      }
    }
  }

  /** SafeJoin never rejects: it clamps every path, and the result lies below the base. */
  lemma SafeJoinClamps(base: string, rel: string)
    ensures var elems := CleanElems("/" + ReplaceChar(rel, '\\', '/'));
            && AllNormal(elems)
            && SafeJoin(base, rel) == Ok(JoinPath(base, Join(elems, '/')))
            && (base != "" ==>
                  && SafeJoin(base, rel) == Ok(Print(Rooted(base), CleanElems(base) + elems))
                  && CleanElems(SafeJoin(base, rel).path) == CleanElems(base) + elems)
  {
    var slashed := "/" + ReplaceChar(rel, '\\', '/');
    var elems := CleanElems(slashed);
    CleanElemsReduced(slashed);
    assert Print(true, elems)[1..] == Join(elems, '/');
    RelBelowBase(base, elems);
    if base != "" {
      JoinAppends(base, elems);
      CleanElemsOfPrint(Rooted(base), CleanElems(base) + elems);
    }
  }

  lemma ConfigNameIsOneElement(domain: string)
    requires ValidateDomain(domain)
    ensures CleanElems("/" + ReplaceChar(domain + ".json", '\\', '/')) == [domain + ".json"]
    ensures Normal(domain + ".json")
  {
    var name := domain + ".json";
    assert ReplaceChar(name, '\\', '/') == name;
    assert '/' !in name;
    assert "/" + name == Print(true, [name]);
    assert Normal(name);
    CleanElemsOfPrint(true, [name]);
  }

  /** Dots at the ends are accepted, whatever the comment on empty labels says. */
  lemma DotsAtEndsAccepted(host: string)
    requires 0 < |host| <= 252 && forall c :: c in host ==> LabelChar(c)
    ensures ValidateDomain("." + host) && ValidateDomain(host + ".")
  {
    assert !LabelChar('.');
    forall i | 0 <= i < |host|
      ensures host[i] != '.'
    {
      assert host[i] in host;
    }
    ValidateDomainIff("." + host);
    ValidateDomainIff(host + ".");
  }

  lemma LeadingDotAccepted()
    ensures ValidateDomain(".a")
  {
    DotsAtEndsAccepted("a");
    assert "." + "a" == ".a";
  }

  /** A site's configuration file is a direct child of the directory, and no two domains share one. */
  lemma SiteConfigFiles(configDir: string, d1: string, d2: string)
    requires configDir != ""
    ensures SiteConfigPath(configDir, d1) ==
            if ValidateDomain(d1) then Ok(Print(Rooted(configDir), CleanElems(configDir) + [d1 + ".json"])) else Err
    ensures SiteConfigPath(configDir, d1).Ok? && SiteConfigPath(configDir, d1) == SiteConfigPath(configDir, d2) ==>
            d1 == d2
  {
    SafeJoinClamps(configDir, d1 + ".json");
    SafeJoinClamps(configDir, d2 + ".json");
    if ValidateDomain(d1) {
      ConfigNameIsOneElement(d1);
      if ValidateDomain(d2) {
        ConfigNameIsOneElement(d2);
        var st := CleanElems(configDir);
        if SiteConfigPath(configDir, d1) == SiteConfigPath(configDir, d2) {
          assert (st + [d1 + ".json"])[|st|] == (st + [d2 + ".json"])[|st|];
          assert (d1 + ".json")[..|d1|] == d1 && (d2 + ".json")[..|d2|] == d2;
        }
      }
    }
  }
}

/** plugins/php.go: the script below the document root. */
module PhpPaths {
  import opened Strings
  import opened GoPath

  datatype ScriptPath = Script(path: string) | Rejected

  /** The cleaning HandleRequest applies before phpScriptPath. */
  function PhpCleanPath(urlPath: string): string {
    Clean("/" + ReplaceChar(urlPath, '\\', '/'))
  }

  function PhpScriptPath(root: string, cleanPath: string): ScriptPath {
    var rel := TrimPrefix(cleanPath, "/");
    if rel == "" then Script(root)
    else
      match Localize(rel)
      case None => Rejected
      case Some(local) =>
        var joined := JoinPath(root, local);
        if Escapes(Rel(root, joined)) then Rejected else Script(joined)
  }
}

/** The three normalisers, compared on every request and every root. */
module PathAgreement {
  import opened Strings
  import opened GoPath
  import opened StaticHandler
  import opened ConfigPaths
  import opened PhpPaths

  /** phpScriptPath rejects a cleaned request only for a NUL; its escape test never fires. */
  lemma PhpOutcome(root: string, urlPath: string)
    requires root != ""
    ensures var elems := RequestElems(urlPath);
            PhpScriptPath(root, PhpCleanPath(urlPath)) ==
            if elems == [] then Script(root)
            else if exists i :: 0 <= i < |elems| && '\0' in elems[i] then Rejected
            else Script(Print(Rooted(root), CleanElems(root) + elems))
  {
    var elems := RequestElems(urlPath);
    RequestElemsNormal(urlPath);
    TrimRooted(elems);
    if elems != [] {
      LocalizeNormal(elems);
      JoinAppends(root, elems);
      RelBelowBase(root, elems);
    }
  }

  /** Whatever the static handler serves, the other two resolve to the same file. For the root
      itself SafeJoin alone cleans, so there the three agree exactly when the root is clean. */
  lemma NormalisersAgree(root: string, urlPath: string)
    requires StaticLocalPath(root, urlPath).Found?
    ensures var r := StaticLocalPath(root, urlPath);
            && r.clean == PhpCleanPath(urlPath)
            && PhpScriptPath(root, r.clean) == Script(r.full)
            && (SafeJoin(root, urlPath) == Ok(r.full) <==> r.clean != "/" || Clean(root) == root)
  {
    var elems := RequestElems(urlPath);
    RequestElemsNormal(urlPath);
    StaticOutcome(root, urlPath);
    PhpOutcome(root, urlPath);
    SafeJoinClamps(root, urlPath);
    TrimRooted(elems);
    assert Print(true, []) == "/";
    assert CleanElems(root) + [] == CleanElems(root);
  }

  lemma {:induction false} ReduceKeepsOut(rooted: bool, st: seq<string>, elems: seq<string>, c: char)
    requires c != '.'
    requires forall i :: 0 <= i < |st| ==> c !in st[i]
    requires forall i :: 0 <= i < |elems| ==> c !in elems[i]
    ensures forall i :: 0 <= i < |Reduce(rooted, st, elems)| ==> c !in Reduce(rooted, st, elems)[i]
    decreases |elems|
  {
    if elems != [] {
      ReduceKeepsOut(rooted, Push(rooted, st, elems[0]), elems[1..], c);
    }
  }

  lemma NoBackslashLeft(urlPath: string)
    ensures '\\' !in PhpCleanPath(urlPath)
  {
    var p := "/" + ReplaceChar(urlPath, '\\', '/');
    assert '\\' !in p;
    SplitChars(p, '/');
    ReduceKeepsOut(true, [], Split(p, '/'), '\\');
    CharInJoin(CleanElems(p), '\\');
  }

  /** A cleaned request asks for the same elements as the request. */
  lemma CleanAsksTheSame(urlPath: string)
    ensures PhpCleanPath(urlPath) == Print(true, RequestElems(urlPath))
    ensures RequestElems(PhpCleanPath(urlPath)) == RequestElems(urlPath)
  {
    var clean := PhpCleanPath(urlPath);
    RequestElemsNormal(urlPath);
    NoBackslashLeft(urlPath);
    assert ReplaceChar(clean, '\\', '/') == clean;
    assert clean == Print(true, RequestElems(urlPath));
    CleanElemsOfPrint(true, RequestElems(urlPath));
    LeadingSlash(clean);
    assert clean[0] == '/';
    assert "/" + TrimPrefix(clean, "/") == clean;
  }

  /** Asking again for the cleaned path gives the same answer, so cleaning is final. */
  lemma CleanPathIsStable(root: string, urlPath: string)
    requires StaticLocalPath(root, urlPath).Found?
    ensures StaticLocalPath(root, StaticLocalPath(root, urlPath).clean) == StaticLocalPath(root, urlPath)
  {
    StaticOutcome(root, urlPath);
    CleanAsksTheSame(urlPath);
    StaticOutcome(root, PhpCleanPath(urlPath));
    assert Print(true, []) == "/";
  }

  /** A root written with a slash at its end: for a request of the root the three disagree. */
  lemma SlashedRootDisagrees(root: string)
    requires root != "" && root[|root| - 1] == '/' && CleanElems(root) != []
    ensures StaticLocalPath(root, "/") == Found("/", root)
    ensures PhpScriptPath(root, PhpCleanPath("/")) == Script(root)
    ensures SafeJoin(root, "/") != Ok(root)
  {
    ReadsNothing();
    StaticOutcome(root, "/");
    PhpOutcome(root, "/");
    SafeJoinClamps(root, "/");
    CleanElemsReduced(root);
    assert CleanElems(root) + [] == CleanElems(root);
    PrintHasNoSlashAtEnd(Rooted(root), CleanElems(root));
  }

  lemma SrvDisagrees()
    ensures SafeJoin("/srv/", "/") != Ok("/srv/") && StaticLocalPath("/srv/", "/") == Found("/", "/srv/")
  {
    NotTheRoot();
    SlashedRootDisagrees("/srv/");
  }

  lemma ReadsNothing()
    ensures RequestElems("/") == []
  {
    assert ReplaceChar("/", '\\', '/') == "/";
    assert "/" + "/" == "/" + ("/" + "");
    RootedElems("/");
    RootedElems("");
    LeadingSlash("/");
    assert TrimPrefix("/", "/") == "";
    SplitAtom("", '/');
    ReduceSkips(true, [], []);
  }

  lemma NotTheRoot()
    ensures CleanElems("/srv/") == ["srv"]
  {
    assert "/srv/" == "/" + "srv/";
    RootedElems("srv/");
    assert "srv/" == "srv" + ['/'] + "";
    SplitConcat("srv", "", '/');
    SplitAtom("srv", '/');
    SplitAtom("", '/');
    assert Split("srv/", '/') == ["srv", ""];
    assert ["srv", ""][1..] == [""] && [""][1..] == [];
    assert Push(true, [], "srv") == ["srv"];
    assert Push(true, ["srv"], "") == ["srv"];
  }

  lemma PrintHasNoSlashAtEnd(rooted: bool, st: seq<string>)
    requires Reduced(rooted, st) && st != []
    ensures Print(rooted, st) != "" && Print(rooted, st)[|Print(rooted, st)| - 1] != '/'
  {
    JoinEnds(st);
  }

  lemma {:induction false} JoinEnds(st: seq<string>)
    requires st != [] && forall i :: 0 <= i < |st| ==> st[i] != "" && '/' !in st[i]
    ensures Join(st, '/') != "" && Join(st, '/')[|Join(st, '/')| - 1] != '/'
  {
    if |st| > 1 {
      JoinEnds(st[1..]);
    }
  }

  // ---- What a request means, over strings ----

  /** A directory entered and left again is not there, for all three. */
  lemma UpIsForgotten(root: string, a: string, x: string, b: string)
    requires Normal(x) && '\\' !in x
    ensures var with, without := a + "/" + x + "/../" + b, a + "/" + b;
            && StaticLocalPath(root, with) == StaticLocalPath(root, without)
            && SafeJoin(root, with) == SafeJoin(root, without)
            && PhpScriptPath(root, PhpCleanPath(with)) == PhpScriptPath(root, PhpCleanPath(without))
  {
    var with, without := a + "/" + x + "/../" + b, a + "/" + b;
    var a', b' := ReplaceChar(a, '\\', '/'), ReplaceChar(b, '\\', '/');
    assert "/" + ReplaceChar(with, '\\', '/') == ("/" + a') + "/" + x + "/../" + b';
    assert "/" + ReplaceChar(without, '\\', '/') == ("/" + a') + "/" + b';
    CleanUp("/" + a', x, b');
    assert PhpCleanPath(with) == PhpCleanPath(without);
    SameCleanSameFile(root, with, without);
  }

  /** Only the cleaned request matters. */
  lemma SameCleanSameFile(root: string, p: string, q: string)
    requires PhpCleanPath(p) == PhpCleanPath(q)
    ensures StaticLocalPath(root, p) == StaticLocalPath(root, q) && SafeJoin(root, p) == SafeJoin(root, q)
  {
    CleanAsksTheSame(p);
    CleanAsksTheSame(q);
    RequestElemsNormal(p);
    RequestElemsNormal(q);
    RootedPrint(RequestElems(p));
    RootedPrint(RequestElems(q));
    StaticOutcome(root, p);
    StaticOutcome(root, q);
    SafeJoinClamps(root, p);
    SafeJoinClamps(root, q);
  }

  /** Below a clean root the served file is the root followed by the cleaned request. */
  lemma ServedIsRootAndRequest(root: string, urlPath: string)
    requires Clean(root) == root && root != "/" && root != "."
    requires StaticLocalPath(root, urlPath).Found? && StaticLocalPath(root, urlPath).clean != "/"
    ensures StaticLocalPath(root, urlPath).clean == Clean("/" + ReplaceChar(urlPath, '\\', '/'))
    ensures StaticLocalPath(root, urlPath).full == root + StaticLocalPath(root, urlPath).clean
  {
    var elems, st := RequestElems(urlPath), CleanElems(root);
    StaticOutcome(root, urlPath);
    CleanElemsReduced(root);
    assert Print(true, []) == "/";
    assert elems != [] && st != [];
    JoinConcat(st, elems, '/');
    PrintAppends(Rooted(root), st, elems);
  }

  lemma PrintAppends(rooted: bool, st: seq<string>, elems: seq<string>)
    requires st != [] && elems != []
    ensures Print(rooted, st + elems) == Print(rooted, st) + Print(true, elems)
  {
    JoinConcat(st, elems, '/');
  }

  /** A file that exists only under an ordinary name is refused exactly when a part of the cleaned request starts with a
      dot, ".well-known" excepted. */
  lemma RefusedAsHiddenIff(root: string, elems: seq<string>)
    requires root != "" && AllNormal(elems) && forall i :: 0 <= i < |elems| ==> '\\' !in elems[i]
    ensures StaticLocalPath(root, "/" + Join(elems, '/')) == Refused(Hidden) <==>
            exists i :: 0 <= i < |elems| && elems[i][0] == '.' && elems[i] != ".well-known"
  {
    var url := "/" + Join(elems, '/');
    AsksItself(elems);
    StaticOutcome(root, url);
    forall i | 0 <= i < |elems|
      ensures IsHiddenName(elems[i]) <==> elems[i][0] == '.' && elems[i] != ".well-known"
    {
      HiddenByDot(elems[i]);
    }
    SomeHidden(elems);
  }

  lemma HiddenByDot(name: string)
    requires name != ""
    ensures IsHiddenName(name) <==> name[0] == '.' && name != ".well-known"
  {
    assert name[..1] == [name[0]];
  }

  lemma SomeHidden(elems: seq<string>)
    requires forall i :: 0 <= i < |elems| ==> elems[i] != ""
    requires forall i :: 0 <= i < |elems| ==>
               (IsHiddenName(elems[i]) <==> elems[i][0] == '.' && elems[i] != ".well-known")
    ensures (exists i :: 0 <= i < |elems| && IsHiddenName(elems[i])) <==>
            exists i :: 0 <= i < |elems| && elems[i][0] == '.' && elems[i] != ".well-known"
  {
  }

  lemma AsksItself(elems: seq<string>)
    requires AllNormal(elems) && forall i :: 0 <= i < |elems| ==> '\\' !in elems[i]
    ensures RequestElems("/" + Join(elems, '/')) == elems
  {
    var url := "/" + Join(elems, '/');
    CharInJoin(elems, '\\');
    assert ReplaceChar(url, '\\', '/') == url;
    LeadingSlash(url);
    assert TrimPrefix(url, "/") == Join(elems, '/');
    RootedPrint(elems);
  }
}
