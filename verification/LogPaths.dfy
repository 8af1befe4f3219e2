/** The path a log file is written under (internal/logger/rotating.go) and how the log explorer reads it
    back (internal/api/logs_explorer.go). */
module LogPaths {
  import opened Strings
  import opened GoPath
  import opened ConfigPaths
  import opened StaticHandler
  import opened PathAgreement
  import opened PhpPaths

  // ---- Decimal printing and parsing ----

  predicate IsDigit(c: char) {
    '0' <= c <= '9'
  }

  function DigitOf(n: nat): char
    requires n < 10
  {
    '0' + n as char
  }

  /** %d of a natural number. */
  function Digits(n: nat): string {
    if n < 10 then [DigitOf(n)] else Digits(n / 10) + [DigitOf(n % 10)]
  }

  /** Zero padding to a width. */
  function PadTo(s: string, width: nat): string
    decreases width - |s|
  {
    if |s| >= width then s else PadTo("0" + s, width)
  }

  function Value(s: string): nat
    requires forall i :: 0 <= i < |s| ==> IsDigit(s[i])
  {
    if s == "" then 0
    else
      assert IsDigit(s[|s| - 1]);
      10 * Value(s[..|s| - 1]) + (s[|s| - 1] as int - '0' as int)
  }

  /** strconv.Atoi on numbers that fit an int. */
  function Atoi(s: string): Option<int> {
    var unsigned := if s != "" && (s[0] == '-' || s[0] == '+') then s[1..] else s;
    if unsigned == "" || exists i :: 0 <= i < |unsigned| && !IsDigit(unsigned[i]) then None
    else
      var magnitude: int := Value(unsigned);
      Some(if s[0] == '-' then -magnitude else magnitude)
  }

  ghost predicate AllDigits(s: string) {
    s != "" && forall i :: 0 <= i < |s| ==> IsDigit(s[i])
  }

  lemma {:induction false} DigitsValue(n: nat)
    ensures AllDigits(Digits(n)) && Value(Digits(n)) == n
  {
    if n >= 10 {
      DigitsValue(n / 10);
      var s := Digits(n);
      assert s[..|s| - 1] == Digits(n / 10);
    } else {
      var s := Digits(n);
      assert s[..|s| - 1] == "";
    }
  }

  lemma {:induction false} LeadingZero(s: string)
    requires forall i :: 0 <= i < |s| ==> IsDigit(s[i])
    ensures forall i :: 0 <= i < |"0" + s| ==> IsDigit(("0" + s)[i])
    ensures Value("0" + s) == Value(s)
  {
    var z := "0" + s;
    if s == "" {
      assert z[..|z| - 1] == "";
    } else {
      LeadingZero(s[..|s| - 1]);
      assert z[..|z| - 1] == "0" + s[..|s| - 1];
    }
  }

  lemma {:induction false} PadValue(s: string, width: nat)
    requires AllDigits(s)
    ensures AllDigits(PadTo(s, width)) && Value(PadTo(s, width)) == Value(s)
    decreases width - |s|
  {
    if |s| < width {
      LeadingZero(s);
      PadValue("0" + s, width);
    }
  }

  function Padded(n: nat, width: nat): string {
    PadTo(Digits(n), width)
  }

  /** Printing, with or without padding, is undone by Atoi. */
  lemma AtoiPadded(n: nat, width: nat)
    ensures AllDigits(Padded(n, width)) && Value(Padded(n, width)) == n
    ensures Atoi(Padded(n, width)) == Some(n)
    ensures Normal(Padded(n, width)) && '-' !in Padded(n, width)
  {
    DigitsValue(n);
    PadValue(Digits(n), width);
    var s := Padded(n, width);
    assert IsDigit(s[0]);
  }

  /** Printing is decimal, without leading zeros but for padding. */
  lemma PrintsDecimal(n: nat, d: nat, width: nat)
    requires d < 10
    ensures Digits(d) == ["0123456789"[d]]
    ensures n > 0 ==> Digits(10 * n + d) == Digits(n) + ["0123456789"[d]]
    ensures exists zeros :: Padded(n, width) == zeros + Digits(n) && forall c :: c in zeros ==> c == '0'
    ensures |Padded(n, width)| == if |Digits(n)| >= width then |Digits(n)| else width
  {
    DigitChar(d);
    if n > 0 {
      assert (10 * n + d) / 10 == n && (10 * n + d) % 10 == d;
    }
    var zeros := PadsWithZeros(Digits(n), width);
    assert Padded(n, width) == zeros + Digits(n);
  }

  lemma DigitChar(d: nat)
    requires d < 10
    ensures DigitOf(d) == "0123456789"[d]
  {
  }

  lemma {:induction false} PadsWithZeros(s: string, width: nat) returns (zeros: string)
    ensures PadTo(s, width) == zeros + s && forall c :: c in zeros ==> c == '0'
    ensures |PadTo(s, width)| == if |s| >= width then |s| else width
    decreases width - |s|
  {
    if |s| >= width {
      zeros := "";
    } else {
      var more := PadsWithZeros("0" + s, width);
      zeros := more + "0";
      assert zeros + s == more + ("0" + s);
    }
  }

  // ---- The writer ----

  datatype Date = Date(year: nat, month: nat, day: nat)

  /** The rotating writer's name for one day's file. */
  function FileName(day: nat, plugin: string): string {
    if plugin == "" then Padded(day, 2) + ".log" else Padded(day, 2) + "-" + plugin + ".log"
  }

  function LogDir(logDir: string, identifier: string, date: Date): string {
    JoinPath(logDir, Join([identifier, Digits(date.year), Padded(date.month, 2)], '/'))
  }

  function LogPath(logDir: string, identifier: string, plugin: string, date: Date): string {
    JoinPath(LogDir(logDir, identifier, date), FileName(date.day, plugin))
  }

  function DayKey(date: Date): string {
    Padded(date.year, 4) + "-" + Padded(date.month, 2) + "-" + Padded(date.day, 2)
  }

  /** The key that decides rotation tells all days apart. */
  lemma DayKeyInjective(d1: Date, d2: Date)
    requires DayKey(d1) == DayKey(d2)
    ensures d1 == d2
  {
    KeyParts(d1);
    KeyParts(d2);
  }

  lemma KeyParts(d: Date)
    ensures Split(DayKey(d), '-') == [Padded(d.year, 4), Padded(d.month, 2), Padded(d.day, 2)]
    ensures Atoi(Padded(d.year, 4)) == Some(d.year) && Atoi(Padded(d.month, 2)) == Some(d.month) &&
            Atoi(Padded(d.day, 2)) == Some(d.day)
  {
    AtoiPadded(d.year, 4);
    AtoiPadded(d.month, 2);
    AtoiPadded(d.day, 2);
    var parts := [Padded(d.year, 4), Padded(d.month, 2), Padded(d.day, 2)];
    assert parts[1..] == [parts[1], parts[2]] && parts[1..][1..] == [parts[2]];
    assert Join([parts[2]], '-') == parts[2];
    assert Join([parts[1], parts[2]], '-') == parts[1] + ['-'] + parts[2];
    assert Join(parts, '-') == parts[0] + ['-'] + (parts[1] + ['-'] + parts[2]);
    Regroup(parts[0], ['-'], parts[1] + ['-'], parts[2]);
    assert parts[0] + "-" + (parts[1] + "-") == parts[0] + "-" + parts[1] + "-";
    SplitJoin(parts, '-');
  }

  class RotatingFileWriter {
    const logDir: string
    const identifier: string
    const plugin: string
    var file: Option<string>
    var curKey: string
    /** The disk: what has been appended to each file. */
    var files: map<string, seq<string>>
    /** The day the open file belongs to. */
    ghost var openedOn: Date

    ghost predicate Valid()
      reads this
    {
      file.Some? ==>
        && curKey == DayKey(openedOn)
        && file.value == LogPath(logDir, identifier, plugin, openedOn)
        && file.value in files
    }

    constructor (logDir: string, identifier: string, plugin: string, files: map<string, seq<string>>)
      ensures Valid() && file == None && this.files == files
      ensures this.logDir == logDir && this.identifier == identifier && this.plugin == plugin
    {
      this.logDir, this.identifier, this.plugin := logDir, identifier, plugin;
      file, curKey, this.files, openedOn := None, "", files, Date(0, 0, 0);
    }

    /** `opens` says whether the directory and file can be created. */
    method RotateIfNeeded(today: Date, opens: bool) returns (ok: bool)
      requires Valid()
      modifies this
      ensures Valid()
      ensures ok ==> file == Some(LogPath(logDir, identifier, plugin, today))
      ensures forall f :: f in old(files) ==> f in files && files[f] == old(files)[f]
      ensures forall f :: f in files && f !in old(files) ==> ok && Some(f) == file && files[f] == []
      ensures ok <==> opens || (old(file).Some? && old(curKey) == DayKey(today))
    {
      var key := DayKey(today);
      if file.Some? && key == curKey {
        DayKeyInjective(today, openedOn);
        return true;
      }
      if !opens {
        return false;
      }
      var path := LogPath(logDir, identifier, plugin, today);
      if path !in files {
        files := files[path := []];
      }
      file := Some(path);
      curKey := key;
      openedOn := today;
      return true;
    }

    /** Each line goes to the file of the day on which it is written. */
    method Write(today: Date, line: string, opens: bool) returns (ok: bool)
      requires Valid()
      modifies this
      ensures Valid()
      ensures ok ==>
                var path := LogPath(logDir, identifier, plugin, today);
                files == old(files)[path := (if path in old(files) then old(files)[path] else []) + [line]]
      ensures !ok ==> files == old(files)
      ensures ok <==> opens || (old(file).Some? && old(curKey) == DayKey(today))
    {
      ok := RotateIfNeeded(today, opens);
      if ok {
        files := files[file.value := files[file.value] + [line]];
      }
    }
  }

  // ---- The explorer ----

  datatype LogFileInfo = LogFileInfo(domain: string, plugin: string, year: int, month: int, day: int)

  /** The characters before the first dash, and those after it if there is one. */
  function CutAtDash(s: string): (string, string) {
    if s == "" then ("", "")
    else if s[0] == '-' then ("", s[1..])
    else var (a, b) := CutAtDash(s[1..]); ([s[0]] + a, b)
  }

  function ParseDayAndPlugin(fileName: string): (string, string) {
    CutAtDash(TrimSuffix(fileName, ".log"))
  }

  /** The name under which the explorer lists a file: its path relative to the log directory. */
  function ListedName(logDir: string, path: string): string {
    match Rel(logDir, path) case None => "" case Some(r) => r
  }

  /** How the walk reads one file's path; None for files it does not list. */
  function ParseLogPath(rootDir: string, path: string): Option<LogFileInfo> {
    var parts := Split(ListedName(rootDir, path), '/');
    if |parts| != 4 then None
    else
      var (dayStr, plugin) := ParseDayAndPlugin(parts[3]);
      match (Atoi(parts[1]), Atoi(parts[2]), Atoi(dayStr))
      case (Some(year), Some(month), Some(day)) => Some(LogFileInfo(parts[0], plugin, year, month, day))
      case _ => None
  }

  lemma {:induction false} CutAtFirstDash(a: string, b: string)
    requires '-' !in a
    ensures CutAtDash(a + "-" + b) == (a, b)
    ensures CutAtDash(a) == (a, "")
  {
    var s := a + "-" + b;
    if a == "" {
      assert s[1..] == b;
    } else {
      assert s[0] == a[0] && a == [a[0]] + a[1..];
      assert s[1..] == a[1..] + "-" + b;
      CutAtFirstDash(a[1..], b);
    }
  }

  /** A file name parses back to its day and plugin, dashes and inner ".log" included. */
  lemma FileNameParses(day: nat, plugin: string)
    requires '/' !in plugin
    ensures ParseDayAndPlugin(FileName(day, plugin)) == (Padded(day, 2), plugin)
    ensures Normal(FileName(day, plugin))
  {
    var d := Padded(day, 2);
    AtoiPadded(day, 2);
    CutAtFirstDash(d, plugin);
    var base := if plugin == "" then d else d + "-" + plugin;
    assert FileName(day, plugin) == base + ".log";
    assert TrimSuffix(base + ".log", ".log") == base;
    assert |FileName(day, plugin)| >= 5;
  }

  /** Joining one name to a cleaned path appends it. */
  lemma JoinName(rooted: bool, st: seq<string>, name: string)
    requires Reduced(rooted, st) && Normal(name)
    ensures JoinPath(Print(rooted, st), name) == Print(rooted, st + [name])
  {
    CleanElemsOfPrint(rooted, st);
    assert Print(rooted, st) != "" by {
      if st != [] && !rooted { JoinStarts(st); }
    }
    assert Join([name], '/') == name;
    JoinAppends(Print(rooted, st), [name]);
  }

  /** The directories of one day's file, and its name. */
  function DayElems(plugin: string, date: Date): seq<string> {
    [Digits(date.year), Padded(date.month, 2), FileName(date.day, plugin)]
  }

  lemma DayElemsNormal(plugin: string, date: Date)
    requires '/' !in plugin
    ensures AllNormal(DayElems(plugin, date))
    ensures var day := DayElems(plugin, date);
            '\\' !in day[0] && '\\' !in day[1] && ('\\' in day[2] <==> '\\' in plugin)
  {
    AtoiPadded(date.year, 0);
    AtoiPadded(date.month, 2);
    AtoiPadded(date.day, 2);
    FileNameParses(date.day, plugin);
    assert '\\' !in Padded(date.day, 2);
  }

  /** The elements of a site's log directory: the identifier's elements, applied as path cleaning applies them, so
      that "." adds none and ".." takes one away. */
  function SiteElems(logDir: string, identifier: string): seq<string> {
    Reduce(Rooted(logDir), CleanElems(logDir), Split(identifier, '/'))
  }

  lemma PlainSite(logDir: string, identifier: string)
    requires '/' !in identifier
    ensures SiteElems(logDir, identifier) == Push(Rooted(logDir), CleanElems(logDir), identifier)
  {
    SplitAtom(identifier, '/');
    var one := [identifier];
    assert one[1..] == [] && one[0] == identifier;
    assert SiteElems(logDir, identifier) == Reduce(Rooted(logDir), CleanElems(logDir), one);
  }

  lemma SiteElemsReduced(logDir: string, identifier: string, more: seq<string>)
    requires AllNormal(more)
    ensures Reduced(Rooted(logDir), SiteElems(logDir, identifier) + more)
  {
    CleanElemsReduced(logDir);
    ReduceIsReduced(Rooted(logDir), CleanElems(logDir), Split(identifier, '/'));
  }

  /** What filepath.Join makes of a directory and any relative path. */
  lemma JoinReduces(logDir: string, rel: string)
    requires logDir != ""
    ensures JoinPath(logDir, rel) == Print(Rooted(logDir), SiteElems(logDir, rel))
  {
    SplitConcat(logDir, rel, '/');
    ReduceConcat(Rooted(logDir), [], Split(logDir, '/'), Split(rel, '/'));
  }

  lemma LogDirPrints(logDir: string, identifier: string, date: Date)
    requires logDir != ""
    ensures LogDir(logDir, identifier, date) ==
            Print(Rooted(logDir), SiteElems(logDir, identifier) + [Digits(date.year), Padded(date.month, 2)])
  {
    var front := [Digits(date.year), Padded(date.month, 2)];
    AtoiPadded(date.year, 0);
    AtoiPadded(date.month, 2);
    var rel := Join([identifier] + front, '/');
    assert [identifier] + front == [identifier, Digits(date.year), Padded(date.month, 2)];
    assert ([identifier] + front)[1..] == front;
    JoinReduces(logDir, rel);
    SplitConcat(identifier, Join(front, '/'), '/');
    SplitJoin(front, '/');
    ReduceConcat(Rooted(logDir), CleanElems(logDir), Split(identifier, '/'), front);
    SiteElemsReduced(logDir, identifier, front);
    ReduceAppends(Rooted(logDir), SiteElems(logDir, identifier), front);
  }

  /** Where every file is written, for every identifier. */
  lemma LogPathPrints(logDir: string, identifier: string, plugin: string, date: Date)
    requires logDir != "" && '/' !in plugin
    ensures var elems := SiteElems(logDir, identifier) + DayElems(plugin, date);
            && Reduced(Rooted(logDir), elems)
            && LogPath(logDir, identifier, plugin, date) == Print(Rooted(logDir), elems)
            && Rooted(LogPath(logDir, identifier, plugin, date)) == Rooted(logDir)
            && CleanElems(LogPath(logDir, identifier, plugin, date)) == elems
  {
    var st := SiteElems(logDir, identifier);
    var front := [Digits(date.year), Padded(date.month, 2)];
    DayElemsNormal(plugin, date);
    assert front == DayElems(plugin, date)[..2];
    LogDirPrints(logDir, identifier, date);
    SiteElemsReduced(logDir, identifier, front);
    SiteElemsReduced(logDir, identifier, DayElems(plugin, date));
    assert Normal(DayElems(plugin, date)[2]);
    JoinName(Rooted(logDir), st + front, FileName(date.day, plugin));
    assert (st + front) + [FileName(date.day, plugin)] == st + DayElems(plugin, date);
    CleanElemsOfPrint(Rooted(logDir), st + DayElems(plugin, date));
  }

  // ---- Below the log directory ----

  /** What filepath.Walk over `base` can come to: `base` extended by ordinary names. */
  ghost predicate Below(base: string, path: string) {
    var st, elems := CleanElems(base), CleanElems(path);
    Rooted(path) == Rooted(base) && st <= elems && AllNormal(elems[|st|..])
  }

  lemma ListedBelow(base: string, path: string)
    requires Below(base, path)
    ensures var rest := CleanElems(path)[|CleanElems(base)|..];
            && CleanElems(path) == CleanElems(base) + rest
            && ListedName(base, path) == if rest == [] then "." else Join(rest, '/')
  {
    var st, elems := CleanElems(base), CleanElems(path);
    var rest := elems[|st|..];
    assert elems == st + rest;
    CleanElemsReduced(base);
    CleanElemsReduced(path);
    if rest != [] {
      RelOfPrints(base, path, Rooted(base), st, rest);
    } else {
      assert elems == st;
    }
  }

  /** The explorer reads only paths of exactly four elements. */
  lemma OtherDepthsAreSkipped(base: string, path: string)
    requires Below(base, path) && |CleanElems(path)| != |CleanElems(base)| + 4
    ensures ParseLogPath(base, path) == None
  {
    var rest := CleanElems(path)[|CleanElems(base)|..];
    ListedBelow(base, path);
    SplitOfJoined(rest);
    SplitAtom(".", '/');
  }

  /** Identifiers without a separator that are not ordinary names are no directory of their own: four elements never
      come out. */
  lemma OddIdentifiers(logDir: string, identifier: string, plugin: string, date: Date)
    requires logDir != "" && '/' !in identifier && '/' !in plugin && !Normal(identifier)
    ensures Below(logDir, LogPath(logDir, identifier, plugin, date)) ==>
              |CleanElems(LogPath(logDir, identifier, plugin, date))| != |CleanElems(logDir)| + 4
  {
    var st, day := CleanElems(logDir), DayElems(plugin, date);
    PlainSite(logDir, identifier);
    LogPathPrints(logDir, identifier, plugin, date);
    var elems := SiteElems(logDir, identifier) + day;
    assert identifier == "" || identifier == "." || identifier == "..";
    if |SiteElems(logDir, identifier)| == |st| + 1 {
      assert elems[|st|..][0] == "..";
    }
  }

  /** A file is listed under what it was written for if and only if its identifier is an ordinary name: not "", "." or
      "..", and without a separator. */
  lemma LogPathRoundTripIff(logDir: string, identifier: string, plugin: string, date: Date)
    requires logDir != "" && '/' !in plugin
    ensures var path := LogPath(logDir, identifier, plugin, date);
            Below(logDir, path)
            && ParseLogPath(logDir, path) == Some(LogFileInfo(identifier, plugin, date.year, date.month, date.day))
            <==> Normal(identifier)
  {
    var path := LogPath(logDir, identifier, plugin, date);
    if Normal(identifier) {
      OrdinaryIsBelow(logDir, identifier, plugin, date);
      LogPathRoundTrip(logDir, identifier, plugin, date);
    } else if '/' !in identifier && Below(logDir, path) {
      OddIdentifiers(logDir, identifier, plugin, date);
      OtherDepthsAreSkipped(logDir, path);
    } else {
      ListedDomains(logDir, path);
    }
  }

  /** No file is listed under a domain with a separator. */
  lemma ListedDomains(rootDir: string, path: string)
    ensures ParseLogPath(rootDir, path).Some? ==> '/' !in ParseLogPath(rootDir, path).value.domain
  {
  }

  lemma OrdinaryIsBelow(logDir: string, identifier: string, plugin: string, date: Date)
    requires logDir != "" && Normal(identifier) && '/' !in plugin
    ensures var path := LogPath(logDir, identifier, plugin, date);
            Below(logDir, path) && CleanElems(path)[|CleanElems(logDir)|..] == [identifier] + DayElems(plugin, date)
  {
    var st, day := CleanElems(logDir), DayElems(plugin, date);
    PlainSite(logDir, identifier);
    LogPathPrints(logDir, identifier, plugin, date);
    DayElemsNormal(plugin, date);
    assert st + [identifier] + day == st + ([identifier] + day);
  }

  lemma LogPathRoundTrip(logDir: string, identifier: string, plugin: string, date: Date)
    requires logDir != "" && Normal(identifier) && '/' !in plugin
    ensures ParseLogPath(logDir, LogPath(logDir, identifier, plugin, date)) ==
            Some(LogFileInfo(identifier, plugin, date.year, date.month, date.day))
  {
    var below := [identifier] + DayElems(plugin, date);
    OrdinaryIsBelow(logDir, identifier, plugin, date);
    ListedBelow(logDir, LogPath(logDir, identifier, plugin, date));
    DayElemsNormal(plugin, date);
    SplitJoin(below, '/');
    FileNameParses(date.day, plugin);
    AtoiPadded(date.year, 0);
    AtoiPadded(date.month, 2);
    AtoiPadded(date.day, 2);
  }

  /** The domain "." is valid and can be a site's identifier, but its log files, though below the log directory, are
      not listed. */
  lemma DotDomainIsNotListed(logDir: string, plugin: string, date: Date)
    requires logDir != "" && '/' !in plugin
    ensures ValidateDomain(".")
    ensures Below(logDir, LogPath(logDir, ".", plugin, date))
    ensures ParseLogPath(logDir, LogPath(logDir, ".", plugin, date)) == None
  {
    var st, day := CleanElems(logDir), DayElems(plugin, date);
    ValidateDomainIff(".");
    PlainSite(logDir, ".");
    LogPathPrints(logDir, ".", plugin, date);
    DayElemsNormal(plugin, date);
    assert (st + day)[|st|..] == day;
    OtherDepthsAreSkipped(logDir, LogPath(logDir, ".", plugin, date));
  }

  // ---- One file for each logger and day ----

  lemma SameTails(s1: seq<string>, t1: seq<string>, s2: seq<string>, t2: seq<string>)
    requires |t1| == |t2| && s1 + t1 == s2 + t2
    ensures s1 == s2 && t1 == t2
  {
    assert |s1| == |s2|;
    assert s1 == (s1 + t1)[..|s1|] && s2 == (s2 + t2)[..|s2|];
    assert t1 == (s1 + t1)[|s1|..] && t2 == (s2 + t2)[|s2|..];
  }

  lemma SameDay(p1: string, d1: Date, p2: string, d2: Date)
    requires '/' !in p1 && '/' !in p2 && DayElems(p1, d1) == DayElems(p2, d2)
    ensures p1 == p2 && d1 == d2
  {
    var a, b := DayElems(p1, d1), DayElems(p2, d2);
    assert a[0] == b[0] && a[1] == b[1] && a[2] == b[2];
    DigitsValue(d1.year);
    DigitsValue(d2.year);
    AtoiPadded(d1.month, 2);
    AtoiPadded(d2.month, 2);
    AtoiPadded(d1.day, 2);
    AtoiPadded(d2.day, 2);
    FileNameParses(d1.day, p1);
    FileNameParses(d2.day, p2);
  }

  /** Exactly when two loggers share a file: for the same plugin name and day, if their identifiers name the same
      directory below the log directory. */
  lemma LogFilesSharedIff(logDir: string, id1: string, p1: string, d1: Date, id2: string, p2: string, d2: Date)
    requires logDir != "" && '/' !in p1 && '/' !in p2
    ensures LogPath(logDir, id1, p1, d1) == LogPath(logDir, id2, p2, d2) <==>
            JoinPath(logDir, id1) == JoinPath(logDir, id2) && p1 == p2 && d1 == d2
  {
    LogPathPrints(logDir, id1, p1, d1);
    LogPathPrints(logDir, id2, p2, d2);
    SameDirectoryIff(logDir, id1, id2);
    if LogPath(logDir, id1, p1, d1) == LogPath(logDir, id2, p2, d2) {
      SameTails(SiteElems(logDir, id1), DayElems(p1, d1), SiteElems(logDir, id2), DayElems(p2, d2));
      SameDay(p1, d1, p2, d2);
    }
  }

  lemma SameDirectoryIff(logDir: string, id1: string, id2: string)
    requires logDir != ""
    ensures JoinPath(logDir, id1) == JoinPath(logDir, id2) <==> SiteElems(logDir, id1) == SiteElems(logDir, id2)
  {
    var s1, s2 := SiteElems(logDir, id1), SiteElems(logDir, id2);
    JoinReduces(logDir, id1);
    JoinReduces(logDir, id2);
    SiteElemsReduced(logDir, id1, []);
    SiteElemsReduced(logDir, id2, []);
    assert s1 + [] == s1 && s2 + [] == s2;
    CleanElemsOfPrint(Rooted(logDir), s1);
    CleanElemsOfPrint(Rooted(logDir), s2);
  }

  /** Ordinary identifiers: no two loggers, and no two days of one logger, share a file. */
  lemma LogFilesDistinct(logDir: string, id1: string, p1: string, d1: Date, id2: string, p2: string, d2: Date)
    requires logDir != "" && Normal(id1) && Normal(id2) && '/' !in p1 && '/' !in p2
    requires LogPath(logDir, id1, p1, d1) == LogPath(logDir, id2, p2, d2)
    ensures id1 == id2 && p1 == p2 && d1 == d2
  {
    LogFilesSharedIff(logDir, id1, p1, d1, id2, p2, d2);
    SameDirectoryIff(logDir, id1, id2);
    PlainSite(logDir, id1);
    PlainSite(logDir, id2);
    assert SiteElems(logDir, id1)[|CleanElems(logDir)|] == id1;
    assert SiteElems(logDir, id2)[|CleanElems(logDir)|] == id2;
  }

  /** The domain "." writes to the files of the empty identifier. */
  lemma DotSharesFiles(logDir: string, plugin: string, date: Date)
    requires logDir != "" && '/' !in plugin
    ensures LogPath(logDir, ".", plugin, date) == LogPath(logDir, "", plugin, date)
  {
    PlainSite(logDir, ".");
    PlainSite(logDir, "");
    SameDirectoryIff(logDir, ".", "");
    LogFilesSharedIff(logDir, ".", plugin, date, "", plugin, date);
  }

  // ---- Opening a file by its listed name ----

  /** Any clean path opens by its name relative to a directory if and only if it lies below that directory and no
      backslash is in the name: the guard reads backslashes as separators, the listing does not. */
  lemma OpensIff(base: string, path: string)
    requires base != "" && Clean(path) == path
    ensures SafeJoin(base, ListedName(base, path)) == Ok(path) <==>
            Below(base, path) && '\\' !in ListedName(base, path)
  {
    var st, name := CleanElems(base), ListedName(base, path);
    var asked := RequestElems(name);
    SafeJoinClamps(base, name);
    if SafeJoin(base, name) == Ok(path) {
      CleanElemsOfPrint(Rooted(base), st + asked) by { JoinAppends(base, asked); }
      assert CleanElems(path)[|st|..] == asked;
      ListedBelow(base, path);
      NoBackslashLeft(name);
      assert PhpCleanPath(name)[1..] == Join(asked, '/');
    }
    if Below(base, path) && '\\' !in name {
      ListedBelow(base, path);
      assert ReplaceChar(name, '\\', '/') == name;
      ReadBack(CleanElems(path)[|st|..]);
    }
  }

  /** Ordinary elements, joined and read as a request, come back; "." reads as none. */
  lemma ReadBack(rest: seq<string>)
    requires AllNormal(rest)
    ensures CleanElems("/" + (if rest == [] then "." else Join(rest, '/'))) == rest
  {
    RootedElems(if rest == [] then "." else Join(rest, '/'));
    SplitOfJoined(rest);
    SplitAtom(".", '/');
    assert [] + rest == rest;
    ReduceAppends(true, [], rest);
    assert ["."][1..] == [];
  }

  /** When a log file lies below the log directory: if the identifier leads down by ordinary names, or leads up and
      the year, month and file name lead back down the same way. */
  ghost predicate StaysBelow(logDir: string, identifier: string, plugin: string, date: Date) {
    var st, site, day := CleanElems(logDir), SiteElems(logDir, identifier), DayElems(plugin, date);
    || (st <= site && AllNormal(site[|st|..]))
    || (site <= st && st[|site|..] <= day)
  }

  /** What a log file adds to the log directory. */
  function Rest(logDir: string, identifier: string, plugin: string, date: Date): seq<string> {
    var st, elems := CleanElems(logDir), SiteElems(logDir, identifier) + DayElems(plugin, date);
    if |st| <= |elems| then elems[|st|..] else []
  }

  lemma StaysBelowIff(logDir: string, identifier: string, plugin: string, date: Date)
    requires logDir != "" && '/' !in plugin
    ensures Below(logDir, LogPath(logDir, identifier, plugin, date)) <==> StaysBelow(logDir, identifier, plugin, date)
  {
    var st, site, day := CleanElems(logDir), SiteElems(logDir, identifier), DayElems(plugin, date);
    LogPathPrints(logDir, identifier, plugin, date);
    DayElemsNormal(plugin, date);
    if |st| <= |site| {
      DownThenDay(st, site, day);
    } else {
      UpThenDay(st, site, day);
    }
  }

  lemma DownThenDay(st: seq<string>, site: seq<string>, day: seq<string>)
    requires |st| <= |site| && AllNormal(day)
    ensures st <= site + day <==> st <= site
    ensures st <= site ==> (AllNormal((site + day)[|st|..]) <==> AllNormal(site[|st|..]))
    ensures site <= st ==> site == st
  {
    if st <= site {
      var rest := site[|st|..];
      assert (site + day)[|st|..] == rest + day;
      assert forall i :: 0 <= i < |rest| ==> (rest + day)[i] == rest[i];
    }
  }

  lemma UpThenDay(st: seq<string>, site: seq<string>, day: seq<string>)
    requires |site| < |st| && AllNormal(day)
    ensures st <= site + day <==> site <= st && st[|site|..] <= day
    ensures st <= site + day ==> AllNormal((site + day)[|st|..])
  {
    if st <= site + day {
      assert st == (site + day)[..|st|];
      assert st[..|site|] == site;
      assert st[|site|..] == day[..|st| - |site|];
      assert (site + day)[|st|..] == day[|st| - |site|..];
    }
    if site <= st && st[|site|..] <= day {
      assert st == site + st[|site|..];
      assert (site + day)[..|st|] == site + day[..|st| - |site|];
    }
  }

  /** A log file opens by its listed name if and only if it lies below the log directory and what it adds to it holds
      no backslash. */
  lemma ListedFileOpensIff(logDir: string, identifier: string, plugin: string, date: Date)
    requires logDir != "" && '/' !in plugin
    ensures var path := LogPath(logDir, identifier, plugin, date);
            SafeJoin(logDir, ListedName(logDir, path)) == Ok(path) <==>
            && StaysBelow(logDir, identifier, plugin, date)
            && forall elem :: elem in Rest(logDir, identifier, plugin, date) ==> '\\' !in elem
  {
    var path := LogPath(logDir, identifier, plugin, date);
    LogPathPrints(logDir, identifier, plugin, date);
    OpensIff(logDir, path);
    StaysBelowIff(logDir, identifier, plugin, date);
    if Below(logDir, path) {
      ListedBelow(logDir, path);
      CharInJoin(Rest(logDir, identifier, plugin, date), '\\');
    }
  }

  /** For an ordinary identifier: if and only if neither identifier nor plugin holds one. */
  lemma OrdinaryOpensIff(logDir: string, identifier: string, plugin: string, date: Date)
    requires logDir != "" && Normal(identifier) && '/' !in plugin
    ensures var path := LogPath(logDir, identifier, plugin, date);
            SafeJoin(logDir, ListedName(logDir, path)) == Ok(path) <==> '\\' !in identifier && '\\' !in plugin
  {
    ListedFileOpensIff(logDir, identifier, plugin, date);
    OrdinaryIsBelow(logDir, identifier, plugin, date);
    StaysBelowIff(logDir, identifier, plugin, date);
    LogPathPrints(logDir, identifier, plugin, date);
    NamesWithout(identifier, plugin, date, Rest(logDir, identifier, plugin, date));
  }

  lemma NamesWithout(identifier: string, plugin: string, date: Date, rest: seq<string>)
    requires '/' !in plugin && rest == [identifier] + DayElems(plugin, date)
    ensures (forall elem :: elem in rest ==> '\\' !in elem) <==> '\\' !in identifier && '\\' !in plugin
  {
    DayElemsNormal(plugin, date);
    assert rest[0] == identifier && rest[3] == DayElems(plugin, date)[2];
  }

  /** A site whose domain holds a backslash, as a loaded configuration may: its log is listed but cannot be opened. */
  lemma BackslashIsNotOpened(date: Date)
    ensures var path := LogPath("/log", "a\\b", "", date);
            && ParseLogPath("/log", path) == Some(LogFileInfo("a\\b", "", date.year, date.month, date.day))
            && SafeJoin("/log", ListedName("/log", path)) != Ok(path)
  {
    assert "a\\b"[1] == '\\';
    LogPathRoundTrip("/log", "a\\b", "", date);
    OrdinaryOpensIff("/log", "a\\b", "", date);
  }

  /** The domain "..", as a loaded configuration may have it, writes its logs outside the log directory. */
  lemma DotDotWritesOutside(plugin: string, date: Date)
    requires '/' !in plugin
    ensures !Below("/log", LogPath("/log", "..", plugin, date))
  {
    LogHasOneElement();
    PlainSite("/log", "..");
    StaysBelowIff("/log", "..", plugin, date);
    DigitsValue(date.year);
    assert ["log"][0..] == ["log"];
    assert DayElems(plugin, date)[0] == Digits(date.year);
    assert !IsDigit("log"[0]);
    assert Digits(date.year) != "log";
  }

  lemma LogHasOneElement()
    ensures CleanElems("/log") == ["log"]
  {
    RootedElems("log");
    assert "/" + "log" == "/log";
    SplitAtom("log", '/');
    assert ["log"][1..] == [];
    assert Push(true, [], "log") == ["log"];
  }

  /** In full: below a clean log directory an ordinary identifier's file is directory/identifier/year/month/day.log,
      with the plugin's name after the day. */
  lemma LogPathInFull(logDir: string, identifier: string, plugin: string, date: Date)
    requires Clean(logDir) == logDir && logDir != "/" && logDir != "." && Normal(identifier) && '/' !in plugin
    ensures LogPath(logDir, identifier, plugin, date) ==
            logDir + ("/" + (identifier + ['/'] + (Digits(date.year) + ['/'] + (Padded(date.month, 2) + ['/'] +
              (Padded(date.day, 2) + (if plugin == "" then "" else "-" + plugin) + ".log")))))
  {
    var st, day := CleanElems(logDir), DayElems(plugin, date);
    CleanElemsReduced(logDir);
    LogPathPrints(logDir, identifier, plugin, date);
    PlainSite(logDir, identifier);
    assert Print(true, []) == "/" && Print(false, []) == ".";
    assert st != [];
    assert st + [identifier] + day == st + ([identifier] + day);
    PrintAppends(Rooted(logDir), st, [identifier] + day);
    JoinFour(identifier, day[0], day[1], day[2]);
    assert [identifier] + day == [identifier, day[0], day[1], day[2]];
    FileNameInFull(date.day, plugin);
  }

  lemma JoinFour(a: string, b: string, c: string, d: string)
    ensures Join([a, b, c, d], '/') == a + ['/'] + (b + ['/'] + (c + ['/'] + d))
  {
    assert [a, b, c, d][1..] == [b, c, d] && [b, c, d][1..] == [c, d] && [c, d][1..] == [d];
    assert Join([d], '/') == d;
    assert Join([c, d], '/') == c + ['/'] + d;
    assert Join([b, c, d], '/') == b + ['/'] + (c + ['/'] + d);
  }

  lemma FileNameInFull(day: nat, plugin: string)
    ensures FileName(day, plugin) == Padded(day, 2) + (if plugin == "" then "" else "-" + plugin) + ".log"
  {
    assert Padded(day, 2) + "" == Padded(day, 2);
    assert Padded(day, 2) + ("-" + plugin) == Padded(day, 2) + "-" + plugin;
  }
}
