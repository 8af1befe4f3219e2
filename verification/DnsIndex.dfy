/** internal/dns/handler.go: the record index and the zone list built from the configuration. */
module DnsIndex {
  import opened Strings

  datatype Record = Record(rtype: string, name: string, value: string, ttl: nat, prio: nat)
  type Zones = map<string, seq<Record>>

  datatype Data =
    | Address(ip: string)
    | Host(target: string)
    | Text(text: string)
    | Exchange(preference: nat, mx: string)
  datatype RR = RR(name: string, qtype: nat, ttl: nat, data: Data)

  const TYPE_A := 1
  const TYPE_NS := 2
  const TYPE_CNAME := 5
  const TYPE_MX := 15
  const TYPE_TXT := 16
  const TYPE_AAAA := 28
  const TYPE_ANY := 255

  /** Library calls: net.ParseIP, and dns.Fqdn on the target of a record. */
  datatype Library = Library(parseIP: string -> Option<string>, fqdn: string -> string)

  function CreateRR(lib: Library, rec: Record, qname: string): Option<RR> {
    if rec.rtype == "A" || rec.rtype == "AAAA" then
      match lib.parseIP(rec.value)
      case None => None
      case Some(ip) => Some(RR(qname, if rec.rtype == "A" then TYPE_A else TYPE_AAAA, rec.ttl, Address(ip)))
    else if rec.rtype == "CNAME" then Some(RR(qname, TYPE_CNAME, rec.ttl, Host(lib.fqdn(rec.value))))
    else if rec.rtype == "TXT" then Some(RR(qname, TYPE_TXT, rec.ttl, Text(rec.value)))
    else if rec.rtype == "NS" then Some(RR(qname, TYPE_NS, rec.ttl, Host(lib.fqdn(rec.value))))
    else if rec.rtype == "MX" then Some(RR(qname, TYPE_MX, rec.ttl, Exchange(rec.prio, lib.fqdn(rec.value))))
    else None
  }

  /** The lower-case fully qualified name of a record. */
  function Fqdn(zone: string, rec: Record): string {
    if rec.name == "@" then Lower(zone) + "."
    else Lower(rec.name) + "." + (Lower(zone) + ".")
  }

  /** What each kind of record becomes, with the type codes of RFC 1035 section 3.2.2 and RFC 3596 section 2.1;
      anything else, and an address that does not parse, is no record. */
  lemma RecordTable(lib: Library, rec: Record, name: string)
    ensures CreateRR(lib, rec, name).Some? <==>
            || (rec.rtype in {"A", "AAAA"} && lib.parseIP(rec.value).Some?)
            || rec.rtype in {"CNAME", "TXT", "NS", "MX"}
    ensures CreateRR(lib, rec, name).Some? ==>
              var rr := CreateRR(lib, rec, name).value;
              && rr.name == name && rr.ttl == rec.ttl
              && (rec.rtype == "A" ==> rr.qtype == 1 && rr.data == Address(lib.parseIP(rec.value).value))
              && (rec.rtype == "AAAA" ==> rr.qtype == 28 && rr.data == Address(lib.parseIP(rec.value).value))
              && (rec.rtype == "CNAME" ==> rr.qtype == 5 && rr.data == Host(lib.fqdn(rec.value)))
              && (rec.rtype == "NS" ==> rr.qtype == 2 && rr.data == Host(lib.fqdn(rec.value)))
              && (rec.rtype == "TXT" ==> rr.qtype == 16 && rr.data == Text(rec.value))
              && (rec.rtype == "MX" ==> rr.qtype == 15 && rr.data == Exchange(rec.prio, lib.fqdn(rec.value)))
  {
  }

  /** A record's name, label by label: its own labels, the zone's, and the root; the zone's apex for "@". */
  lemma FqdnLabels(zone: string, rec: Record)
    ensures Split(Fqdn(zone, rec), '.') ==
            (if rec.name == "@" then [] else Split(Lower(rec.name), '.')) + Split(Lower(zone), '.') + [""]
  {
    var z := Lower(zone);
    SplitConcat(z, "", '.');
    assert z + ['.'] + "" == z + ".";
    if rec.name == "@" {
      assert [] + Split(z, '.') == Split(z, '.');
    } else {
      SplitConcat(Lower(rec.name), z + ".", '.');
      assert Fqdn(zone, rec) == Lower(rec.name) + ['.'] + (z + ".");
      AddAssoc(Split(Lower(rec.name), '.'), Split(z, '.'), [""]);
    }
  }

  /** So a record always lies in its own zone. */
  lemma RecordInItsZone(zone: string, rec: Record)
    ensures Matches(Lower(zone), Fqdn(zone, rec))
  {
    FqdnLabels(zone, rec);
    MatchesByLabels(Lower(zone), Fqdn(zone, rec));
    var front := if rec.name == "@" then [] else Split(Lower(rec.name), '.');
    var back := Split(Lower(zone), '.') + [""];
    AddAssoc(front, Split(Lower(zone), '.'), [""]);
    assert (front + back)[|front|..] == back;
  }

  lemma WwwExample(rec: Record)
    requires rec.name == "www"
    ensures Fqdn("Example.com", rec) == "www.example.com."
  {
    assert Lower("Example.com") == "example.com";
    assert Lower("www") == "www";
  }

  // ---- The reference: a linear scan of the configuration ----

  /** Every record with its name, zone by zone in the given order. */
  function Flat(zones: Zones, order: seq<string>): seq<(string, Record)> {
    if order == [] then []
    else Flat(zones, order[..|order| - 1]) + Named(order[|order| - 1], RecordsOf(zones, order[|order| - 1]))
  }

  function RecordsOf(zones: Zones, zone: string): seq<Record> {
    if zone in zones then zones[zone] else []
  }

  function Named(zone: string, records: seq<Record>): seq<(string, Record)> {
    seq(|records|, i requires 0 <= i < |records| => (Fqdn(zone, records[i]), records[i]))
  }

  predicate Wanted(lib: Library, e: (string, Record), name: string, cname: bool, qtype: nat) {
    && e.0 == name
    && CreateRR(lib, e.1, name).Some?
    && (e.1.rtype == "CNAME") == cname
    && (cname || CreateRR(lib, e.1, name).value.qtype == qtype)
  }

  /** The valid records at a name: its CNAMEs, or its other records of one type. */
  function Scan(lib: Library, flat: seq<(string, Record)>, name: string, cname: bool, qtype: nat): seq<RR> {
    if flat == [] then []
    else
      var e := flat[|flat| - 1];
      Scan(lib, flat[..|flat| - 1], name, cname, qtype)
      + if Wanted(lib, e, name, cname, qtype) then [CreateRR(lib, e.1, name).value] else []
  }

  /** The answers a scan would give: records of the type asked for, then CNAMEs; only CNAMEs for ANY. */
  function ScanAnswers(lib: Library, flat: seq<(string, Record)>, name: string, qtype: nat): seq<RR> {
    (if qtype != TYPE_ANY then Scan(lib, flat, name, false, qtype) else []) + Scan(lib, flat, name, true, qtype)
  }

  predicate NameExists(flat: seq<(string, Record)>, name: string) {
    exists i :: 0 <= i < |flat| && flat[i].0 == name
  }

  // ---- The index ----

  function ByType(index: map<string, map<nat, seq<RR>>>, name: string, qtype: nat): seq<RR> {
    if name in index && qtype in index[name] then index[name][qtype] else []
  }

  function ByName(index: map<string, seq<RR>>, name: string): seq<RR> {
    if name in index then index[name] else []
  }

  predicate Matches(zone: string, name: string) {
    name == zone + "." || HasSuffix(name, "." + (zone + "."))
  }

  predicate LongestFirst(zones: seq<string>) {
    forall i, j :: 0 <= i < j < |zones| ==> |zones[i]| >= |zones[j]|
  }

  class Handler {
    const lib: Library
    const config: Zones
    var zones: seq<string>
    var rrIndex: map<string, map<nat, seq<RR>>>
    var cnameIndex: map<string, seq<RR>>
    var names: set<string>
    /** The order in which the configuration map happened to be walked. */
    ghost var order: seq<string>

    ghost predicate Indexed(done: seq<(string, Record)>)
      reads this
    {
      && (forall f :: f in names <==> NameExists(done, f))
      && (forall f, q :: ByType(rrIndex, f, q) == Scan(lib, done, f, false, q))
      && (forall f, q :: ByName(cnameIndex, f) == Scan(lib, done, f, true, q))
    }

    /** The index agrees with a scan of the whole configuration in some walking order, and the zone
        list holds every configured zone, longest first. */
    ghost predicate Valid()
      reads this
    {
      && IsOrderOf(order, config)
      && Indexed(Flat(config, order))
      && multiset(zones) == multiset(LowerAll(order))
      && LongestFirst(zones)
    }

    constructor (lib: Library, config: Zones)
      ensures Valid() && this.lib == lib && this.config == config
    {
      this.lib, this.config := lib, config;
      zones, rrIndex, cnameIndex, names, order := [], map[], map[], {}, [];
      new;
      BuildIndex();
    }

    /** The loop over the configuration map has still to visit `todo`. */
    ghost predicate Partial(todo: set<string>)
      reads this
    {
      && IsPartialOrder(order, config, todo)
      && Indexed(Flat(config, order))
      && zones == LowerAll(order)
    }

    method BuildIndex()
      requires zones == [] && rrIndex == map[] && cnameIndex == map[] && names == {} && order == []
      modifies this
      ensures Valid()
    {
      var todo := config.Keys;
      while todo != {}
        invariant Partial(todo)
        decreases |todo|
      {
        var zone :| zone in todo;
        WalkZone(zone, todo);
        todo := todo - {zone};
      }
      SortByLength();
    }

    /** The body of the outer loop of buildIndex. */
    method WalkZone(zone: string, ghost todo: set<string>)
      requires Partial(todo) && zone in todo
      modifies this
      ensures Partial(todo - {zone})
    {
      OrderAppend(order, config, todo, zone);
      FlatAppend(config, order, zone);
      LowerAppend(order, zone);
      zones := zones + [Lower(zone)];
      AddZone(zone, config[zone], Flat(config, order));
      order := order + [zone];
    }

    /** sort.Slice: some permutation sorted by length, with ties in any order. */
    method SortByLength()
      modifies this`zones
      ensures multiset(zones) == multiset(old(zones)) && LongestFirst(zones)
    {
      SortedHas(zones);
      var sorted :| multiset(sorted) == multiset(zones) && LongestFirst(sorted);
      zones := sorted;
    }

    /** The inner loop of buildIndex: one zone's records, in configuration order. */
    method AddZone(zone: string, records: seq<Record>, ghost before: seq<(string, Record)>)
      requires Indexed(before)
      modifies this`rrIndex, this`cnameIndex, this`names
      ensures Indexed(before + Named(zone, records))
    {
      assert before + Named(zone, []) == before;
      for i := 0 to |records|
        invariant Indexed(before + Named(zone, records[..i]))
      {
        ghost var done := before + Named(zone, records[..i]);
        var rec := records[i];
        AddRecord(Fqdn(zone, rec), rec, done);
        assert before + Named(zone, records[..i + 1]) == done + [(Fqdn(zone, rec), rec)];
      }
      assert records[..|records|] == records;
    }

    method AddRecord(fqdn: string, rec: Record, ghost done: seq<(string, Record)>)
      requires Indexed(done)
      modifies this`rrIndex, this`cnameIndex, this`names
      ensures Indexed(done + [(fqdn, rec)])
    {
      names := names + {fqdn};
      NameAppend(done, fqdn, rec);
      var rr := CreateRR(lib, rec, fqdn);
      if rr.Some? {
        if rec.rtype == "CNAME" {
          cnameIndex := cnameIndex[fqdn := ByName(cnameIndex, fqdn) + [rr.value]];
        } else {
          AddTyped(fqdn, rr.value);
        }
      }
      ScanAppend(lib, done, fqdn, rec);
    }

    method AddTyped(fqdn: string, rr: RR)
      modifies this`rrIndex
      ensures forall f, q :: ByType(rrIndex, f, q) ==
                ByType(old(rrIndex), f, q) + if f == fqdn && q == rr.qtype then [rr] else []
    {
      var qtype := rr.qtype;
      if fqdn !in rrIndex {
        rrIndex := rrIndex[fqdn := map[]];
      }
      rrIndex := rrIndex[fqdn := rrIndex[fqdn][qtype := ByType(rrIndex, fqdn, qtype) + [rr]]];
      ByTypeAppend(old(rrIndex), rrIndex, fqdn, qtype, rr);
    }

    /** Two lookups give what the scan gives. */
    function FindRecords(qname: string, qtype: nat): (r: (seq<RR>, bool))
      requires Valid()
      reads this
      ensures r.1 == NameExists(Flat(config, order), qname)
      ensures r.0 == ScanAnswers(lib, Flat(config, order), qname, qtype)
    {
      if qname !in names then
        ScanOfMissing(lib, Flat(config, order), qname, false, qtype);
        ScanOfMissing(lib, Flat(config, order), qname, true, qtype);
        ([], false)
      else ((if qtype != TYPE_ANY then ByType(rrIndex, qname, qtype) else []) + ByName(cnameIndex, qname), true)
    }

    /** The longest configured zone that contains the name; "" when no named zone does. */
    method MatchZone(name: string) returns (zone: string)
      requires Valid()
      ensures IsZoneOf(config, name, zone)
    {
      ZoneListHolds(config, zones, order);
      for i := 0 to |zones|
        invariant forall k :: 0 <= k < i ==> !Matches(zones[k], name)
      {
        if Matches(zones[i], name) {
          FirstMatch(config, zones, name, i);
          return zones[i];
        }
      }
      NoMatch(config, zones, name);
      return "";
    }
  }

  // ---- Orders of the configuration ----

  ghost predicate NoRepeats<T>(s: seq<T>) {
    forall i, j :: 0 <= i < j < |s| ==> s[i] != s[j]
  }

  ghost predicate IsOrderOf(order: seq<string>, zones: Zones) {
    NoRepeats(order) && forall z :: z in order <==> z in zones
  }

  ghost predicate IsPartialOrder(order: seq<string>, zones: Zones, todo: set<string>) {
    && todo <= zones.Keys
    && NoRepeats(order)
    && forall z :: z in order <==> z in zones && z !in todo
  }

  lemma OrderAppend(order: seq<string>, zones: Zones, todo: set<string>, zone: string)
    requires IsPartialOrder(order, zones, todo) && zone in todo
    ensures IsPartialOrder(order + [zone], zones, todo - {zone})
  {
    assert zone in zones && zone !in order;
    forall z
      ensures z in order + [zone] <==> z in zones && z !in todo - {zone}
    {
    }
  }

  function LowerAll(order: seq<string>): (r: seq<string>)
    ensures |r| == |order|
    ensures forall i :: 0 <= i < |order| ==> r[i] == Lower(order[i])
  {
    seq(|order|, i requires 0 <= i < |order| => Lower(order[i]))
  }

  lemma LowerAppend(order: seq<string>, zone: string)
    ensures LowerAll(order + [zone]) == LowerAll(order) + [Lower(zone)]
  {
  }

  lemma FlatAppend(zones: Zones, order: seq<string>, zone: string)
    ensures Flat(zones, order + [zone]) == Flat(zones, order) + Named(zone, RecordsOf(zones, zone))
  {
    assert (order + [zone])[..|order|] == order;
  }

  lemma ConsLongestFirst(z: string, t: seq<string>)
    requires LongestFirst(t) && (t != [] ==> |z| >= |t[0]|)
    ensures LongestFirst([z] + t)
  {
    assert forall k :: 0 < k < |t| ==> |t[0]| >= |t[k]|;
  }

  lemma ConsMultiset(z: string, t: seq<string>)
    ensures multiset([z] + t) == multiset(t) + multiset{z}
  {
  }

  function Insert(z: string, t: seq<string>): (r: seq<string>)
    requires LongestFirst(t)
    ensures multiset(r) == multiset(t) + multiset{z}
    ensures r != [] && LongestFirst(r)
    ensures |r[0]| == |z| || (t != [] && |r[0]| == |t[0]|)
  {
    if t == [] then [z]
    else if |z| >= |t[0]| then
      ConsLongestFirst(z, t);
      ConsMultiset(z, t);
      [z] + t
    else
      var rest := Insert(z, t[1..]);
      ConsMultiset(t[0], t[1..]);
      ConsMultiset(t[0], rest);
      ConsLongestFirst(t[0], rest);
      assert t == [t[0]] + t[1..];
      [t[0]] + rest
  }

  function Sorted(s: seq<string>): (t: seq<string>)
    ensures multiset(t) == multiset(s) && LongestFirst(t)
  {
    if s == [] then []
    else
      assert s == [s[0]] + s[1..];
      Insert(s[0], Sorted(s[1..]))
  }

  /** Some sorted permutation exists, so the sort has a result. */
  lemma SortedHas(s: seq<string>)
    ensures exists t :: multiset(t) == multiset(s) && LongestFirst(t)
  {
    assert LongestFirst(Sorted(s));
  }

  lemma NameAppend(done: seq<(string, Record)>, fqdn: string, rec: Record)
    ensures forall f :: NameExists(done + [(fqdn, rec)], f) <==> f == fqdn || NameExists(done, f)
  {
    var more := done + [(fqdn, rec)];
    forall f
      ensures NameExists(more, f) <==> f == fqdn || NameExists(done, f)
    {
      if NameExists(done, f) {
        var i :| 0 <= i < |done| && done[i].0 == f;
        assert more[i].0 == f;
      }
      assert more[|done|].0 == fqdn;
    }
  }

  lemma ByTypeAppend(index: map<string, map<nat, seq<RR>>>, index': map<string, map<nat, seq<RR>>>, fqdn: string,
                     qtype: nat, rr: RR)
    requires var types := if fqdn in index then index[fqdn] else map[];
             index' == index[fqdn := types[qtype := ByType(index, fqdn, qtype) + [rr]]]
    ensures forall f, q :: ByType(index', f, q) == ByType(index, f, q) + if f == fqdn && q == qtype then [rr] else []
  {
  }

  lemma ScanAppend(lib: Library, done: seq<(string, Record)>, fqdn: string, rec: Record)
    ensures forall f, cname, q :: Scan(lib, done + [(fqdn, rec)], f, cname, q) ==
              Scan(lib, done, f, cname, q)
              + if Wanted(lib, (fqdn, rec), f, cname, q) then [CreateRR(lib, rec, f).value] else []
  {
    assert (done + [(fqdn, rec)])[..|done|] == done;
  }

  lemma {:induction false} ScanOfMissing(lib: Library, flat: seq<(string, Record)>, name: string, cname: bool,
                                         qtype: nat)
    requires !NameExists(flat, name)
    ensures Scan(lib, flat, name, cname, qtype) == []
  {
    if flat != [] {
      var init := flat[..|flat| - 1];
      assert forall i :: 0 <= i < |init| ==> init[i] == flat[i];
      ScanOfMissing(lib, init, name, cname, qtype);
    }
  }

  lemma {:induction false} ScanConcat(lib: Library, a: seq<(string, Record)>, b: seq<(string, Record)>, name: string,
                                      cname: bool, qtype: nat)
    ensures Scan(lib, a + b, name, cname, qtype) == Scan(lib, a, name, cname, qtype) + Scan(lib, b, name, cname, qtype)
    decreases |b|
  {
    if b == [] {
      assert a + b == a;
    } else {
      assert (a + b)[..|a + b| - 1] == a + b[..|b| - 1];
      ScanConcat(lib, a, b[..|b| - 1], name, cname, qtype);
    }
  }

  lemma AddAssoc<T>(a: seq<T>, b: seq<T>, c: seq<T>)
    ensures (a + b) + c == a + (b + c)
  {
  }

  lemma {:induction false} FlatConcat(zones: Zones, a: seq<string>, b: seq<string>)
    ensures Flat(zones, a + b) == Flat(zones, a) + Flat(zones, b)
    decreases |b|
  {
    if b == [] {
      assert a + b == a;
    } else {
      var init, last := b[..|b| - 1], b[|b| - 1];
      FlatConcat(zones, a, init);
      FlatConcatStep(zones, a, init, last, b);
    }
  }

  lemma FlatConcatStep(zones: Zones, a: seq<string>, init: seq<string>, last: string, b: seq<string>)
    requires b == init + [last]
    requires Flat(zones, a + init) == Flat(zones, a) + Flat(zones, init)
    ensures Flat(zones, a + b) == Flat(zones, a) + Flat(zones, b)
  {
    FlatAppend(zones, a + init, last);
    FlatAppend(zones, init, last);
    AddAssoc(a, init, [last]);
    AddAssoc(Flat(zones, a), Flat(zones, init), Named(last, RecordsOf(zones, last)));
  }

  /** A whole order scanned, split around one zone. */
  lemma ScanSplit(lib: Library, zones: Zones, l: seq<string>, z: string, r: seq<string>, name: string, cname: bool,
                  qtype: nat)
    ensures Scan(lib, Flat(zones, l + [z] + r), name, cname, qtype) ==
            Scan(lib, Flat(zones, l), name, cname, qtype)
            + Scan(lib, Named(z, RecordsOf(zones, z)), name, cname, qtype)
            + Scan(lib, Flat(zones, r), name, cname, qtype)
  {
    FlatConcat(zones, l + [z], r);
    FlatAppend(zones, l, z);
    ScanConcat(lib, Flat(zones, l + [z]), Flat(zones, r), name, cname, qtype);
    ScanConcat(lib, Flat(zones, l), Named(z, RecordsOf(zones, z)), name, cname, qtype);
  }

  /** Moving a zone within the order moves its records and nothing else. */
  lemma ScanPick(lib: Library, zones: Zones, l: seq<string>, z: string, r: seq<string>, name: string, cname: bool,
                 qtype: nat)
    ensures multiset(Scan(lib, Flat(zones, l + [z] + r), name, cname, qtype)) ==
            multiset(Scan(lib, Named(z, RecordsOf(zones, z)), name, cname, qtype)) +
            multiset(Scan(lib, Flat(zones, l + r), name, cname, qtype))
  {
    ScanSplit(lib, zones, l, z, r, name, cname, qtype);
    FlatConcat(zones, l, r);
    ScanConcat(lib, Flat(zones, l), Flat(zones, r), name, cname, qtype);
  }

  lemma PickOut(o: seq<string>, z: string) returns (l: seq<string>, r: seq<string>)
    requires z in multiset(o)
    ensures o == l + [z] + r
    ensures multiset(l + r) == multiset(o) - multiset{z}
  {
    var k :| 0 <= k < |o| && o[k] == z;
    l, r := o[..k], o[k + 1..];
    assert o == l + [z] + r;
  }

  lemma ScanFront(lib: Library, zones: Zones, z: string, rest: seq<string>, name: string, cname: bool, qtype: nat)
    ensures multiset(Scan(lib, Flat(zones, [z] + rest), name, cname, qtype)) ==
            multiset(Scan(lib, Named(z, RecordsOf(zones, z)), name, cname, qtype)) +
            multiset(Scan(lib, Flat(zones, rest), name, cname, qtype))
  {
    var none: seq<string> := [];
    ScanPick(lib, zones, none, z, rest, name, cname, qtype);
    assert none + [z] == [z];
    assert none + rest == rest;
  }

  lemma PutBack(lib: Library, zones: Zones, z: string, rest: seq<string>, l: seq<string>, r: seq<string>, name: string,
                cname: bool, qtype: nat)
    requires multiset(Scan(lib, Flat(zones, rest), name, cname, qtype)) ==
             multiset(Scan(lib, Flat(zones, l + r), name, cname, qtype))
    ensures multiset(Scan(lib, Flat(zones, [z] + rest), name, cname, qtype)) ==
            multiset(Scan(lib, Flat(zones, l + [z] + r), name, cname, qtype))
  {
    ScanFront(lib, zones, z, rest, name, cname, qtype);
    ScanPick(lib, zones, l, z, r, name, cname, qtype);
  }

  /** Whatever order the map is walked in, the same records are found, as often. */
  lemma {:induction false} OrderIrrelevant(lib: Library, zones: Zones, o1: seq<string>, o2: seq<string>, name: string,
                                           cname: bool, qtype: nat)
    requires multiset(o1) == multiset(o2)
    ensures multiset(Scan(lib, Flat(zones, o1), name, cname, qtype)) ==
            multiset(Scan(lib, Flat(zones, o2), name, cname, qtype))
    decreases |o1|
  {
    if o1 == [] {
      assert |multiset(o2)| == 0;
      assert o2 == [];
    } else {
      var z, rest := o1[0], o1[1..];
      assert o1 == [z] + rest;
      var l, r := PickOut(o2, z);
      OrderIrrelevant(lib, zones, rest, l + r, name, cname, qtype);
      PutBack(lib, zones, z, rest, l, r, name, cname, qtype);
    }
  }

  lemma {:induction false} SameOrders(o1: seq<string>, o2: seq<string>)
    requires NoRepeats(o1) && NoRepeats(o2)
    requires forall z :: z in o1 <==> z in o2
    ensures multiset(o1) == multiset(o2)
  {
    forall z
      ensures multiset(o1)[z] == multiset(o2)[z]
    {
      CountNoRepeats(o1, z);
      CountNoRepeats(o2, z);
    }
  }

  lemma {:induction false} CountNoRepeats(s: seq<string>, z: string)
    requires NoRepeats(s)
    ensures multiset(s)[z] == if z in s then 1 else 0
  {
    if s != [] {
      assert s == [s[0]] + s[1..];
      CountNoRepeats(s[1..], z);
      assert forall i :: 0 <= i < |s[1..]| ==> s[1..][i] == s[i + 1];
    }
  }

  lemma SamePieces(a1: seq<RR>, b1: seq<RR>, a2: seq<RR>, b2: seq<RR>)
    requires multiset(a1) == multiset(a2) && multiset(b1) == multiset(b2)
    ensures multiset(a1 + b1) == multiset(a2 + b2)
  {
  }

  lemma SameAnswers(lib: Library, f1: seq<(string, Record)>, f2: seq<(string, Record)>, name: string, qtype: nat)
    requires multiset(Scan(lib, f1, name, false, qtype)) == multiset(Scan(lib, f2, name, false, qtype))
    requires multiset(Scan(lib, f1, name, true, qtype)) == multiset(Scan(lib, f2, name, true, qtype))
    ensures multiset(ScanAnswers(lib, f1, name, qtype)) == multiset(ScanAnswers(lib, f2, name, qtype))
  {
    SamePieces(if qtype != TYPE_ANY then Scan(lib, f1, name, false, qtype) else [], Scan(lib, f1, name, true, qtype),
               if qtype != TYPE_ANY then Scan(lib, f2, name, false, qtype) else [], Scan(lib, f2, name, true, qtype));
  }

  /** Two handlers for one configuration give the same answers, however the map was walked. */
  lemma AnswersDeterministic(lib: Library, zones: Zones, o1: seq<string>, o2: seq<string>, name: string, qtype: nat)
    requires IsOrderOf(o1, zones) && IsOrderOf(o2, zones)
    ensures multiset(ScanAnswers(lib, Flat(zones, o1), name, qtype)) ==
            multiset(ScanAnswers(lib, Flat(zones, o2), name, qtype))
    ensures NameExists(Flat(zones, o1), name) == NameExists(Flat(zones, o2), name)
  {
    SameOrders(o1, o2);
    OrderIrrelevant(lib, zones, o1, o2, name, false, qtype);
    OrderIrrelevant(lib, zones, o1, o2, name, true, qtype);
    SameAnswers(lib, Flat(zones, o1), Flat(zones, o2), name, qtype);
    NameInConfig(zones, o1, name);
    NameInConfig(zones, o2, name);
  }

  /** A name exists when some record of some zone, valid or not, bears it. */
  ghost predicate Configured(zones: Zones, name: string) {
    exists z, i :: z in zones && 0 <= i < |zones[z]| && Fqdn(z, zones[z][i]) == name
  }

  lemma {:induction false} FlatMembers(zones: Zones, order: seq<string>, e: (string, Record))
    requires forall z :: z in order ==> z in zones
    ensures e in Flat(zones, order) <==>
            exists z, i :: z in order && 0 <= i < |zones[z]| && e == (Fqdn(z, zones[z][i]), zones[z][i])
    decreases |order|
  {
    if order != [] {
      var init, last := order[..|order| - 1], order[|order| - 1];
      assert order == init + [last];
      FlatMembers(zones, init, e);
      assert RecordsOf(zones, last) == zones[last];
      if e in Named(last, zones[last]) {
        var i :| 0 <= i < |zones[last]| && Named(last, zones[last])[i] == e;
        assert last in order && e == (Fqdn(last, zones[last][i]), zones[last][i]);
      }
      if z, i :| z in order && 0 <= i < |zones[z]| && e == (Fqdn(z, zones[z][i]), zones[z][i]) {
        if z == last {
          assert Named(last, zones[last])[i] == e;
        } else {
          assert z in init;
        }
      }
    }
  }

  lemma NameInConfig(zones: Zones, order: seq<string>, name: string)
    requires IsOrderOf(order, zones)
    ensures NameExists(Flat(zones, order), name) <==> Configured(zones, name)
  {
    var flat := Flat(zones, order);
    if NameExists(flat, name) {
      var i :| 0 <= i < |flat| && flat[i].0 == name;
      FlatMembers(zones, order, flat[i]);
    }
    if Configured(zones, name) {
      var z, i :| z in zones && 0 <= i < |zones[z]| && Fqdn(z, zones[z][i]) == name;
      var e := (Fqdn(z, zones[z][i]), zones[z][i]);
      FlatMembers(zones, order, e);
      assert e in flat;
    }
  }

  lemma {:induction false} ScanMembers(lib: Library, flat: seq<(string, Record)>, name: string, cname: bool,
                                       qtype: nat, rr: RR)
    ensures rr in Scan(lib, flat, name, cname, qtype) <==>
            exists e :: e in flat && Wanted(lib, e, name, cname, qtype) && CreateRR(lib, e.1, name).value == rr
  {
    if flat != [] {
      var init, last := flat[..|flat| - 1], flat[|flat| - 1];
      assert flat == init + [last];
      ScanMembers(lib, init, name, cname, qtype, rr);
    }
  }

  predicate Increasing(at: seq<nat>) {
    forall i, j :: 0 <= i < j < |at| ==> at[i] < at[j]
  }

  /** A scan keeps the order of the configuration and each wanted record, once. */
  lemma {:induction false} ScanInOrder(lib: Library, flat: seq<(string, Record)>, name: string, cname: bool, qtype: nat)
    returns (at: seq<nat>)
    ensures |at| == |Scan(lib, flat, name, cname, qtype)| && Increasing(at)
    ensures forall k :: 0 <= k < |at| ==>
              at[k] < |flat| && Some(Scan(lib, flat, name, cname, qtype)[k]) == CreateRR(lib, flat[at[k]].1, name)
    ensures forall i :: 0 <= i < |flat| ==>
              (i in at <==> && flat[i].0 == name && CreateRR(lib, flat[i].1, name).Some?
                            && (flat[i].1.rtype == "CNAME" <==> cname)
                            && (cname || CreateRR(lib, flat[i].1, name).value.qtype == qtype))
  {
    if flat == [] {
      at := [];
    } else {
      var last := |flat| - 1;
      at := ScanInOrder(lib, flat[..last], name, cname, qtype);
      assert forall i :: 0 <= i < last ==> flat[..last][i] == flat[i];
      if Wanted(lib, flat[last], name, cname, qtype) {
        at := at + [last];
      }
    }
  }

  /** Records of the type asked for come before the CNAMEs, and only CNAMEs are given for ANY, which is 255. */
  lemma AnswersInTwoParts(lib: Library, flat: seq<(string, Record)>, name: string, qtype: nat) returns (k: nat)
    ensures k <= |ScanAnswers(lib, flat, name, qtype)|
    ensures forall i :: 0 <= i < |ScanAnswers(lib, flat, name, qtype)| ==>
              (i < k <==> ScanAnswers(lib, flat, name, qtype)[i].qtype != 5)
    ensures qtype == 255 ==> k == 0
    ensures ScanAnswers(lib, flat, name, qtype)[k..] == Scan(lib, flat, name, true, qtype)
    ensures qtype != 255 ==> ScanAnswers(lib, flat, name, qtype)[..k] == Scan(lib, flat, name, false, qtype)
  {
    var typed := Scan(lib, flat, name, false, qtype);
    var cnames := Scan(lib, flat, name, true, qtype);
    var at1 := ScanInOrder(lib, flat, name, false, qtype);
    var at2 := ScanInOrder(lib, flat, name, true, qtype);
    k := if qtype == TYPE_ANY then 0 else |typed|;
    forall i | 0 <= i < |typed|
      ensures typed[i].qtype != 5
    {
      assert at1[i] in at1;
      CnameType(lib, flat[at1[i]].1, name);
    }
    forall i | 0 <= i < |cnames|
      ensures cnames[i].qtype == 5
    {
      assert at2[i] in at2;
      CnameType(lib, flat[at2[i]].1, name);
    }
  }

  /** A resource record answers a question exactly when the configuration holds a valid record for it. */
  ghost predicate Answers(lib: Library, zones: Zones, name: string, qtype: nat, rr: RR) {
    exists z, i :: z in zones && 0 <= i < |zones[z]|
      && Fqdn(z, zones[z][i]) == name
      && CreateRR(lib, zones[z][i], name) == Some(rr)
      && (rr.qtype == TYPE_CNAME || rr.qtype == qtype)
  }

  lemma AnswersMeaning(lib: Library, zones: Zones, order: seq<string>, name: string, qtype: nat, rr: RR)
    requires IsOrderOf(order, zones)
    ensures rr in ScanAnswers(lib, Flat(zones, order), name, qtype) <==> Answers(lib, zones, name, qtype, rr)
  {
    var flat := Flat(zones, order);
    ScanMembers(lib, flat, name, false, qtype, rr);
    ScanMembers(lib, flat, name, true, qtype, rr);
    if rr in ScanAnswers(lib, flat, name, qtype) {
      var cname := rr in Scan(lib, flat, name, true, qtype);
      var e :| e in flat && Wanted(lib, e, name, cname, qtype) && CreateRR(lib, e.1, name).value == rr;
      FlatMembers(zones, order, e);
    }
    if Answers(lib, zones, name, qtype, rr) {
      AnswerIsScanned(lib, zones, order, name, qtype, rr);
    }
  }

  lemma RecordIsFlat(zones: Zones, order: seq<string>, z: string, i: nat)
    requires IsOrderOf(order, zones) && z in zones && i < |zones[z]|
    ensures (Fqdn(z, zones[z][i]), zones[z][i]) in Flat(zones, order)
  {
    assert z in order;
    FlatMembers(zones, order, (Fqdn(z, zones[z][i]), zones[z][i]));
  }

  lemma CnameType(lib: Library, rec: Record, name: string)
    requires CreateRR(lib, rec, name).Some?
    ensures CreateRR(lib, rec, name).value.qtype == TYPE_CNAME <==> rec.rtype == "CNAME"
  {
  }

  lemma RecordAnswers(lib: Library, flat: seq<(string, Record)>, e: (string, Record), name: string, qtype: nat, rr: RR)
    requires e in flat && e.0 == name && CreateRR(lib, e.1, name) == Some(rr)
    requires rr.qtype == TYPE_CNAME || rr.qtype == qtype
    ensures rr in ScanAnswers(lib, flat, name, qtype)
  {
    CnameType(lib, e.1, name);
    var cname := rr.qtype == TYPE_CNAME;
    assert Wanted(lib, e, name, cname, qtype);
    ScanMembers(lib, flat, name, cname, qtype, rr);
    NotAny(lib, e.1, name);
  }

  /** No record is of type ANY. */
  lemma NotAny(lib: Library, rec: Record, name: string)
    requires CreateRR(lib, rec, name).Some?
    ensures CreateRR(lib, rec, name).value.qtype != TYPE_ANY
  {
  }

  lemma AnswerIsScanned(lib: Library, zones: Zones, order: seq<string>, name: string, qtype: nat, rr: RR)
    requires IsOrderOf(order, zones) && Answers(lib, zones, name, qtype, rr)
    ensures rr in ScanAnswers(lib, Flat(zones, order), name, qtype)
  {
    var z, i :| z in zones && 0 <= i < |zones[z]|
      && Fqdn(z, zones[z][i]) == name
      && CreateRR(lib, zones[z][i], name) == Some(rr)
      && (rr.qtype == TYPE_CNAME || rr.qtype == qtype);
    RecordIsFlat(zones, order, z, i);
    RecordAnswers(lib, Flat(zones, order), (name, zones[z][i]), name, qtype, rr);
  }

  /** When one zone alone holds a name, its answers come in that zone's configuration order. */
  lemma OneZoneOrder(lib: Library, zones: Zones, order: seq<string>, zone: string, name: string, qtype: nat)
    requires IsOrderOf(order, zones) && zone in zones
    requires forall z, i :: z in zones && 0 <= i < |zones[z]| && Fqdn(z, zones[z][i]) == name ==> z == zone
    ensures ScanAnswers(lib, Flat(zones, order), name, qtype) == ScanAnswers(lib, Named(zone, zones[zone]), name, qtype)
  {
    var l, r := SplitOrder(order, zones, zone);
    NotIn(zones, l, zone, name);
    NotIn(zones, r, zone, name);
    OneZoneScan(lib, zones, l, zone, r, name, false, qtype);
    OneZoneScan(lib, zones, l, zone, r, name, true, qtype);
  }

  lemma SplitOrder(order: seq<string>, zones: Zones, zone: string) returns (l: seq<string>, r: seq<string>)
    requires IsOrderOf(order, zones) && zone in zones
    ensures order == l + [zone] + r
    ensures forall z :: z in l ==> z in zones && z != zone
    ensures forall z :: z in r ==> z in zones && z != zone
  {
    assert zone in order;
    var k :| 0 <= k < |order| && order[k] == zone;
    l, r := order[..k], order[k + 1..];
    assert forall z :: z in l ==> z in order;
    assert forall z :: z in r ==> z in order;
  }

  lemma OneZoneScan(lib: Library, zones: Zones, l: seq<string>, zone: string, r: seq<string>, name: string,
                    cname: bool, qtype: nat)
    requires zone in zones
    requires !NameExists(Flat(zones, l), name) && !NameExists(Flat(zones, r), name)
    ensures Scan(lib, Flat(zones, l + [zone] + r), name, cname, qtype) ==
            Scan(lib, Named(zone, zones[zone]), name, cname, qtype)
  {
    ScanSplit(lib, zones, l, zone, r, name, cname, qtype);
    ScanOfMissing(lib, Flat(zones, l), name, cname, qtype);
    ScanOfMissing(lib, Flat(zones, r), name, cname, qtype);
  }

  lemma NotIn(zones: Zones, part: seq<string>, zone: string, name: string)
    requires forall z :: z in part ==> z in zones && z != zone
    requires forall z, i :: z in zones && 0 <= i < |zones[z]| && Fqdn(z, zones[z][i]) == name ==> z == zone
    ensures !NameExists(Flat(zones, part), name)
  {
    var flat := Flat(zones, part);
    if NameExists(flat, name) {
      var i :| 0 <= i < |flat| && flat[i].0 == name;
      FlatMembers(zones, part, flat[i]);
    }
  }

  // ---- Zone matching ----

  predicate HasZone(zones: Zones, lower: string) {
    exists z :: z in zones && Lower(z) == lower
  }

  /** The answer matchZone owes: the longest zone on whose label boundary the name lies, or "" when
      no zone with a name of its own matches. */
  ghost predicate IsZoneOf(zones: Zones, name: string, zone: string) {
    if zone == "" then forall y :: HasZone(zones, y) && Matches(y, name) ==> y == ""
    else
      && HasZone(zones, zone) && Matches(zone, name)
      && forall y :: HasZone(zones, y) && Matches(y, name) ==> |y| <= |zone|
  }

  /** Two matching zones of one length are the same zone, so ties cannot matter. */
  lemma EqualLengthMatches(z1: string, z2: string, name: string)
    requires Matches(z1, name) && Matches(z2, name) && |z1| == |z2|
    ensures z1 == z2
  {
    MatchIsTail(z1, name);
    MatchIsTail(z2, name);
  }

  lemma MatchIsTail(zone: string, name: string)
    requires Matches(zone, name)
    ensures |name| >= |zone| + 1
    ensures name[|name| - 1 - |zone|..|name| - 1] == zone
  {
    if name != zone + "." {
      var tail := "." + (zone + ".");
      var at := |name| - |tail|;
      assert name[at..] == tail;
      assert name[at..][1..|tail| - 1] == zone;
    }
  }

  /** So the answer depends on nothing but the configuration. */
  lemma ZoneIsUnique(zones: Zones, name: string, z1: string, z2: string)
    requires IsZoneOf(zones, name, z1) && IsZoneOf(zones, name, z2)
    ensures z1 == z2
  {
    if z1 != "" && z2 != "" {
      EqualLengthMatches(z1, z2, name);
    }
  }

  predicate EndsWith(ls: seq<string>, zs: seq<string>) {
    |ls| >= |zs| && ls[|ls| - |zs|..] == zs
  }

  /** Matching is on whole labels: the zone's labels, and the root label, end the name's labels. */
  lemma MatchesByLabels(zone: string, name: string)
    ensures Matches(zone, name) <==> EndsWith(Split(name, '.'), Split(zone, '.') + [""])
  {
    if Matches(zone, name) {
      MatchGivesLabels(zone, name);
    }
    if EndsWith(Split(name, '.'), Split(zone, '.') + [""]) {
      LabelsGiveMatch(zone, name);
    }
  }

  lemma DottedLabels(zone: string)
    ensures Split(zone + ".", '.') == Split(zone, '.') + [""]
    ensures Join(Split(zone, '.') + [""], '.') == zone + "."
  {
    SplitConcat(zone, "", '.');
    assert zone + "." == zone + ['.'] + "";
    JoinSplit(zone + ".", '.');
  }

  lemma MatchGivesLabels(zone: string, name: string)
    requires Matches(zone, name)
    ensures EndsWith(Split(name, '.'), Split(zone, '.') + [""])
  {
    DottedLabels(zone);
    if name != zone + "." {
      var pre := name[..|name| - |zone| - 2];
      assert name == pre + ['.'] + (zone + ".");
      SplitConcat(pre, zone + ".", '.');
    }
  }

  lemma LabelsGiveMatch(zone: string, name: string)
    requires EndsWith(Split(name, '.'), Split(zone, '.') + [""])
    ensures Matches(zone, name)
  {
    var ls, zs := Split(name, '.'), Split(zone, '.') + [""];
    var pre := ls[..|ls| - |zs|];
    assert ls == pre + zs;
    JoinSplit(name, '.');
    JoinedMatches(pre, zs, zone, name);
  }

  lemma JoinedMatches(pre: seq<string>, zs: seq<string>, zone: string, name: string)
    requires zs == Split(zone, '.') + [""] && name == Join(pre + zs, '.')
    ensures Matches(zone, name)
  {
    DottedLabels(zone);
    if pre != [] {
      JoinConcat(pre, zs, '.');
      SuffixMatches(Join(pre, '.'), zone, name);
    } else {
      assert pre + zs == zs;
    }
  }

  lemma SuffixMatches(pre: string, zone: string, name: string)
    requires name == pre + ['.'] + (zone + ".")
    ensures Matches(zone, name)
  {
    assert name == pre + ("." + (zone + "."));
  }

  lemma FirstMatch(config: Zones, zones: seq<string>, name: string, i: nat)
    requires forall y :: HasZone(config, y) <==> y in zones
    requires LongestFirst(zones) && i < |zones| && Matches(zones[i], name)
    requires forall k :: 0 <= k < i ==> !Matches(zones[k], name)
    ensures IsZoneOf(config, name, zones[i])
  {
    forall y | HasZone(config, y) && Matches(y, name)
      ensures |y| <= |zones[i]|
    {
      var k :| 0 <= k < |zones| && zones[k] == y;
      assert k >= i;
    }
    assert HasZone(config, zones[i]);
  }

  lemma NoMatch(config: Zones, zones: seq<string>, name: string)
    requires forall y :: HasZone(config, y) <==> y in zones
    requires forall k :: 0 <= k < |zones| ==> !Matches(zones[k], name)
    ensures IsZoneOf(config, name, "")
  {
  }

  lemma ZoneListHolds(config: Zones, zones: seq<string>, order: seq<string>)
    requires IsOrderOf(order, config)
    requires multiset(zones) == multiset(LowerAll(order))
    ensures forall y :: HasZone(config, y) <==> y in zones
  {
    assert forall y :: y in zones <==> y in multiset(zones);
    assert forall y :: y in LowerAll(order) <==> y in multiset(LowerAll(order));
    forall y
      ensures HasZone(config, y) <==> y in zones
    {
      if HasZone(config, y) {
        var z :| z in config && Lower(z) == y;
        var i :| 0 <= i < |order| && order[i] == z;
        assert LowerAll(order)[i] == y;
      }
      if y in LowerAll(order) {
        var i :| 0 <= i < |order| && LowerAll(order)[i] == y;
        assert order[i] in config;
      }
    }
  }
}
