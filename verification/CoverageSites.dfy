/** Coverage reports told from the sections and the resolver alone: what every row
    counts is the listed addresses themselves. */
module CoverageSites {
  import opened Prelude
  import opened Resolved
  import opened Tallies
  import opened Coverage
  import opened CoverageLaws

  // ----- places

  /** Place j of section i. */
  type Site = (nat, nat)

  predicate Listed(ss: seq<SectionCounts>, at: Site) { at.0 < |ss| && at.1 < |ss[at.0].instructionStarts| }

  function AddressAt(ss: seq<SectionCounts>, at: Site): nat
    requires Listed(ss, at)
  {
    ss[at.0].instructionStarts[at.1]
  }

  /** How often an address ran: the count of its halfword from the base on, or
      none outside the counts. */
  function RunsAt(section: SectionCounts, address: nat): nat {
    if section.baseAddress <= address < section.baseAddress + 2 * |section.counts|
    then section.counts[(address - section.baseAddress) / 2]
    else 0
  }

  /** What the address at a place is as a start. */
  predicate IsStart(resolver: Resolver, section: SectionCounts, address: nat, x: Start) {
    match resolver.function_(address)
    case None => false
    case Some(f) =>
      && x.address == address && x.entry == Masked(f.addr) && x.name == f.name
      && x.source == resolver.source(address) && x.count == RunsAt(section, address)
  }

  lemma StartAtIs(resolver: Resolver, section: SectionCounts, address: nat)
    ensures CountAt(section, address) == RunsAt(section, address)
    ensures resolver.function_(address).None? ==> StartAt(resolver, section, address) == []
    ensures resolver.function_(address).Some? ==>
              |StartAt(resolver, section, address)| == 1
              && IsStart(resolver, section, address, StartAt(resolver, section, address)[0])
    ensures forall x :: IsStart(resolver, section, address, x) ==> [x] == StartAt(resolver, section, address)
  {
  }

  ghost predicate ListedStart(resolver: Resolver, section: SectionCounts, xs: seq<nat>, x: Start, j: nat) {
    j < |xs| && IsStart(resolver, section, xs[j], x)
  }

  lemma {:induction false} SectionStartsAre(resolver: Resolver, section: SectionCounts, xs: seq<nat>, x: Start)
    ensures x in SectionStarts(resolver, section, xs) <==> exists j :: ListedStart(resolver, section, xs, x, j)
  {
    hide StartAt, IsStart;
    if xs != [] {
      var n := |xs| - 1;
      SectionStartsAre(resolver, section, Init(xs), x);
      StartAtIs(resolver, section, xs[n]);
      if j: nat :| ListedStart(resolver, section, xs, x, j) {
        if j < n { assert ListedStart(resolver, section, Init(xs), x, j); }
      }
      if x in SectionStarts(resolver, section, Init(xs)) {
        var j :| ListedStart(resolver, section, Init(xs), x, j);
        assert ListedStart(resolver, section, xs, x, j);
      }
      if x in StartAt(resolver, section, xs[n]) { assert ListedStart(resolver, section, xs, x, n); }
    }
  }

  ghost predicate StartOfSite(resolver: Resolver, ss: seq<SectionCounts>, x: Start, at: Site) {
    Listed(ss, at) && IsStart(resolver, ss[at.0], AddressAt(ss, at), x)
  }

  /** The starts walked are those of the places listed whose address resolves. */
  lemma {:induction false} StartsAre(resolver: Resolver, ss: seq<SectionCounts>, x: Start)
    ensures x in StartsOf(resolver, ss) <==> exists at :: StartOfSite(resolver, ss, x, at)
  {
    hide SectionStarts, IsStart;
    if ss != [] {
      var n := |ss| - 1;
      StartsAre(resolver, Init(ss), x);
      SectionStartsAre(resolver, ss[n], ss[n].instructionStarts, x);
      if at: Site :| StartOfSite(resolver, ss, x, at) {
        if at.0 < n {
          assert StartOfSite(resolver, Init(ss), x, at);
        } else {
          assert ListedStart(resolver, ss[n], ss[n].instructionStarts, x, at.1);
        }
      }
      if x in StartsOf(resolver, Init(ss)) {
        var at :| StartOfSite(resolver, Init(ss), x, at);
        assert StartOfSite(resolver, ss, x, at);
      }
      if j: nat :| ListedStart(resolver, ss[n], ss[n].instructionStarts, x, j) {
        assert StartOfSite(resolver, ss, x, (n, j));
      }
    }
  }

  // ----- counting places

  /** What a report asks of a place: its section's count of it, and what its
      address resolves to. */
  datatype Facts = Facts(entry: nat, source: Option<ResolvedSource>, count: nat)

  function FactsAt(resolver: Resolver, section: SectionCounts, address: nat): Option<Facts> {
    match resolver.function_(address)
    case None => None
    case Some(f) => Some(Facts(Masked(f.addr), resolver.source(address), RunsAt(section, address)))
  }

  function FactsOf(x: Start): Facts { Facts(x.entry, x.source, x.count) }

  /** The places of one section whose facts are asked for. */
  function Places(resolver: Resolver, section: SectionCounts, xs: seq<nat>, ask: Facts -> bool): set<nat> {
    set j | 0 <= j < |xs| && FactsAt(resolver, section, xs[j]).Some? && ask(FactsAt(resolver, section, xs[j]).value)
  }

  /** The places of all sections whose facts are asked for. */
  function Sites(resolver: Resolver, ss: seq<SectionCounts>, ask: Facts -> bool): set<Site> {
    set i, j | 0 <= i < |ss| && 0 <= j < |ss[i].instructionStarts|
               && FactsAt(resolver, ss[i], ss[i].instructionStarts[j]).Some?
               && ask(FactsAt(resolver, ss[i], ss[i].instructionStarts[j]).value) :: (i, j)
  }

  function Asked(ask: Facts -> bool): Start -> int { (x: Start) => if ask(FactsOf(x)) then 1 else 0 }

  lemma {:induction false} WeighConcat<T>(w: T -> int, xs: seq<T>, ys: seq<T>)
    ensures Weigh(w, xs + ys) == Weigh(w, xs) + Weigh(w, ys)
  {
    if ys == [] {
      assert xs + ys == xs;
    } else {
      assert Init(xs + ys) == xs + Init(ys) && Last(xs + ys) == Last(ys);
      WeighConcat(w, xs, Init(ys));
    }
  }

  lemma OneWeighs(resolver: Resolver, section: SectionCounts, address: nat, ask: Facts -> bool)
    ensures Weigh(Asked(ask), StartAt(resolver, section, address)) ==
            match FactsAt(resolver, section, address)
            case None => 0
            case Some(facts) => if ask(facts) then 1 else 0
  {
    StartAtIs(resolver, section, address);
    var s := StartAt(resolver, section, address);
    if s != [] {
      WeighSnoc(Asked(ask), [], s[0]);
      assert s == [] + [s[0]];
      assert FactsOf(s[0]) == FactsAt(resolver, section, address).value;
    }
  }

  lemma PlacesStep(resolver: Resolver, section: SectionCounts, xs: seq<nat>, ask: Facts -> bool)
    requires xs != []
    ensures var facts := FactsAt(resolver, section, Last(xs));
            Places(resolver, section, xs, ask) == Places(resolver, section, Init(xs), ask)
                                                  + if facts.Some? && ask(facts.value) then {|xs| - 1} else {}
    ensures |xs| - 1 !in Places(resolver, section, Init(xs), ask)
  {
    hide FactsAt;
  }

  lemma {:induction false} SectionCounted(resolver: Resolver, section: SectionCounts, xs: seq<nat>, ask: Facts -> bool)
    ensures |Places(resolver, section, xs, ask)| == Weigh(Asked(ask), SectionStarts(resolver, section, xs))
  {
    hide StartAt, FactsAt, Places;
    if xs == [] {
      NoPlaces(resolver, section, ask);
    } else {
      SectionCounted(resolver, section, Init(xs), ask);
      PlacesStep(resolver, section, xs, ask);
      OneWeighs(resolver, section, Last(xs), ask);
      WeighConcat(Asked(ask), SectionStarts(resolver, section, Init(xs)), StartAt(resolver, section, Last(xs)));
    }
  }

  lemma NoPlaces(resolver: Resolver, section: SectionCounts, ask: Facts -> bool)
    ensures Places(resolver, section, [], ask) == {}
  {
  }

  function Paired(i: nat, js: set<nat>): set<Site> { set j | j in js :: (i, j) }

  lemma {:induction false} PairedCount(i: nat, js: set<nat>)
    ensures |Paired(i, js)| == |js|
    decreases |js|
  {
    if js != {} {
      var j :| j in js;
      PairedCount(i, js - {j});
      assert Paired(i, js) == Paired(i, js - {j}) + {(i, j)};
      assert (i, j) !in Paired(i, js - {j});
    }
  }

  lemma SitesStep(resolver: Resolver, ss: seq<SectionCounts>, ask: Facts -> bool)
    requires ss != []
    ensures var (n, last) := (|ss| - 1, Last(ss));
            && Sites(resolver, ss, ask) == Sites(resolver, Init(ss), ask)
                                           + Paired(n, Places(resolver, last, last.instructionStarts, ask))
            && Sites(resolver, Init(ss), ask) !! Paired(n, Places(resolver, last, last.instructionStarts, ask))
  {
    hide FactsAt;
  }

  /** As many places are asked for as starts weigh. */
  lemma {:induction false} SitesCounted(resolver: Resolver, ss: seq<SectionCounts>, ask: Facts -> bool)
    ensures |Sites(resolver, ss, ask)| == Weigh(Asked(ask), StartsOf(resolver, ss))
  {
    hide SectionStarts, Places, Sites, FactsAt;
    if ss == [] {
      NoSites(resolver, ask);
    } else {
      var last := Last(ss);
      SitesCounted(resolver, Init(ss), ask);
      SitesStep(resolver, ss, ask);
      SectionCounted(resolver, last, last.instructionStarts, ask);
      PairedCount(|ss| - 1, Places(resolver, last, last.instructionStarts, ask));
      WeighConcat(Asked(ask), StartsOf(resolver, Init(ss)), SectionStarts(resolver, last, last.instructionStarts));
    }
  }

  lemma NoSites(resolver: Resolver, ask: Facts -> bool)
    ensures Sites(resolver, [], ask) == {}
  {
  }

  lemma {:induction false} GroupWeighs<K>(key: Start -> Option<K>, w: Start -> int, xs: seq<Start>, k: K,
                                          ask: Facts -> bool)
    requires forall x :: (key(x) == Some(k) ==> w(x) == Asked(ask)(x)) && (key(x) != Some(k) ==> !ask(FactsOf(x)))
    ensures Weigh(w, Group(key, xs, k)) == Weigh(Asked(ask), xs)
  {
    hide Group, Weigh;
    if xs == [] {
      GroupEmpty(key, xs, k);
      NothingWeighs(w);
      NothingWeighs(Asked(ask));
    } else {
      GroupWeighs(key, w, Init(xs), k, ask);
      var last := Last(xs);
      GroupStep(key, xs, k);
      assert xs == Init(xs) + [last];
      WeighSnoc(Asked(ask), Init(xs), last);
      if key(last) == Some(k) { WeighSnoc(w, Group(key, Init(xs), k), last); }
    }
  }

  lemma LineAsks(l: ResolvedSource, x: Start)
    ensures SourceKey(x) == Some(l) ==> Unit(x) == Asked(OnLine(l))(x) && Hit(x) == Asked(RanOnLine(l))(x)
    ensures SourceKey(x) != Some(l) ==> !OnLine(l)(FactsOf(x)) && !RanOnLine(l)(FactsOf(x))
  {
    assert FactsOf(x).source == SourceKey(x);
  }

  lemma EntryAsks(k: nat, x: Start)
    ensures EntryKey(x) == Some(k) ==> Unit(x) == Asked(InFunction(k))(x) && Hit(x) == Asked(RanInFunction(k))(x)
    ensures EntryKey(x) != Some(k) ==> !InFunction(k)(FactsOf(x)) && !RanInFunction(k)(FactsOf(x))
  {
    assert FactsOf(x).entry == x.entry;
  }

  // ----- line rows

  function OnLine(l: ResolvedSource): Facts -> bool { (f: Facts) => f.source == Some(l) }

  function RanOnLine(l: ResolvedSource): Facts -> bool { (f: Facts) => f.source == Some(l) && f.count > 0 }

  /** A line's row counts the listed addresses that resolve to a function and whose
      own source it is, those of them that ran, and their largest count. */
  lemma LineRowSays(resolver: Resolver, ss: seq<SectionCounts>, l: ResolvedSource)
    ensures var row := LineRowOf(StartsOf(resolver, ss), l);
            && row.file == l.file && row.line == l.line
            && row.instructions == |Sites(resolver, ss, OnLine(l))|
            && row.instructionsCovered == |Sites(resolver, ss, RanOnLine(l))|
            && (forall at :: at in Sites(resolver, ss, OnLine(l)) ==>
                  Listed(ss, at) && RunsAt(ss[at.0], AddressAt(ss, at)) <= row.runCount)
            && (row.runCount > 0 ==>
                  exists at :: && at in Sites(resolver, ss, OnLine(l)) && Listed(ss, at)
                               && RunsAt(ss[at.0], AddressAt(ss, at)) == row.runCount)
  {
    hide Group, Weigh, StartsOf, Sites;
    var xs := StartsOf(resolver, ss);
    var g := OfLine(xs, l);
    SitesCounted(resolver, ss, OnLine(l));
    SitesCounted(resolver, ss, RanOnLine(l));
    forall x: Start
      ensures SourceKey(x) == Some(l) ==> Unit(x) == Asked(OnLine(l))(x) && Hit(x) == Asked(RanOnLine(l))(x)
      ensures SourceKey(x) != Some(l) ==> !OnLine(l)(FactsOf(x)) && !RanOnLine(l)(FactsOf(x))
    {
      LineAsks(l, x);
    }
    GroupWeighs(SourceKey, Unit, xs, l, OnLine(l));
    GroupWeighs(SourceKey, Hit, xs, l, RanOnLine(l));
    WeighsNat(g);
    forall at | at in Sites(resolver, ss, OnLine(l))
      ensures Listed(ss, at) && RunsAt(ss[at.0], AddressAt(ss, at)) <= Peak(g)
    {
      var x := SiteStart(resolver, ss, OnLine(l), at);
      GroupHolds(SourceKey, xs, l, x);
    }
    if Peak(g) > 0 {
      var x :| x in g && x.count == Peak(g);
      GroupHolds(SourceKey, xs, l, x);
      var at := StartSite(resolver, ss, OnLine(l), x);
    }
  }

  /** A place asked for is walked as a start. */
  lemma SiteStart(resolver: Resolver, ss: seq<SectionCounts>, ask: Facts -> bool, at: Site) returns (x: Start)
    requires at in Sites(resolver, ss, ask)
    ensures Listed(ss, at) && x in StartsOf(resolver, ss) && ask(FactsOf(x))
    ensures x.count == RunsAt(ss[at.0], AddressAt(ss, at)) && StartOfSite(resolver, ss, x, at)
  {
    var section, address := ss[at.0], ss[at.0].instructionStarts[at.1];
    StartAtIs(resolver, section, address);
    x := StartAt(resolver, section, address)[0];
    assert StartOfSite(resolver, ss, x, at);
    StartsAre(resolver, ss, x);
  }

  lemma StartSite(resolver: Resolver, ss: seq<SectionCounts>, ask: Facts -> bool, x: Start) returns (at: Site)
    requires x in StartsOf(resolver, ss) && ask(FactsOf(x))
    ensures at in Sites(resolver, ss, ask) && StartOfSite(resolver, ss, x, at)
    ensures Listed(ss, at) && x.count == RunsAt(ss[at.0], AddressAt(ss, at))
  {
    StartsAre(resolver, ss, x);
    at :| StartOfSite(resolver, ss, x, at);
    assert FactsAt(resolver, ss[at.0], AddressAt(ss, at)) == Some(FactsOf(x));
  }

  /** The line report has a row for a line exactly if some listed address that
      resolves has it as its source. */
  lemma LinesMet(resolver: Resolver, ss: seq<SectionCounts>, l: ResolvedSource)
    ensures l in FirstSeen(SourceKey, StartsOf(resolver, ss)) <==> Sites(resolver, ss, OnLine(l)) != {}
  {
    hide StartsOf, FirstSeen, Sites;
    var xs := StartsOf(resolver, ss);
    if l in FirstSeen(SourceKey, xs) {
      var x :| x in xs && SourceKey(x) == Some(l);
      var at := StartSite(resolver, ss, OnLine(l), x);
    }
    if Sites(resolver, ss, OnLine(l)) != {} {
      var at :| at in Sites(resolver, ss, OnLine(l));
      var x := SiteStart(resolver, ss, OnLine(l), at);
      assert SourceKey(x) == Some(l);
    }
  }

  // ----- function rows

  function InFunction(entry: nat): Facts -> bool { (f: Facts) => f.entry == entry }

  function RanInFunction(entry: nat): Facts -> bool { (f: Facts) => f.entry == entry && f.count > 0 }

  lemma FunctionsMet(resolver: Resolver, ss: seq<SectionCounts>, entry: nat)
    ensures entry in FirstSeen(EntryKey, StartsOf(resolver, ss)) <==> Sites(resolver, ss, InFunction(entry)) != {}
  {
    hide StartsOf, FirstSeen, Sites;
    var xs := StartsOf(resolver, ss);
    if entry in FirstSeen(EntryKey, xs) {
      var x :| x in xs && EntryKey(x) == Some(entry);
      var at := StartSite(resolver, ss, InFunction(entry), x);
    }
    if Sites(resolver, ss, InFunction(entry)) != {} {
      var at :| at in Sites(resolver, ss, InFunction(entry));
      var x := SiteStart(resolver, ss, InFunction(entry), at);
      assert EntryKey(x) == Some(entry);
    }
  }

  /** The executions of a function's listed addresses, section after section. */
  function RunsInSection(resolver: Resolver, section: SectionCounts, xs: seq<nat>, entry: nat): nat {
    if xs == [] then 0
    else
      var f := resolver.function_(xs[|xs| - 1]);
      RunsInSection(resolver, section, xs[..|xs| - 1], entry)
      + if f.Some? && Masked(f.value.addr) == entry then RunsAt(section, xs[|xs| - 1]) else 0
  }

  function RunsInAll(resolver: Resolver, ss: seq<SectionCounts>, entry: nat): nat {
    if ss == [] then 0
    else
      var last := ss[|ss| - 1];
      RunsInAll(resolver, ss[..|ss| - 1], entry) + RunsInSection(resolver, last, last.instructionStarts, entry)
  }

  /** The sources of places. */
  ghost function SourcesOf(resolver: Resolver, ss: seq<SectionCounts>, sites: set<Site>): set<ResolvedSource> {
    set at | at in sites && Listed(ss, at) && resolver.source(AddressAt(ss, at)).Some? ::
      resolver.source(AddressAt(ss, at)).value
  }

  /** What a function's row counts: its listed addresses, those that ran, and the
      distinct source lines of either. */
  lemma FunctionRowCounts(resolver: Resolver, ss: seq<SectionCounts>, entry: nat)
    ensures var row := FunctionRowOf(resolver, StartsOf(resolver, ss), entry);
            && row.instructions == |Sites(resolver, ss, InFunction(entry))|
            && row.instructionsCovered == |Sites(resolver, ss, RanInFunction(entry))|
            && row.srcLines == |SourcesOf(resolver, ss, Sites(resolver, ss, InFunction(entry)))|
            && row.srcLinesCovered == |SourcesOf(resolver, ss, Sites(resolver, ss, RanInFunction(entry)))|
  {
    hide Group, Weigh, StartsOf, Sites, HomeOf, EntryRuns, SourcesOf, Lines, CoveredLines;
    var xs := StartsOf(resolver, ss);
    SitesCounted(resolver, ss, InFunction(entry));
    SitesCounted(resolver, ss, RanInFunction(entry));
    forall x: Start
      ensures EntryKey(x) == Some(entry) ==>
                Unit(x) == Asked(InFunction(entry))(x) && Hit(x) == Asked(RanInFunction(entry))(x)
      ensures EntryKey(x) != Some(entry) ==> !InFunction(entry)(FactsOf(x)) && !RanInFunction(entry)(FactsOf(x))
    {
      EntryAsks(entry, x);
    }
    GroupWeighs(EntryKey, Unit, xs, entry, InFunction(entry));
    GroupWeighs(EntryKey, Hit, xs, entry, RanInFunction(entry));
    WeighsNat(OfEntry(xs, entry));
    LinesAre(resolver, ss, entry);
  }

  lemma LinesAre(resolver: Resolver, ss: seq<SectionCounts>, entry: nat)
    ensures var g := OfEntry(StartsOf(resolver, ss), entry);
            && Lines(g) == SourcesOf(resolver, ss, Sites(resolver, ss, InFunction(entry)))
            && CoveredLines(g) == SourcesOf(resolver, ss, Sites(resolver, ss, RanInFunction(entry)))
  {
    hide Group, StartsOf, Sites;
    var xs := StartsOf(resolver, ss);
    var g := OfEntry(xs, entry);
    forall l ensures l in Lines(g) <==> l in SourcesOf(resolver, ss, Sites(resolver, ss, InFunction(entry))) {
      if l in Lines(g) {
        var x :| x in g && x.source == Some(l);
        GroupHolds(EntryKey, xs, entry, x);
        var at := StartSite(resolver, ss, InFunction(entry), x);
      }
      if l in SourcesOf(resolver, ss, Sites(resolver, ss, InFunction(entry))) {
        var at :| at in Sites(resolver, ss, InFunction(entry)) && Listed(ss, at)
                  && resolver.source(AddressAt(ss, at)) == Some(l);
        var x := SiteStart(resolver, ss, InFunction(entry), at);
        GroupHolds(EntryKey, xs, entry, x);
      }
    }
    forall l ensures l in CoveredLines(g) <==> l in SourcesOf(resolver, ss, Sites(resolver, ss, RanInFunction(entry))) {
      if l in CoveredLines(g) {
        var x :| x in g && x.source == Some(l) && x.count > 0;
        GroupHolds(EntryKey, xs, entry, x);
        var at := StartSite(resolver, ss, RanInFunction(entry), x);
      }
      if l in SourcesOf(resolver, ss, Sites(resolver, ss, RanInFunction(entry))) {
        var at :| at in Sites(resolver, ss, RanInFunction(entry)) && Listed(ss, at)
                  && resolver.source(AddressAt(ss, at)) == Some(l);
        var x := SiteStart(resolver, ss, RanInFunction(entry), at);
        GroupHolds(EntryKey, xs, entry, x);
      }
    }
  }

  lemma {:induction false} SectionRuns(resolver: Resolver, section: SectionCounts, xs: seq<nat>, k: nat)
    ensures Weigh(Executions, OfEntry(SectionStarts(resolver, section, xs), k))
            == RunsInSection(resolver, section, xs, k)
  {
    hide StartAt, Group, Weigh, RunsAt;
    if xs == [] {
      GroupEmpty(EntryKey, SectionStarts(resolver, section, xs), k);
      NothingWeighs(Executions);
    } else {
      var last := StartAt(resolver, section, Last(xs));
      SectionRuns(resolver, section, Init(xs), k);
      StartAtIs(resolver, section, Last(xs));
      GroupConcat(EntryKey, SectionStarts(resolver, section, Init(xs)), last, k);
      WeighConcat(Executions, OfEntry(SectionStarts(resolver, section, Init(xs)), k), OfEntry(last, k));
      OneRuns(last, k);
    }
  }

  lemma OneRuns(xs: seq<Start>, k: nat)
    requires |xs| <= 1
    ensures Weigh(Executions, OfEntry(xs, k)) == if xs != [] && xs[0].entry == k then xs[0].count else 0
  {
    if xs != [] {
      assert xs == [] + [xs[0]];
      GroupSnoc(EntryKey, [], xs[0], k);
      assert Group(EntryKey, [], k) == [];
      WeighSnoc(Executions, [], xs[0]);
    }
  }

  lemma {:induction false} AllRuns(resolver: Resolver, ss: seq<SectionCounts>, k: nat)
    ensures Weigh(Executions, OfEntry(StartsOf(resolver, ss), k)) == RunsInAll(resolver, ss, k)
  {
    hide SectionStarts, Group, Weigh, RunsInSection;
    if ss == [] {
      GroupEmpty(EntryKey, StartsOf(resolver, ss), k);
      NothingWeighs(Executions);
    } else {
      var last := SectionStarts(resolver, Last(ss), Last(ss).instructionStarts);
      AllRuns(resolver, Init(ss), k);
      SectionRuns(resolver, Last(ss), Last(ss).instructionStarts, k);
      GroupConcat(EntryKey, StartsOf(resolver, Init(ss)), last, k);
      WeighConcat(Executions, OfEntry(StartsOf(resolver, Init(ss)), k), OfEntry(last, k));
    }
  }

  /** The section lists the function's own entry. */
  predicate ListsEntry(resolver: Resolver, section: SectionCounts, k: nat) {
    resolver.Entry(k) == Some(k) && k in section.instructionStarts
  }

  lemma {:induction false} RunsWithoutTail(g: seq<Start>, h: seq<Start>, k: nat)
    requires forall s :: s in h ==> s.address != k
    ensures EntryRuns(g + h, k) == EntryRuns(g, k)
  {
    if h == [] {
      assert g + h == g;
    } else {
      assert Init(g + h) == g + Init(h) && Last(g + h) == Last(h);
      RunsWithoutTail(g, Init(h), k);
    }
  }

  /** Starts of a section at a function's entry there are exactly if the section
      lists it, and they count its runs there. */
  lemma SectionAtEntry(resolver: Resolver, section: SectionCounts, k: nat)
    ensures var h := OfEntry(SectionStarts(resolver, section, section.instructionStarts), k);
            && (ListsEntry(resolver, section, k) <==> exists s :: s in h && s.address == k)
            && (forall s :: s in h && s.address == k ==> s.count == RunsAt(section, k))
  {
    hide SectionStarts, Group, StartAt;
    var xs := section.instructionStarts;
    var all := SectionStarts(resolver, section, xs);
    forall s | s in OfEntry(all, k) && s.address == k
      ensures s.count == RunsAt(section, k) && ListsEntry(resolver, section, k)
    {
      GroupHolds(EntryKey, all, k, s);
      SectionStartsAre(resolver, section, xs, s);
      var j: nat :| ListedStart(resolver, section, xs, s, j);
    }
    if ListsEntry(resolver, section, k) {
      var j :| 0 <= j < |xs| && xs[j] == k;
      StartAtIs(resolver, section, k);
      var s := StartAt(resolver, section, k)[0];
      assert ListedStart(resolver, section, xs, s, j);
      SectionStartsAre(resolver, section, xs, s);
      GroupHolds(EntryKey, all, k, s);
    }
  }

  /** A function's run count is that of its entry in the last section that lists
      it, and none if no section does. */
  lemma {:induction false} RunCountSays(resolver: Resolver, ss: seq<SectionCounts>, k: nat)
    ensures var runs := EntryRuns(OfEntry(StartsOf(resolver, ss), k), k);
            && ((forall i :: 0 <= i < |ss| ==> !ListsEntry(resolver, ss[i], k)) ==> runs == 0)
            && forall i :: 0 <= i < |ss| && ListsEntry(resolver, ss[i], k)
                           && (forall l :: i < l < |ss| ==> !ListsEntry(resolver, ss[l], k)) ==>
                 runs == RunsAt(ss[i], k)
  {
    hide SectionStarts, Group, EntryRuns, ListsEntry, RunsAt;
    if ss == [] {
      GroupEmpty(EntryKey, StartsOf(resolver, ss), k);
      NoRuns(k);
    } else {
      var n := |ss| - 1;
      var g, h := OfEntry(StartsOf(resolver, Init(ss)), k),
          OfEntry(SectionStarts(resolver, ss[n], ss[n].instructionStarts), k);
      GroupConcat(EntryKey, StartsOf(resolver, Init(ss)), SectionStarts(resolver, ss[n], ss[n].instructionStarts), k);
      SectionAtEntry(resolver, ss[n], k);
      if ListsEntry(resolver, ss[n], k) {
        RunsOfTail(g, h, k, RunsAt(ss[n], k));
      } else {
        RunsWithoutTail(g, h, k);
        RunCountSays(resolver, Init(ss), k);
        assert forall i :: 0 <= i < n ==> Init(ss)[i] == ss[i];
      }
    }
  }

  lemma NoRuns(k: nat)
    ensures EntryRuns([], k) == 0
  {
  }

  // ----- a function's name and place

  /** The first place of a list whose address lies in the function. */
  ghost predicate FirstPlace(resolver: Resolver, section: SectionCounts, xs: seq<nat>, k: nat, x: Start, j: nat) {
    ListedStart(resolver, section, xs, x, j) && x.entry == k && forall i :: 0 <= i < j ==>
        resolver.Entry(xs[i]) != Some(k)
  }

  lemma NoneInFunction(resolver: Resolver, section: SectionCounts, xs: seq<nat>, k: nat)
    requires OfEntry(SectionStarts(resolver, section, xs), k) == []
    ensures forall i :: 0 <= i < |xs| ==> resolver.Entry(xs[i]) != Some(k)
  {
    hide SectionStarts, Group, StartAt;
    forall i | 0 <= i < |xs| ensures resolver.Entry(xs[i]) != Some(k) {
      if resolver.Entry(xs[i]) == Some(k) {
        StartAtIs(resolver, section, xs[i]);
        var x := StartAt(resolver, section, xs[i])[0];
        assert ListedStart(resolver, section, xs, x, i);
        SectionStartsAre(resolver, section, xs, x);
        GroupHolds(EntryKey, SectionStarts(resolver, section, xs), k, x);
      }
    }
  }

  lemma {:induction false} SectionFirst(resolver: Resolver, section: SectionCounts, xs: seq<nat>, k: nat)
    returns (j: nat)
    requires OfEntry(SectionStarts(resolver, section, xs), k) != []
    ensures FirstPlace(resolver, section, xs, k, OfEntry(SectionStarts(resolver, section, xs), k)[0], j)
  {
    hide StartAt, IsStart;
    if xs == [] { assert false; }
    var n := |xs| - 1;
    var before, last := SectionStarts(resolver, section, Init(xs)), StartAt(resolver, section, xs[n]);
    GroupConcat(EntryKey, before, last, k);
    if OfEntry(before, k) != [] {
      j := SectionFirst(resolver, section, Init(xs), k);
      assert forall i :: 0 <= i < n ==> Init(xs)[i] == xs[i];
    } else {
      j := n;
      NoneInFunction(resolver, section, Init(xs), k);
      assert forall i :: 0 <= i < n ==> Init(xs)[i] == xs[i];
      StartAtIs(resolver, section, xs[n]);
      GroupHolds(EntryKey, last, k, OfEntry(last, k)[0]);
    }
  }

  /** The first place of all sections whose address lies in the function. */
  ghost predicate FirstSite(resolver: Resolver, ss: seq<SectionCounts>, k: nat, x: Start, at: Site) {
    && at.0 < |ss| && FirstPlace(resolver, ss[at.0], ss[at.0].instructionStarts, k, x, at.1)
    && forall i, j :: 0 <= i < at.0 && 0 <= j < |ss[i].instructionStarts| ==>
         resolver.Entry(ss[i].instructionStarts[j]) != Some(k)
  }

  lemma {:induction false} FirstOfAll(resolver: Resolver, ss: seq<SectionCounts>, k: nat) returns (at: Site)
    requires OfEntry(StartsOf(resolver, ss), k) != []
    ensures FirstSite(resolver, ss, k, OfEntry(StartsOf(resolver, ss), k)[0], at)
  {
    hide SectionStarts, FirstPlace;
    if ss == [] { assert false; }
    var n := |ss| - 1;
    var before, last := StartsOf(resolver, Init(ss)), SectionStarts(resolver, ss[n], ss[n].instructionStarts);
    GroupConcat(EntryKey, before, last, k);
    if OfEntry(before, k) != [] {
      at := FirstOfAll(resolver, Init(ss), k);
      assert forall i :: 0 <= i < n ==> Init(ss)[i] == ss[i];
    } else {
      var j := SectionFirst(resolver, ss[n], ss[n].instructionStarts, k);
      at := (n, j);
      NoneEarlier(resolver, Init(ss), k);
      assert forall i :: 0 <= i < n ==> Init(ss)[i] == ss[i];
    }
  }

  lemma {:induction false} NoneEarlier(resolver: Resolver, ss: seq<SectionCounts>, k: nat)
    requires OfEntry(StartsOf(resolver, ss), k) == []
    ensures forall i, j :: 0 <= i < |ss| && 0 <= j < |ss[i].instructionStarts| ==>
              resolver.Entry(ss[i].instructionStarts[j]) != Some(k)
  {
    hide SectionStarts;
    if ss != [] {
      var n := |ss| - 1;
      var last := SectionStarts(resolver, ss[n], ss[n].instructionStarts);
      GroupConcat(EntryKey, StartsOf(resolver, Init(ss)), last, k);
      NoneEarlier(resolver, Init(ss), k);
      NoneInFunction(resolver, ss[n], ss[n].instructionStarts, k);
      assert forall i :: 0 <= i < n ==> Init(ss)[i] == ss[i];
    }
  }

  /** The whole row of a function met: counted as said, run as its entry in the last
      section that lists it, named by its first listed address, and placed at its
      entry's source or else at that address's. */
  lemma FunctionRowSays(resolver: Resolver, ss: seq<SectionCounts>, k: nat) returns (x: Start, at: Site)
    requires Sites(resolver, ss, InFunction(k)) != {}
    ensures FirstSite(resolver, ss, k, x, at)
    ensures var row := FunctionRowOf(resolver, StartsOf(resolver, ss), k);
            && row.name == x.name
            && (match resolver.source(k)
                case Some(s) => row.file == s.file && row.line == s.line
                case None =>
                  match x.source
                  case Some(s) => row.file == s.file && row.line == s.line
                  case None => row.file == "" && row.line == 0)
            && row.instructionsExecuted == RunsInAll(resolver, ss, k)
            && row.runCount == EntryRuns(OfEntry(StartsOf(resolver, ss), k), k)
  {
    hide Group, Weigh, StartsOf, Sites, EntryRuns, Lines, CoveredLines, FirstSite;
    var g := OfEntry(StartsOf(resolver, ss), k);
    var place :| place in Sites(resolver, ss, InFunction(k));
    var y := SiteStart(resolver, ss, InFunction(k), place);
    GroupHolds(EntryKey, StartsOf(resolver, ss), k, y);
    at := FirstOfAll(resolver, ss, k);
    x := g[0];
    AllRuns(resolver, ss, k);
    WeighsNat(g);
  }
}
