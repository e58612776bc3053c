/** The checkpoint accounting of ServiceTracker: what finishing a service method adds up, what a
    checkpoint reports and clears. Clock readings are arguments; all arithmetic is on uint64. */
module ServiceTracker {
  import opened Bits
  import Counters

  const CHECKPOINT_MINIMUM_INTERVAL_SECONDS := 60
  const LIFETIME := "lifetime_services"
  const CHECKPOINT_TIME := "checkpoint_time"

  function CountKey(name: string): string { "checkpoint_count_" + name }
  function SpeedKey(name: string): string { "checkpoint_speed_" + name }

  type uint64 = n: int | 0 <= n < TWO64

  /** checkpointServiceDuration_: calls and total duration by service name. */
  datatype Timing = Timing(count: uint64, duration: uint64)

  /** What a checkpoint logged and exported. */
  datatype Report = Report(services: uint64, duration: uint64, interval: uint64, byName: map<string, Timing>)

  datatype Tracker = Tracker(
    counters: map<string, int>,
    checkpointTime: int,
    checkpointServices: uint64,
    checkpointDuration: uint64,
    byName: map<string, Timing>,
    reports: seq<Report>)

  /** A finished service method and the two clock readings taken on its behalf. */
  datatype Finish = Finish(name: string, duration: int, logOnly: bool, now: int, reportNow: int)

  function Increment(counters: map<string, int>, key: string): map<string, int> {
    Counters.ApplyMap(counters, Counters.Increment(key, 1))
  }

  function SetTo(counters: map<string, int>, key: string, value: uint64): map<string, int> {
    Counters.ApplyMap(counters, Counters.Set(key, S64(value)))
  }

  function Timed(byName: map<string, Timing>, name: string, duration: int): map<string, Timing> {
    if name in byName then
      byName[name := Timing(U64(byName[name].count + 1), U64(byName[name].duration + duration))]
    else byName[name := Timing(1, U64(duration))]
  }

  function Counted(s: Tracker, f: Finish): Tracker {
    s.(counters := Increment(s.counters, LIFETIME),
       checkpointServices := U64(s.checkpointServices + 1),
       checkpointDuration := U64(s.checkpointDuration + f.duration),
       byName := Timed(s.byName, f.name, f.duration))
  }

  function Speed(t: Timing): uint64 {
    if t.count == 0 then 0 else t.duration / t.count
  }

  predicate IsCountKey(byName: map<string, Timing>, key: string) {
    exists name | name in byName :: key == CountKey(name)
  }

  predicate IsSpeedKey(byName: map<string, Timing>, key: string) {
    exists name | name in byName :: key == SpeedKey(name)
  }

  /** The counters a checkpoint sets, in whatever order the names are visited, and no others. */
  predicate Exported(before: map<string, int>, byName: map<string, Timing>, interval: uint64, after: map<string, int>) {
    && CHECKPOINT_TIME in after && after[CHECKPOINT_TIME] == S64(interval)
    && (forall name | name in byName :: NameExported(byName[name], name, after))
    && (forall key | key in after && key != CHECKPOINT_TIME && !IsCountKey(byName, key) && !IsSpeedKey(byName, key) ::
          key in before && after[key] == before[key])
    && (forall key | key in before :: key in after)
  }

  predicate NameExported(t: Timing, name: string, after: map<string, int>) {
    && CountKey(name) in after && after[CountKey(name)] == S64(t.count)
    && SpeedKey(name) in after && after[SpeedKey(name)] == S64(Speed(t))
  }

  predicate ReportStep(s: Tracker, now: int, s': Tracker) {
    var interval := U64(now - s.checkpointTime);
    && Exported(s.counters, s.byName, interval, s'.counters)
    && s' == Tracker(s'.counters, now, 0, 0, map[],
                     s.reports + [Report(s.checkpointServices, s.checkpointDuration, interval, s.byName)])
  }

  /** finishService. The interval test is unsigned: a clock that went back also reports. */
  predicate FinishStep(featureCheckpoint: bool, s: Tracker, f: Finish, s': Tracker) {
    if f.logOnly then s' == s
    else if !featureCheckpoint then s' == s.(counters := Increment(s.counters, LIFETIME))
    else if U64(f.now - s.checkpointTime) >= CHECKPOINT_MINIMUM_INTERVAL_SECONDS then
      ReportStep(Counted(s, f), f.reportNow, s')
    else s' == Counted(s, f)
  }

  // ----- sums over the map -----

  ghost function Counts(m: map<string, Timing>): nat
    decreases |m|
  {
    if m == map[] then 0
    else
      var name :| name in m;
      m[name].count + Counts(m - {name})
  }

  ghost function Durations(m: map<string, Timing>): nat
    decreases |m|
  {
    if m == map[] then 0
    else
      var name :| name in m;
      m[name].duration + Durations(m - {name})
  }

  lemma {:induction false} SumsWithout(m: map<string, Timing>, name: string)
    requires name in m
    ensures Counts(m) == m[name].count + Counts(m - {name})
    ensures Durations(m) == m[name].duration + Durations(m - {name})
    decreases |m|
  {
    CountsWithout(m, name);
    DurationsWithout(m, name);
  }

  lemma {:induction false} CountsWithout(m: map<string, Timing>, name: string)
    requires name in m
    ensures Counts(m) == m[name].count + Counts(m - {name})
    decreases |m|
  {
    var first :| first in m && Counts(m) == m[first].count + Counts(m - {first});
    if first != name {
      CountsWithout(m - {first}, name);
      CountsWithout(m - {name}, first);
      assert m - {first} - {name} == m - {name} - {first};
    }
  }

  lemma {:induction false} DurationsWithout(m: map<string, Timing>, name: string)
    requires name in m
    ensures Durations(m) == m[name].duration + Durations(m - {name})
    decreases |m|
  {
    var first :| first in m && Durations(m) == m[first].duration + Durations(m - {first});
    if first != name {
      DurationsWithout(m - {first}, name);
      DurationsWithout(m - {name}, first);
      assert m - {first} - {name} == m - {name} - {first};
    }
  }

  lemma TimedAdds(m: map<string, Timing>, name: string, duration: int)
    ensures U64(Counts(Timed(m, name, duration))) == U64(Counts(m) + 1)
    ensures U64(Durations(Timed(m, name, duration))) == U64(Durations(m) + duration)
  {
    var m' := Timed(m, name, duration);
    SumsWithout(m', name);
    assert m' - {name} == m - {name};
    if name in m {
      SumsWithout(m, name);
      AddWraps(m[name].count + 1, Counts(m - {name}));
      AddWraps(m[name].duration + duration, Durations(m - {name}));
    } else {
      assert m - {name} == m;
      AddWraps(duration, Durations(m));
    }
  }

  lemma AddWraps(a: int, b: int)
    ensures U64(U64(a) + b) == U64(a + b)
  {
  }

  // ----- the accounts -----

  function Services(reports: seq<Report>): nat {
    if reports == [] then 0 else Services(reports[..|reports| - 1]) + reports[|reports| - 1].services
  }

  function Lifetime(s: Tracker): int {
    Counters.ApplyRet(s.counters, Counters.Get(LIFETIME))
  }

  ghost predicate CountsMatch(r: Report) {
    U64(Counts(r.byName)) == r.services
  }

  ghost predicate DurationsMatch(r: Report) {
    U64(Durations(r.byName)) == r.duration
  }

  /** base is what lifetime_services held before, garbage what checkpointDuration_ held before its
      first assignment. */
  ghost predicate Accounts(s: Tracker, base: int, garbage: uint64) {
    && U64(Lifetime(s)) == U64(base + Services(s.reports) + s.checkpointServices)
    && U64(Counts(s.byName)) == s.checkpointServices
    && s.checkpointDuration == U64(Durations(s.byName) + if s.reports == [] then garbage else 0)
    && (forall r | r in s.reports :: CountsMatch(r))
    && (forall i | 0 < i < |s.reports| :: DurationsMatch(s.reports[i]))
    && (s.reports != [] ==> s.reports[0].duration == U64(Durations(s.reports[0].byName) + garbage))
  }

  lemma CountedKeepsAccounts(s: Tracker, f: Finish, base: int, garbage: uint64)
    requires Accounts(s, base, garbage)
    ensures Accounts(Counted(s, f), base, garbage)
  {
    hide Counts, Durations, Services, Timed;
    TimedAdds(s.byName, f.name, f.duration);
    AddWraps(Counts(s.byName), 1);
    var g: uint64 := if s.reports == [] then garbage else 0;
    AddWraps(Durations(s.byName) + g, f.duration);
    AddWraps(Durations(s.byName) + f.duration, g);
    AddWraps(Durations(Timed(s.byName, f.name, f.duration)), g);
    var owed := base + Services(s.reports);
    assert U64(Lifetime(s) + 1) == U64(owed + s.checkpointServices + 1) by {
      AddWraps(Lifetime(s), 1);
      AddWraps(owed + s.checkpointServices, 1);
    }
    AddWraps(s.checkpointServices + 1, owed);
    LifetimeIncrements(s);
  }

  lemma LifetimeIncrements(s: Tracker)
    ensures U64(Lifetime(s.(counters := Increment(s.counters, LIFETIME)))) == U64(Lifetime(s) + 1)
  {
  }

  /** Distinct counters: no checkpoint counter is lifetime_services, or another's. */
  lemma KeysDistinct(a: string, b: string)
    ensures CountKey(a) != LIFETIME && SpeedKey(a) != LIFETIME && CHECKPOINT_TIME != LIFETIME
    ensures CountKey(a) != CHECKPOINT_TIME && SpeedKey(a) != CHECKPOINT_TIME && CountKey(a) != SpeedKey(b)
    ensures a != b ==> CountKey(a) != CountKey(b) && SpeedKey(a) != SpeedKey(b)
  {
    assert CountKey(a)[11] == 'c' && SpeedKey(a)[11] == 's' && SpeedKey(b)[11] == 's';
    assert CHECKPOINT_TIME[11] == 't';
    assert CountKey(a)[0] == 'c' && SpeedKey(a)[0] == 'c' && LIFETIME[0] == 'l';
    assert CountKey(a)[17..] == a && CountKey(b)[17..] == b;
    assert SpeedKey(a)[17..] == a && SpeedKey(b)[17..] == b;
  }

  lemma ReportKeepsLifetime(s: Tracker, now: int, s': Tracker)
    requires ReportStep(s, now, s')
    ensures Lifetime(s') == Lifetime(s)
  {
    hide CountKey, SpeedKey;
    KeysDistinct("", "");
    forall name | name in s.byName
      ensures CountKey(name) != LIFETIME && SpeedKey(name) != LIFETIME
    {
      KeysDistinct(name, name);
    }
    assert !IsCountKey(s.byName, LIFETIME) && !IsSpeedKey(s.byName, LIFETIME);
  }

  lemma ReportKeepsAccounts(s: Tracker, now: int, s': Tracker, base: int, garbage: uint64)
    requires Accounts(s, base, garbage) && ReportStep(s, now, s')
    ensures Accounts(s', base, garbage)
  {
    hide Exported;
    ReportKeepsLifetime(s, now, s');
    assert s'.reports[..|s.reports|] == s.reports;
  }

  lemma FinishKeepsAccounts(s: Tracker, f: Finish, s': Tracker, base: int, garbage: uint64)
    requires Accounts(s, base, garbage) && FinishStep(true, s, f, s')
    ensures Accounts(s', base, garbage)
  {
    hide Accounts, Counted, ReportStep;
    CountedKeepsAccounts(s, f, base, garbage);
    if ReportStep(Counted(s, f), f.reportNow, s') {
      ReportKeepsAccounts(Counted(s, f), f.reportNow, s', base, garbage);
    }
  }

  predicate IsRun(featureCheckpoint: bool, states: seq<Tracker>, finishes: seq<Finish>) {
    && |states| == |finishes| + 1
    && forall i | 0 <= i < |finishes| :: FinishStep(featureCheckpoint, states[i], finishes[i], states[i + 1])
  }

  function Start(counters: map<string, int>, now: int, garbage: uint64): Tracker {
    Tracker(counters, now, 0, garbage, map[], [])
  }

  function Last<T>(s: seq<T>): T
    requires s != []
  {
    s[|s| - 1]
  }

  /** Conservation over whole runs, whatever names, durations and clocks: lifetime_services is what it
      was plus all that was reported plus what is still pending; the counts of every report, and the
      pending ones, sum to its total; so do the durations from the first report on. */
  lemma {:induction false} CheckpointsConserve(states: seq<Tracker>, finishes: seq<Finish>,
                                               counters: map<string, int>, now: int, garbage: uint64)
    requires IsRun(true, states, finishes) && states[0] == Start(counters, now, garbage)
    ensures var s := Last(states);
            && Accounts(s, Lifetime(states[0]), garbage)
            && (s.reports != [] ==> U64(Durations(s.byName)) == s.checkpointDuration)
            && (forall i | 0 < i < |s.reports| :: DurationsMatch(s.reports[i]))
    decreases |finishes|
  {
    if finishes == [] {
    } else {
      var n := |finishes| - 1;
      CheckpointsConserve(states[..n + 1], finishes[..n], counters, now, garbage);
      hide FinishStep, Accounts;
      FinishKeepsAccounts(states[n], finishes[n], states[n + 1], Lifetime(states[0]), garbage);
      hide *;
      AccountsGive(Last(states), Lifetime(states[0]), garbage);
    }
  }

  lemma AccountsGive(s: Tracker, base: int, garbage: uint64)
    requires Accounts(s, base, garbage)
    ensures s.reports != [] ==> U64(Durations(s.byName)) == s.checkpointDuration
    ensures forall i | 0 < i < |s.reports| :: DurationsMatch(s.reports[i])
  {
  }

  /** The first report's duration is right if and only if checkpointDuration_, which the constructor
      does not assign, happened to be zero. */
  lemma FirstReportDuration(s: Tracker, base: int, garbage: uint64)
    requires Accounts(s, base, garbage) && s.reports != []
    ensures DurationsMatch(s.reports[0]) <==> garbage == 0
  {
    var d := Durations(s.reports[0].byName);
    if U64(d + garbage) == U64(d) {
      WrapsAway(d, garbage);
    }
  }

  lemma WrapsAway(d: int, g: uint64)
    requires U64(d + g) == U64(d)
    ensures g == 0
  {
  }

  // ----- whose calls they were -----

  /** The counted finishes of a run: those of each report, and those since the last. */
  datatype Ledger = Ledger(batches: seq<seq<Finish>>, open: seq<Finish>)

  predicate Reported(s: Tracker, s': Tracker) {
    |s'.reports| > |s.reports|
  }

  function Book(l: Ledger, f: Finish, reported: bool): Ledger {
    if f.logOnly then l
    else if reported then Ledger(l.batches + [l.open + [f]], [])
    else l.(open := l.open + [f])
  }

  function LedgerOf(states: seq<Tracker>, finishes: seq<Finish>): Ledger
    requires |states| == |finishes| + 1
    decreases |finishes|
  {
    if finishes == [] then Ledger([], [])
    else
      var n := |finishes| - 1;
      Book(LedgerOf(states[..n + 1], finishes[..n]), finishes[n], Reported(states[n], states[n + 1]))
  }

  function CallsOf(fs: seq<Finish>, name: string): nat {
    if fs == [] then 0 else CallsOf(fs[..|fs| - 1], name) + if fs[|fs| - 1].name == name then 1 else 0
  }

  function TimeOf(fs: seq<Finish>, name: string): int {
    if fs == [] then 0
    else TimeOf(fs[..|fs| - 1], name) + if fs[|fs| - 1].name == name then fs[|fs| - 1].duration else 0
  }

  /** The map has an entry for exactly the names called, with their own counts and durations. */
  ghost predicate Books(byName: map<string, Timing>, fs: seq<Finish>) {
    forall name: string ::
      && (name in byName <==> CallsOf(fs, name) > 0)
      && (name in byName ==> byName[name] == Timing(U64(CallsOf(fs, name)), U64(TimeOf(fs, name))))
  }

  ghost predicate Booked(s: Tracker, l: Ledger) {
    && Books(s.byName, l.open) && s.checkpointServices == U64(|l.open|)
    && |s.reports| == |l.batches|
    && forall i | 0 <= i < |s.reports| ::
         Books(s.reports[i].byName, l.batches[i]) && s.reports[i].services == U64(|l.batches[i]|)
  }

  lemma TimedBooks(byName: map<string, Timing>, fs: seq<Finish>, f: Finish)
    requires Books(byName, fs)
    ensures Books(Timed(byName, f.name, f.duration), fs + [f])
  {
    var after, fs' := Timed(byName, f.name, f.duration), fs + [f];
    assert fs'[..|fs'| - 1] == fs;
    forall name: string
      ensures name in after <==> CallsOf(fs', name) > 0
      ensures name in after ==> after[name] == Timing(U64(CallsOf(fs', name)), U64(TimeOf(fs', name)))
    {
      assert name in byName <==> CallsOf(fs, name) > 0;
      AddWraps(CallsOf(fs, name), 1);
      AddWraps(TimeOf(fs, name), f.duration);
      if CallsOf(fs, name) == 0 {
        NoTime(fs, name);
      }
    }
  }

  lemma {:induction false} NoTime(fs: seq<Finish>, name: string)
    requires CallsOf(fs, name) == 0
    ensures TimeOf(fs, name) == 0
  {
    if fs != [] {
      NoTime(fs[..|fs| - 1], name);
    }
  }

  lemma FinishKeepsBooks(s: Tracker, f: Finish, s': Tracker, l: Ledger)
    requires Booked(s, l) && FinishStep(true, s, f, s')
    ensures Booked(s', Book(l, f, Reported(s, s')))
  {
    if !f.logOnly {
      hide Books, Timed, Exported, Increment;
      TimedBooks(s.byName, l.open, f);
      AddWraps(|l.open|, 1);
      NothingBooked();
    }
  }

  lemma NothingBooked()
    ensures Books(map[], [])
  {
  }

  /** The seconds the interval is counted from: the report before, or the start. */
  function Since(l: Ledger, now: int): int {
    if l.batches == [] || Last(l.batches) == [] then now else Last(Last(l.batches)).reportNow
  }

  /** The calls counted, in the order they finished. */
  function CountedCalls(finishes: seq<Finish>): seq<Finish> {
    if finishes == [] then []
    else
      var before, f := CountedCalls(finishes[..|finishes| - 1]), finishes[|finishes| - 1];
      if f.logOnly then before else before + [f]
  }

  function Flat(batches: seq<seq<Finish>>): seq<Finish> {
    if batches == [] then [] else Flat(batches[..|batches| - 1]) + batches[|batches| - 1]
  }

  lemma BookKeepsOrder(l: Ledger, f: Finish, reported: bool)
    ensures var l' := Book(l, f, reported);
            Flat(l'.batches) + l'.open == Flat(l.batches) + l.open + if f.logOnly then [] else [f]
  {
    var l' := Book(l, f, reported);
    if f.logOnly {
      assert Flat(l.batches) + l.open + [] == Flat(l.batches) + l.open;
    } else if reported {
      assert l'.batches[..|l'.batches| - 1] == l.batches;
      assert Flat(l.batches) + (l.open + [f]) + [] == Flat(l.batches) + l.open + [f];
    } else {
      assert Flat(l.batches) + (l.open + [f]) == Flat(l.batches) + l.open + [f];
    }
  }

  /** Over every run and for every name: the pending entry is the number and the total duration of that
      name's calls since the last report, the entry of each report those of its interval, and a name
      without a call has none. Every counted call is in exactly one of them, in order. */
  lemma {:induction false} CallsAreBooked(states: seq<Tracker>, finishes: seq<Finish>,
                                          counters: map<string, int>, now: int, garbage: uint64)
    requires IsRun(true, states, finishes) && states[0] == Start(counters, now, garbage)
    ensures var l := LedgerOf(states, finishes);
            && Booked(Last(states), l)
            && Flat(l.batches) + l.open == CountedCalls(finishes)
            && Last(states).checkpointTime == Since(l, now)
    decreases |finishes|
  {
    if finishes == [] {
      NothingBooked();
    } else {
      var n := |finishes| - 1;
      CallsAreBooked(states[..n + 1], finishes[..n], counters, now, garbage);
      var l := LedgerOf(states[..n + 1], finishes[..n]);
      FinishKeepsBooks(states[n], finishes[n], states[n + 1], l);
      BookKeepsOrder(l, finishes[n], Reported(states[n], states[n + 1]));
      SinceStep(states[n], finishes[n], states[n + 1], l, now);
    }
  }

  lemma SinceStep(s: Tracker, f: Finish, s': Tracker, l: Ledger, now: int)
    requires s.checkpointTime == Since(l, now) && FinishStep(true, s, f, s')
    ensures s'.checkpointTime == Since(Book(l, f, Reported(s, s')), now)
  {
    hide Exported, Timed, Increment;
  }

  /** The n-th finish makes a report if and only if it is counted and a minute has gone by since the
      report before, or the start. */
  lemma ReportsIff(states: seq<Tracker>, finishes: seq<Finish>, counters: map<string, int>, now: int, garbage: uint64,
                   n: nat)
    requires IsRun(true, states, finishes) && states[0] == Start(counters, now, garbage) && n < |finishes|
    ensures Reported(states[n], states[n + 1])
       <==> !finishes[n].logOnly && U64(finishes[n].now - Since(LedgerOf(states[..n + 1], finishes[..n]), now)) >= 60
  {
    hide Exported, Timed, Increment, LedgerOf, Booked, Since;
    CallsAreBooked(states[..n + 1], finishes[..n], counters, now, garbage);
    assert Last(states[..n + 1]) == states[n] && FinishStep(true, states[n], finishes[n], states[n + 1]);
  }

  /** What a report exports for a name is its calls of the interval and their mean duration. */
  lemma ReportExports(s: Tracker, f: Finish, s': Tracker, l: Ledger, name: string)
    requires Booked(s, l) && FinishStep(true, s, f, s') && Reported(s, s')
    requires CallsOf(l.open + [f], name) > 0
    ensures var calls, time := U64(CallsOf(l.open + [f], name)), U64(TimeOf(l.open + [f], name));
            && CountKey(name) in s'.counters && s'.counters[CountKey(name)] == S64(calls)
            && SpeedKey(name) in s'.counters
            && s'.counters[SpeedKey(name)] == S64(if calls == 0 then 0 else time / calls)
  {
    hide Timed, Increment, CountKey, SpeedKey;
    TimedBooks(s.byName, l.open, f);
    var byName := Counted(s, f).byName;
    assert name in byName;
    assert NameExported(byName[name], name, s'.counters);
  }

  // ----- the object -----

  class ServiceTracker {
    const featureCheckpoint: bool
    var counters: map<string, int>
    var checkpointTime: int
    var checkpointServices: uint64
    var checkpointDuration: uint64
    var checkpointServiceDuration: map<string, Timing>
    ghost var reports: seq<Report>

    /** `garbage` is the memory checkpointDuration_ is left with. */
    constructor (counters: map<string, int>, featureCheckpoint: bool, now: int, garbage: uint64)
      ensures this.featureCheckpoint == featureCheckpoint
      ensures State() == Start(counters, if featureCheckpoint then now else 0, garbage)
    {
      this.counters, this.featureCheckpoint := counters, featureCheckpoint;
      checkpointServices, checkpointDuration, checkpointServiceDuration := 0, garbage, map[];
      reports := [];
      checkpointTime := if featureCheckpoint then now else 0;
    }

    ghost function State(): Tracker
      reads this
    {
      Tracker(counters, checkpointTime, checkpointServices, checkpointDuration, checkpointServiceDuration, reports)
    }

    method FinishService(f: Finish)
      modifies this
      ensures FinishStep(featureCheckpoint, old(State()), f, State())
    {
      hide ReportStep, Increment;
      if f.logOnly {
        return;
      }
      counters := Increment(counters, LIFETIME);
      if !featureCheckpoint {
        return;
      }
      checkpointServices := U64(checkpointServices + 1);
      checkpointDuration := U64(checkpointDuration + f.duration);
      if f.name in checkpointServiceDuration {
        var t := checkpointServiceDuration[f.name];
        checkpointServiceDuration :=
          checkpointServiceDuration[f.name := Timing(U64(t.count + 1), U64(t.duration + f.duration))];
      } else {
        checkpointServiceDuration := checkpointServiceDuration[f.name := Timing(1, U64(f.duration))];
      }
      var checkInterval := U64(f.now - checkpointTime);
      if checkInterval >= CHECKPOINT_MINIMUM_INTERVAL_SECONDS {
        ReportCheckpoint(f.reportNow);
      }
    }

    method Export(name: string, t: Timing)
      modifies `counters
      ensures counters == SetTo(SetTo(old(counters), CountKey(name), t.count), SpeedKey(name), Speed(t))
    {
      counters := SetTo(counters, CountKey(name), t.count);
      if t.count == 0 {
        counters := SetTo(counters, SpeedKey(name), 0);
      } else {
        counters := SetTo(counters, SpeedKey(name), t.duration / t.count);
      }
    }

    method ReportCheckpoint(now: int)
      modifies this
      ensures ReportStep(old(State()), now, State())
    {
      hide Exported, SetTo, CountKey, SpeedKey;
      var checkInterval := U64(now - checkpointTime);
      ghost var report := Report(checkpointServices, checkpointDuration, checkInterval, checkpointServiceDuration);
      ghost var before, byName := counters, checkpointServiceDuration;
      counters := SetTo(counters, CHECKPOINT_TIME, checkInterval);
      var left := checkpointServiceDuration.Keys;
      ghost var done: map<string, Timing> := map[];
      ExportTime(before, checkInterval);
      while left != {}
        invariant checkpointServiceDuration == byName && checkpointTime == old(checkpointTime) && reports == old(reports)
        invariant left + done.Keys == byName.Keys && left * done.Keys == {}
        invariant forall name | name in done :: done[name] == byName[name]
        invariant Exported(before, done, checkInterval, counters)
        decreases left
      {
        assert (forall x :: x !in left) ==> left == {};
        var name :| name in left;
        assert name in done ==> name in left * done.Keys;
        var t := checkpointServiceDuration[name];
        ghost var was := counters;
        Export(name, t);
        ExportName(before, done, checkInterval, was, name, t);
        done := done[name := t];
        left := left - {name};
      }
      assert done.Keys == byName.Keys;
      assert done == byName;
      checkpointServiceDuration := map[];
      checkpointTime := now;
      checkpointServices := 0;
      checkpointDuration := 0;
      reports := reports + [report];
    }
  }

  lemma ExportTime(before: map<string, int>, interval: uint64)
    ensures Exported(before, map[], interval, SetTo(before, CHECKPOINT_TIME, interval))
  {
  }

  lemma ExportName(before: map<string, int>, done: map<string, Timing>, interval: uint64, was: map<string, int>,
                   name: string, t: Timing)
    requires Exported(before, done, interval, was) && name !in done
    ensures Exported(before, done[name := t], interval,
                     SetTo(SetTo(was, CountKey(name), t.count), SpeedKey(name), Speed(t)))
  {
    hide CountKey, SpeedKey;
    var after := SetTo(SetTo(was, CountKey(name), t.count), SpeedKey(name), Speed(t));
    var done' := done[name := t];
    KeysDistinct(name, name);
    forall other | other in done'
      ensures NameExported(done'[other], other, after)
    {
      KeysDistinct(name, other);
      KeysDistinct(other, name);
    }
    forall key | key in after && key != CHECKPOINT_TIME && !IsCountKey(done', key) && !IsSpeedKey(done', key)
      ensures key in before && after[key] == before[key]
    {
      StillOther(done, name, t, key);
    }
  }

  lemma StillOther(done: map<string, Timing>, name: string, t: Timing, key: string)
    ensures !IsCountKey(done[name := t], key) ==> !IsCountKey(done, key) && key != CountKey(name)
    ensures !IsSpeedKey(done[name := t], key) ==> !IsSpeedKey(done, key) && key != SpeedKey(name)
  {
    var done' := done[name := t];
    assert name in done';
    forall n | n in done
      ensures n in done'
    {
    }
  }
}
