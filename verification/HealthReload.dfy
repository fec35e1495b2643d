/** The log of the health monitor as a function of the readings, and which state files are
    accepted at the next start. */
module HealthReload {
  import opened HealthAlerts
  import opened HealthMonitor
  import opened Texts
  import opened Wrappers

  // ----- what the alerts and the log are about -----

  /** What the last successful poll found. */
  function LastFound(ts: seq<Tick>): seq<Finding> {
    if ts == [] then []
    else if ts[|ts| - 1].found.Some? then ts[|ts| - 1].found.value
    else LastFound(ts[..|ts| - 1])
  }

  /** The storage alerts are about what the last successful poll found. */
  lemma {:induction false} StorageIsLastFound(ts: seq<Tick>)
    requires Batches(ts)
    ensures Findings(Storage(After(ts).s.alerts)) == LastFound(ts)
  {
    hide Poll, NewEvents, Inv, Storage, Findings;
    if ts == [] {
      NoFindings();
    } else {
      var n := |ts| - 1;
      StorageIsLastFound(ts[..n]);
      HistoryKeeps(ts[..n]);
      if ts[n].found.Some? {
        StepSucceeds(After(ts[..n]), ts[n]);
        SuccessFindings(After(ts[..n]).s, ts[n].found.value, ts[n].at);
      } else {
        StepFails(After(ts[..n]), ts[n]);
      }
    }
  }

  lemma NoFindings()
    ensures Findings(Storage([])) == []
  {
  }

  lemma SuccessFindings(s: Snapshot, fs: seq<Finding>, at: int)
    ensures Findings(Poll(s, Some(fs), at).alerts) == fs
  {
    hide IndexOf, AnyCritical, Last, NewEvents;
    var list := Active(s.alerts, fs, at);
    forall i | 0 <= i < |fs| ensures list[i].finding == fs[i] {
      CarriedFinding(s.alerts, fs[i], at);
    }
  }

  /** Some successful poll found this. */
  ghost predicate Seen(ts: seq<Tick>, f: Finding) {
    exists i :: 0 <= i < |ts| && ts[i].found.Some? && f in ts[i].found.value
  }

  ghost predicate Logged(log: seq<Event>, f: Finding) {
    exists i :: 0 <= i < |log| && log[i].finding == f
  }

  lemma LoggedAppend(log: seq<Event>, more: seq<Event>, f: Finding)
    ensures Logged(log + more, f) <==> Logged(log, f) || Logged(more, f)
  {
    if i :| 0 <= i < |log| && log[i].finding == f {
      assert (log + more)[i].finding == f;
    }
    if i :| 0 <= i < |more| && more[i].finding == f {
      assert (log + more)[|log| + i].finding == f;
    }
    if i :| 0 <= i < |log + more| && (log + more)[i].finding == f {
      assert i < |log| || more[i - |log|].finding == f;
    }
  }

  lemma SeenAppend(ts: seq<Tick>, f: Finding)
    requires ts != []
    ensures var t := ts[|ts| - 1];
            Seen(ts, f) <==> Seen(ts[..|ts| - 1], f) || (t.found.Some? && f in t.found.value)
  {
    var n := |ts| - 1;
    if i :| 0 <= i < n && ts[..n][i].found.Some? && f in ts[..n][i].found.value {
      assert ts[i] == ts[..n][i];
    }
    if i :| 0 <= i <= n && ts[i].found.Some? && f in ts[i].found.value {
      assert i < n ==> ts[..n][i] == ts[i];
    }
  }

  /** Notes are about the findings, and leave out only those that were active already. */
  lemma {:induction false} NotesAbout(prior: seq<Alert>, fs: seq<Finding>, at: int, f: Finding)
    ensures Logged(Notes(prior, fs, at), f) ==> f in fs
    ensures f in fs ==> Logged(Notes(prior, fs, at), f) || exists a :: a in prior && a.finding == f
  {
    hide IndexOf;
    if fs != [] {
      NotesAbout(prior, fs[1..], at, f);
      var noted := Noted(prior, fs[0], at);
      LoggedAppend(noted, Notes(prior, fs[1..], at), f);
      assert Logged(noted, f) ==> f == fs[0];
      if f == fs[0] && IndexOf(prior, f.id) < |prior| && prior[IndexOf(prior, f.id)].finding == f {
        assert prior[IndexOf(prior, f.id)] in prior;
      } else if f == fs[0] {
        assert noted[0].finding == f;
      }
    }
  }

  lemma {:induction false} ResolutionsAbout(prior: seq<Alert>, fs: seq<Finding>, at: int, f: Finding)
    ensures Logged(Resolutions(prior, fs, at), f) ==> exists a :: a in prior && a.finding == f
  {
    hide Found;
    if prior != [] {
      ResolutionsAbout(prior[1..], fs, at, f);
      var first := if Found(fs, prior[0].finding.id) then [] else [Event(prior[0].finding, Resolved, at)];
      LoggedAppend(first, Resolutions(prior[1..], fs, at), f);
      assert prior[0] in prior && forall a :: a in prior[1..] ==> a in prior;
    }
  }

  /** The active storage alerts, as findings. */
  lemma {:induction false} HeldFindings(list: seq<Alert>, f: Finding)
    requires f.id.code != Unavailable
    ensures f in Findings(Storage(list)) <==> exists a :: a in list && a.finding == f
  {
    var held := Storage(list);
    if f in Findings(held) {
      var i :| 0 <= i < |held| && Findings(held)[i] == f;
      assert held[i] in held;
    }
    if a :| a in list && a.finding == f {
      assert a in held;
      var i :| 0 <= i < |held| && held[i] == a;
      assert Findings(held)[i] == f;
    }
  }

  /** The log speaks of a storage finding exactly when some successful poll found it. */
  lemma {:induction false} LoggedIffSeen(ts: seq<Tick>, f: Finding)
    requires Batches(ts) && f.id.code != Unavailable
    ensures Logged(After(ts).log, f) <==> Seen(ts, f)
  {
    hide Poll, Logged, Seen, Storage, Findings, Notes, Resolutions, Batch;
    if ts == [] {
      NothingLogged(f);
    } else {
      var n := |ts| - 1;
      LoggedIffSeen(ts[..n], f);
      SeenAppend(ts, f);
      StorageIsLastFound(ts[..n]);
      if f in LastFound(ts[..n]) {
        LastFoundSeen(ts[..n], f);
      }
      var w, t := After(ts[..n]), ts[n];
      HeldFindings(w.s.alerts, f);
      var fs := Candidates(w.s, t.found);
      LoggedAppend(w.log, NewEvents(w.s.alerts, fs, t.at, t.found.Some?), f);
      LoggedAppend(Notes(w.s.alerts, fs, t.at), if t.found.Some? then Resolutions(w.s.alerts, fs, t.at) else [], f);
      NotesAbout(w.s.alerts, fs, t.at, f);
      ResolutionsAbout(w.s.alerts, fs, t.at, f);
      NothingLogged(f);
    }
  }

  lemma NothingLogged(f: Finding)
    ensures !Logged([], f) && !Seen([], f)
  {
  }

  lemma {:induction false} LastFoundSeen(ts: seq<Tick>, f: Finding)
    requires f in LastFound(ts)
    ensures Seen(ts, f)
  {
    hide Seen;
    SeenAppend(ts, f);
    if ts[|ts| - 1].found.None? {
      LastFoundSeen(ts[..|ts| - 1], f);
    }
  }

  // ----- the log as a function of the readings -----

  /** The last poll failed. */
  predicate Failing(ts: seq<Tick>) {
    ts != [] && ts[|ts| - 1].found.None?
  }

  function Openings(before: seq<Finding>, fs: seq<Finding>, at: int): seq<Event> {
    if fs == [] then []
    else
      (if fs[0] in before then [] else [Event(fs[0], if Found(before, fs[0].id) then Changed else Opened, at)])
      + Openings(before, fs[1..], at)
  }

  function Closings(before: seq<Finding>, fs: seq<Finding>, at: int): seq<Event> {
    if before == [] then []
    else (if Found(fs, before[0].id) then [] else [Event(before[0], Resolved, at)]) + Closings(before[1..], fs, at)
  }

  /** What a poll has to report: against what the last successful poll found, and whether
      the poll right before it failed. */
  function News(before: seq<Finding>, failing: bool, t: Tick): seq<Event> {
    if t.found.None? then (if failing then [] else [Event(OUTAGE, Opened, t.at)])
    else
      Openings(before, t.found.value, t.at) + Closings(before, t.found.value, t.at)
      + if failing then [Event(OUTAGE, Resolved, t.at)] else []
  }

  function NewsAt(ts: seq<Tick>, n: nat): seq<Event>
    requires n < |ts|
  {
    News(LastFound(ts[..n]), Failing(ts[..n]), ts[n])
  }

  function LogOf(ts: seq<Tick>): seq<Event> {
    if ts == [] then [] else LogOf(ts[..|ts| - 1]) + NewsAt(ts, |ts| - 1)
  }

  lemma {:induction false} FindingsConcat(a: seq<Alert>, b: seq<Alert>)
    ensures Findings(a + b) == Findings(a) + Findings(b)
  {
    if a == [] {
      assert a + b == b;
    } else {
      assert (a + b)[1..] == a[1..] + b;
      FindingsConcat(a[1..], b);
    }
  }

  /** The alerts are about what the last successful poll found, and the outage if the last
      poll failed. */
  lemma {:induction false} AlertsAreLastFound(ts: seq<Tick>)
    requires Batches(ts)
    ensures Findings(After(ts).s.alerts) == LastFound(ts) + if Failing(ts) then [OUTAGE] else []
  {
    hide Poll, NewEvents, Inv, Storage, Findings, Carried;
    if ts == [] {
      NoFindings();
    } else {
      var n := |ts| - 1;
      var w, t := After(ts[..n]), ts[n];
      HistoryKeeps(ts[..n]);
      if t.found.Some? {
        SuccessFindings(w.s, t.found.value, t.at);
      } else {
        StorageIsLastFound(ts[..n]);
        FailedPollFreezes(w.s, t.at);
        var carried := Carried(w.s.alerts, OUTAGE, t.at);
        FindingsConcat(Storage(w.s.alerts), [carried]);
        OneFinding(w.s.alerts, t.at);
      }
    }
  }

  lemma OneFinding(prior: seq<Alert>, at: int)
    ensures Findings([Carried(prior, OUTAGE, at)]) == [OUTAGE]
  {
    CarriedFinding(prior, OUTAGE, at);
  }

  /** One alert list against one finding. */
  lemma PriorFinding(prior: seq<Alert>, f: Finding)
    requires Apart(prior)
    ensures Found(Findings(prior), f.id) <==> Has(prior, f.id)
    ensures f in Findings(prior) <==> Has(prior, f.id) && prior[IndexOf(prior, f.id)].finding == f
  {
    hide IndexOf, Has;
    var fs, i := Findings(prior), IndexOf(prior, f.id);
    HasIsIndex(prior, f.id);
    if i < |prior| {
      FoundAt(fs, i);
      assert fs[i] in fs;
    }
    if k :| 0 <= k < |fs| && fs[k] == f {
      IndexUnique(prior, k);
    }
  }

  lemma NotedFromFindings(prior: seq<Alert>, f: Finding, at: int)
    requires Apart(prior)
    ensures Noted(prior, f, at) ==
            if f in Findings(prior) then []
            else [Event(f, if Found(Findings(prior), f.id) then Changed else Opened, at)]
  {
    hide IndexOf, Found, Findings, Apart;
    PriorFinding(prior, f);
    HasIsIndex(prior, f.id);
  }

  lemma {:induction false} NotesFromFindings(prior: seq<Alert>, fs: seq<Finding>, at: int)
    requires Apart(prior)
    ensures Notes(prior, fs, at) == Openings(Findings(prior), fs, at)
  {
    hide IndexOf, Found, Findings, Apart, Noted;
    if fs != [] {
      NotedFromFindings(prior, fs[0], at);
      NotesFromFindings(prior, fs[1..], at);
    }
  }

  lemma {:induction false} ResolutionsFromFindings(prior: seq<Alert>, fs: seq<Finding>, at: int)
    ensures Resolutions(prior, fs, at) == Closings(Findings(prior), fs, at)
  {
    hide Found;
    if prior != [] {
      ResolutionsFromFindings(prior[1..], fs, at);
      assert Findings(prior)[1..] == Findings(prior[1..]);
    }
  }

  lemma {:induction false} OpeningsConcat(before: seq<Finding>, a: seq<Finding>, b: seq<Finding>, at: int)
    ensures Openings(before, a + b, at) == Openings(before, a, at) + Openings(before, b, at)
  {
    hide Found;
    if a == [] {
      assert a + b == b;
    } else {
      assert (a + b)[1..] == a[1..] + b;
      OpeningsConcat(before, a[1..], b, at);
    }
  }

  lemma {:induction false} ClosingsConcat(a: seq<Finding>, b: seq<Finding>, fs: seq<Finding>, at: int)
    ensures Closings(a + b, fs, at) == Closings(a, fs, at) + Closings(b, fs, at)
  {
    hide Found;
    if a == [] {
      assert a + b == b;
    } else {
      assert (a + b)[1..] == a[1..] + b;
      ClosingsConcat(a[1..], b, fs, at);
    }
  }

  /** The outage is no storage finding, so it changes nothing for these. */
  lemma {:induction false} OpeningsApart(before: seq<Finding>, fs: seq<Finding>, at: int)
    requires forall f :: f in fs ==> f.id.code != Unavailable
    ensures Openings(before + [OUTAGE], fs, at) == Openings(before, fs, at)
  {
    if fs != [] {
      assert fs[0] in fs && forall f :: f in fs[1..] ==> f in fs;
      OpeningsApart(before, fs[1..], at);
      hide Openings;
      FoundMore(before, fs[0].id);
    }
  }

  lemma FoundMore(before: seq<Finding>, id: Id)
    requires id.code != Unavailable
    ensures Found(before + [OUTAGE], id) <==> Found(before, id)
  {
    var all := before + [OUTAGE];
    if i :| 0 <= i < |before| && before[i].id == id {
      assert all[i].id == id;
    }
    if i :| 0 <= i < |all| && all[i].id == id {
      assert before[i].id == id;
    }
  }

  /** What is known already opens nothing. */
  lemma {:induction false} OpeningsKnown(before: seq<Finding>, fs: seq<Finding>, at: int)
    requires forall f :: f in fs ==> f in before
    ensures Openings(before, fs, at) == []
  {
    if fs != [] {
      assert fs[0] in fs && forall f :: f in fs[1..] ==> f in fs;
      OpeningsKnown(before, fs[1..], at);
    }
  }

  lemma OutageNews(before: seq<Finding>, failing: bool, fs: seq<Finding>, at: int)
    requires forall f :: f in before ==> f.id.code != Unavailable
    requires forall f :: f in fs ==> f.id.code != Unavailable
    ensures var known := before + if failing then [OUTAGE] else [];
            && Openings(known, before + [OUTAGE], at) == (if failing then [] else [Event(OUTAGE, Opened, at)])
            && Openings(known, fs, at) == Openings(before, fs, at)
            && Closings(known, fs, at) == Closings(before, fs, at) + if failing then [Event(OUTAGE, Resolved, at)] else []
  {
    hide Openings, Closings, Found;
    var known := before + if failing then [OUTAGE] else [];
    OpeningsConcat(known, before, [OUTAGE], at);
    OpeningsKnown(known, before, at);
    OutageAlone(known, at);
    ClosingsConcat(before, if failing then [OUTAGE] else [], fs, at);
    OutageCloses(before, fs, at);
    if failing {
      OpeningsApart(before, fs, at);
    } else {
      assert before + [] == before;
      OutageUnknown(before);
    }
  }

  lemma OutageAlone(known: seq<Finding>, at: int)
    ensures Openings(known, [OUTAGE], at) ==
            if OUTAGE in known then [] else [Event(OUTAGE, if Found(known, OUTAGE.id) then Changed else Opened, at)]
  {
    assert [OUTAGE][1..] == [];
  }

  lemma OutageUnknown(before: seq<Finding>)
    requires forall f :: f in before ==> f.id.code != Unavailable
    ensures OUTAGE !in before && !Found(before, OUTAGE.id)
  {
  }

  lemma OutageCloses(before: seq<Finding>, fs: seq<Finding>, at: int)
    requires forall f :: f in fs ==> f.id.code != Unavailable
    ensures Closings([OUTAGE], fs, at) == [Event(OUTAGE, Resolved, at)] && Closings([], fs, at) == []
  {
    OutageUnknown(fs);
    assert [OUTAGE][1..] == [];
  }

  /** The whole log is what the readings have to report, one after the other. */
  lemma {:induction false} LogIsNews(ts: seq<Tick>)
    requires Batches(ts)
    ensures After(ts).log == LogOf(ts)
  {
    hide Poll, Notes, Resolutions, Openings, Closings, Storage, Findings, Inv, Batch, LastFound;
    if ts != [] {
      var n := |ts| - 1;
      LogIsNews(ts[..n]);
      StepNews(ts[..n], ts[n]);
    }
  }

  lemma StepNews(ts: seq<Tick>, t: Tick)
    requires Batches(ts) && (t.found.Some? ==> Batch(t.found.value))
    ensures var w := After(ts);
            NewEvents(w.s.alerts, Candidates(w.s, t.found), t.at, t.found.Some?) == News(LastFound(ts), Failing(ts), t)
  {
    hide Poll, Notes, Resolutions, Openings, Closings, Storage, Findings, LastFound, PhaseOf, Has, After;
    var w := After(ts);
    HistoryKeeps(ts);
    AlertsAreLastFound(ts);
    StorageIsLastFound(ts);
    LastFoundIsStorage(ts);
    var fs := Candidates(w.s, t.found);
    NotesFromFindings(w.s.alerts, fs, t.at);
    ResolutionsFromFindings(w.s.alerts, fs, t.at);
    OutageNews(LastFound(ts), Failing(ts), if t.found.Some? then t.found.value else [], t.at);
  }

  // ----- which of it is still kept -----

  /** The `k`-th event of the `n`-th poll is among the last 256: it and what the same poll
      and the later ones report after it are no more. */
  predicate Kept(ts: seq<Tick>, n: nat, k: nat) {
    n < |ts| && k < |NewsAt(ts, n)| && |LogOf(ts)| - |LogOf(ts[..n])| - k <= MAX_EVENTS
  }

  function KeptFinding(ts: seq<Tick>, n: nat, k: nat): Finding
    requires Kept(ts, n, k)
  {
    NewsAt(ts, n)[k].finding
  }

  /** Where an event of the log comes from. */
  lemma {:induction false} Reported(ts: seq<Tick>, p: nat) returns (n: nat, k: nat)
    requires p < |LogOf(ts)|
    ensures n < |ts| && k < |NewsAt(ts, n)| && p == |LogOf(ts[..n])| + k && LogOf(ts)[p] == NewsAt(ts, n)[k]
  {
    hide News;
    var m := |ts| - 1;
    if p < |LogOf(ts[..m])| {
      n, k := Reported(ts[..m], p);
      assert ts[..m][..n] == ts[..n];
    } else {
      n, k := m, p - |LogOf(ts[..m])|;
    }
  }

  lemma {:induction false} ReportedAt(ts: seq<Tick>, n: nat, k: nat)
    requires n < |ts| && k < |NewsAt(ts, n)|
    ensures |LogOf(ts[..n])| + k < |LogOf(ts)| && LogOf(ts)[|LogOf(ts[..n])| + k] == NewsAt(ts, n)[k]
    decreases |ts|
  {
    hide News;
    var m := |ts| - 1;
    if n < m {
      assert ts[..m][..n] == ts[..n];
      ReportedAt(ts[..m], n, k);
    }
  }

  /** The kept events are exactly those. */
  lemma KeptIff(ts: seq<Tick>, f: Finding)
    requires Batches(ts)
    ensures Logged(After(ts).s.events, f) <==> exists n: nat, k: nat :: Kept(ts, n, k) && KeptFinding(ts, n, k) == f
  {
    hide After, NewsAt, Batches, PhaseOf;
    HistoryKeeps(ts);
    LogIsNews(ts);
    var log := LogOf(ts);
    var skip := if |log| > MAX_EVENTS then |log| - MAX_EVENTS else 0;
    assert After(ts).s.events == log[skip..];
    if i :| 0 <= i < |log[skip..]| && log[skip..][i].finding == f {
      var n, k := Reported(ts, skip + i);
      assert Kept(ts, n, k);
    }
    if n: nat, k: nat :| Kept(ts, n, k) && KeptFinding(ts, n, k) == f {
      ReportedAt(ts, n, k);
      assert log[skip..][|LogOf(ts[..n])| + k - skip].finding == f;
    }
  }

  // ----- reloading -----

  const MAX_COUNT: nat := 0x7FFF_FFFF_FFFF_FFFF

  /** What `_validate_snapshot` accepts of a snapshot that the monitor wrote. */
  ghost predicate Loadable(s: Snapshot) {
    && |s.alerts| <= MAX_ACTIVE && |s.events| <= MAX_EVENTS && Apart(s.alerts)
    && (forall a :: a in s.alerts ==> Readable(a.finding) && 1 <= a.occurrences <= MAX_COUNT)
    && AllReadable(s.events)
  }

  ghost predicate AllReadable(events: seq<Event>) {
    forall i :: 0 <= i < |events| ==> Readable(events[i].finding)
  }

  lemma {:induction false} OccurrencesBounded(ts: seq<Tick>)
    requires Batches(ts)
    ensures forall a :: a in After(ts).s.alerts ==> 1 <= a.occurrences <= |ts|
  {
    hide Poll, NewEvents, Inv, Storage, IndexOf;
    if ts != [] {
      var n := |ts| - 1;
      HistoryKeeps(ts[..n]);
      OccurrencesBounded(ts[..n]);
      var prior := After(ts[..n]).s.alerts;
      if ts[n].found.None? {
        FailedPollFreezes(After(ts[..n]).s, ts[n].at);
        CarriedOnce(prior, OUTAGE, ts[n].at, n);
      } else {
        SuccessCounts(After(ts[..n]).s, ts[n].found.value, ts[n].at, n);
      }
    }
  }

  lemma CarriedOnce(prior: seq<Alert>, f: Finding, at: int, n: nat)
    requires forall a :: a in prior ==> a.occurrences <= n
    ensures 1 <= Carried(prior, f, at).occurrences <= n + 1
  {
    assert Has(prior, f.id) ==> prior[IndexOf(prior, f.id)] in prior;
  }

  lemma SuccessCounts(s: Snapshot, fs: seq<Finding>, at: int, n: nat)
    requires forall a :: a in s.alerts ==> a.occurrences <= n
    ensures forall a :: a in Poll(s, Some(fs), at).alerts ==> 1 <= a.occurrences <= n + 1
  {
    hide Carried;
    forall i | 0 <= i < |fs| ensures 1 <= Carried(s.alerts, fs[i], at).occurrences <= n + 1 {
      CarriedOnce(s.alerts, fs[i], at, n);
    }
  }

  lemma OutageReadable()
    ensures Readable(OUTAGE)
  {
    hide Contains, BoundedText, BRIDGE_TEXT, STALE_TEXT, BRIDGE;
    BridgeWord();
    BridgeTexts();
    JoinedBounds(BRIDGE_TEXT, STALE_TEXT, 13, 13);
    Wider(BRIDGE, 14, MAX_RESOURCE);
    Wider(OUTAGE.message, 26, MAX_MESSAGE);
    NoSlash(OUTAGE.id.resource);
    NoSlash(OUTAGE.message);
  }

  lemma Wider(s: string, m: nat, n: nat)
    requires BoundedText(s, m) && m <= n
    ensures BoundedText(s, n)
  {
  }

  lemma BridgeWord()
    ensures BRIDGE != "" && BoundedText(BRIDGE, 14) && '/' !in BRIDGE
  {
  }

  lemma BridgeTexts()
    ensures BRIDGE_TEXT != "" && BoundedText(BRIDGE_TEXT, 13) && '/' !in BRIDGE_TEXT
    ensures BoundedText(STALE_TEXT, 13) && '/' !in STALE_TEXT
  {
  }

  lemma NoSlash(s: string)
    requires '/' !in s
    ensures !Contains(s, BY_ID)
  {
    ContainsFramed(s, "", "", BY_ID);
    assert s + "" + "" == s;
  }

  /** The number of storage alerts and the texts decide whether the file is accepted. */
  lemma LoadableParts(ts: seq<Tick>)
    requires Batches(ts) && |ts| <= MAX_COUNT
    ensures var w := After(ts);
            Loadable(w.s) <==>
              && !(ts != [] && ts[|ts| - 1].found.None? && |LastFound(ts)| == MAX_ACTIVE)
              && (forall f :: f in LastFound(ts) ==> Readable(f))
              && AllReadable(Last(w.log))
  {
    hide AllReadable, Readable, Poll, NewEvents, Storage, Last, IndexOf, PhaseOf, Has, Carried;
    HistoryKeeps(ts);
    OccurrencesBounded(ts);
    StorageIsLastFound(ts);
    LastFoundReadable(ts);
    if ts != [] {
      var n := |ts| - 1;
      HistoryKeeps(ts[..n]);
      if ts[n].found.None? {
        FailedPollFreezes(After(ts[..n]).s, ts[n].at);
        StepFails(After(ts[..n]), ts[n]);
      } else {
        StepSucceeds(After(ts[..n]), ts[n]);
      }
    }
  }

  lemma LastFoundReadable(ts: seq<Tick>)
    requires Batches(ts) && Inv(After(ts))
    ensures var s := After(ts).s;
            (forall a :: a in s.alerts ==> Readable(a.finding)) <==> (forall f :: f in LastFound(ts) ==> Readable(f))
  {
    hide Readable, Storage, Findings, PhaseOf, Has, Batch;
    var s := After(ts).s;
    StorageIsLastFound(ts);
    OutageReadable();
    LastFoundIsStorage(ts);
    forall f | f in LastFound(ts) ensures exists a :: a in s.alerts && a.finding == f {
      HeldFindings(s.alerts, f);
    }
    forall a | a in s.alerts ensures a.finding == OUTAGE || a.finding in LastFound(ts) {
      if a.finding.id.code != Unavailable {
        HeldFindings(s.alerts, a.finding);
      }
    }
  }

  lemma {:induction false} LastFoundIsStorage(ts: seq<Tick>)
    requires Batches(ts)
    ensures forall f :: f in LastFound(ts) ==> f.id.code != Unavailable
  {
    if ts != [] {
      LastFoundIsStorage(ts[..|ts| - 1]);
    }
  }

  /** A storage finding in the log was found by a poll; so an unreadable one was. */
  lemma LogReadableIff(ts: seq<Tick>)
    requires Batches(ts)
    ensures AllReadable(After(ts).log) <==> forall f :: Seen(ts, f) ==> Readable(f)
  {
    hide Readable, After, Batch;
    var log := After(ts).log;
    OutageReadable();
    forall f | Seen(ts, f) ensures Logged(log, f) {
      SeenIsStorage(ts, f);
      LoggedIffSeen(ts, f);
    }
    forall i | 0 <= i < |log| ensures log[i].finding == OUTAGE || Seen(ts, log[i].finding) {
      assert Logged(log, log[i].finding);
      if log[i].finding.id.code != Unavailable {
        LoggedIffSeen(ts, log[i].finding);
      } else {
        LoggedOutage(ts, log[i].finding);
      }
    }
  }

  lemma SeenIsStorage(ts: seq<Tick>, f: Finding)
    requires Batches(ts) && Seen(ts, f)
    ensures f.id.code != Unavailable
  {
  }

  lemma {:induction false} LoggedOutage(ts: seq<Tick>, f: Finding)
    requires Batches(ts) && Logged(After(ts).log, f) && f.id.code == Unavailable
    ensures f == OUTAGE
  {
    hide Poll, Logged, Storage, Notes, Resolutions, PhaseOf, Has;
    if ts == [] {
      NothingLogged(f);
    } else {
      var n := |ts| - 1;
      HistoryKeeps(ts[..n]);
      var w, t := After(ts[..n]), ts[n];
      var fs := Candidates(w.s, t.found);
      LoggedAppend(w.log, NewEvents(w.s.alerts, fs, t.at, t.found.Some?), f);
      LoggedAppend(Notes(w.s.alerts, fs, t.at), if t.found.Some? then Resolutions(w.s.alerts, fs, t.at) else [], f);
      NothingLogged(f);
      NotesAbout(w.s.alerts, fs, t.at, f);
      ResolutionsAbout(w.s.alerts, fs, t.at, f);
      if Logged(w.log, f) {
        LoggedOutage(ts[..n], f);
      }
    }
  }

  // ----- reloading, in terms of what the client returned -----

  /** One poll: its time, and the views if all three were read. */
  datatype Reading = Reading(at: int, views: Option<Views>)

  function FoundIn(r: Reading, t: Thresholds): Option<seq<Finding>> {
    if r.views.None? then None else Derive(r.views.value, t)
  }

  function Ticks(rs: seq<Reading>, t: Thresholds): (ts: seq<Tick>)
    ensures |ts| == |rs| && forall i :: 0 <= i < |rs| ==> ts[i] == Tick(rs[i].at, FoundIn(rs[i], t))
  {
    seq(|rs|, i requires 0 <= i < |rs| => Tick(rs[i].at, FoundIn(rs[i], t)))
  }

  /** The client accepted the views, and they list every resource once. */
  ghost predicate Usual(rs: seq<Reading>) {
    forall i :: 0 <= i < |rs| && rs[i].views.Some? ==> Accepted(rs[i].views.value) && ListedOnce(rs[i].views.value)
  }

  /** The views of the last successful poll. */
  function LastViews(rs: seq<Reading>, t: Thresholds): (v: Option<Views>)
    ensures v.Some? ==> Derive(v.value, t).Some?
  {
    if rs == [] then None
    else if FoundIn(rs[|rs| - 1], t).Some? then rs[|rs| - 1].views
    else LastViews(rs[..|rs| - 1], t)
  }

  /** An outage, or a reading with too many alerts, right after 128 alerts. */
  predicate OutageWhenFull(rs: seq<Reading>, t: Thresholds) {
    && rs != [] && FoundIn(rs[|rs| - 1], t).None?
    && LastViews(rs, t).Some? && |Derive(LastViews(rs, t).value, t).value| == MAX_ACTIVE
  }

  /** A successful poll whose views raise an alert that cannot be read back. */
  predicate Poisons(r: Reading, t: Thresholds) {
    FoundIn(r, t).Some? && Offends(r.views.value, t)
  }

  lemma UsualBatches(rs: seq<Reading>, t: Thresholds)
    requires Usual(rs)
    ensures Batches(Ticks(rs, t))
  {
    hide Derive, Batch, ListedOnce, Accepted;
    forall i | 0 <= i < |rs| && FoundIn(rs[i], t).Some? ensures Batch(FoundIn(rs[i], t).value) {
      DerivedIsBatch(rs[i].views.value, t);
    }
  }

  lemma {:induction false} LastViewsFound(rs: seq<Reading>, t: Thresholds)
    requires Usual(rs)
    ensures LastFound(Ticks(rs, t)) == if LastViews(rs, t).None? then [] else Derive(LastViews(rs, t).value, t).value
    ensures LastViews(rs, t).Some? ==> Accepted(LastViews(rs, t).value)
  {
    hide Derive, Accepted, ListedOnce;
    if rs != [] {
      var init := rs[..|rs| - 1];
      LastViewsFound(init, t);
      assert Ticks(rs, t)[..|rs| - 1] == Ticks(init, t);
    }
  }

  lemma UnreadableIffPoisoned(rs: seq<Reading>, t: Thresholds)
    requires Usual(rs)
    ensures (forall f :: Seen(Ticks(rs, t), f) ==> Readable(f)) <==> forall i :: 0 <= i < |rs| ==> !Poisons(rs[i], t)
  {
    hide Derive, Accepted, ListedOnce, Readable, Offends;
    var ts := Ticks(rs, t);
    forall i | 0 <= i < |rs| && FoundIn(rs[i], t).Some?
      ensures Poisons(rs[i], t) <==> exists f :: f in FoundIn(rs[i], t).value && !Readable(f)
    {
      UnreadableIffOffending(rs[i].views.value, t);
    }
    forall i | 0 <= i < |rs| && Poisons(rs[i], t) ensures exists f :: Seen(ts, f) && !Readable(f) {
      var f :| f in FoundIn(rs[i], t).value && !Readable(f);
      assert ts[i].found.Some? && f in ts[i].found.value;
    }
  }

  /** Some finding that a reading reported within the last 256 events is unreadable. */
  ghost predicate StillPoisoned(rs: seq<Reading>, t: Thresholds) {
    exists n: nat, k: nat :: Kept(Ticks(rs, t), n, k) && !Readable(KeptFinding(Ticks(rs, t), n, k))
  }

  lemma KeptReadable(ts: seq<Tick>)
    requires Batches(ts)
    ensures AllReadable(Last(After(ts).log)) <==>
            forall n: nat, k: nat :: Kept(ts, n, k) ==> Readable(KeptFinding(ts, n, k))
  {
    hide After, NewsAt, Batches, Readable, Kept, PhaseOf, Has, Storage;
    HistoryKeeps(ts);
    var events := After(ts).s.events;
    forall i | 0 <= i < |events|
      ensures exists n: nat, k: nat :: Kept(ts, n, k) && KeptFinding(ts, n, k) == events[i].finding
    {
      assert Logged(events, events[i].finding);
      KeptIff(ts, events[i].finding);
      var n: nat, k: nat :| Kept(ts, n, k) && KeptFinding(ts, n, k) == events[i].finding;
    }
    forall n: nat, k: nat | Kept(ts, n, k)
      ensures exists i :: 0 <= i < |events| && events[i].finding == KeptFinding(ts, n, k)
    {
      KeptIff(ts, KeptFinding(ts, n, k));
    }
  }

  /** The state file is accepted at the next start if and only if the last poll was not an
      outage right after 128 alerts, the last successful poll raised no alert about an entry
      with a by-id path in its device file, health or label, and none of the last 256
      reports is about such an entry.  While there have not been more reports, the last two
      say that no poll ever met such an entry. */
  lemma LoadableIff(rs: seq<Reading>, t: Thresholds)
    requires Usual(rs) && |rs| <= MAX_COUNT
    ensures var s := After(Ticks(rs, t)).s;
            && (Loadable(s) <==>
                  && !OutageWhenFull(rs, t)
                  && !(LastViews(rs, t).Some? && Offends(LastViews(rs, t).value, t))
                  && !StillPoisoned(rs, t))
            && (|LogOf(Ticks(rs, t))| <= MAX_EVENTS ==>
                  (Loadable(s) <==> !OutageWhenFull(rs, t) && forall i :: 0 <= i < |rs| ==> !Poisons(rs[i], t)))
            && ((forall i :: 0 <= i < |rs| ==> !Poisons(rs[i], t)) ==> (Loadable(s) <==> !OutageWhenFull(rs, t)))
  {
    hide After, Derive, Loadable, Accepted, ListedOnce, Readable, Offends, Seen, Batches, Kept, NewsAt, LogOf;
    var ts := Ticks(rs, t);
    UsualBatches(rs, t);
    LoadableParts(ts);
    LogIsNews(ts);
    KeptReadable(ts);
    LastViewsFound(rs, t);
    LogReadableIff(ts);
    UnreadableIffPoisoned(rs, t);
    if LastViews(rs, t).Some? {
      UnreadableIffOffending(LastViews(rs, t).value, t);
    }
    forall f | f in LastFound(ts) ensures Seen(ts, f) {
      LastFoundSeen(ts, f);
    }
    assert AllReadable(After(ts).log) ==> AllReadable(Last(After(ts).log));
  }

  // ----- restarts -----

  /** A poll, whose snapshot may or may not reach the state file, or a restart. */
  datatype Op = OpPoll(t: Tick, written: bool) | OpRestart

  /** The running monitor with its ghost log, the state file and the log it stands for. */
  datatype Service = Service(live: World, disk: Option<World>)

  const STARTED := Service(World(EMPTY, []), None)

  /** `_load`: an accepted file is taken over, a refused or missing one is not. */
  ghost function Do(v: Service, op: Op): Service {
    match op
    case OpPoll(t, written) =>
      var live := Step(v.live, t);
      Service(live, if written then Some(live) else v.disk)
    case OpRestart =>
      v.(live := if v.disk.Some? && Loadable(v.disk.value.s) then v.disk.value else World(EMPTY, []))
  }

  ghost function Serve(ops: seq<Op>): Service {
    if ops == [] then STARTED else Do(Serve(ops[..|ops| - 1]), ops[|ops| - 1])
  }

  /** The polls that still count: a restart goes back to the last one written, or to none
      if the file is refused. */
  datatype Past = Past(live: seq<Tick>, saved: Option<seq<Tick>>)

  ghost function Remembered(ops: seq<Op>): Past {
    if ops == [] then Past([], None)
    else
      var p := Remembered(ops[..|ops| - 1]);
      match ops[|ops| - 1]
      case OpPoll(t, written) => Past(p.live + [t], if written then Some(p.live + [t]) else p.saved)
      case OpRestart =>
        p.(live := if p.saved.Some? && Loadable(After(p.saved.value).s) then p.saved.value else [])
  }

  /** With restarts and failing writes, the monitor is at every moment as if only the polls
      that still count had ever happened, one after the other and without a restart. */
  lemma {:induction false} RestartsForgetOnly(ops: seq<Op>)
    ensures var v, p := Serve(ops), Remembered(ops);
            && v.live == After(p.live)
            && v.disk == if p.saved.None? then None else Some(After(p.saved.value))
  {
    hide Step, Loadable;
    if ops != [] {
      var n := |ops| - 1;
      RestartsForgetOnly(ops[..n]);
      var p := Remembered(ops[..n]);
      if ops[n].OpPoll? {
        assert (p.live + [ops[n].t])[..|p.live|] == p.live;
      }
    }
  }

  /** Polls of readings, all written. */
  ghost predicate AllWritten(ops: seq<Op>) {
    forall i :: 0 <= i < |ops| && ops[i].OpPoll? ==> ops[i].written
  }

  function Polls(ops: seq<Op>): seq<Tick> {
    if ops == [] then []
    else
      var before := Polls(ops[..|ops| - 1]);
      match ops[|ops| - 1] case OpPoll(t, _) => before + [t] case OpRestart => before
  }

  /** As long as every snapshot reaches the file and every file is accepted at the next
      start, restarts change nothing at all. */
  lemma {:induction false} RestartsAreInvisible(ops: seq<Op>)
    requires AllWritten(ops)
    requires forall i :: 0 < i < |ops| && ops[i].OpRestart? && Polls(ops[..i]) != [] ==> Loadable(After(Polls(ops[..i])).s)
    ensures Remembered(ops) == Past(Polls(ops), if Polls(ops) == [] then None else Some(Polls(ops)))
    ensures Serve(ops).live == After(Polls(ops))
  {
    hide Loadable, After, Do;
    RestartsForgetOnly(ops);
    if ops != [] {
      var n := |ops| - 1;
      var init := ops[..n];
      forall i | 0 < i < n ensures init[..i] == ops[..i] {
      }
      assert forall i :: 0 <= i < n ==> init[i] == ops[i];
      RestartsAreInvisible(init);
    }
  }

  function Unwritten(ts: seq<Tick>): (ops: seq<Op>)
    ensures |ops| == |ts|
  {
    if ts == [] then [] else Unwritten(ts[..|ts| - 1]) + [OpPoll(ts[|ts| - 1], false)]
  }

  /** A refused file loses the past: the monitor is as if only the later polls had been. */
  lemma RefusalStartsAnew(ops: seq<Op>, later: seq<Tick>)
    requires Remembered(ops).saved.Some? && !Loadable(After(Remembered(ops).saved.value).s)
    ensures Serve(ops + [OpRestart] + Unwritten(later)).live == After(later)
  {
    hide Loadable, After, Serve;
    var all := ops + [OpRestart];
    assert all[..|ops|] == ops;
    Unsaved(all, later);
    assert [] + later == later;
    RestartsForgetOnly(all + Unwritten(later));
  }

  lemma {:induction false} Unsaved(ops: seq<Op>, later: seq<Tick>)
    ensures Remembered(ops + Unwritten(later)).live == Remembered(ops).live + later
    decreases |later|
  {
    hide Loadable, After;
    if later == [] {
      assert ops + Unwritten(later) == ops && Remembered(ops).live + [] == Remembered(ops).live;
    } else {
      var m := |later| - 1;
      var run := ops + Unwritten(later);
      assert run[..|run| - 1] == ops + Unwritten(later[..m]) && run[|run| - 1] == OpPoll(later[m], false);
      Unsaved(ops, later[..m]);
      assert later == later[..m] + [later[m]];
    }
  }

  const LABELLED := Volume("/dev/md0", BY_ID, 100, 0, Some(100))

  lemma LabelledDevice()
    ensures DeviceFile(LABELLED.file)
  {
  }

  lemma LabelledTitle()
    ensures BoundedText(LABELLED.title, 256)
  {
  }

  lemma LabelledAccepted()
    ensures AcceptedVolume(LABELLED)
  {
    hide DeviceFile, BoundedText;
    LabelledDevice();
    LabelledTitle();
  }

  /** One reading of a full filesystem whose label holds such a path is enough. */
  lemma LabelIsRefused(at: int, t: Thresholds)
    requires t.fullAt <= 100
    ensures var v := Views([], [LABELLED], []);
            Accepted(v) && !Loadable(After(Ticks([Reading(at, Some(v))], t)).s)
  {
    hide AcceptedVolume, After, Loadable;
    LabelledAccepted();
    var v := Views([], [LABELLED], []);
    var rs := [Reading(at, Some(v))];
    assert OccursAt(BY_ID, BY_ID, 0);
    assert LABELLED in v.volumes && OffendingVolume(LABELLED, t);
    assert OfVolumes([LABELLED], t) == OfVolume(LABELLED, t);
    assert All(v, t) == OfVolume(LABELLED, t);
    assert LastViews(rs, t) == Some(v);
    LoadableIff(rs, t);
  }
}
