/** Alert transitions: the active alerts and the event log across successful and failed
    polls. */
module HealthMonitor {
  import opened HealthAlerts
  import opened Wrappers

  const MAX_EVENTS: nat := 256

  datatype Alert = Alert(finding: Finding, firstSeen: int, lastSeen: int, occurrences: nat)

  datatype Kind = Opened | Changed | Resolved

  datatype Event = Event(finding: Finding, kind: Kind, at: int)

  datatype State = Healthy | Warning | Critical | Outage | Pending

  datatype Snapshot = Snapshot(
    alerts: seq<Alert>, events: seq<Event>, state: State, checkedAt: Option<int>, lastSuccess: Option<int>)

  const EMPTY := Snapshot([], [], Pending, None, None)

  const BRIDGE := "openmediavault"
  const BRIDGE_TEXT := "OMV 只读桥暂时不可用，"
  const STALE_TEXT := "之前的存储状态已标记为过期"

  const OUTAGE := Finding(Id(Unavailable, BRIDGE), true, BRIDGE_TEXT + STALE_TEXT)

  function IndexOf(list: seq<Alert>, id: Id): (i: nat)
    ensures i <= |list|
    ensures i < |list| ==> list[i].finding.id == id
    ensures forall k :: 0 <= k < i ==> list[k].finding.id != id
  {
    if list == [] || list[0].finding.id == id then 0 else 1 + IndexOf(list[1..], id)
  }

  predicate Has(list: seq<Alert>, id: Id) {
    IndexOf(list, id) < |list|
  }

  predicate Found(fs: seq<Finding>, id: Id) {
    exists i :: 0 <= i < |fs| && fs[i].id == id
  }

  function Carried(prior: seq<Alert>, f: Finding, at: int): Alert {
    var i := IndexOf(prior, f.id);
    if i == |prior| then Alert(f, at, at, 1)
    else Alert(f, prior[i].firstSeen, at, prior[i].occurrences + 1)
  }

  function Noted(prior: seq<Alert>, f: Finding, at: int): seq<Event> {
    var i := IndexOf(prior, f.id);
    if i == |prior| then [Event(f, Opened, at)]
    else if prior[i].finding != f then [Event(f, Changed, at)]
    else []
  }

  function Active(prior: seq<Alert>, fs: seq<Finding>, at: int): (r: seq<Alert>)
    ensures |r| == |fs| && forall i :: 0 <= i < |fs| ==> r[i] == Carried(prior, fs[i], at)
  {
    if fs == [] then [] else [Carried(prior, fs[0], at)] + Active(prior, fs[1..], at)
  }

  function Notes(prior: seq<Alert>, fs: seq<Finding>, at: int): seq<Event> {
    if fs == [] then [] else Noted(prior, fs[0], at) + Notes(prior, fs[1..], at)
  }

  function Resolutions(prior: seq<Alert>, fs: seq<Finding>, at: int): seq<Event> {
    if prior == [] then []
    else (if Found(fs, prior[0].finding.id) then [] else [Event(prior[0].finding, Resolved, at)])
         + Resolutions(prior[1..], fs, at)
  }

  function Last(events: seq<Event>): (r: seq<Event>)
    ensures |r| <= MAX_EVENTS
  {
    if |events| > MAX_EVENTS then events[|events| - MAX_EVENTS..] else events
  }

  predicate AnyCritical(list: seq<Alert>) {
    exists i :: 0 <= i < |list| && list[i].finding.critical
  }

  /** The events that one merge appends. */
  function NewEvents(prior: seq<Alert>, fs: seq<Finding>, at: int, success: bool): seq<Event> {
    Notes(prior, fs, at) + if success then Resolutions(prior, fs, at) else []
  }

  /** `_merge`. */
  function Merge(s: Snapshot, fs: seq<Finding>, at: int, success: bool): Snapshot {
    var active := Active(s.alerts, fs, at);
    Snapshot(active, Last(s.events + NewEvents(s.alerts, fs, at, success)),
             if !success then Outage else if AnyCritical(active) then Critical else if active != [] then Warning else Healthy,
             Some(at), if success then Some(at) else s.lastSuccess)
  }

  /** The storage alerts, as findings and as they were. */
  function Storage(list: seq<Alert>): (r: seq<Alert>)
    ensures |r| <= |list|
    ensures forall a :: a in r <==> a in list && a.finding.id.code != Unavailable
  {
    if list == [] then []
    else (if list[0].finding.id.code == Unavailable then [] else [list[0]]) + Storage(list[1..])
  }

  function Findings(list: seq<Alert>): (r: seq<Finding>)
    ensures |r| == |list| && forall i :: 0 <= i < |list| ==> r[i] == list[i].finding
  {
    if list == [] then [] else [list[0].finding] + Findings(list[1..])
  }

  /** Put back what a failed poll must not advance. */
  function Frozen(list: seq<Alert>, prior: seq<Alert>): (r: seq<Alert>)
    ensures |r| == |list|
    ensures forall i :: 0 <= i < |list| ==> r[i] == FrozenOne(list[i], prior)
  {
    if list == [] then [] else [FrozenOne(list[0], prior)] + Frozen(list[1..], prior)
  }

  function FrozenOne(a: Alert, prior: seq<Alert>): Alert {
    var i := IndexOf(prior, a.finding.id);
    if a.finding.id.code == Unavailable || i == |prior| then a
    else Alert(a.finding, prior[i].firstSeen, prior[i].lastSeen, prior[i].occurrences)
  }

  /** What a poll merges: the findings of a reading, or the old storage alerts and one
      for the bridge. */
  function Candidates(s: Snapshot, found: Option<seq<Finding>>): seq<Finding> {
    if found.Some? then found.value else Findings(Storage(s.alerts)) + [OUTAGE]
  }

  /** `poll`. */
  function Poll(s: Snapshot, found: Option<seq<Finding>>, at: int): Snapshot {
    var next := Merge(s, Candidates(s, found), at, found.Some?);
    if found.Some? then next else next.(alerts := Frozen(next.alerts, s.alerts))
  }

  // ----- runs -----

  /** One poll: its time and what it found, or nothing if OMV could not be read. */
  datatype Tick = Tick(at: int, found: Option<seq<Finding>>)

  /** The monitor and every event it ever logged. */
  datatype World = World(s: Snapshot, log: seq<Event>)

  function Step(w: World, t: Tick): World {
    World(Poll(w.s, t.found, t.at), w.log + NewEvents(w.s.alerts, Candidates(w.s, t.found), t.at, t.found.Some?))
  }

  /** The world after the first polls of a history. */
  function After(ts: seq<Tick>): World {
    if ts == [] then World(EMPTY, []) else Step(After(ts[..|ts| - 1]), ts[|ts| - 1])
  }

  ghost predicate Batches(ts: seq<Tick>) {
    forall i :: 0 <= i < |ts| && ts[i].found.Some? ==> Batch(ts[i].found.value)
  }

  // ----- the life of one alert -----

  datatype Phase = Closed | Open | Bad

  /** An alert's events read opened, changed*, resolved, and again. */
  function Next(p: Phase, k: Kind): Phase {
    if p == Closed && k == Opened then Open
    else if p == Open && k == Changed then Open
    else if p == Open && k == Resolved then Closed
    else Bad
  }

  function PhaseOf(log: seq<Event>, id: Id): Phase {
    if log == [] then Closed
    else
      var e := log[|log| - 1];
      var before := PhaseOf(log[..|log| - 1], id);
      if e.finding.id == id then Next(before, e.kind) else before
  }

  /** Replaying the log: opened adds, resolved removes. */
  function Replay(log: seq<Event>): set<Id> {
    if log == [] then {}
    else
      var e := log[|log| - 1];
      var before := Replay(log[..|log| - 1]);
      match e.kind
      case Opened => before + {e.finding.id}
      case Changed => before
      case Resolved => before - {e.finding.id}
  }

  /** The events of one alert in a list, in order. */
  function Kinds(log: seq<Event>, id: Id): seq<Kind> {
    if log == [] then [] else (if log[0].finding.id == id then [log[0].kind] else []) + Kinds(log[1..], id)
  }

  function Advance(p: Phase, ks: seq<Kind>): Phase
    decreases |ks|
  {
    if ks == [] then p else Advance(Next(p, ks[0]), ks[1..])
  }

  lemma {:induction false} PhaseAppend(log: seq<Event>, more: seq<Event>, id: Id)
    ensures PhaseOf(log + more, id) == Advance(PhaseOf(log, id), Kinds(more, id))
    decreases |more|
  {
    if more == [] {
      assert log + more == log;
    } else {
      var rest := Kinds(more[1..], id);
      assert ([more[0].kind] + rest)[1..] == rest && [] + rest == rest;
      assert Kinds(more, id) == if more[0].finding.id == id then [more[0].kind] + rest else rest;
      assert log + more == (log + [more[0]]) + more[1..];
      assert (log + [more[0]])[..|log|] == log;
      PhaseAppend(log + [more[0]], more[1..], id);
    }
  }

  lemma {:induction false} KindsConcat(a: seq<Event>, b: seq<Event>, id: Id)
    ensures Kinds(a + b, id) == Kinds(a, id) + Kinds(b, id)
  {
    if a == [] {
      assert a + b == b;
    } else {
      assert (a + b)[1..] == a[1..] + b;
      KindsConcat(a[1..], b, id);
    }
  }

  /** A log in which no alert goes wrong replays to the alerts that are open. */
  lemma {:induction false} ReplayIsOpen(log: seq<Event>, id: Id)
    requires PhaseOf(log, id) != Bad
    ensures id in Replay(log) <==> PhaseOf(log, id) == Open
  {
    if log != [] {
      ReplayIsOpen(log[..|log| - 1], id);
    }
  }

  /** Different alerts have different ids. */
  ghost predicate Apart(list: seq<Alert>) {
    forall i, j :: 0 <= i < j < |list| ==> list[i].finding.id != list[j].finding.id
  }

  lemma {:induction false} NotesKinds(prior: seq<Alert>, fs: seq<Finding>, at: int, id: Id)
    requires Different(fs)
    ensures var i := IndexOf(prior, id);
            Kinds(Notes(prior, fs, at), id)
            == if !Found(fs, id) then []
               else if i == |prior| then [Opened]
               else if prior[i].finding !in fs then [Changed] else []
  {
    hide IndexOf, Found;
    if fs != [] {
      NotesKinds(prior, fs[1..], at, id);
      NoteKinds(prior, fs[0], at, id);
      KindsConcat(Noted(prior, fs[0], at), Notes(prior, fs[1..], at), id);
      FoundTail(fs, id);
      if fs[0].id == id {
        HeadIsOnly(fs, id);
      }
      assert fs == [fs[0]] + fs[1..];
    } else {
      NothingFound(id);
    }
  }

  lemma NothingFound(id: Id)
    ensures !Found([], id)
  {
  }

  lemma NoteKinds(prior: seq<Alert>, f: Finding, at: int, id: Id)
    ensures var i := IndexOf(prior, id);
            Kinds(Noted(prior, f, at), id)
            == if f.id != id then [] else if i == |prior| then [Opened]
               else if prior[i].finding != f then [Changed] else []
  {
    hide IndexOf;
  }

  lemma HeadIsOnly(fs: seq<Finding>, id: Id)
    requires Different(fs) && fs != [] && fs[0].id == id
    ensures !Found(fs[1..], id) && forall f :: f in fs[1..] ==> f.id != id
  {
    forall k | 0 <= k < |fs[1..]| ensures fs[1..][k].id != id {
      assert fs[1..][k] == fs[k + 1];
    }
  }

  lemma FoundTail(fs: seq<Finding>, id: Id)
    requires fs != []
    ensures Found(fs, id) <==> fs[0].id == id || Found(fs[1..], id)
  {
    if i :| 0 < i < |fs| && fs[i].id == id {
      assert fs[1..][i - 1].id == id;
    }
    if i :| 0 <= i < |fs[1..]| && fs[1..][i].id == id {
      assert fs[i + 1].id == id;
    }
  }

  lemma {:induction false} ResolutionKinds(prior: seq<Alert>, fs: seq<Finding>, at: int, id: Id)
    requires Apart(prior)
    ensures Kinds(Resolutions(prior, fs, at), id) == if Has(prior, id) && !Found(fs, id) then [Resolved] else []
  {
    if prior != [] {
      ResolutionKinds(prior[1..], fs, at, id);
      var first := if Found(fs, prior[0].finding.id) then [] else [Event(prior[0].finding, Resolved, at)];
      KindsConcat(first, Resolutions(prior[1..], fs, at), id);
      if prior[0].finding.id == id {
        forall k | 0 <= k < |prior[1..]| ensures prior[1..][k].finding.id != id {
          assert prior[1..][k] == prior[k + 1];
        }
      }
    }
  }

  // ----- what every history keeps -----

  ghost predicate Inv(w: World) {
    && Apart(w.s.alerts)
    && (forall id :: PhaseOf(w.log, id) == if Has(w.s.alerts, id) then Open else Closed)
    && w.s.events == Last(w.log)
    && |Storage(w.s.alerts)| <= MAX_ACTIVE
    && forall a :: a in w.s.alerts && a.finding.id.code == Unavailable ==> a.finding == OUTAGE
  }

  lemma HasFound(prior: seq<Alert>, fs: seq<Finding>, at: int, id: Id)
    ensures Has(Active(prior, fs, at), id) <==> Found(fs, id)
  {
    var active := Active(prior, fs, at);
    if i :| 0 <= i < |fs| && fs[i].id == id {
      assert active[i].finding.id == id;
    }
    var i := IndexOf(active, id);
    assert i < |active| ==> fs[i].id == id;
  }

  lemma MergePhases(w: World, fs: seq<Finding>, at: int, success: bool, id: Id)
    requires Inv(w) && Different(fs)
    requires !success ==> forall x :: Has(w.s.alerts, x) ==> Found(fs, x)
    ensures PhaseOf(w.log + NewEvents(w.s.alerts, fs, at, success), id)
            == if Has(Active(w.s.alerts, fs, at), id) then Open else Closed
  {
    hide PhaseOf, IndexOf, Active;
    var prior := w.s.alerts;
    var notes, resolutions := Notes(prior, fs, at), if success then Resolutions(prior, fs, at) else [];
    PhaseAppend(w.log, notes + resolutions, id);
    KindsConcat(notes, resolutions, id);
    NotesKinds(prior, fs, at, id);
    if success {
      ResolutionKinds(prior, fs, at, id);
    }
    HasFound(prior, fs, at, id);
    assert PhaseOf(w.log, id) == if Has(prior, id) then Open else Closed;
  }

  lemma LastAppend(log: seq<Event>, more: seq<Event>)
    ensures Last(Last(log) + more) == Last(log + more)
  {
  }

  lemma ActiveApart(prior: seq<Alert>, fs: seq<Finding>, at: int)
    requires Different(fs)
    ensures Apart(Active(prior, fs, at))
  {
  }

  lemma {:induction false} StorageApart(list: seq<Alert>)
    requires Apart(list)
    ensures Apart(Storage(list))
  {
    if list != [] {
      StorageApart(list[1..]);
      var rest := Storage(list[1..]);
      forall j | 0 <= j < |rest| ensures rest[j].finding.id != list[0].finding.id {
        assert rest[j] in rest;
        var k :| 0 <= k < |list[1..]| && list[1..][k] == rest[j];
        assert list[k + 1] == rest[j];
      }
    }
  }

  lemma HeldCandidates(s: Snapshot)
    requires Apart(s.alerts)
    requires forall a :: a in s.alerts && a.finding.id.code == Unavailable ==> a.finding == OUTAGE
    ensures Different(Candidates(s, None)) && |Candidates(s, None)| == |Storage(s.alerts)| + 1
    ensures forall x :: Has(s.alerts, x) ==> Found(Candidates(s, None), x)
    ensures Found(Candidates(s, None), OUTAGE.id)
  {
    hide IndexOf, Storage, Found, Candidates;
    var held, fs := Storage(s.alerts), Candidates(s, None);
    StorageApart(s.alerts);
    HeldShape(s);
    FoundAt(fs, |held|);
    forall i | 0 <= i < |held| ensures fs[i].id != OUTAGE.id {
      assert held[i] in held;
    }
    forall x | Has(s.alerts, x) ensures Found(fs, x) {
      var a := s.alerts[IndexOf(s.alerts, x)];
      assert a in s.alerts;
      if a.finding.id.code != Unavailable {
        var k :| 0 <= k < |held| && held[k] == a;
        FoundAt(fs, k);
      }
    }
  }

  lemma HeldShape(s: Snapshot)
    ensures var held, fs := Storage(s.alerts), Candidates(s, None);
            |fs| == |held| + 1 && fs[|held|] == OUTAGE && forall i :: 0 <= i < |held| ==> fs[i] == held[i].finding
  {
    hide Storage;
  }

  /** A failed poll keeps exactly the storage alerts it had, and adds the outage. */
  lemma FailedPollFreezes(s: Snapshot, at: int)
    requires Apart(s.alerts)
    ensures var next := Poll(s, None, at);
            && next.alerts == Storage(s.alerts) + [Carried(s.alerts, OUTAGE, at)]
            && next.lastSuccess == s.lastSuccess
            && forall e :: e in NewEvents(s.alerts, Candidates(s, None), at, false) ==> e.kind != Resolved
  {
    hide IndexOf, Storage, Last, AnyCritical, Carried;
    var fs := Candidates(s, None);
    var held, merged := Storage(s.alerts), Active(s.alerts, fs, at);
    var next := Frozen(merged, s.alerts);
    forall i | 0 <= i < |held| ensures next[i] == held[i] {
      assert merged[i] == Carried(s.alerts, held[i].finding, at);
      FrozenBack(s.alerts, held[i], at);
    }
    CarriedFinding(s.alerts, OUTAGE, at);
    assert next[|held|] == Carried(s.alerts, OUTAGE, at);
    NotesNeverResolve(s.alerts, fs, at);
  }

  lemma CarriedFinding(prior: seq<Alert>, f: Finding, at: int)
    ensures Carried(prior, f, at).finding == f
  {
  }

  /** Carrying a storage alert over and freezing it gives the alert back. */
  lemma FrozenBack(prior: seq<Alert>, a: Alert, at: int)
    requires Apart(prior) && a in prior && a.finding.id.code != Unavailable
    ensures FrozenOne(Carried(prior, a.finding, at), prior) == a
  {
    hide IndexOf;
    var k :| 0 <= k < |prior| && prior[k] == a;
    IndexUnique(prior, k);
  }

  lemma IndexUnique(list: seq<Alert>, k: nat)
    requires Apart(list) && k < |list|
    ensures IndexOf(list, list[k].finding.id) == k
  {
    var i := IndexOf(list, list[k].finding.id);
    assert i <= k && list[i].finding.id == list[k].finding.id;
  }

  lemma {:induction false} NotesNeverResolve(prior: seq<Alert>, fs: seq<Finding>, at: int)
    ensures forall e :: e in Notes(prior, fs, at) ==> e.kind != Resolved
  {
    if fs != [] {
      NotesNeverResolve(prior, fs[1..], at);
    }
  }

  lemma {:induction false} StorageWhole(list: seq<Alert>)
    requires forall a :: a in list ==> a.finding.id.code != Unavailable
    ensures Storage(list) == list
  {
    if list != [] {
      assert list[0] in list && forall a :: a in list[1..] ==> a in list;
      StorageWhole(list[1..]);
    }
  }

  lemma {:induction false} StorageAppend(list: seq<Alert>, a: Alert)
    ensures Storage(list + [a]) == Storage(list) + if a.finding.id.code == Unavailable then [] else [a]
  {
    if list == [] {
      assert list + [a] == [a];
    } else {
      assert (list + [a])[1..] == list[1..] + [a];
      StorageAppend(list[1..], a);
    }
  }

  /** The alerts after a successful poll. */
  lemma SuccessAlerts(prior: seq<Alert>, fs: seq<Finding>, at: int)
    requires Batch(fs)
    ensures var list := Active(prior, fs, at);
            && Different(fs) && Apart(list) && Storage(list) == list && |list| <= MAX_ACTIVE
            && forall a :: a in list ==> a.finding.id.code != Unavailable
  {
    hide Carried;
    var list := Active(prior, fs, at);
    ActiveApart(prior, fs, at);
    forall a | a in list ensures a.finding.id.code != Unavailable {
      var i :| 0 <= i < |list| && list[i] == a;
      CarriedFinding(prior, fs[i], at);
      assert fs[i] in fs;
    }
    StorageWhole(list);
  }

  lemma StepSucceeds(w: World, t: Tick)
    requires Inv(w) && t.found.Some? && Batch(t.found.value)
    ensures Inv(Step(w, t))
    ensures Storage(Step(w, t).s.alerts) == Step(w, t).s.alerts
  {
    hide PhaseOf, Active, Notes, Resolutions, Has, Found, Last, AnyCritical, Batch, Storage, Apart;
    var fs := t.found.value;
    var next := Step(w, t);
    SuccessAlerts(w.s.alerts, fs, t.at);
    forall id ensures PhaseOf(next.log, id) == if Has(next.s.alerts, id) then Open else Closed {
      MergePhases(w, fs, t.at, true, id);
    }
    LastAppend(w.log, NewEvents(w.s.alerts, fs, t.at, true));
  }

  /** The alerts after a failed poll, against what was merged. */
  lemma FailedAlerts(s: Snapshot, at: int)
    requires Apart(s.alerts)
    requires forall a :: a in s.alerts && a.finding.id.code == Unavailable ==> a.finding == OUTAGE
    ensures var fs, next := Candidates(s, None), Poll(s, None, at).alerts;
            && Different(fs) && Apart(next) && Storage(next) == Storage(s.alerts)
            && (forall x :: Has(s.alerts, x) ==> Found(fs, x))
            && (forall a :: a in next && a.finding.id.code == Unavailable ==> a.finding == OUTAGE)
            && forall x :: Has(next, x) <==> Has(Active(s.alerts, fs, at), x)
  {
    hide IndexOf, Found, Poll, Storage;
    var fs := Candidates(s, None);
    HeldCandidates(s);
    FailedPollFreezes(s, at);
    var held, next, merged := Storage(s.alerts), Poll(s, None, at).alerts, Active(s.alerts, fs, at);
    assert forall i :: 0 <= i < |merged| ==> next[i].finding == merged[i].finding == fs[i];
    SameHas(merged, next);
    StorageAppend(held, Carried(s.alerts, OUTAGE, at));
    StorageWhole(held);
  }

  lemma StepFails(w: World, t: Tick)
    requires Inv(w) && t.found.None?
    ensures Inv(Step(w, t))
    ensures Storage(Step(w, t).s.alerts) == Storage(w.s.alerts)
  {
    hide PhaseOf, Has, Active, Frozen, Notes, Resolutions, Last, Storage, Found, Candidates;
    var fs, next := Candidates(w.s, None), Step(w, t);
    FailedAlerts(w.s, t.at);
    forall id ensures PhaseOf(next.log, id) == if Has(next.s.alerts, id) then Open else Closed {
      MergePhases(w, fs, t.at, false, id);
    }
    LastAppend(w.log, NewEvents(w.s.alerts, fs, t.at, false));
  }

  lemma SameHas(a: seq<Alert>, b: seq<Alert>)
    requires |a| == |b| && forall i :: 0 <= i < |a| ==> a[i].finding == b[i].finding
    ensures forall id :: Has(a, id) <==> Has(b, id)
  {
    forall id ensures Has(a, id) <==> Has(b, id) {
      var i, j := IndexOf(a, id), IndexOf(b, id);
      assert i < |a| ==> b[i].finding.id == id;
      assert j < |b| ==> a[j].finding.id == id;
    }
  }

  lemma {:induction false} HistoryKeeps(ts: seq<Tick>)
    requires Batches(ts)
    ensures Inv(After(ts))
  {
    if ts != [] {
      var n := |ts| - 1;
      HistoryKeeps(ts[..n]);
      if ts[n].found.Some? {
        StepSucceeds(After(ts[..n]), ts[n]);
      } else {
        StepFails(After(ts[..n]), ts[n]);
      }
    }
  }

  /** Replaying the whole log gives exactly the active alerts, every alert's events read
      opened, changed*, resolved, and the kept events are the last 256 of the log. */
  lemma LogReplaysToActive(ts: seq<Tick>)
    requires Batches(ts)
    ensures var w := After(ts);
            && (forall id :: id in Replay(w.log) <==> Has(w.s.alerts, id))
            && (forall id :: PhaseOf(w.log, id) != Bad)
            && w.s.events == (if |w.log| <= MAX_EVENTS then w.log else w.log[|w.log| - MAX_EVENTS..])
            && Apart(w.s.alerts)
  {
    hide After, Replay, PhaseOf, Has, Storage;
    HistoryKeeps(ts);
    var w := After(ts);
    forall id ensures id in Replay(w.log) <==> Has(w.s.alerts, id) {
      ReplayIsOpen(w.log, id);
    }
  }

  lemma TwiceIsBad(e: Event)
    requires e.kind == Opened
    ensures PhaseOf([e, e], e.finding.id) == Bad
  {
    assert [e, e][..1] == [e] && [e][..0] == [];
  }

  /** A reading that lists a resource twice opens the same alert twice. */
  lemma DuplicateOpensTwice(f: Finding, at: int)
    ensures var w := After([Tick(at, Some([f, f]))]);
            w.log == [Event(f, Opened, at), Event(f, Opened, at)] && !Apart(w.s.alerts) && PhaseOf(w.log, f.id) == Bad
  {
    hide PhaseOf, IndexOf, Last, AnyCritical, Kinds;
    var ts, twice := [Tick(at, Some([f, f]))], [f, f];
    assert ts[..0] == [] && twice[1..] == [f];
    var event := Event(f, Opened, at);
    assert Notes([], [f], at) == [event];
    assert Notes([], twice, at) == [event, event];
    assert NewEvents([], twice, at, true) == [event, event];
    assert After([]) == World(EMPTY, []);
    var w := After(ts);
    assert w == Step(After([]), ts[0]);
    assert w.log == [event, event];
    TwiceIsBad(event);
    assert w.s.alerts[0].finding.id == w.s.alerts[1].finding.id;
  }

  // ----- counts and times -----

  /** Successful polls in a row that found the alert, failed polls not counting. */
  function Count(ts: seq<Tick>, id: Id): nat {
    if ts == [] then 0
    else
      var t, before := ts[|ts| - 1], Count(ts[..|ts| - 1], id);
      if t.found.None? then before else if Found(t.found.value, id) then before + 1 else 0
  }

  /** When that row began, and the last successful poll. */
  function Since(ts: seq<Tick>, id: Id): int {
    if ts == [] then 0
    else
      var t, before := ts[|ts| - 1], ts[..|ts| - 1];
      if t.found.None? || Count(before, id) > 0 then Since(before, id) else t.at
  }

  function LastSuccess(ts: seq<Tick>): Option<int> {
    if ts == [] then None
    else if ts[|ts| - 1].found.Some? then Some(ts[|ts| - 1].at) else LastSuccess(ts[..|ts| - 1])
  }

  ghost predicate Counted(ts: seq<Tick>, s: Snapshot) {
    && s.lastSuccess == LastSuccess(ts)
    && (forall id: Id :: id.code != Unavailable ==> (Has(s.alerts, id) <==> Count(ts, id) > 0))
    && forall i :: 0 <= i < |s.alerts| && s.alerts[i].finding.id.code != Unavailable ==>
         var a := s.alerts[i];
         a.occurrences == Count(ts, a.finding.id) && a.firstSeen == Since(ts, a.finding.id)
         && LastSuccess(ts) == Some(a.lastSeen)
  }

  lemma FoundAt(fs: seq<Finding>, i: nat)
    requires i < |fs|
    ensures Found(fs, fs[i].id)
  {
  }

  lemma HasIsIndex(list: seq<Alert>, id: Id)
    ensures Has(list, id) <==> IndexOf(list, id) < |list|
  {
  }

  /** One alert after a successful poll. */
  lemma CarriedCounts(ts: seq<Tick>, s: Snapshot, t: Tick, i: nat)
    requires Counted(ts, s) && t.found.Some? && i < |t.found.value| && t.found.value[i].id.code != Unavailable
    ensures var a, us := Carried(s.alerts, t.found.value[i], t.at), ts + [t];
            && a.occurrences == Count(us, a.finding.id) && a.firstSeen == Since(us, a.finding.id)
            && LastSuccess(us) == Some(a.lastSeen)
  {
    hide Found;
    var fs, us := t.found.value, ts + [t];
    assert us[..|ts|] == ts && us[|us| - 1] == t;
    FoundAt(fs, i);
    HasIsIndex(s.alerts, fs[i].id);
    assert Has(s.alerts, fs[i].id) <==> Count(ts, fs[i].id) > 0;
  }

  lemma CountedSuccess(ts: seq<Tick>, t: Tick)
    requires Counted(ts, After(ts).s) && t.found.Some? && Batch(t.found.value)
    ensures Counted(ts + [t], Poll(After(ts).s, t.found, t.at))
  {
    hide IndexOf, NewEvents, Last, AnyCritical, Found, Has, After, Since, Carried;
    var s, fs, us := After(ts).s, t.found.value, ts + [t];
    assert us[..|ts|] == ts && us[|us| - 1] == t;
    var next := Poll(s, t.found, t.at);
    forall id: Id | id.code != Unavailable ensures Has(next.alerts, id) <==> Count(us, id) > 0 {
      HasFound(s.alerts, fs, t.at, id);
    }
    forall i | 0 <= i < |next.alerts| ensures
      var a := next.alerts[i];
      a.occurrences == Count(us, a.finding.id) && a.firstSeen == Since(us, a.finding.id)
      && LastSuccess(us) == Some(a.lastSeen)
    {
      assert fs[i] in fs;
      CarriedCounts(ts, s, t, i);
    }
  }

  /** A failed poll has the same storage alerts, each as it was. */
  lemma FailedKeepsAlerts(s: Snapshot, at: int)
    requires Apart(s.alerts)
    ensures var next := Poll(s, None, at).alerts;
            && (forall a :: a in next && a.finding.id.code != Unavailable ==> a in s.alerts)
            && forall id: Id :: id.code != Unavailable ==> (Has(next, id) <==> Has(s.alerts, id))
  {
    hide IndexOf, Poll;
    FailedPollFreezes(s, at);
    var held, next := Storage(s.alerts), Poll(s, None, at).alerts;
    assert next[|held|].finding == OUTAGE;
    forall id: Id | id.code != Unavailable ensures Has(next, id) <==> Has(s.alerts, id) {
      var k, m := IndexOf(next, id), IndexOf(s.alerts, id);
      if k < |next| {
        assert next[k] == held[k] && held[k] in held;
        var n :| 0 <= n < |s.alerts| && s.alerts[n] == held[k];
        assert n >= m;
      }
      if m < |s.alerts| {
        assert s.alerts[m] in held;
        var n :| 0 <= n < |held| && held[n] == s.alerts[m];
        assert next[n].finding.id == id;
      }
    }
  }

  lemma CountedFailure(ts: seq<Tick>, t: Tick)
    requires Counted(ts, After(ts).s) && Inv(After(ts)) && t.found.None?
    ensures Counted(ts + [t], Step(After(ts), t).s)
  {
    hide IndexOf, PhaseOf, Poll, Candidates, Last, Storage, After;
    var w, us := After(ts), ts + [t];
    assert us[..|ts|] == ts;
    FailedPollFreezes(w.s, t.at);
    FailedKeepsAlerts(w.s, t.at);
    var next := Step(w, t).s;
    forall i | 0 <= i < |next.alerts| && next.alerts[i].finding.id.code != Unavailable
      ensures exists k :: 0 <= k < |w.s.alerts| && w.s.alerts[k] == next.alerts[i]
    {
      assert next.alerts[i] in next.alerts;
    }
  }

  lemma NothingCounted()
    ensures Counted([], EMPTY)
  {
  }

  lemma {:induction false} HistoryCounts(ts: seq<Tick>)
    requires Batches(ts)
    ensures Counted(ts, After(ts).s)
  {
    hide Counted, Inv, Poll, NewEvents, Candidates;
    if ts == [] {
      NothingCounted();
    }
    if ts != [] {
      var n := |ts| - 1;
      HistoryCounts(ts[..n]);
      HistoryKeeps(ts[..n]);
      assert ts == ts[..n] + [ts[n]];
      if ts[n].found.Some? {
        CountedSuccess(ts[..n], ts[n]);
      } else {
        CountedFailure(ts[..n], ts[n]);
      }
    }
  }

  /** A storage alert counts the successful polls since it opened, was first seen by the
      first of them, and was last seen by the last; outages change none of this. */
  lemma OccurrencesCountSuccesses(ts: seq<Tick>, a: Alert)
    requires Batches(ts) && a in After(ts).s.alerts && a.finding.id.code != Unavailable
    ensures a.occurrences == Count(ts, a.finding.id) && a.occurrences > 0
    ensures a.firstSeen == Since(ts, a.finding.id) && LastSuccess(ts) == Some(a.lastSeen)
  {
    HistoryCounts(ts);
    HistoryKeeps(ts);
    var i :| 0 <= i < |After(ts).s.alerts| && After(ts).s.alerts[i] == a;
    IndexUnique(After(ts).s.alerts, i);
    assert Has(After(ts).s.alerts, a.finding.id);
  }
}
