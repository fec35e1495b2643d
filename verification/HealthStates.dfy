/** The state, the times and the outage alert that the monitor shows after any polls. */
module HealthStates {
  import opened HealthAlerts
  import opened HealthMonitor
  import opened HealthReload
  import opened Wrappers

  ghost predicate Severe(fs: seq<Finding>) {
    exists i :: 0 <= i < |fs| && fs[i].critical
  }

  lemma StateAndTimes(w: World, t: Tick)
    ensures var s := Step(w, t).s;
            && s.checkedAt == Some(t.at)
            && (t.found.None? ==> s.state == Outage && s.lastSuccess == w.s.lastSuccess)
            && (t.found.Some? ==>
                  && s.lastSuccess == Some(t.at)
                  && (s.state == Critical <==> Severe(t.found.value))
                  && (s.state == Warning <==> !Severe(t.found.value) && t.found.value != [])
                  && (s.state == Healthy <==> t.found.value == []))
  {
    hide Carried, NewEvents, Last, Candidates;
    if t.found.Some? {
      assert Candidates(w.s, t.found) == t.found.value by {
        FoundAreMerged(w.s, t.found);
      }
      var active := Active(w.s.alerts, t.found.value, t.at);
      forall i | 0 <= i < |active| ensures active[i].finding == t.found.value[i] {
        CarriedIs(w.s.alerts, t.found.value[i], t.at);
      }
      assert AnyCritical(active) <==> Severe(t.found.value);
    }
  }

  lemma FoundAreMerged(s: Snapshot, found: Option<seq<Finding>>)
    requires found.Some?
    ensures Candidates(s, found) == found.value
  {
  }

  lemma CarriedIs(prior: seq<Alert>, f: Finding, at: int)
    ensures Carried(prior, f, at).finding == f
  {
  }

  /** Whatever happened before, the last poll alone decides the state and when it was
      checked: an outage if it failed, else critical with a critical finding, a warning with
      any other, and healthy without one; the last success stays until the next. */
  lemma StateIs(ts: seq<Tick>)
    requires ts != []
    ensures var s, last := After(ts).s, ts[|ts| - 1];
            && s.checkedAt == Some(last.at)
            && (s.state == Outage <==> last.found.None?)
            && (last.found.Some? ==>
                  && (s.state == Critical <==> Severe(last.found.value))
                  && (s.state == Warning <==> !Severe(last.found.value) && last.found.value != [])
                  && (s.state == Healthy <==> last.found.value == []))
  {
    hide Step;
    StateAndTimes(After(ts[..|ts| - 1]), ts[|ts| - 1]);
  }

  /** The last success is the time of the latest poll that found anything out. */
  lemma {:induction false} LastSuccessIs(ts: seq<Tick>, i: nat)
    requires i < |ts| && ts[i].found.Some? && forall k :: i < k < |ts| ==> ts[k].found.None?
    ensures After(ts).s.lastSuccess == Some(ts[i].at)
  {
    hide Step;
    var n := |ts| - 1;
    StateAndTimes(After(ts[..n]), ts[n]);
    if i < n {
      LastSuccessIs(ts[..n], i);
    }
  }

  /** How many polls failed since the last success. */
  function Failures(ts: seq<Tick>): (n: nat)
    ensures n <= |ts|
  {
    if ts == [] || ts[|ts| - 1].found.Some? then 0 else 1 + Failures(ts[..|ts| - 1])
  }

  /** The alert of an outage, last in the list. */
  predicate EndsIn(alerts: seq<Alert>, a: Alert) {
    alerts != [] && alerts[|alerts| - 1] == a
  }

  lemma OutageLast(s: Snapshot, at: int)
    requires Apart(s.alerts)
    ensures EndsIn(Poll(s, None, at).alerts, Carried(s.alerts, OUTAGE, at))
  {
    hide Poll, Carried, Storage, NewEvents, Candidates;
    FailedPollFreezes(s, at);
  }

  lemma OutageGoesOn(s: Snapshot, at: int, since: int, last: int, n: nat)
    requires Apart(s.alerts) && EndsIn(s.alerts, Alert(OUTAGE, since, last, n))
    ensures EndsIn(Poll(s, None, at).alerts, Alert(OUTAGE, since, at, n + 1))
  {
    hide Poll;
    OutageLast(s, at);
    IndexUnique(s.alerts, |s.alerts| - 1);
  }

  lemma OutageBegins(s: Snapshot, at: int)
    requires Apart(s.alerts) && forall a :: a in s.alerts ==> a.finding.id.code != Unavailable
    ensures EndsIn(Poll(s, None, at).alerts, Alert(OUTAGE, at, at, 1))
  {
    hide Poll;
    OutageLast(s, at);
    assert forall i :: 0 <= i < |s.alerts| ==> s.alerts[i] in s.alerts;
  }

  lemma AfterLast(ts: seq<Tick>)
    requires Batches(ts) && ts != []
    ensures var m := |ts| - 1;
            && Batches(ts[..m]) && Apart(After(ts[..m]).s.alerts)
            && After(ts).s == Poll(After(ts[..m]).s, ts[m].found, ts[m].at)
  {
    hide Poll, NewEvents, Batch, PhaseOf, Has, Storage, Last;
    HistoryKeeps(ts[..|ts| - 1]);
  }

  /** During an outage its alert comes last; it counts the failed polls since the last
      success and was first seen at the first of them. */
  lemma {:induction false} OutageAlert(ts: seq<Tick>)
    requires Batches(ts) && ts != [] && ts[|ts| - 1].found.None?
    ensures var alerts, n := After(ts).s.alerts, Failures(ts);
            alerts != [] && alerts[|alerts| - 1] == Alert(OUTAGE, ts[|ts| - n].at, ts[|ts| - 1].at, n)
  {
    hide Poll, Apart, After, Batches;
    var m := |ts| - 1;
    var before, t := ts[..m], ts[m];
    AfterLast(ts);
    if m > 0 && before[m - 1].found.None? {
      OutageAlert(before);
      var n := Failures(before);
      OutageGoesOn(After(before).s, t.at, before[m - n].at, before[m - 1].at, n);
    } else {
      NoOutage(before);
      OutageBegins(After(before).s, t.at);
    }
  }

  lemma NoOutage(ts: seq<Tick>)
    requires Batches(ts) && (ts == [] || ts[|ts| - 1].found.Some?)
    ensures forall a :: a in After(ts).s.alerts ==> a.finding.id.code != Unavailable
  {
    hide Poll, After;
    if ts == [] {
      NothingYet();
    } else {
      AfterLast(ts);
      BatchFound(ts);
      NoOutageAfter(After(ts[..|ts| - 1]).s, ts[|ts| - 1].found.value, ts[|ts| - 1].at);
    }
  }

  lemma NothingYet()
    ensures After([]).s.alerts == []
  {
  }

  lemma BatchFound(ts: seq<Tick>)
    requires Batches(ts) && ts != [] && ts[|ts| - 1].found.Some?
    ensures forall f :: f in ts[|ts| - 1].found.value ==> f.id.code != Unavailable
  {
  }

  lemma NoOutageAfter(s: Snapshot, fs: seq<Finding>, at: int)
    requires forall f :: f in fs ==> f.id.code != Unavailable
    ensures forall a :: a in Poll(s, Some(fs), at).alerts ==> a.finding.id.code != Unavailable
  {
    hide Poll;
    SuccessFindings(s, fs, at);
    var alerts := Poll(s, Some(fs), at).alerts;
    forall a | a in alerts ensures a.finding.id.code != Unavailable {
      var i :| 0 <= i < |alerts| && alerts[i] == a;
      assert Findings(alerts)[i] in fs;
    }
  }
}
