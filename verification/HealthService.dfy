/** The health monitor: its loops and the snapshot it replaces. */
module HealthService {
  import opened HealthAlerts
  import opened HealthMonitor
  import opened Wrappers

  class OmvHealthMonitor {
    const limits: Thresholds
    var snapshot: Snapshot
    /** Every event ever appended. */
    ghost var log: seq<Event>

    constructor (limits: Thresholds)
      ensures snapshot == EMPTY && log == [] && this.limits == limits
    {
      this.limits, snapshot, log := limits, EMPTY, [];
    }

    method DiskAlerts(ds: seq<Disk>) returns (alerts: seq<Finding>)
      ensures alerts == OfDisks(ds, limits)
    {
      hide OfDisk;
      alerts := [];
      for i := 0 to |ds|
        invariant alerts + OfDisks(ds[i..], limits) == OfDisks(ds, limits)
      {
        assert ds[i..][1..] == ds[i + 1..];
        alerts := alerts + OfDisk(ds[i], limits);
      }
    }

    method VolumeAlerts(vs: seq<Volume>) returns (alerts: seq<Finding>)
      ensures alerts == OfVolumes(vs, limits)
    {
      hide OfVolume;
      alerts := [];
      for i := 0 to |vs|
        invariant alerts + OfVolumes(vs[i..], limits) == OfVolumes(vs, limits)
      {
        assert vs[i..][1..] == vs[i + 1..];
        alerts := alerts + OfVolume(vs[i], limits);
      }
    }

    method ArrayAlerts(list: seq<Array>) returns (alerts: seq<Finding>)
      ensures alerts == OfArrays(list)
    {
      hide OfArray;
      alerts := [];
      for i := 0 to |list|
        invariant alerts + OfArrays(list[i..]) == OfArrays(list)
      {
        assert list[i..][1..] == list[i + 1..];
        alerts := alerts + OfArray(list[i]);
      }
    }

    method DeriveAlerts(v: Views) returns (r: Option<seq<Finding>>)
      ensures r == Derive(v, limits)
    {
      hide OfDisks, OfVolumes, OfArrays, Graded;
      var disks := DiskAlerts(v.disks);
      var volumes := VolumeAlerts(v.volumes);
      var arrays := ArrayAlerts(v.arrays);
      var alerts := disks + volumes + arrays;
      r := if |alerts| > MAX_ACTIVE then None else Some(Graded(alerts, true) + Graded(alerts, false));
    }

    static method Observe(prior: seq<Alert>, fs: seq<Finding>, at: int)
      returns (active: seq<Alert>, events: seq<Event>)
      ensures active == Active(prior, fs, at) && events == Notes(prior, fs, at)
    {
      hide Noted, Carried, IndexOf, Notes;
      active, events := [], [];
      assert fs[0..] == fs && [] + Notes(prior, fs, at) == Notes(prior, fs, at);
      for i := 0 to |fs|
        invariant active == Active(prior, fs, at)[..i]
        invariant events + Notes(prior, fs[i..], at) == Notes(prior, fs, at)
      {
        assert fs[i..][1..] == fs[i + 1..];
        NoteStep(events, prior, fs[i..], at);
        events := events + Noted(prior, fs[i], at);
        active := active + [Carried(prior, fs[i], at)];
      }
      NoteStep(events, prior, fs[|fs|..], at);
    }

    static method Resolve(prior: seq<Alert>, fs: seq<Finding>, at: int) returns (events: seq<Event>)
      ensures events == Resolutions(prior, fs, at)
    {
      hide Found, Resolutions;
      events := [];
      assert prior[0..] == prior && [] + Resolutions(prior, fs, at) == Resolutions(prior, fs, at);
      for i := 0 to |prior|
        invariant events + Resolutions(prior[i..], fs, at) == Resolutions(prior, fs, at)
      {
        assert prior[i..][1..] == prior[i + 1..];
        ResolveStep(events, prior[i..], fs, at);
        if !Found(fs, prior[i].finding.id) {
          events := events + [Event(prior[i].finding, Resolved, at)];
        }
      }
      ResolveStep(events, prior[|prior|..], fs, at);
    }

    static method MergeAlerts(s: Snapshot, fs: seq<Finding>, at: int, success: bool)
      returns (next: Snapshot, added: seq<Event>)
      ensures next == Merge(s, fs, at, success) && added == NewEvents(s.alerts, fs, at, success)
    {
      hide Active, Notes, Resolutions, Last, AnyCritical;
      var active, events := Observe(s.alerts, fs, at);
      added := events;
      if success {
        var resolved := Resolve(s.alerts, fs, at);
        added := events + resolved;
      } else {
        assert events + [] == events;
      }
      var state := if !success then Outage else if AnyCritical(active) then Critical
                   else if active != [] then Warning else Healthy;
      next := Snapshot(active, Last(s.events + added), state, Some(at), if success then Some(at) else s.lastSuccess);
    }

    /** `views` is what the three reads returned, if they all did. */
    method PollOnce(views: Option<Views>, at: int)
      modifies this
      ensures var found := if views.None? then None else Derive(views.value, limits);
              World(snapshot, log) == Step(World(old(snapshot), old(log)), Tick(at, found))
    {
      var found: Option<seq<Finding>> := None;
      if views.Some? {
        found := DeriveAlerts(views.value);
      }
      var prior := snapshot;
      var next, added := MergeAlerts(prior, Candidates(prior, found), at, found.Some?);
      if found.None? {
        var alerts := next.alerts;
        for i := 0 to |alerts|
          invariant |alerts| == |next.alerts|
          invariant forall k :: 0 <= k < i ==> alerts[k] == FrozenOne(next.alerts[k], prior.alerts)
          invariant forall k :: i <= k < |alerts| ==> alerts[k] == next.alerts[k]
        {
          alerts := alerts[i := FrozenOne(alerts[i], prior.alerts)];
        }
        assert alerts == Frozen(next.alerts, prior.alerts);
        next := next.(alerts := alerts);
      }
      snapshot := next;
      log := log + added;
    }
  }

  /** One turn of each loop of the merge. */
  lemma NoteStep(done: seq<Event>, prior: seq<Alert>, fs: seq<Finding>, at: int)
    ensures fs == [] ==> done + Notes(prior, fs, at) == done
    ensures fs != [] ==> done + Notes(prior, fs, at) == done + Noted(prior, fs[0], at) + Notes(prior, fs[1..], at)
  {
    hide Noted;
    if fs != [] {
      assert done + (Noted(prior, fs[0], at) + Notes(prior, fs[1..], at))
             == done + Noted(prior, fs[0], at) + Notes(prior, fs[1..], at);
    }
  }

  lemma ResolveStep(done: seq<Event>, prior: seq<Alert>, fs: seq<Finding>, at: int)
    ensures prior == [] ==> done + Resolutions(prior, fs, at) == done
    ensures prior != [] ==>
      done + Resolutions(prior, fs, at)
      == (if Found(fs, prior[0].finding.id) then done else done + [Event(prior[0].finding, Resolved, at)])
         + Resolutions(prior[1..], fs, at)
  {
    hide Found;
    if prior != [] {
      var e := Event(prior[0].finding, Resolved, at);
      assert done + ([e] + Resolutions(prior[1..], fs, at)) == done + [e] + Resolutions(prior[1..], fs, at);
      assert done + ([] + Resolutions(prior[1..], fs, at)) == done + Resolutions(prior[1..], fs, at);
    }
  }
}
