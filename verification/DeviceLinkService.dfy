/** The device link service. */
module DeviceLinkService {
  import opened Clocks
  import opened DeviceLink
  import opened Wrappers

  /** What the state file must satisfy to be loaded. */
  predicate Loadable(ds: seq<Device>) {
    && |ds| <= MAX_DEVICES
    && (forall i :: 0 <= i < |ds| ==> ValidId(ds[i].id))
    && forall i, j :: 0 <= i < j < |ds| ==> ds[i].id != ds[j].id
  }

  /** `_read_state` on a file with well-formed records. */
  method ReadState(file: Saved) returns (r: Option<Saved>)
    ensures r == if Loadable(file.devices) then Some(file) else None
  {
    if |file.devices| > MAX_DEVICES {
      return None;
    }
    var seen: set<string>, devices: seq<Device> := {}, [];
    for i := 0 to |file.devices|
      invariant devices == file.devices[..i]
      invariant seen == set k | 0 <= k < i :: file.devices[k].id
      invariant forall k :: 0 <= k < i ==> ValidId(file.devices[k].id)
      invariant forall j, k :: 0 <= j < k < i ==> file.devices[j].id != file.devices[k].id
    {
      var raw := file.devices[i];
      if !ValidId(raw.id) || raw.id in seen {
        return None;
      }
      seen := seen + {raw.id};
      devices := devices + [raw];
    }
    assert devices == file.devices;
    r := Some(Saved(file.enabled, devices));
  }

  method Remaining(ds: seq<Device>, id: string) returns (r: seq<Device>)
    ensures r == Without(ds, id)
  {
    hide Without;
    r := [];
    for i := 0 to |ds|
      invariant r + Without(ds[i..], id) == Without(ds, id)
    {
      assert ds[i..][1..] == ds[i + 1..];
      RemainingStep(r, ds[i..], id);
      r := if ds[i].id == id then r else r + [ds[i]];
    }
    RemainingStep(r, ds[|ds|..], id);
  }

  /** One turn of the loop. */
  lemma RemainingStep(r: seq<Device>, ds: seq<Device>, id: string)
    ensures ds == [] ==> r + Without(ds, id) == r
    ensures ds != [] ==> r + Without(ds, id) == (if ds[0].id == id then r else r + [ds[0]]) + Without(ds[1..], id)
  {
    if ds != [] && ds[0].id != id {
      assert r + ([ds[0]] + Without(ds[1..], id)) == r + [ds[0]] + Without(ds[1..], id);
    }
  }

  lemma {:induction false} NothingRemoved(ds: seq<Device>, id: string)
    ensures |Without(ds, id)| == |ds| <==> IndexOf(ds, id) == |ds|
  {
    if ds != [] {
      NothingRemoved(ds[1..], id);
    }
  }

  class DeviceLinkService {
    var live: Saved
    var invitations: map<Digest, int>
    /** The state file. */
    var disk: Saved

    function State(): Link
      reads this
    {
      Link(live, invitations, disk)
    }

    constructor (file: Saved)
      requires Registry(file.devices)
      ensures State() == Link(file, map[], file)
    {
      live, invitations, disk := file, map[], file;
    }

    method WriteState(written: bool)
      modifies this`disk
      ensures disk == if written then live else old(disk)
    {
      if written {
        disk := live;
      }
    }

    method Find(id: string) returns (i: nat)
      ensures i == IndexOf(live.devices, id)
    {
      i := 0;
      while i < |live.devices| && live.devices[i].id != id
        invariant i <= |live.devices|
        invariant IndexOf(live.devices, id) == i + IndexOf(live.devices[i..], id)
      {
        assert live.devices[i..][1..] == live.devices[i + 1..];
        i := i + 1;
      }
    }

    method CheckHelloAuth(id: string, token: string, about: string, now: real, written: bool) returns (r: Answer)
      modifies this
      ensures (State(), r) == Hello(old(State()), id, token, about, now, written)
    {
      if !ValidId(id) || !ValidToken(token) {
        return Rejected;
      }
      var i := Find(id);
      if i < |live.devices| {
        if live.devices[i].digest != Digest(token) {
          return Rejected;
        }
        var device := live.devices[i].(lastSeenAt := Seconds(now), about := about);
        live := live.(devices := live.devices[i := device]);
        WriteState(written);
        return if written then Accepted else Failed;
      }
      invitations := Pruned(invitations, now);
      if Digest(token) !in invitations || |live.devices| >= MAX_DEVICES {
        return Rejected;
      }
      invitations := invitations - {Digest(token)};
      var device := Device(id, Digest(token), Seconds(now), Seconds(now), about);
      live := live.(devices := live.devices + [device]);
      WriteState(written);
      r := if written then Accepted else Failed;
    }

    method AuthenticateDevice(id: string, token: string, now: real, written: bool) returns (r: Answer)
      modifies this
      ensures (State(), r) == Authenticate(old(State()), id, token, now, written)
    {
      if !live.enabled || !ValidId(id) || !ValidToken(token) {
        return Rejected;
      }
      var i := Find(id);
      if i == |live.devices| || live.devices[i].digest != Digest(token) {
        return Rejected;
      }
      if Seconds(now) - live.devices[i].lastSeenAt < SEEN_SECONDS {
        return Accepted;
      }
      live := live.(devices := live.devices[i := live.devices[i].(lastSeenAt := Seconds(now))]);
      WriteState(written);
      r := if written then Accepted else Failed;
    }

    method CreatePairingInvitation(token: string, listening: bool, hostKnown: bool, now: real) returns (ok: bool)
      modifies this
      ensures (State(), ok) == Invite(old(State()), token, listening, hostKnown, now)
    {
      ok := live.enabled && listening && hostKnown;
      if ok {
        invitations := Pruned(invitations, now);
        invitations := invitations[Digest(token) := Seconds(now) + INVITATION_SECONDS];
      }
    }

    method EnableLink(started: bool, written: bool) returns (ok: bool)
      modifies this
      ensures (State(), ok) == Enable(old(State()), started, written)
    {
      if !started {
        return false;
      }
      live := live.(enabled := true);
      WriteState(written);
      ok := written;
    }

    method DisableLink(stopped: bool, written: bool) returns (ok: bool)
      modifies this
      ensures (State(), ok) == Disable(old(State()), stopped, written)
    {
      if !stopped {
        return false;
      }
      invitations := map[];
      live := live.(enabled := false);
      WriteState(written);
      ok := written;
    }

    method RevokeDevice(id: string, written: bool) returns (ok: bool)
      modifies this
      ensures (State(), ok) == Revoke(old(State()), id, written)
    {
      if !ValidId(id) {
        return false;
      }
      var remaining := Remaining(live.devices, id);
      NothingRemoved(live.devices, id);
      if |remaining| == |live.devices| {
        return false;
      }
      live := live.(devices := remaining);
      WriteState(written);
      ok := written;
    }

    /** A new process reads the file again. */
    method Reload() returns (ok: bool)
      requires Registry(disk.devices)
      modifies this
      ensures ok && State() == Restart(old(State()))
    {
      var file := ReadState(disk);
      ok := file.Some?;
      live, invitations := file.value, map[];
    }
  }
}
