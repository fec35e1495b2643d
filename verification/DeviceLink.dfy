/** Pairing devices with single-use invitations, and revoking them. */
module DeviceLink {
  import opened Clocks
  import opened Texts
  import opened Wrappers

  const MAX_DEVICES: nat := 64
  const INVITATION_SECONDS: int := 300
  const SEEN_SECONDS: int := 15

  /** A keyed digest, which determines the token it was made from. */
  datatype Digest = Digest(token: string)

  datatype Device = Device(id: string, digest: Digest, pairedAt: int, lastSeenAt: int, about: string)

  /** What is written to the state file. */
  datatype Saved = Saved(enabled: bool, devices: seq<Device>)

  /** The running service and its state file; invitations live in memory only. */
  datatype Link = Link(live: Saved, invitations: map<Digest, int>, disk: Saved)

  datatype Answer = Accepted | Rejected | Failed

  predicate ValidId(s: string) {
    1 <= |s| <= 128 && Alnum(s[0]) && forall i :: 0 <= i < |s| ==> Alnum(s[i]) || s[i] in "._:-"
  }

  predicate ValidToken(t: string) {
    16 <= |t| <= 512
  }

  /** Position of a device, or the number of devices. */
  function IndexOf(ds: seq<Device>, id: string): (i: nat)
    ensures i <= |ds|
    ensures i < |ds| ==> ds[i].id == id
    ensures forall k :: 0 <= k < i ==> ds[k].id != id
  {
    if ds == [] || ds[0].id == id then 0 else 1 + IndexOf(ds[1..], id)
  }

  function Without(ds: seq<Device>, id: string): (r: seq<Device>)
    ensures |r| <= |ds|
    ensures forall d :: d in r <==> d in ds && d.id != id
  {
    if ds == [] then [] else if ds[0].id == id then Without(ds[1..], id) else [ds[0]] + Without(ds[1..], id)
  }

  function Pruned(invitations: map<Digest, int>, now: real): map<Digest, int> {
    map d | d in invitations && invitations[d] as real > now :: invitations[d]
  }

  /** Replacing the state file; a failed write leaves the old one. */
  function Write(s: Link, live: Saved, written: bool): Link {
    Link(live, s.invitations, if written then live else s.disk)
  }

  /** `_check_hello_auth`: a known device shows its own credential, an unknown one pairs
      with a live invitation. */
  function Hello(s: Link, id: string, token: string, about: string, now: real, written: bool): (Link, Answer) {
    var ds := s.live.devices;
    var i := IndexOf(ds, id);
    var answer := if written then Accepted else Failed;
    if !ValidId(id) || !ValidToken(token) then (s, Rejected)
    else if i < |ds| then
      if ds[i].digest != Digest(token) then (s, Rejected)
      else (Write(s, s.live.(devices := ds[i := ds[i].(lastSeenAt := Seconds(now), about := about)]), written), answer)
    else
      var invitations := Pruned(s.invitations, now);
      if Digest(token) !in invitations || |ds| >= MAX_DEVICES then (s.(invitations := invitations), Rejected)
      else
        var device := Device(id, Digest(token), Seconds(now), Seconds(now), about);
        (Write(s.(invitations := invitations - {Digest(token)}), s.live.(devices := ds + [device]), written), answer)
  }

  /** `authenticate_device`, for the other transports; needs the link to be enabled. */
  function Authenticate(s: Link, id: string, token: string, now: real, written: bool): (Link, Answer) {
    var ds := s.live.devices;
    var i := IndexOf(ds, id);
    if !s.live.enabled || !ValidId(id) || !ValidToken(token) || i == |ds| || ds[i].digest != Digest(token)
    then (s, Rejected)
    else if Seconds(now) - ds[i].lastSeenAt < SEEN_SECONDS then (s, Accepted)
    else (Write(s, s.live.(devices := ds[i := ds[i].(lastSeenAt := Seconds(now))]), written),
          if written then Accepted else Failed)
  }

  /** `create_pairing_invitation` with a fresh token. */
  function Invite(s: Link, token: string, listening: bool, hostKnown: bool, now: real): (Link, bool) {
    if !s.live.enabled || !listening || !hostKnown then (s, false)
    else (s.(invitations := Pruned(s.invitations, now)[Digest(token) := Seconds(now) + INVITATION_SECONDS]), true)
  }

  function Enable(s: Link, started: bool, written: bool): (Link, bool) {
    if !started then (s, false) else (Write(s, s.live.(enabled := true), written), written)
  }

  function Disable(s: Link, stopped: bool, written: bool): (Link, bool) {
    if !stopped then (s, false)
    else (Write(s.(invitations := map[]), s.live.(enabled := false), written), written)
  }

  function Revoke(s: Link, id: string, written: bool): (Link, bool) {
    if !ValidId(id) || IndexOf(s.live.devices, id) == |s.live.devices| then (s, false)
    else (Write(s, s.live.(devices := Without(s.live.devices, id)), written), written)
  }

  /** A restart reads the state file; invitations are gone. */
  function Restart(s: Link): Link {
    Link(s.disk, map[], s.disk)
  }

  const NEW := Link(Saved(false, []), map[], Saved(false, []))

  // ----- runs -----

  datatype Op =
    | OpHello(id: string, token: string, about: string, now: real, written: bool)
    | OpAuthenticate(id: string, token: string, now: real, written: bool)
    | OpInvite(token: string, listening: bool, hostKnown: bool, now: real)
    | OpEnable(started: bool, written: bool)
    | OpDisable(stopped: bool, written: bool)
    | OpRevoke(id: string, written: bool)
    | OpRestart

  function Do(s: Link, op: Op): Link {
    match op
    case OpHello(id, token, about, now, written) => Hello(s, id, token, about, now, written).0
    case OpAuthenticate(id, token, now, written) => Authenticate(s, id, token, now, written).0
    case OpInvite(token, listening, hostKnown, now) => Invite(s, token, listening, hostKnown, now).0
    case OpEnable(started, written) => Enable(s, started, written).0
    case OpDisable(stopped, written) => Disable(s, stopped, written).0
    case OpRevoke(id, written) => Revoke(s, id, written).0
    case OpRestart => Restart(s)
  }

  /** The service with what has happened: tokens handed out, devices bound to tokens, and
      credentials of devices whose revocation was reported. */
  datatype World = World(s: Link, issued: set<string>, bound: seq<(string, string)>, revoked: set<string>)

  predicate Pairs(s: Link, op: Op) {
    op.OpHello? && |Do(s, op).live.devices| > |s.live.devices|
  }

  function Credentials(ds: seq<Device>, id: string): set<string> {
    set d | d in ds && d.id == id :: d.digest.token
  }

  function Step(w: World, op: Op): World {
    World(Do(w.s, op),
          if op.OpInvite? && Invite(w.s, op.token, op.listening, op.hostKnown, op.now).1 then w.issued + {op.token} else w.issued,
          if Pairs(w.s, op) then w.bound + [(op.token, op.id)] else w.bound,
          if op.OpRevoke? && Revoke(w.s, op.id, op.written).1
          then w.revoked + Credentials(w.s.live.devices, op.id) else w.revoked)
  }

  function Run(w: World, ops: seq<Op>): World
    decreases |ops|
  {
    if ops == [] then w else Run(Step(w, ops[0]), ops[1..])
  }

  /** Invitation tokens are random: each is new. */
  predicate FreshTokens(w: World, ops: seq<Op>)
    decreases |ops|
  {
    ops == [] || ((ops[0].OpInvite? ==> ops[0].token !in w.issued) && FreshTokens(Step(w, ops[0]), ops[1..]))
  }

  // ----- the registry -----

  /** At most 64 devices, with distinct ids and distinct credentials. */
  ghost predicate Registry(ds: seq<Device>) {
    && |ds| <= MAX_DEVICES
    && (forall i :: 0 <= i < |ds| ==> ValidId(ds[i].id))
    && forall i, j :: 0 <= i < j < |ds| ==> ds[i].id != ds[j].id && ds[i].digest != ds[j].digest
  }

  ghost predicate Holds(ds: seq<Device>, token: string) {
    exists i :: 0 <= i < |ds| && ds[i].digest.token == token
  }

  /** No list of devices holds the token. */
  ghost predicate Nowhere(s: Link, token: string) {
    !Holds(s.live.devices, token) && !Holds(s.disk.devices, token)
  }

  /** Every token is in at most one place: an invitation or a device. */
  ghost predicate Apart(s: Link, issued: set<string>) {
    && Registry(s.live.devices) && Registry(s.disk.devices)
    && (forall d :: d in s.invitations ==> d.token in issued)
    && forall t :: Holds(s.live.devices, t) || Holds(s.disk.devices, t) ==> t in issued && Digest(t) !in s.invitations
  }

  ghost predicate BoundOnce(s: Link, issued: set<string>, bound: seq<(string, string)>) {
    && (forall k :: 0 <= k < |bound| ==> bound[k].0 in issued && Digest(bound[k].0) !in s.invitations)
    && forall j, k :: 0 <= j < k < |bound| ==> bound[j].0 != bound[k].0
  }

  ghost predicate Gone(s: Link, issued: set<string>, revoked: set<string>) {
    forall t :: t in revoked ==> t in issued && Digest(t) !in s.invitations && Nowhere(s, t)
  }

  ghost predicate Inv(w: World) {
    Apart(w.s, w.issued) && BoundOnce(w.s, w.issued, w.bound) && Gone(w.s, w.issued, w.revoked)
  }

  /** The same devices up to when they were seen. */
  ghost predicate SameCredentials(a: seq<Device>, b: seq<Device>) {
    |a| == |b| && forall i :: 0 <= i < |a| ==> a[i].id == b[i].id && a[i].digest == b[i].digest
  }

  lemma SameHolds(a: seq<Device>, b: seq<Device>)
    requires SameCredentials(a, b)
    ensures Registry(a) ==> Registry(b)
    ensures forall t :: Holds(a, t) <==> Holds(b, t)
  {
    forall t ensures Holds(a, t) <==> Holds(b, t) {
      if Holds(a, t) {
        var i :| 0 <= i < |a| && a[i].digest.token == t;
        assert b[i].digest.token == t;
      }
      if Holds(b, t) {
        var i :| 0 <= i < |b| && b[i].digest.token == t;
        assert a[i].digest.token == t;
      }
    }
  }

  /** Any new live registry whose credentials were all held before, or came from an
      invitation that is now used up, keeps the invariant. */
  lemma WriteKeeps(w: World, live: Saved, written: bool)
    requires Inv(w) && Registry(live.devices)
    requires forall t :: Holds(live.devices, t) ==> Holds(w.s.live.devices, t)
    ensures Inv(w.(s := Write(w.s, live, written)))
  {
  }

  lemma PruneKeeps(w: World, now: real)
    requires Inv(w)
    ensures Inv(w.(s := w.s.(invitations := Pruned(w.s.invitations, now))))
  {
  }

  lemma SeenKeeps(w: World, i: nat, d: Device, written: bool)
    requires Inv(w) && i < |w.s.live.devices|
    requires d.id == w.s.live.devices[i].id && d.digest == w.s.live.devices[i].digest
    ensures Inv(w.(s := Write(w.s, w.s.live.(devices := w.s.live.devices[i := d]), written)))
  {
    SameHolds(w.s.live.devices, w.s.live.devices[i := d]);
    WriteKeeps(w, w.s.live.(devices := w.s.live.devices[i := d]), written);
  }

  lemma HoldsAppend(ds: seq<Device>, d: Device)
    ensures forall t :: Holds(ds + [d], t) <==> Holds(ds, t) || t == d.digest.token
  {
    forall t ensures Holds(ds + [d], t) <==> Holds(ds, t) || t == d.digest.token {
      if Holds(ds, t) {
        var i :| 0 <= i < |ds| && ds[i].digest.token == t;
        assert (ds + [d])[i].digest.token == t;
      }
      assert (ds + [d])[|ds|] == d;
    }
  }

  /** The pairing step itself, on a world with pruned invitations. */
  lemma PairKeeps(w: World, id: string, token: string, device: Device, written: bool)
    requires Inv(w) && ValidId(id) && Digest(token) in w.s.invitations
    requires |w.s.live.devices| < MAX_DEVICES && IndexOf(w.s.live.devices, id) == |w.s.live.devices|
    requires device.id == id && device.digest == Digest(token)
    ensures var s := w.s.(invitations := w.s.invitations - {Digest(token)});
            Inv(World(Write(s, w.s.live.(devices := w.s.live.devices + [device]), written),
                      w.issued, w.bound + [(token, id)], w.revoked))
  {
    var ds, s := w.s.live.devices, w.s.(invitations := w.s.invitations - {Digest(token)});
    HoldsAppend(ds, device);
    assert !Holds(ds, token) && !Holds(w.s.disk.devices, token);
    RegistryAppend(ds, device);
    var s' := Write(s, w.s.live.(devices := ds + [device]), written);
    PairBound(w, s', token, id);
    PairApart(w, s', device, written);
  }

  lemma PairBound(w: World, s': Link, token: string, id: string)
    requires Inv(w) && Digest(token) in w.s.invitations && s'.invitations == w.s.invitations - {Digest(token)}
    ensures BoundOnce(s', w.issued, w.bound + [(token, id)])
  {
    hide Gone, Registry, Holds;
    assert Digest(token).token in w.issued;
  }

  lemma PairApart(w: World, s': Link, device: Device, written: bool)
    requires Inv(w) && device.digest in w.s.invitations && s'.invitations == w.s.invitations - {device.digest}
    requires s'.live.devices == w.s.live.devices + [device] && Registry(s'.live.devices)
    requires s'.disk == if written then s'.live else w.s.disk
    requires forall t :: Holds(s'.live.devices, t) <==> Holds(w.s.live.devices, t) || t == device.digest.token
    ensures Apart(s', w.issued) && Gone(s', w.issued, w.revoked)
  {
    hide Registry, Holds, ValidId;
    forall t | t in w.revoked ensures Nowhere(s', t) {
      assert Nowhere(w.s, t) && t != device.digest.token;
    }
  }

  lemma RegistryAppend(ds: seq<Device>, d: Device)
    requires Registry(ds) && |ds| < MAX_DEVICES && ValidId(d.id)
    requires IndexOf(ds, d.id) == |ds| && !Holds(ds, d.digest.token)
    ensures Registry(ds + [d])
  {
    forall i | 0 <= i < |ds| ensures ds[i].id != d.id && ds[i].digest != d.digest {
      assert ds[i].digest.token != d.digest.token;
    }
  }

  lemma HelloKeeps(w: World, op: Op)
    requires Inv(w) && op.OpHello?
    ensures Inv(Step(w, op))
  {
    var ds := w.s.live.devices;
    var i := IndexOf(ds, op.id);
    if ValidId(op.id) && ValidToken(op.token) {
      if i < |ds| {
        if ds[i].digest == Digest(op.token) {
          var seen := ds[i].(lastSeenAt := Seconds(op.now), about := op.about);
          SeenKeeps(w, i, seen, op.written);
          assert Step(w, op) == w.(s := Do(w.s, op));
        }
      } else {
        PruneKeeps(w, op.now);
        var pruned := w.(s := w.s.(invitations := Pruned(w.s.invitations, op.now)));
        if Digest(op.token) in pruned.s.invitations && |ds| < MAX_DEVICES {
          var device := Device(op.id, Digest(op.token), Seconds(op.now), Seconds(op.now), op.about);
          PairKeeps(pruned, op.id, op.token, device, op.written);
        }
      }
    }
  }

  lemma {:induction false} WithoutKeeps(ds: seq<Device>, id: string)
    requires Registry(ds)
    ensures Registry(Without(ds, id))
    ensures forall t :: Holds(Without(ds, id), t) ==> Holds(ds, t) && t !in Credentials(ds, id)
  {
    WithoutRegistry(ds, id);
    var r := Without(ds, id);
    forall t | Holds(r, t) ensures Holds(ds, t) && t !in Credentials(ds, id) {
      var i :| 0 <= i < |r| && r[i].digest.token == t;
      assert r[i] in r;
      var k :| 0 <= k < |ds| && ds[k] == r[i];
      assert ds[k].digest.token == t;
    }
  }

  lemma {:induction false} WithoutRegistry(ds: seq<Device>, id: string)
    requires Registry(ds)
    ensures Registry(Without(ds, id))
  {
    if ds != [] {
      assert Registry(ds[1..]);
      WithoutRegistry(ds[1..], id);
      var rest := Without(ds[1..], id);
      forall d | d in rest ensures d.id != ds[0].id && d.digest != ds[0].digest {
        var k :| 0 <= k < |ds[1..]| && ds[1..][k] == d;
        assert ds[k + 1] == d;
      }
      assert ValidId(ds[0].id);
      RegistryPrepend(ds[0], rest);
    }
  }

  lemma RegistryPrepend(d: Device, ds: seq<Device>)
    requires Registry(ds) && |ds| < MAX_DEVICES && ValidId(d.id)
    requires forall x :: x in ds ==> x.id != d.id && x.digest != d.digest
    ensures Registry([d] + ds)
  {
    hide ValidId;
    forall i | 0 <= i < |ds| ensures ds[i].id != d.id && ds[i].digest != d.digest {
      assert ds[i] in ds;
    }
  }

  lemma RevokeKeeps(w: World, op: Op)
    requires Inv(w) && op.OpRevoke?
    ensures Inv(Step(w, op))
  {
    if Revoke(w.s, op.id, true).1 {
      var live := w.s.live.(devices := Without(w.s.live.devices, op.id));
      WithoutKeeps(w.s.live.devices, op.id);
      WriteKeeps(w, live, op.written);
      if op.written {
        forall t | t in Credentials(w.s.live.devices, op.id) ensures Holds(w.s.live.devices, t) {
          var d :| d in w.s.live.devices && d.id == op.id && d.digest.token == t;
          var k :| 0 <= k < |w.s.live.devices| && w.s.live.devices[k] == d;
        }
      }
    }
  }

  lemma StepKeeps(w: World, op: Op)
    requires Inv(w) && (op.OpInvite? ==> op.token !in w.issued)
    ensures Inv(Step(w, op))
  {
    hide Registry, Holds, Hello, Revoke, IndexOf, Pruned, ValidId;
    match op
    case OpHello(id, token, about, now, written) => HelloKeeps(w, op);
    case OpAuthenticate(id, token, now, written) =>
      var i := IndexOf(w.s.live.devices, id);
      if i < |w.s.live.devices| {
        SeenKeeps(w, i, w.s.live.devices[i].(lastSeenAt := Seconds(now)), written);
      }
    case OpInvite(token, listening, hostKnown, now) => PruneKeeps(w, now);
    case OpEnable(started, written) => WriteKeeps(w, w.s.live.(enabled := true), written);
    case OpDisable(stopped, written) =>
      var cleared := w.(s := w.s.(invitations := map[]));
      WriteKeeps(cleared, w.s.live.(enabled := false), written);
    case OpRevoke(id, written) => RevokeKeeps(w, op);
    case OpRestart =>
  }

  lemma {:induction false} RunKeeps(w: World, ops: seq<Op>)
    requires Inv(w) && FreshTokens(w, ops)
    ensures Inv(Run(w, ops))
    decreases |ops|
  {
    hide Inv, Step;
    if ops != [] {
      StepKeeps(w, ops[0]);
      RunKeeps(Step(w, ops[0]), ops[1..]);
    }
  }

  const START := World(NEW, {}, [], {})

  /** Pairing is safe in every run, with any writes failing and any restarts: each
      invitation binds at most one device, and ids stay distinct and at most 64. */
  lemma PairingIsSafe(ops: seq<Op>)
    requires FreshTokens(START, ops)
    ensures var w := Run(START, ops);
            && (forall j, k :: 0 <= j < k < |w.bound| ==> w.bound[j].0 != w.bound[k].0)
            && |w.s.live.devices| <= MAX_DEVICES
            && (forall i, j :: 0 <= i < j < |w.s.live.devices| ==> w.s.live.devices[i].id != w.s.live.devices[j].id)
            && Registry(w.s.disk.devices)
  {
    RunKeeps(START, ops);
  }

  lemma NowhereRefused(s: Link, id: string, token: string, about: string, now: real, written: bool)
    requires Nowhere(s, token) && Digest(token) !in s.invitations
    ensures Hello(s, id, token, about, now, written).1 == Rejected
    ensures Authenticate(s, id, token, now, written).1 == Rejected
  {
    var i := IndexOf(s.live.devices, id);
    assert i < |s.live.devices| ==> s.live.devices[i].digest.token != token;
  }

  lemma {:induction false} RevokedStays(w: World, ops: seq<Op>, token: string)
    requires token in w.revoked
    ensures token in Run(w, ops).revoked
    decreases |ops|
  {
    hide Do;
    if ops != [] {
      RevokedStays(Step(w, ops[0]), ops[1..], token);
    }
  }

  /** Once a revocation was reported, the old credential is refused by both checks, for
      every device id, in every later state and across restarts. */
  lemma RevocationIsPermanent(
    w: World, revoke: Op, later: seq<Op>, token: string, id: string, about: string, now: real, written: bool)
    requires Inv(w) && FreshTokens(w, [revoke] + later)
    requires revoke.OpRevoke? && Revoke(w.s, revoke.id, revoke.written).1
    requires token in Credentials(w.s.live.devices, revoke.id)
    ensures var s := Run(Step(w, revoke), later).s;
            && Hello(s, id, token, about, now, written).1 == Rejected
            && Authenticate(s, id, token, now, written).1 == Rejected
  {
    hide Hello, Authenticate, Revoke, Do;
    assert ([revoke] + later)[1..] == later;
    StepKeeps(w, revoke);
    RunKeeps(Step(w, revoke), later);
    RevokedStays(Step(w, revoke), later, token);
    NowhereRefused(Run(Step(w, revoke), later).s, id, token, about, now, written);
  }

  // ----- what lasts -----

  /** The registry lists this device with this credential. */
  ghost predicate Listed(ds: seq<Device>, id: string, token: string) {
    exists d :: d in ds && d.id == id && d.digest == Digest(token)
  }

  /** The operation replaces the state file. */
  predicate Writes(s: Link, op: Op) {
    match op
    case OpHello(id, token, about, now, written) => Hello(s, id, token, about, now, written).1 == Accepted
    case OpAuthenticate(id, token, now, written) =>
      && written && Authenticate(s, id, token, now, written).1 == Accepted
      && Seconds(now) - s.live.devices[IndexOf(s.live.devices, id)].lastSeenAt >= SEEN_SECONDS
    case OpInvite(_, _, _, _) => false
    case OpEnable(started, written) => Enable(s, started, written).1
    case OpDisable(stopped, written) => Disable(s, stopped, written).1
    case OpRevoke(id, written) => Revoke(s, id, written).1
    case OpRestart => false
  }

  lemma FileFollows(s: Link, op: Op)
    ensures Writes(s, op) ==> Do(s, op).disk == Do(s, op).live
    ensures !Writes(s, op) ==> Do(s, op).disk == s.disk
  {
    hide IndexOf, ValidId, Without, Pruned;
  }

  lemma ReplacedListed(ds: seq<Device>, i: nat, d: Device, id: string, token: string)
    requires i < |ds| && d.id == ds[i].id && d.digest == ds[i].digest
    ensures Listed(ds[i := d], id, token) <==> Listed(ds, id, token)
  {
    var r := ds[i := d];
    if x :| x in ds && x.id == id && x.digest == Digest(token) {
      var k :| 0 <= k < |ds| && ds[k] == x;
      assert r[k] in r && r[k].id == id;
    }
    if x :| x in r && x.id == id && x.digest == Digest(token) {
      var k :| 0 <= k < |r| && r[k] == x;
      assert ds[k] in ds && ds[k].id == id;
    }
  }

  /** A credential without an invitation comes and goes in the running service only by a
      revocation of its device or a restart. */
  lemma LiveListed(s: Link, op: Op, id: string, token: string)
    requires Digest(token) !in s.invitations
    ensures Listed(Do(s, op).live.devices, id, token) <==>
            if op.OpRestart? then Listed(s.disk.devices, id, token)
            else Listed(s.live.devices, id, token) && !(op.OpRevoke? && op.id == id && ValidId(id))
  {
    hide ValidId, Pruned;
    var ds := s.live.devices;
    match op
    case OpHello(x, t, about, now, written) =>
      hide Listed;
      var i := IndexOf(ds, x);
      if i < |ds| {
        ReplacedListed(ds, i, ds[i].(lastSeenAt := Seconds(now), about := about), id, token);
      } else {
        AppendedListed(ds, Device(x, Digest(t), Seconds(now), Seconds(now), about), id, token);
        PrunedInvitations(s.invitations, now, Digest(token));
      }
    case OpAuthenticate(x, t, now, written) =>
      hide Listed;
      var i := IndexOf(ds, x);
      if i < |ds| {
        ReplacedListed(ds, i, ds[i].(lastSeenAt := Seconds(now)), id, token);
      }
    case OpRevoke(x, written) =>
      if IndexOf(ds, x) == |ds| {
        UnknownNotListed(ds, x, token);
      }
    case _ =>
  }

  lemma UnknownNotListed(ds: seq<Device>, id: string, token: string)
    requires IndexOf(ds, id) == |ds|
    ensures !Listed(ds, id, token)
  {
  }

  lemma PrunedInvitations(invitations: map<Digest, int>, now: real, d: Digest)
    requires d !in invitations
    ensures d !in Pruned(invitations, now)
  {
  }

  lemma AppendedListed(ds: seq<Device>, d: Device, id: string, token: string)
    ensures Listed(ds + [d], id, token) <==> Listed(ds, id, token) || (d.id == id && d.digest == Digest(token))
  {
    assert d in ds + [d];
  }

  /** The state file is read again before it is next replaced. */
  predicate RestartsFirst(s: Link, ops: seq<Op>)
    decreases |ops|
  {
    ops != [] && (ops[0].OpRestart? || (!Writes(s, ops[0]) && RestartsFirst(Do(s, ops[0]), ops[1..])))
  }

  /** Nobody revokes this device. */
  predicate Spares(ops: seq<Op>, id: string) {
    forall i :: 0 <= i < |ops| ==> !(ops[i].OpRevoke? && ops[i].id == id)
  }

  /** The invitation of the token has been used up. */
  ghost predicate Spent(w: World, token: string) {
    token in w.issued && Digest(token) !in w.s.invitations
  }

  lemma SpentStays(w: World, op: Op, token: string)
    requires Inv(w) && Spent(w, token) && (op.OpInvite? ==> op.token !in w.issued)
    ensures Spent(Step(w, op), token)
  {
    hide Inv, ValidId, IndexOf, Without;
  }

  /** Without a revocation of the device, what the service and the file say of a used
      credential changes at most once: whichever of a restart and a write comes first
      makes the two agree, and from then on they stay so. */
  lemma {:induction false} FirstDecides(w: World, ops: seq<Op>, id: string, token: string)
    requires Inv(w) && FreshTokens(w, ops) && Spent(w, token) && Spares(ops, id)
    ensures Listed(Run(w, ops).s.live.devices, id, token) <==>
            if RestartsFirst(w.s, ops) then Listed(w.s.disk.devices, id, token) else Listed(w.s.live.devices, id, token)
    decreases |ops|
  {
    hide Inv, Do, Listed, Writes, Spent;
    if ops != [] {
      assert Spares(ops[1..], id);
      var next := Step(w, ops[0]);
      StepKeeps(w, ops[0]);
      SpentStays(w, ops[0], token);
      SpentIsUsed(w, token);
      LiveListed(w.s, ops[0], id, token);
      FileFollows(w.s, ops[0]);
      FirstDecides(next, ops[1..], id, token);
      if ops[0].OpRestart? {
        RestartAgrees(w.s);
      }
    }
  }

  lemma SpentIsUsed(w: World, token: string)
    requires Spent(w, token)
    ensures Digest(token) !in w.s.invitations
  {
  }

  lemma RestartAgrees(s: Link)
    ensures Do(s, OpRestart).live == Do(s, OpRestart).disk == s.disk
  {
  }

  /** A used credential is accepted exactly when the running service lists it. */
  lemma AcceptedIffListed(w: World, id: string, token: string, about: string, now: real)
    requires Inv(w) && Spent(w, token) && ValidId(id) && ValidToken(token)
    ensures Hello(w.s, id, token, about, now, true).1 == Accepted <==> Listed(w.s.live.devices, id, token)
    ensures w.s.live.enabled ==>
              (Authenticate(w.s, id, token, now, true).1 == Accepted <==> Listed(w.s.live.devices, id, token))
  {
    hide ValidId, ValidToken;
    var ds := w.s.live.devices;
    var i := IndexOf(ds, id);
    PrunedInvitations(w.s.invitations, now, Digest(token));
    if i < |ds| {
      assert ds[i] in ds;
      forall d | d in ds && d.id == id ensures d == ds[i] {
        var k :| 0 <= k < |ds| && ds[k] == d;
        assert k >= i;
      }
    }
  }

  /** The same at the end of a run. */
  lemma AcceptedAfter(w: World, ops: seq<Op>, id: string, token: string, about: string, now: real)
    requires Inv(w) && FreshTokens(w, ops) && Spent(w, token) && Spares(ops, id)
    requires ValidId(id) && ValidToken(token)
    ensures var s := Run(w, ops).s;
            Hello(s, id, token, about, now, true).1 == Accepted <==>
            if RestartsFirst(w.s, ops) then Listed(w.s.disk.devices, id, token) else Listed(w.s.live.devices, id, token)
    ensures var s := Run(w, ops).s;
            s.live.enabled ==>
              (Authenticate(s, id, token, now, true).1 == Accepted <==> Hello(s, id, token, about, now, true).1 == Accepted)
  {
    hide Inv, Step, Listed, Hello, Authenticate;
    FirstDecides(w, ops, id, token);
    RunKeeps(w, ops);
    SpentThroughout(w, ops, token);
    AcceptedIffListed(Run(w, ops), id, token, about, now);
  }

  lemma {:induction false} SpentThroughout(w: World, ops: seq<Op>, token: string)
    requires Inv(w) && FreshTokens(w, ops) && Spent(w, token)
    ensures Spent(Run(w, ops), token)
    decreases |ops|
  {
    hide Inv, Step, Spent;
    if ops != [] {
      StepKeeps(w, ops[0]);
      SpentStays(w, ops[0], token);
      SpentThroughout(Step(w, ops[0]), ops[1..], token);
    }
  }

  /** A revocation whose write failed is not reported.  As long as the device is not
      revoked again, its credential is accepted later if and only if the file still lists
      it and the service restarts before any other operation replaces the file. */
  lemma UnwrittenRevocationIsLost(w: World, later: seq<Op>, id: string, token: string, about: string, now: real)
    requires Inv(w) && ValidId(id) && ValidToken(token) && Listed(w.s.live.devices, id, token)
    requires FreshTokens(w, [OpRevoke(id, false)] + later) && Spares(later, id)
    ensures !Revoke(w.s, id, false).1
    ensures var revoked := Step(w, OpRevoke(id, false));
            Hello(Run(revoked, later).s, id, token, about, now, true).1 == Accepted <==>
            RestartsFirst(revoked.s, later) && Listed(w.s.disk.devices, id, token)
  {
    hide Inv, Hello, ValidId, ValidToken, Listed, Revoke, Writes;
    var op := OpRevoke(id, false);
    assert ([op] + later)[1..] == later;
    ListedIsSpent(w, id, token);
    SpentIsUsed(w, token);
    StepKeeps(w, op);
    SpentStays(w, op, token);
    LiveListed(w.s, op, id, token);
    FileFollows(w.s, op);
    UnwrittenIsNotReported(w.s, id);
    AcceptedAfter(Step(w, op), later, id, token, about, now);
  }

  lemma UnwrittenIsNotReported(s: Link, id: string)
    ensures !Revoke(s, id, false).1 && !Writes(s, OpRevoke(id, false))
  {
  }

  lemma ListedIsSpent(w: World, id: string, token: string)
    requires Inv(w) && (Listed(w.s.live.devices, id, token) || Listed(w.s.disk.devices, id, token))
    ensures Spent(w, token)
  {
    hide Registry, BoundOnce, Gone;
    ListedHolds(w.s.live.devices, id, token);
    ListedHolds(w.s.disk.devices, id, token);
  }

  lemma ListedHolds(ds: seq<Device>, id: string, token: string)
    ensures Listed(ds, id, token) ==> Holds(ds, token)
  {
    if d :| d in ds && d.id == id && d.digest == Digest(token) {
      var k :| 0 <= k < |ds| && ds[k] == d;
      assert ds[k].digest.token == token;
    }
  }

  /** A device stays accepted with its own credential from its pairing on, through any
      run that does not revoke it, restarts and failing writes included.  A pairing whose
      own write failed lasts as well, unless the service restarts before the next write. */
  lemma PairedDeviceStays(w: World, pair: Op, later: seq<Op>, about: string, now: real)
    requires Inv(w) && FreshTokens(w, [pair] + later) && Pairs(w.s, pair) && Spares(later, pair.id)
    ensures Do(w.s, pair).live.devices == w.s.live.devices + [Device(pair.id, Digest(pair.token), Seconds(pair.now),
                                                                     Seconds(pair.now), pair.about)]
    ensures var s := Run(Step(w, pair), later).s;
            && (Hello(s, pair.id, pair.token, about, now, true).1 == Accepted <==>
                  pair.written || !RestartsFirst(Do(w.s, pair), later))
            && (s.live.enabled ==>
                  (Authenticate(s, pair.id, pair.token, now, true).1 == Accepted <==>
                     pair.written || !RestartsFirst(Do(w.s, pair), later)))
  {
    hide Inv, Hello, ValidId, ValidToken, Listed, Revoke, Writes, Authenticate, Do;
    assert ([pair] + later)[1..] == later;
    PairingShape(w, pair);
    StepKeeps(w, pair);
    var next := Step(w, pair);
    ListedIsSpent(next, pair.id, pair.token);
    AcceptedAfter(next, later, pair.id, pair.token, about, now);
  }

  lemma PairingShape(w: World, op: Op)
    requires Inv(w) && Pairs(w.s, op)
    ensures ValidId(op.id) && ValidToken(op.token)
    ensures var s := Do(w.s, op);
            && s.live.devices == w.s.live.devices + [Device(op.id, Digest(op.token), Seconds(op.now),
                                                            Seconds(op.now), op.about)]
            && Listed(s.live.devices, op.id, op.token)
            && (Listed(s.disk.devices, op.id, op.token) <==> op.written)
  {
    hide ValidId, ValidToken, BoundOnce, Gone, Registry, IndexOf;
    var s := Do(w.s, op);
    assert s.live.devices[|w.s.live.devices|] in s.live.devices;
    assert Digest(op.token) in w.s.invitations;
    ListedHolds(w.s.disk.devices, op.id, op.token);
  }

  /** A device that pairs is accepted right away by both checks. */
  lemma PairedDeviceIsAccepted(s: Link, id: string, token: string, about: string, now: real)
    requires ValidId(id) && ValidToken(token) && IndexOf(s.live.devices, id) == |s.live.devices|
    requires Digest(token) in s.invitations && s.invitations[Digest(token)] as real > now
    requires |s.live.devices| < MAX_DEVICES
    ensures var (paired, answer) := Hello(s, id, token, about, now, true);
            && answer == Accepted
            && Hello(paired, id, token, about, now, true).1 == Accepted
            && (s.live.enabled ==> Authenticate(paired, id, token, now, true).1 == Accepted)
            && Restart(paired).live == paired.live
  {
    var device := Device(id, Digest(token), Seconds(now), Seconds(now), about);
    LastIndex(s.live.devices, device);
  }

  lemma {:induction false} LastIndex(ds: seq<Device>, d: Device)
    requires IndexOf(ds, d.id) == |ds|
    ensures IndexOf(ds + [d], d.id) == |ds|
  {
    if ds != [] {
      assert (ds + [d])[1..] == ds[1..] + [d];
      LastIndex(ds[1..], d);
    }
  }

  /** An unknown device needs an invitation that has not expired and room in the
      registry; otherwise it is refused and nothing is bound. */
  lemma PairingNeedsInvitation(s: Link, id: string, token: string, about: string, now: real, written: bool)
    requires ValidId(id) && ValidToken(token) && IndexOf(s.live.devices, id) == |s.live.devices|
    ensures var (after, answer) := Hello(s, id, token, about, now, written);
            answer == Rejected <==>
              || Digest(token) !in s.invitations || s.invitations[Digest(token)] as real <= now
              || |s.live.devices| >= MAX_DEVICES
    ensures var (after, answer) := Hello(s, id, token, about, now, written);
            answer == Rejected ==> after.live == s.live && after.disk == s.disk
  {
  }

  /** Disabling drops every invitation: until a new one is made, no unknown device gets
      in, even if the link is enabled again or restarted. */
  lemma DisablingDropsInvitations(s: Link, stopped: bool, id: string, token: string, about: string, now: real,
                                  started: bool, first: bool, second: bool, third: bool)
    requires stopped && IndexOf(s.live.devices, id) == |s.live.devices|
    ensures var off := Disable(s, stopped, first).0;
            var on := Enable(off, started, second).0;
            && Hello(off, id, token, about, now, third).1 == Rejected
            && Hello(on, id, token, about, now, third).1 == Rejected
            && Authenticate(off, id, token, now, third).1 == Rejected
  {
  }
}
