/** How long an invitation lets a device in. */
module DevicePairing {
  import opened Clocks
  import opened DeviceLink
  import opened Texts
  import opened Wrappers

  /** An invitation is given out exactly by an enabled link that is listening and knows its
      host name. */
  lemma InvitesIff(s: Link, token: string, listening: bool, hostKnown: bool, now: real)
    ensures Invite(s, token, listening, hostKnown, now).1 <==> s.live.enabled && listening && hostKnown
    ensures !Invite(s, token, listening, hostKnown, now).1 ==> Invite(s, token, listening, hostKnown, now).0 == s
    ensures var t := Invite(s, token, listening, hostKnown, now).0; t.live == s.live && t.disk == s.disk
  {
  }

  /** Letters, digits, and after the first character also ".", "_", ":" and "-". */
  predicate WellFormed(id: string) {
    && id != "" && |id| <= 128 && id[0] !in {'.', '_', ':', '-'}
    && forall c :: c in id ==>
         '0' <= c <= '9' || 'A' <= c <= 'Z' || 'a' <= c <= 'z' || c in {'.', '_', ':', '-'}
  }

  lemma WellFormedIs(id: string)
    ensures ValidId(id) <==> WellFormed(id)
  {
    assert forall i :: 0 <= i < |id| ==> id[i] in id;
  }

  /** The device is not known, and its id and token have the right form. */
  predicate Newcomer(s: Link, id: string, token: string) {
    && (forall d :: d in s.live.devices ==> d.id != id)
    && WellFormed(id) && 16 <= |token| <= 512
  }

  lemma NewcomerIsUnlisted(s: Link, id: string, token: string)
    requires Newcomer(s, id, token)
    ensures IndexOf(s.live.devices, id) == |s.live.devices| && ValidId(id) && ValidToken(token)
  {
    WellFormedIs(id);
    assert forall k :: 0 <= k < |s.live.devices| ==> s.live.devices[k].id != id;
  }

  /** Whether a newcomer gets in at `t` is a matter of its invitation and of room. */
  lemma NewcomerAccepted(s: Link, id: string, token: string, about: string, t: real)
    requires Newcomer(s, id, token)
    ensures Hello(s, id, token, about, t, true).1 == Accepted <==>
            && Digest(token) in s.invitations && t < s.invitations[Digest(token)] as real
            && |s.live.devices| < 64
  {
    NewcomerIsUnlisted(s, id, token);
  }

  /** An invitation given out at `now` lets a newcomer in for five minutes, counted from
      the whole second, as long as there is room; and it takes nothing from the other
      invitations that are still good. */
  lemma InvitedForFiveMinutes(
    s: Link, token: string, now: real, id: string, about: string, t: real, other: string)
    requires s.live.enabled && Newcomer(s, id, token)
    ensures var u := Invite(s, token, true, true, now).0;
            && (Hello(u, id, token, about, t, true).1 == Accepted <==>
                  t < (Seconds(now) + 300) as real && |s.live.devices| < 64)
            && (other != token && 16 <= |other| <= 512 && now <= t ==>
                  (Hello(u, id, other, about, t, true).1 == Accepted <==>
                   Hello(s, id, other, about, t, true).1 == Accepted))
  {
    hide ValidId, ValidToken;
    var u := Invite(s, token, true, true, now).0;
    NewcomerAccepted(u, id, token, about, t);
    if other != token && 16 <= |other| <= 512 {
      NewcomerAccepted(u, id, other, about, t);
      NewcomerAccepted(s, id, other, about, t);
    }
  }

  // ----- over runs -----

  /** The operation leaves this invitation alone: no restart, no disabling that stops the
      link, no use of its token, and no second invitation for it. */
  predicate Leaves(s: Link, op: Op, token: string) {
    match op
    case OpRestart => false
    case OpDisable(stopped, _) => !stopped
    case OpHello(_, t, _, _, _) => !(t == token && Pairs(s, op))
    case OpInvite(t, _, _, _) => t != token
    case _ => true
  }

  predicate AllLeave(s: Link, ops: seq<Op>, token: string)
    decreases |ops|
  {
    ops == [] || (Leaves(s, ops[0], token) && AllLeave(Do(s, ops[0]), ops[1..], token))
  }

  function TimeOf(op: Op): Option<real> {
    match op
    case OpHello(_, _, _, now, _) => Some(now)
    case OpAuthenticate(_, _, now, _) => Some(now)
    case OpInvite(_, _, _, now) => Some(now)
    case _ => None
  }

  /** No operation is later than `t`. */
  predicate NotAfter(ops: seq<Op>, t: real) {
    forall i :: 0 <= i < |ops| && TimeOf(ops[i]).Some? ==> TimeOf(ops[i]).value <= t
  }

  lemma InvitationStep(s: Link, op: Op, token: string, expiry: int, t: real)
    requires Leaves(s, op, token) && (TimeOf(op).Some? ==> TimeOf(op).value <= t)
    requires Digest(token) in s.invitations ==> s.invitations[Digest(token)] == expiry
    ensures Digest(token) in Do(s, op).invitations ==>
              Digest(token) in s.invitations && Do(s, op).invitations[Digest(token)] == expiry
    ensures Digest(token) in s.invitations && t < expiry as real ==> Digest(token) in Do(s, op).invitations
  {
    hide IndexOf, ValidId, Without;
    if op.OpHello? && op.token == token {
      HelloKeepsInvitation(s, op);
    }
  }

  /** A hello that pairs nobody uses up no invitation. */
  lemma HelloKeepsInvitation(s: Link, op: Op)
    requires op.OpHello? && !Pairs(s, op)
    ensures Do(s, op).invitations == s.invitations || Do(s, op).invitations == Pruned(s.invitations, op.now)
  {
    hide ValidId;
  }

  lemma {:induction false} InvitationStays(s: Link, ops: seq<Op>, token: string, expiry: int, t: real)
    requires AllLeave(s, ops, token) && NotAfter(ops, t)
    requires Digest(token) in s.invitations ==> s.invitations[Digest(token)] == expiry
    ensures var u := Run(World(s, {}, [], {}), ops).s;
            && (Digest(token) in u.invitations ==> Digest(token) in s.invitations && u.invitations[Digest(token)] == expiry)
            && (Digest(token) in s.invitations && t < expiry as real ==> Digest(token) in u.invitations)
    decreases |ops|
  {
    hide Do, Leaves, TimeOf;
    if ops != [] {
      InvitationStep(s, ops[0], token, expiry, t);
      assert NotAfter(ops[1..], t);
      InvitationStays(Do(s, ops[0]), ops[1..], token, expiry, t);
      SameLink(Step(World(s, {}, [], {}), ops[0]), World(Do(s, ops[0]), {}, [], {}), ops[1..]);
    }
  }

  /** What is recorded beside the service does not matter to it. */
  lemma {:induction false} SameLink(w: World, v: World, ops: seq<Op>)
    requires w.s == v.s
    ensures Run(w, ops).s == Run(v, ops).s
    decreases |ops|
  {
    hide Do, Invite, Revoke;
    if ops != [] {
      SameLink(Step(w, ops[0]), Step(v, ops[0]), ops[1..]);
    }
  }

  /** Over any run that leaves an invitation alone, it lets a newcomer in at `t`, not
      earlier than anything in the run, exactly for those five minutes and while there is
      room. */
  lemma InvitationLasts(
    w: World, token: string, now: real, later: seq<Op>, id: string, about: string, t: real)
    requires w.s.live.enabled && now <= t && NotAfter(later, t)
    requires AllLeave(Invite(w.s, token, true, true, now).0, later, token)
    requires Newcomer(Run(Step(w, OpInvite(token, true, true, now)), later).s, id, token)
    ensures var u := Run(Step(w, OpInvite(token, true, true, now)), later).s;
            Hello(u, id, token, about, t, true).1 == Accepted <==>
            t < (Seconds(now) + 300) as real && |u.live.devices| < 64
  {
    hide Hello, Newcomer, Run, AllLeave, NotAfter;
    var s := Invite(w.s, token, true, true, now).0;
    InvitationStays(s, later, token, Seconds(now) + 300, t);
    SameLink(Step(w, OpInvite(token, true, true, now)), World(s, {}, [], {}), later);
    NewcomerAccepted(Run(Step(w, OpInvite(token, true, true, now)), later).s, id, token, about, t);
  }

  // ----- the other answers -----

  /** The registry lists this device first under its id. */
  predicate ListedAt(ds: seq<Device>, i: nat, id: string) {
    i < |ds| && ds[i].id == id && forall k :: 0 <= k < i ==> ds[k].id != id
  }

  lemma IndexIs(ds: seq<Device>, i: nat, id: string)
    requires ListedAt(ds, i, id)
    ensures IndexOf(ds, id) == i
  {
    var k := IndexOf(ds, id);
    assert k <= |ds|;
    assert k >= i;
    assert !(i < k);
  }

  /** A known device gets in with a hello exactly by its own credential, on or off; it is
      then noted as seen now, and nothing else changes.  It needs no invitation. */
  lemma KnownDeviceHello(s: Link, i: nat, id: string, token: string, about: string, now: real)
    requires ListedAt(s.live.devices, i, id) && ValidId(id) && ValidToken(token)
    ensures var ds, (t, r) := s.live.devices, Hello(s, id, token, about, now, true);
            && (r == Accepted <==> ds[i].digest == Digest(token))
            && (r != Accepted ==> r == Rejected && t == s)
            && (r == Accepted ==>
                  && t.disk == t.live && t.invitations == s.invitations && t.live.enabled == s.live.enabled
                  && t.live.devices == ds[i := Device(id, ds[i].digest, ds[i].pairedAt, Seconds(now), about)])
  {
    hide ValidId, ValidToken;
    IndexIs(s.live.devices, i, id);
  }

  /** With another transport it also needs the link to be enabled, and is noted as seen only
      every 15 seconds. */
  lemma KnownDeviceAuthenticates(s: Link, i: nat, id: string, token: string, now: real)
    requires ListedAt(s.live.devices, i, id) && ValidId(id) && ValidToken(token)
    ensures var ds, (t, r) := s.live.devices, Authenticate(s, id, token, now, true);
            && (r == Accepted <==> s.live.enabled && ds[i].digest == Digest(token))
            && (r != Accepted ==> r == Rejected && t == s)
            && (r == Accepted && Seconds(now) < ds[i].lastSeenAt + 15 ==> t == s)
            && (r == Accepted && Seconds(now) >= ds[i].lastSeenAt + 15 ==>
                  && t.disk == t.live && t.invitations == s.invitations && t.live.enabled == s.live.enabled
                  && t.live.devices == ds[i := ds[i].(lastSeenAt := Seconds(now))])
  {
    hide ValidId, ValidToken;
    IndexIs(s.live.devices, i, id);
  }

  /** Unknown devices cannot authenticate, and ids and tokens of the wrong form get nowhere. */
  lemma OthersAreRejected(s: Link, id: string, token: string, about: string, now: real, written: bool)
    ensures (forall d :: d in s.live.devices ==> d.id != id) ==> Authenticate(s, id, token, now, written) == (s, Rejected)
    ensures !WellFormed(id) || |token| < 16 || |token| > 512 ==>
              && Hello(s, id, token, about, now, written) == (s, Rejected)
              && Authenticate(s, id, token, now, written) == (s, Rejected)
  {
    WellFormedIs(id);
    hide ValidId, WellFormed;
    if forall d :: d in s.live.devices ==> d.id != id {
      assert forall k :: 0 <= k < |s.live.devices| ==> s.live.devices[k].id != id;
    }
  }

  /** Pairing lists the newcomer last, seen now, and uses up its invitation. */
  lemma PairingLists(s: Link, id: string, token: string, about: string, t: real)
    requires Newcomer(s, id, token) && Hello(s, id, token, about, t, true).1 == Accepted
    ensures var u := Hello(s, id, token, about, t, true).0;
            && u.live.devices == s.live.devices + [Device(id, Digest(token), Seconds(t), Seconds(t), about)]
            && u.disk == u.live && u.live.enabled == s.live.enabled && Digest(token) !in u.invitations
  {
    hide ValidId, ValidToken;
    NewcomerIsUnlisted(s, id, token);
  }

  /** Switching on and off, and revoking: what is reported is what was written, the switch
      and the list change even if the write fails, and nothing changes if the listener could
      not be started or stopped, or the device is not known. */
  lemma SwitchAnswers(s: Link, done: bool, written: bool)
    ensures var (t, ok) := Enable(s, done, written);
            && (ok <==> done && written) && (!done ==> t == s)
            && (done ==> t.live == s.live.(enabled := true) && t.invitations == s.invitations)
            && t.disk == if ok then t.live else s.disk
    ensures var (t, ok) := Disable(s, done, written);
            && (ok <==> done && written) && (!done ==> t == s)
            && (done ==> t.live == s.live.(enabled := false) && t.invitations == map[])
            && t.disk == if ok then t.live else s.disk
  {
  }

  lemma RevokeAnswers(s: Link, id: string, written: bool)
    requires ValidId(id)
    ensures var (t, ok), known := Revoke(s, id, written), exists d :: d in s.live.devices && d.id == id;
            && (ok <==> known && written) && (!known ==> t == s)
            && (forall d :: d in t.live.devices <==> d in s.live.devices && d.id != id)
            && t.live.enabled == s.live.enabled && t.invitations == s.invitations
            && t.disk == if ok then t.live else s.disk
  {
    hide ValidId;
    var i := IndexOf(s.live.devices, id);
    if i == |s.live.devices| {
      assert forall k :: 0 <= k < |s.live.devices| ==> s.live.devices[k].id != id;
    } else {
      assert s.live.devices[i] in s.live.devices;
    }
  }
}
