/** What each operation on the accounts leaves in the file and in the login map. */
module AccountEffects {
  import opened AccountDirectory
  import opened AccountSecurity
  import opened Clocks
  import opened Texts
  import opened Wrappers

  /** The valid directory in the file. */
  function Directory(s: Security): map<string, Account>
    requires Normalized(s.store).Some?
  {
    Normalized(s.store).value
  }

  /** The record of `name` is now this one, and every other record is as before. */
  ghost predicate OnlyChanged(before: map<string, Account>, after: map<string, Account>, name: string, rec: Account) {
    && name in after && after[name] == rec
    && forall n :: n != name ==> (n in after <==> n in before) && (n in before ==> after[n] == before[n])
  }

  ghost predicate OnlyRemoved(before: map<string, Account>, after: map<string, Account>, name: string) {
    name !in after && forall n :: n != name ==> (n in after <==> n in before) && (n in before ==> after[n] == before[n])
  }

  /** The same of the login map: just this entry, or none, for `name`. */
  ghost predicate LogsInWith(before: map<string, string>, after: map<string, string>, name: string, hash: Option<string>) {
    && (name in after <==> hash.Some?) && (hash.Some? ==> name in after && after[name] == hash.value)
    && forall n :: n != name ==> (n in after <==> n in before) && (n in before ==> after[n] == before[n])
  }

  /** What a stored change of one member leaves. */
  lemma PersistLeaves(s: Security, now: real, name: string, account: Option<Account>, shouldExist: bool, written: bool)
    requires Agrees(s) && Persist(s, now, name, account, shouldExist, written).1.Ok?
    ensures var t := Persist(s, now, name, account, shouldExist, written).0;
            && name != ADMIN && Agrees(t)
            && (name in Directory(s) <==> shouldExist)
            && (account.Some? ==> OnlyChanged(Directory(s), Directory(t), name, Clean(account.value)))
            && (account.None? ==> OnlyRemoved(Directory(s), Directory(t), name))
            && LogsInWith(s.users, t.users, name,
                          if account.Some? && account.value.active then Some(account.value.hash) else None)
            && t.store.adminHash == s.store.adminHash && t.floor == s.floor && t.epoch == s.epoch
  {
    hide Normalized, NextAccountFloor, ValidFloors;
    PersistAgrees(s, now, name, account, shouldExist, written);
    var next := WithMember(s.store, name, account);
    WithMemberShape(s.store, name, account);
    var t := Persist(s, now, name, account, shouldExist, written).0;
    FloorsDoNotMatter(s.store.(accounts := Some(next.value)), t.store.floor, t.store.floors);
    assert Directory(t) == next.value;
  }

  lemma MemberIsListed(s: Security, name: string)
    requires Agrees(s) && MemberOf(s, name).Some?
    ensures name in Directory(s) && MemberOf(s, name) == Some(Directory(s)[name])
    ensures name != ADMIN && Directory(s)[name].role == Member && Clean(Directory(s)[name]) == Directory(s)[name]
  {
    hide Username;
    NormalizedIsStable(s.store);
  }

  /** Linking adds one active member with the given name and hash, mapped to itself; it can
      log in with that hash. */
  lemma LinkLeaves(s: Security, now: real, name: string, display: string, hash: string, io: Io)
    requires Agrees(s) && TakesEffect(s, Link(now, name, display, hash, io))
    ensures var t := Do(s, Link(now, name, display, hash, io)).0;
            && Agrees(t) && name !in Directory(s)
            && OnlyChanged(Directory(s), Directory(t), name, Account(Strip(display), Member, hash, Some(name), true))
            && LogsInWith(s.users, t.users, name, Some(hash))
  {
    hide Persist, Normalized, Username;
    var op := Link(now, name, display, hash, io);
    FailuresAreCleanOrLate(s, op);
    PersistLeaves(s, now, name, Some(Account(display, Member, hash, Some(name), true)), false, io.written);
  }

  /** A status change sets exactly the active flag; only an active member can log in. */
  lemma SetStatusLeaves(s: Security, now: real, name: string, active: bool, io: Io)
    requires Agrees(s) && TakesEffect(s, SetStatus(now, name, active, io))
    ensures var t := Do(s, SetStatus(now, name, active, io)).0;
            && Agrees(t) && name in Directory(s) && Directory(s)[name].active != active
            && OnlyChanged(Directory(s), Directory(t), name, Directory(s)[name].(active := active))
            && LogsInWith(s.users, t.users, name, if active then Some(Directory(s)[name].hash) else None)
  {
    hide Persist, Normalized, Username, MemberOf;
    var op := SetStatus(now, name, active, io);
    FailuresAreCleanOrLate(s, op);
    MemberIsListed(s, name);
    PersistLeaves(s, now, name, Some(Directory(s)[name].(active := active)), true, io.written);
  }

  /** A password reset sets exactly the hash; an active member then logs in with it. */
  lemma ResetPasswordLeaves(s: Security, now: real, name: string, hash: string, io: Io)
    requires Agrees(s) && TakesEffect(s, ResetPassword(now, name, hash, io))
    ensures var t := Do(s, ResetPassword(now, name, hash, io)).0;
            && Agrees(t) && name in Directory(s)
            && OnlyChanged(Directory(s), Directory(t), name, Directory(s)[name].(hash := hash))
            && LogsInWith(s.users, t.users, name, if Directory(s)[name].active then Some(hash) else None)
  {
    hide Persist, Normalized, Username, MemberOf;
    var op := ResetPassword(now, name, hash, io);
    FailuresAreCleanOrLate(s, op);
    MemberIsListed(s, name);
    PersistLeaves(s, now, name, Some(Directory(s)[name].(hash := hash)), true, io.written);
  }

  /** Unlinking removes one inactive member. */
  lemma UnlinkLeaves(s: Security, now: real, name: string, io: Io)
    requires Agrees(s) && TakesEffect(s, Unlink(now, name, io))
    ensures var t := Do(s, Unlink(now, name, io)).0;
            && Agrees(t) && name in Directory(s) && !Directory(s)[name].active
            && OnlyRemoved(Directory(s), Directory(t), name)
            && LogsInWith(s.users, t.users, name, None)
  {
    hide Persist, Normalized, Username, MemberOf;
    var op := Unlink(now, name, io);
    FailuresAreCleanOrLate(s, op);
    MemberIsListed(s, name);
    PersistLeaves(s, now, name, None, true, io.written);
  }

  /** A rotation leaves the new hash as the administrator's in the file, in the directory
      and in the login map, and every member as before.  It makes earlier approvals void. */
  lemma RotateLeaves(s: Security, now: real, hash: string, io: Io)
    requires Agrees(s) && GoodHash(hash) && TakesEffect(s, RotateAdmin(now, hash, io))
    ensures var t := Do(s, RotateAdmin(now, hash, io)).0;
            && Agrees(t) && t.store.adminHash == hash && ADMIN in Directory(s)
            && OnlyChanged(Directory(s), Directory(t), ADMIN, Directory(s)[ADMIN].(hash := hash))
            && LogsInWith(s.users, t.users, ADMIN, Some(hash)) && t.epoch == s.epoch + 1
  {
    hide Normalized, NextFloor, GoodHash, Rehashed;
    var op := RotateAdmin(now, hash, io);
    FailuresAreCleanOrLate(s, op);
    RotateAgrees(s, now, hash, io);
    RehashedDirectory(s.store, NextFloor(s, now), hash);
    RehashedFile(s.store, NextFloor(s, now), hash);
  }

  lemma RehashedFile(p: Store, floor: int, hash: string)
    ensures Rehashed(p, floor, hash).adminHash == hash
  {
  }

  lemma RehashedDirectory(p: Store, floor: int, hash: string)
    requires Normalized(p).Some? && GoodHash(hash)
    ensures var q := Rehashed(p, floor, hash);
            && ADMIN in Normalized(p).value && Normalized(q).Some?
            && Normalized(q).value == Normalized(p).value[ADMIN := Normalized(p).value[ADMIN].(hash := hash)]
  {
    hide GoodDirectory, GoodHash, Cleaned;
    if p.accounts.Some? {
      var m := p.accounts.value;
      AdminListed(m, p.adminHash);
      RehashDirectory(m, p.adminHash, hash);
      RehashedCleaned(m, hash);
    } else {
      assert map[ADMIN := AdminAccount(hash)] == map[ADMIN := AdminAccount(p.adminHash)][ADMIN := AdminAccount(hash)];
    }
  }

  lemma RehashedCleaned(m: map<string, Account>, hash: string)
    requires ADMIN in m
    ensures ADMIN in Cleaned(m)
    ensures Cleaned(m[ADMIN := m[ADMIN].(hash := hash)]) == Cleaned(m)[ADMIN := Cleaned(m)[ADMIN].(hash := hash)]
  {
    hide Strip;
  }

  /** Revoking all sessions changes no account and makes earlier approvals void. */
  lemma RevokeLeaves(s: Security, now: real, io: Io)
    requires Agrees(s) && TakesEffect(s, RevokeSessions(now, io))
    ensures var t := Do(s, RevokeSessions(now, io)).0;
            Agrees(t) && Directory(t) == Directory(s) && t.users == s.users && t.epoch == s.epoch + 1
  {
    hide Normalized;
    FailuresAreCleanOrLate(s, RevokeSessions(now, io));
    FloorsDoNotMatter(s.store, Do(s, RevokeSessions(now, io)).0.floor, s.store.floors);
  }

  // ----- when an operation takes effect -----

  /** A changed directory is still valid exactly if the new record is good and there is room. */
  lemma ValidWith(p: Store, name: string, rec: Account)
    requires Normalized(p).Some? && name != ADMIN
    ensures var m := Normalized(p).value;
            WithMember(p, name, Some(rec)).Some? <==>
            GoodRecord(name, rec, p.adminHash) && (name !in m ==> |m| < 32)
  {
    hide GoodRecord, Clean;
    NormalizedIsStable(p);
    var m := Normalized(p).value;
    var next := m[name := rec];
    assert |next| == if name in m then |m| else |m| + 1 by {
      assert next.Keys == m.Keys + {name} && |next| == |next.Keys| && |m| == |m.Keys|;
    }
    forall n | n in next && n != name ensures GoodRecord(n, next[n], p.adminHash) {
      assert next[n] == m[n];
    }
  }

  /** The stored floors pass their check. */
  predicate FloorsAccepted(s: Security, now: real) {
    forall n :: n in s.store.floors ==> n != "" && 0 <= s.store.floors[n] <= Seconds(now) + 60
  }

  lemma PersistIff(s: Security, now: real, name: string, account: Option<Account>, shouldExist: bool, written: bool)
    requires Agrees(s) && name != "" && name != ADMIN
    ensures Persist(s, now, name, account, shouldExist, written).1.Ok? <==>
            && (name in Directory(s) <==> shouldExist) && written && FloorsAccepted(s, now)
            && (account.Some? ==>
                  GoodRecord(name, account.value, s.store.adminHash) && (name !in Directory(s) ==> |Directory(s)| < 32))
  {
    hide Normalized, GoodRecord, NextAccountFloor;
    if account.Some? {
      ValidWith(s.store, name, account.value);
    }
  }

  lemma EmptyIsNoName()
    ensures !Username("")
  {
  }

  /** A member can be linked exactly if its name is a user name other than the
      administrator's and not taken, there is room, and the display name and hash are
      usable. */
  lemma LinkTakesEffectIff(s: Security, now: real, name: string, display: string, hash: string, io: Io)
    requires Agrees(s)
    ensures TakesEffect(s, Link(now, name, display, hash, io)) <==>
            && Username(name) && name != "admin" && name !in Directory(s) && |Directory(s)| < 32
            && 1 <= |hash| <= 4096 && 1 <= |Strip(display)| <= 64
            && io.written && FloorsAccepted(s, now)
  {
    hide Persist, Normalized, Username, Strip;
    EmptyIsNoName();
    if name != "" && name != ADMIN {
      PersistIff(s, now, name, Some(Account(display, Member, hash, Some(name), true)), false, io.written);
    } else {
      PersistRefuses(s, now, name, Some(Account(display, Member, hash, Some(name), true)), false, io.written);
    }
  }

  lemma PersistRefuses(s: Security, now: real, name: string, account: Option<Account>, shouldExist: bool, written: bool)
    requires name == "" || name == ADMIN
    ensures Persist(s, now, name, account, shouldExist, written) == (s, Err(Invalid))
  {
  }

  /** The other member operations need a member of that name, in the state they change. */
  lemma MemberTakesEffectIff(s: Security, now: real, name: string, active: bool, hash: string, io: Io)
    requires Agrees(s)
    ensures var there := name in Directory(s) && name != "admin" && io.written && FloorsAccepted(s, now);
            && (TakesEffect(s, SetStatus(now, name, active, io)) <==> there && Directory(s)[name].active != active)
            && (TakesEffect(s, ResetPassword(now, name, hash, io)) <==> there && 1 <= |hash| <= 4096)
            && (TakesEffect(s, Unlink(now, name, io)) <==> there && !Directory(s)[name].active)
  {
    hide Persist, Normalized, Username, Strip, MemberOf;
    EmptyIsNoName();
    MemberIff(s, name);
    if MemberOf(s, name).Some? {
      MemberIsListed(s, name);
      var rec := Directory(s)[name];
      ListedIsGood(s, name);
      PersistIff(s, now, name, Some(rec.(active := active)), true, io.written);
      PersistIff(s, now, name, Some(rec.(hash := hash)), true, io.written);
      PersistIff(s, now, name, None, true, io.written);
    }
  }

  lemma MemberIff(s: Security, name: string)
    requires Agrees(s)
    ensures MemberOf(s, name).Some? <==> name in Directory(s) && name != ADMIN
    ensures name in Directory(s) ==> name != ""
  {
    hide Username;
    EmptyIsNoName();
    NormalizedIsStable(s.store);
  }

  lemma ListedIsGood(s: Security, name: string)
    requires Agrees(s) && name in Directory(s)
    ensures GoodRecord(name, Directory(s)[name], s.store.adminHash)
  {
    hide GoodRecord, Clean;
    NormalizedIsStable(s.store);
  }

  /** The global ones need their first audit record and the write. */
  lemma GlobalTakesEffectIff(s: Security, now: real, hash: string, io: Io)
    ensures TakesEffect(s, RevokeSessions(now, io)) <==> io.before && io.written
    ensures TakesEffect(s, RotateAdmin(now, hash, io)) <==> io.before && io.written
  {
    hide Rehashed, Persist, Normalized, MemberOf, Username, Strip, NextFloor, NextAccountFloor, GoodHash;
  }

  /** An operation on all sessions ends exactly those that began before its floor: every
      other token keeps its verdict. */
  lemma GlobalEndsEarlier(s: Security, op: Op, c: Claims)
    requires Agrees(s) && TakesEffect(s, op) && Subject(op).None?
    ensures Current(Do(s, op).0, c) <==> Current(s, c) && c.iat.value >= NewFloor(s, op)
  {
    hide Normalized, LocalUser;
  }

  /** The new floor of an operation is the next second, or an earlier floor that is later
      still: its own, or the one for all sessions. */
  lemma NewFloorIs(s: Security, op: Op)
    requires TakesEffect(s, op)
    ensures var floor, next := NewFloor(s, op), Seconds(op.now) + 1;
            var own := if Subject(op).Some? && Subject(op).value in s.floors then s.floors[Subject(op).value] else 0;
            && floor >= next && floor >= s.floor
            && (Subject(op).None? ==> floor in {next, s.floor})
            && (Subject(op).Some? ==> floor >= own && floor in {next, s.floor, own})
            && (Subject(op).None? ==> Do(s, op).0.floor == floor && Do(s, op).0.floors == s.floors)
            && (Subject(op).Some? ==>
                  && Do(s, op).0.floor == s.floor
                  && Do(s, op).0.floors == s.store.floors[Subject(op).value := floor])
  {
    hide Normalized, WithMember, Username, ValidFloors, Rehashed;
    FailuresAreCleanOrLate(s, op);
  }
}
