/** Session floors and the live view of the accounts. */
module AccountSecurity {
  import opened AccountDirectory
  import opened Clocks
  import opened Texts
  import opened Wrappers

  /** The file, and what the running service keeps beside it: the login map, the active
      members, both kinds of floors, and the approval key epoch. */
  datatype Security = Security(
    store: Store, users: map<string, string>, active: set<string>, floor: int, floors: map<string, int>, epoch: nat)

  datatype Failure = Invalid | Changed | Missing | Full | Corrupt | WriteFailed | AuditFailed | WaitFailed

  function Live(m: map<string, Account>): map<string, string> {
    map n | n in m && m[n].active :: m[n].hash
  }

  function FloorOf(floors: map<string, int>, name: string): int {
    if name in floors then floors[name] else 0
  }

  function Max(a: int, b: int): int {
    if a >= b then a else b
  }

  predicate ValidFloor(floor: int, now: real) {
    0 <= floor <= Seconds(now) + 60
  }

  /** `_validated_account_floors` accepts them. */
  predicate ValidFloors(floors: map<string, int>, now: real) {
    forall n :: n in floors ==> n != "" && ValidFloor(floors[n], now)
  }

  /** The service as it starts from a file; `auth_config` holds the active accounts. */
  function Started(p: Store, now: real): Option<Security> {
    var accounts := Normalized(p);
    if accounts.Some? && ValidFloor(p.floor, now) && ValidFloors(p.floors, now)
    then Some(Security(p, Live(accounts.value), Live(accounts.value).Keys, p.floor, p.floors, 0))
    else None
  }

  datatype Claims = Claims(iat: Option<int>, sub: Option<string>)

  const LOCAL := "local:"

  function LocalUser(c: Claims): Option<string> {
    if c.sub.Some? && LOCAL <= c.sub.value then Some(c.sub.value[|LOCAL|..]) else None
  }

  /** `claims_are_current`. */
  predicate Current(s: Security, c: Claims) {
    && c.iat.Some? && c.iat.value >= s.floor
    && (LocalUser(c).Some? ==>
          LocalUser(c).value in s.active && c.iat.value >= FloorOf(s.floors, LocalUser(c).value))
  }

  // ----- the operations -----

  function NextFloor(s: Security, now: real): int {
    Max(Seconds(now) + 1, s.floor)
  }

  function NextAccountFloor(s: Security, now: real, name: string): int {
    Max(NextFloor(s, now), FloorOf(s.floors, name))
  }

  /** The directory with one member replaced or removed, if it is still valid. */
  function WithMember(p: Store, name: string, account: Option<Account>): Option<map<string, Account>>
    requires Normalized(p).Some?
  {
    var accounts := Normalized(p).value;
    if account.None? then Some(accounts - {name})
    else Normalized(p.(accounts := Some(accounts[name := account.value])))
  }

  function Stored(s: Security, name: string, account: Option<Account>, next: map<string, Account>, floor: int): Security {
    var floors := s.store.floors[name := floor];
    var on := account.Some? && account.value.active;
    Security(s.store.(accounts := Some(next), floors := floors),
             if on then s.users[name := account.value.hash] else s.users - {name},
             if on then s.active + {name} else s.active - {name},
             s.floor, floors, s.epoch)
  }

  /** `persist_member_account`. */
  function Persist(s: Security, now: real, name: string, account: Option<Account>, expectExists: bool, written: bool)
    : (Security, Result<int, Failure>)
  {
    if name == "" || name == ADMIN then (s, Err(Invalid))
    else if Normalized(s.store).None? then (s, Err(Corrupt))
    else if (name in Normalized(s.store).value) != expectExists then (s, Err(Changed))
    else
      var next := WithMember(s.store, name, account);
      var floor := NextAccountFloor(s, now, name);
      if next.None? || !ValidFloors(s.store.floors, now) then (s, Err(Corrupt))
      else if !written then (s, Err(WriteFailed))
      else (Stored(s, name, account, next.value, floor), Ok(floor))
  }

  /** What happens around one change: the first audit record, the write, and what follows
      the write, which is the last audit record or, for a member, the login wait. */
  datatype Io = Io(before: bool, written: bool, after: bool)

  /** `revoke_all`: once written, it holds even if the last audit record fails. */
  function RevokeAll(s: Security, now: real, io: Io): (Security, Result<int, Failure>) {
    var floor := NextFloor(s, now);
    if !io.before then (s, Err(AuditFailed))
    else if !io.written then (s, Err(WriteFailed))
    else
      (s.(store := s.store.(floor := floor), floor := floor, epoch := s.epoch + 1),
       if io.after then Ok(floor) else Err(AuditFailed))
  }

  function Rehashed(p: Store, floor: int, hash: string): Store {
    var m := p.accounts;
    var accounts := if m.Some? && ADMIN in m.value
                    then Some(m.value[ADMIN := m.value[ADMIN].(hash := hash)]) else m;
    p.(floor := floor, adminHash := hash, accounts := accounts)
  }

  /** `rotate_password` once the new password has been found acceptable and hashed. */
  function Rotate(s: Security, now: real, hash: string, io: Io): (Security, Result<int, Failure>) {
    var floor := NextFloor(s, now);
    if !io.before then (s, Err(AuditFailed))
    else if !io.written then (s, Err(WriteFailed))
    else
      (s.(store := Rehashed(s.store, floor, hash), users := s.users[ADMIN := hash], floor := floor, epoch := s.epoch + 1),
       if io.after then Ok(floor) else Err(AuditFailed))
  }

  /** `_member_account`. */
  function MemberOf(s: Security, name: string): Option<Account> {
    var accounts := Normalized(s.store);
    if Username(name) && name != ADMIN && accounts.Some? && name in accounts.value && accounts.value[name].role == Member
    then Some(accounts.value[name]) else None
  }

  /** Why `MemberOf` found nobody. */
  function NoMember(s: Security, name: string): Failure {
    if !Username(name) || name == ADMIN then Invalid else if Normalized(s.store).None? then Corrupt else Missing
  }

  /** A stored change is reported once the login window of the member has opened. */
  function Waited(stored: (Security, Result<int, Failure>), inTime: bool): (Security, Result<int, Failure>) {
    (stored.0, if stored.1.Ok? && !inTime then Err(WaitFailed) else stored.1)
  }

  lemma PersistFailure(s: Security, now: real, name: string, account: Option<Account>, shouldExist: bool, written: bool)
    ensures Persist(s, now, name, account, shouldExist, written).1 != Err(WaitFailed)
    ensures Persist(s, now, name, account, shouldExist, written).1.Err? ==>
              Persist(s, now, name, account, shouldExist, written).0 == s
  {
    hide Normalized, WithMember, ValidFloors, Stored;
  }

  datatype Op =
    | Link(now: real, name: string, display: string, hash: string, io: Io)
    | SetStatus(now: real, name: string, active: bool, io: Io)
    | ResetPassword(now: real, name: string, hash: string, io: Io)
    | Unlink(now: real, name: string, io: Io)
    | RevokeSessions(now: real, io: Io)
    | RotateAdmin(now: real, hash: string, io: Io)

  /** One operation of the account directory or of the session security. */
  function Do(s: Security, op: Op): (Security, Result<int, Failure>) {
    match op
    case Link(now, name, display, hash, io) =>
      var accounts := Normalized(s.store);
      if accounts.None? then (s, Err(Corrupt))
      else if name in accounts.value then (s, Err(Changed))
      else if |accounts.value| >= MAX_ACCOUNTS then (s, Err(Full))
      else Waited(Persist(s, now, name, Some(Account(display, Member, hash, Some(name), true)), false, io.written), io.after)
    case SetStatus(now, name, active, io) =>
      var m := MemberOf(s, name);
      if m.None? then (s, Err(NoMember(s, name)))
      else if m.value.active == active then (s, Err(Changed))
      else Waited(Persist(s, now, name, Some(m.value.(active := active)), true, io.written), io.after)
    case ResetPassword(now, name, hash, io) =>
      var m := MemberOf(s, name);
      if m.None? then (s, Err(NoMember(s, name)))
      else Waited(Persist(s, now, name, Some(m.value.(hash := hash)), true, io.written), io.after)
    case Unlink(now, name, io) =>
      var m := MemberOf(s, name);
      if m.None? then (s, Err(NoMember(s, name)))
      else if m.value.active then (s, Err(Changed))
      else Waited(Persist(s, now, name, None, true, io.written), io.after)
    case RevokeSessions(now, io) => RevokeAll(s, now, io)
    case RotateAdmin(now, hash, io) => Rotate(s, now, hash, io)
  }

  function Run(s: Security, ops: seq<Op>): Security
    decreases |ops|
  {
    if ops == [] then s else Run(Do(s, ops[0]).0, ops[1..])
  }

  /** Times do not run backwards, and password hashing yields a usable hash. */
  predicate Ordinary(from: real, ops: seq<Op>)
    decreases |ops|
  {
    ops == [] || (from <= ops[0].now && (ops[0].RotateAdmin? ==> GoodHash(ops[0].hash)) && Ordinary(ops[0].now, ops[1..]))
  }

  // ----- the live view agrees with the file -----

  ghost predicate Agrees(s: Security) {
    && Normalized(s.store).Some?
    && s.users == Live(Normalized(s.store).value)
    && s.active == s.users.Keys
    && s.floor == s.store.floor && s.floors == s.store.floors
  }

  lemma StartedAgrees(p: Store, now: real)
    requires Started(p, now).Some?
    ensures Agrees(Started(p, now).value)
  {
  }

  lemma WithMemberShape(p: Store, name: string, account: Option<Account>)
    requires Normalized(p).Some? && name != ADMIN && WithMember(p, name, account).Some?
    ensures var next := WithMember(p, name, account).value;
            && Normalized(p.(accounts := Some(next))) == Some(next)
            && next == (if account.Some? then Normalized(p).value[name := Clean(account.value)]
                        else Normalized(p).value - {name})
  {
    hide GoodRecord, Clean;
    NormalizedIsStable(p);
    var before := Normalized(p).value;
    if account.Some? {
      var p' := p.(accounts := Some(before[name := account.value]));
      NormalizedIsStable(p');
      assert Cleaned(before[name := account.value]) == before[name := Clean(account.value)];
    } else {
      var next := before - {name};
      assert ADMIN in next;
      SmallerMap(before, name);
      assert Cleaned(next) == next;
    }
  }

  lemma SmallerMap(m: map<string, Account>, name: string)
    ensures |m - {name}| <= |m| && (m - {name} != map[] ==> |m - {name}| >= 1)
  {
    var n := m - {name};
    assert n.Keys <= m.Keys;
    SubsetSize(n.Keys, m.Keys);
    if n != map[] {
      var k :| k in n;
      SubsetSize({k}, n.Keys);
    }
    assert |n| == |n.Keys| && |m| == |m.Keys|;
  }

  lemma {:induction false} SubsetSize(a: set<string>, b: set<string>)
    requires a <= b
    ensures |a| <= |b|
  {
    if a != {} {
      var x :| x in a;
      SubsetSize(a - {x}, b - {x});
    }
  }

  lemma PersistAgrees(s: Security, now: real, name: string, account: Option<Account>, shouldExist: bool, written: bool)
    requires Agrees(s)
    ensures Agrees(Persist(s, now, name, account, shouldExist, written).0)
  {
    hide Normalized, NextAccountFloor, ValidFloors;
    var (s', r) := Persist(s, now, name, account, shouldExist, written);
    if r.Ok? {
      var next := WithMember(s.store, name, account);
      WithMemberShape(s.store, name, account);
      FloorsDoNotMatter(s.store.(accounts := Some(next.value)), s'.store.floor, s'.store.floors);
      assert s'.users == Live(next.value) by {
        LiveUpdate(Normalized(s.store).value, name, account);
      }
    }
  }

  lemma FloorsDoNotMatter(p: Store, floor: int, floors: map<string, int>)
    ensures Normalized(p.(floor := floor, floors := floors)) == Normalized(p)
  {
  }

  lemma LiveUpdate(m: map<string, Account>, name: string, account: Option<Account>)
    ensures account.Some? ==>
      Live(m[name := Clean(account.value)])
      == if account.value.active then Live(m)[name := account.value.hash] else Live(m) - {name}
    ensures Live(m - {name}) == Live(m) - {name}
  {
  }

  lemma RehashDirectory(m: map<string, Account>, before: string, hash: string)
    requires GoodDirectory(m, before) && GoodHash(hash)
    ensures var m' := m[ADMIN := m[ADMIN].(hash := hash)];
            && GoodDirectory(m', hash)
            && Live(Cleaned(m')) == Live(Cleaned(m))[ADMIN := hash] && ADMIN in Live(Cleaned(m))
  {
    hide GoodText, Clean, Username;
    var m' := m[ADMIN := m[ADMIN].(hash := hash)];
    assert m.Keys == m'.Keys && |m| == |m.Keys| && |m'| == |m'.Keys|;
    forall n | n in m' ensures GoodRecord(n, m'[n], hash) {
      assert GoodRecord(n, m[n], before);
      RehashGood(m[n], hash);
    }
    forall n | n in m' ensures Clean(m'[n]).active == Clean(m[n]).active
                               && Clean(m'[n]).hash == if n == ADMIN then hash else Clean(m[n]).hash {
      CleanKeepsLogin(m[n]);
      CleanKeepsLogin(m'[n]);
    }
    assert m[ADMIN].active by {
      assert GoodRecord(ADMIN, m[ADMIN], before);
    }
    CleanKeepsLogin(m[ADMIN]);
  }

  lemma AdminListed(m: map<string, Account>, hash: string)
    requires GoodDirectory(m, hash)
    ensures ADMIN in m
  {
  }

  lemma RotateAgrees(s: Security, now: real, hash: string, io: Io)
    requires Agrees(s) && GoodHash(hash)
    ensures Agrees(Rotate(s, now, hash, io).0)
  {
    hide GoodDirectory, Cleaned, NextFloor;
    if s.store.accounts.Some? {
      assert ADMIN in s.store.accounts.value by {
        AdminListed(s.store.accounts.value, s.store.adminHash);
      }
      RehashDirectory(s.store.accounts.value, s.store.adminHash, hash);
    } else {
      assert Live(map[ADMIN := AdminAccount(hash)])
             == Live(map[ADMIN := AdminAccount(s.store.adminHash)])[ADMIN := hash];
    }
    assert ADMIN in s.users;
  }

  lemma RehashGood(rec: Account, hash: string)
    requires GoodText(rec) && GoodHash(hash)
    ensures GoodText(rec.(hash := hash)) && Clean(rec.(hash := hash)) == Clean(rec).(hash := hash)
  {
  }

  lemma CleanKeepsLogin(rec: Account)
    ensures Clean(rec).active == rec.active && Clean(rec).hash == rec.hash
  {
  }

  lemma DoAgrees(s: Security, op: Op)
    requires Agrees(s) && (op.RotateAdmin? ==> GoodHash(op.hash))
    ensures Agrees(Do(s, op).0)
  {
    hide Persist, Rotate, Normalized, Username;
    match op
    case Link(now, name, display, hash, io) =>
      PersistAgrees(s, now, name, Some(Account(display, Member, hash, Some(name), true)), false, io.written);
    case SetStatus(now, name, active, io) =>
      if MemberOf(s, name).Some? {
        PersistAgrees(s, now, name, Some(MemberOf(s, name).value.(active := active)), true, io.written);
      }
    case ResetPassword(now, name, hash, io) =>
      if MemberOf(s, name).Some? {
        PersistAgrees(s, now, name, Some(MemberOf(s, name).value.(hash := hash)), true, io.written);
      }
    case Unlink(now, name, io) =>
      PersistAgrees(s, now, name, None, true, io.written);
    case RevokeSessions(now, io) =>
      FloorsDoNotMatter(s.store, NextFloor(s, now), s.store.floors);
    case RotateAdmin(now, hash, io) =>
      RotateAgrees(s, now, hash, io);
  }

  /** After any sequence of operations, failed ones included, the login map is exactly
      the active stored accounts with their hashes, the active set is its key set, and
      the stored directory is still valid. */
  lemma {:induction false} LiveViewAgrees(s: Security, from: real, ops: seq<Op>)
    requires Agrees(s) && Ordinary(from, ops)
    ensures Agrees(Run(s, ops))
    decreases |ops|
  {
    hide Do, Agrees, Normalized;
    if ops != [] {
      DoAgrees(s, ops[0]);
      LiveViewAgrees(Do(s, ops[0]).0, ops[0].now, ops[1..]);
    }
  }

  // ----- revocation is permanent -----

  ghost predicate FloorsRise(s: Security, s': Security) {
    s.floor <= s'.floor && forall n :: FloorOf(s.floors, n) <= FloorOf(s'.floors, n)
  }

  lemma DoRises(s: Security, op: Op)
    requires s.floors == s.store.floors
    ensures FloorsRise(s, Do(s, op).0) && Do(s, op).0.floors == Do(s, op).0.store.floors
  {
    hide Normalized, WithMember, Username, ValidFloors;
  }

  lemma {:induction false} RunRises(s: Security, ops: seq<Op>)
    requires s.floors == s.store.floors
    ensures FloorsRise(s, Run(s, ops))
    decreases |ops|
  {
    hide Do;
    if ops != [] {
      DoRises(s, ops[0]);
      RunRises(Do(s, ops[0]).0, ops[1..]);
      assert forall n :: FloorOf(s.floors, n) <= FloorOf(Do(s, ops[0]).0.floors, n) <= FloorOf(Run(s, ops).floors, n);
    }
  }

  /** The token was issued before a floor that applies to its subject. */
  predicate BelowFloor(s: Security, c: Claims) {
    c.iat.Some? && (c.iat.value < s.floor
                    || (LocalUser(c).Some? && c.iat.value < FloorOf(s.floors, LocalUser(c).value)))
  }

  /** A token below a floor is rejected in every later state, even if the member is
      unlinked and linked again. */
  lemma RevocationIsPermanent(s: Security, ops: seq<Op>, c: Claims)
    requires Agrees(s) && BelowFloor(s, c)
    ensures !Current(Run(s, ops), c) && BelowFloor(Run(s, ops), c)
  {
    RunRises(s, ops);
    assert LocalUser(c).Some? ==>
      FloorOf(s.floors, LocalUser(c).value) <= FloorOf(Run(s, ops).floors, LocalUser(c).value);
  }

  /** The member whose record an operation changes, if any. */
  function Subject(op: Op): Option<string> {
    match op
    case RevokeSessions(_, _) => None
    case RotateAdmin(_, _, _) => None
    case _ => Some(op.name)
  }

  /** The same operation when nothing goes wrong after the write. */
  function Completing(op: Op): Op {
    op.(io := op.io.(after := true))
  }

  /** The operation reaches its write, and the write succeeds. */
  predicate TakesEffect(s: Security, op: Op) {
    Do(s, Completing(op)).1.Ok?
  }

  /** The new floor of an operation that takes effect. */
  function NewFloor(s: Security, op: Op): int
    requires TakesEffect(s, op)
  {
    Do(s, Completing(op)).1.value
  }

  /** An operation that takes effect leaves what it leaves on success, whether or not it
      is reported as failed afterwards; it is reported so exactly when the last audit
      record or the login wait fails.  Every other failure changes nothing. */
  lemma FailuresAreCleanOrLate(s: Security, op: Op)
    ensures TakesEffect(s, op) ==> Do(s, op).0 == Do(s, Completing(op)).0
    ensures TakesEffect(s, op) ==>
              Do(s, op).1 == if op.io.after then Ok(NewFloor(s, op))
                             else Err(if Subject(op).Some? then WaitFailed else AuditFailed)
    ensures !TakesEffect(s, op) ==> Do(s, op) == (s, Do(s, Completing(op)).1) && Do(s, op).1 != Err(WaitFailed)
  {
    hide Normalized, WithMember, Username, ValidFloors, Stored, Rehashed;
  }

  /** Every token issued up to the moment of a revocation that takes effect is below a
      floor: all of them for a global one, those of the member for a member operation. */
  lemma RevocationCoversEarlierTokens(s: Security, op: Op, c: Claims)
    requires TakesEffect(s, op) && c.iat.Some? && c.iat.value <= Seconds(op.now)
    requires Subject(op).None? || LocalUser(c) == Subject(op)
    ensures BelowFloor(Do(s, op).0, c)
  {
    hide Normalized, WithMember, Username, ValidFloors;
  }

  /** An operation on one member never changes the verdict on another subject's token,
      and one that does not take effect changes no verdict at all. */
  lemma MemberOperationsArePrecise(s: Security, op: Op, c: Claims)
    requires s.floors == s.store.floors && Subject(op).Some?
    requires LocalUser(c) != Subject(op) || !TakesEffect(s, op)
    ensures Current(Do(s, op).0, c) == Current(s, c)
  {
    hide Normalized, WithMember, Username, ValidFloors;
  }

  /** A token issued at the new floor is accepted as soon as the member is active. */
  lemma FreshTokensAreCurrent(s: Security, op: Op, c: Claims)
    requires s.floors == s.store.floors && TakesEffect(s, op) && Subject(op).Some?
    requires LocalUser(c) == Subject(op) && c.iat.Some? && c.iat.value >= NewFloor(s, op)
    ensures Current(Do(s, op).0, c) <==> Subject(op).value in Do(s, op).0.active
  {
    hide Normalized, WithMember, Username, ValidFloors;
  }

  // ----- floors stay near the clock -----

  ghost predicate Near(s: Security, now: real) {
    && 0 <= s.floor <= Seconds(now) + 1
    && forall n :: n in s.floors ==> n != "" && 0 <= s.floors[n] <= Seconds(now) + 1
  }

  lemma DoStaysNear(s: Security, from: real, op: Op)
    requires Near(s, from) && s.floors == s.store.floors && 0.0 <= from <= op.now
    ensures Near(Do(s, op).0, op.now)
  {
    hide Normalized, WithMember, Username;
    SecondsMonotone(from, op.now);
  }

  /** Floors that start at most one second ahead of the clock stay so in every run. */
  lemma {:induction false} RunStaysNear(s: Security, from: real, ops: seq<Op>)
    requires Near(s, from) && s.floors == s.store.floors && 0.0 <= from && Ordinary(from, ops)
    ensures Near(Run(s, ops), if ops == [] then from else ops[|ops| - 1].now)
    decreases |ops|
  {
    hide Do;
    if ops != [] {
      DoStaysNear(s, from, ops[0]);
      DoRises(s, ops[0]);
      RunStaysNear(Do(s, ops[0]).0, ops[0].now, ops[1..]);
    }
  }

  /** With such floors the file also passes the check of a restart. */
  lemma RestartAccepts(s: Security, now: real)
    requires Agrees(s) && Near(s, now)
    ensures Started(s.store, now).Some? && Started(s.store, now).value == s.(epoch := 0)
  {
  }
}
