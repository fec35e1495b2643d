/** The account security service, the account directory on top of it, and the wait that
    keeps a login out of the second of a revocation. */
module AccountService {
  import opened AccountDirectory
  import opened AccountSecurity
  import opened Clocks
  import opened Wrappers

  const DEADLINE: real := 2.5
  const NAP: real := 0.025

  /** Successive readings of the clock do not go back, and after a nap (before every
      odd reading but the first) time has passed. */
  ghost predicate Advances(clock: nat -> real) {
    forall i: nat :: clock(i) <= clock(i + 1) && (i >= 2 && i % 2 == 0 ==> clock(i) + NAP <= clock(i + 1))
  }

  lemma {:induction false} Later(clock: nat -> real, i: nat, j: nat)
    requires Advances(clock) && i <= j
    ensures clock(i) <= clock(j)
    decreases j - i
  {
    if i < j {
      Later(clock, i + 1, j);
    }
  }

  /** How a wait ends.  It reads the clock for its guard (odd readings) and for its
      deadline (even readings); `last` is the last reading made.  It succeeds at the
      first guard reading that has reached the floor, unless an earlier deadline reading
      is too late. */
  ghost predicate Outcome(clock: nat -> real, floor: int, ok: bool, last: nat) {
    && last >= 1
    && (ok ==> last % 2 == 1 && Seconds(clock(last)) >= floor)
    && (!ok ==> last % 2 == 0 && last >= 2 && Seconds(clock(last - 1)) < floor && clock(last) >= clock(0) + DEADLINE)
    && (forall i: nat :: i % 2 == 1 && i < last ==> Seconds(clock(i)) < floor)
    && (forall i: nat :: 2 <= i < last && i % 2 == 0 ==> clock(i) < clock(0) + DEADLINE)
  }

  lemma OutcomeIsUnique(clock: nat -> real, floor: int, ok: bool, last: nat, ok': bool, last': nat)
    requires Outcome(clock, floor, ok, last) && Outcome(clock, floor, ok', last')
    ensures ok == ok' && last == last'
  {
  }

  method WaitForLoginWindow(clock: nat -> real, floor: int) returns (ok: bool, last: nat)
    requires Advances(clock)
    ensures Outcome(clock, floor, ok, last)
  {
    hide Advances, Seconds;
    var deadline := clock(0) + DEADLINE;
    last := 1;
    while Seconds(clock(last)) < floor
      invariant last >= 1 && last % 2 == 1
      invariant forall i: nat :: i % 2 == 1 && i < last ==> Seconds(clock(i)) < floor
      invariant forall i: nat :: 2 <= i < last && i % 2 == 0 ==> clock(i) < deadline
      decreases Naps(deadline, clock(last))
    {
      last := last + 1;
      if clock(last) >= deadline {
        return false, last;
      }
      OneNap(clock, deadline, last - 1);
      last := last + 1;
    }
    ok := true;
  }

  /** How many naps fit before the deadline. */
  function Naps(deadline: real, now: real): int {
    ((deadline - now) / NAP).Floor
  }

  lemma OneNap(clock: nat -> real, deadline: real, i: nat)
    requires Advances(clock) && i % 2 == 1 && clock(i + 1) < deadline
    ensures Naps(deadline, clock(i + 2)) < Naps(deadline, clock(i)) && Naps(deadline, clock(i)) >= 0
  {
    assert clock(i) <= clock(i + 1);
    assert clock(i + 1) + NAP <= clock(i + 1 + 1);
    Progress(deadline, clock(i), clock(i + 2));
  }

  lemma Progress(deadline: real, before: real, after: real)
    requires before + NAP <= after && before < deadline
    ensures Naps(deadline, after) < Naps(deadline, before) && Naps(deadline, before) >= 0
  {
    assert (deadline - after) / NAP <= (deadline - before) / NAP - 1.0;
  }

  /** A wait begins with a floor at most one second ahead, and the clock moves by at most
      `gap` between readings. */
  ghost predicate Steady(clock: nat -> real, floor: int, gap: real) {
    && Advances(clock) && clock(0) >= 0.0 && floor <= Seconds(clock(0)) + 1
    && forall i: nat :: clock(i + 1) <= clock(i) + gap
  }

  /** One wait: it does not fail up to 1.5 s, and it ends in time up to 0.75 s. */
  lemma WaitSucceeds(clock: nat -> real, floor: int, ok: bool, last: nat, gap: real)
    requires Steady(clock, floor, gap) && Outcome(clock, floor, ok, last)
    ensures gap <= 1.5 ==> ok
    ensures ok && last >= 3 ==> clock(last) < clock(0) + 1.0 + 2.0 * gap
    ensures gap <= 0.75 ==> clock(last) < clock(0) + DEADLINE
  {
    if !ok {
      assert clock(last) <= clock(last - 1) + gap;
      Later(clock, 0, last - 1);
    } else if last >= 3 {
      var i: nat := last - 2;
      assert Seconds(clock(i)) < floor;
      Later(clock, 0, i);
      assert clock(i + 1) <= clock(i) + gap && clock(i + 2) <= clock(i + 1) + gap;
    } else {
      assert clock(last) <= clock(0) + gap;
    }
  }

  /** No wait with such a clock fails. */
  ghost predicate NeverFails(gap: real) {
    forall clock: nat -> real, floor: int, ok: bool, last: nat ::
      Steady(clock, floor, gap) && Outcome(clock, floor, ok, last) ==> ok
  }

  /** Every wait with such a clock ends, successfully, before its deadline. */
  ghost predicate AlwaysTimely(gap: real) {
    forall clock: nat -> real, floor: int, ok: bool, last: nat ::
      Steady(clock, floor, gap) && Outcome(clock, floor, ok, last) ==> ok && clock(last) < clock(0) + DEADLINE
  }

  /** A clock that jumps by more than 1.5 s from a guard reading to its deadline reading. */
  function Jumping(jump: real): nat -> real {
    (i: nat) => if i == 0 then 0.0 else if i == 1 then DEADLINE - jump else DEADLINE + (i - 2) as real * NAP
  }

  lemma JumpingReading(jump: real, i: nat)
    requires 1.5 < jump <= DEADLINE
    ensures var here, next := Jumping(jump)(i), Jumping(jump)(i + 1);
            && (i == 0 ==> here == 0.0 && next == DEADLINE - jump)
            && (i == 1 ==> next == DEADLINE)
            && (i >= 1 ==> next == if i == 1 then here + jump else here + NAP)
  {
    if i >= 2 {
      assert (i + 1 - 2) as real == (i - 2) as real + 1.0;
    }
  }

  /** It fails the wait although the window has opened. */
  lemma JumpFailsTheWait(jump: real)
    requires 1.5 < jump <= DEADLINE
    ensures Steady(Jumping(jump), 1, jump) && Outcome(Jumping(jump), 1, false, 2)
    ensures Seconds(Jumping(jump)(2)) >= 1
  {
    hide Jumping;
    var clock := Jumping(jump);
    forall i: nat
      ensures clock(i) <= clock(i + 1) <= clock(i) + jump && (i >= 2 ==> clock(i) + NAP <= clock(i + 1))
    {
      JumpingReading(jump, i);
    }
    JumpingReading(jump, 0);
    JumpingReading(jump, 1);
  }

  /** A clock that comes close to the floor and then moves by `step` twice. */
  function Slow(step: real): nat -> real {
    (i: nat) =>
      if i == 0 then 0.0
      else if i <= 2 then 0.4
      else if i <= 5 then DEADLINE - (5 - i) as real * step
      else DEADLINE + (i - 5) as real * NAP
  }

  lemma SlowReading(step: real, i: nat)
    requires 0.75 < step <= 1.0
    ensures var here, next := Slow(step)(i), Slow(step)(i + 1);
            && (i == 0 ==> here == 0.0 && next == 0.4)
            && (i == 1 ==> next == here)
            && (i == 2 ==> here == 0.4 && next == DEADLINE - 2.0 * step)
            && (i in {3, 4} ==> next == here + step)
            && (i >= 5 ==> next == here + NAP)
  {
    if i >= 5 {
      assert (i + 1 - 5) as real == (i - 5) as real + 1.0;
    }
  }

  lemma SlowIsSteady(step: real)
    requires 0.75 < step <= 1.0
    ensures Steady(Slow(step), 1, step)
  {
    hide Slow;
    var clock := Slow(step);
    forall i: nat
      ensures clock(i) <= clock(i + 1) <= clock(i) + step && (i >= 2 ==> clock(i) + NAP <= clock(i + 1))
    {
      SlowReading(step, i);
    }
    SlowReading(step, 0);
  }

  lemma SlowIsLate(step: real)
    requires 0.75 < step <= 1.0
    ensures Outcome(Slow(step), 1, true, 5)
    ensures Slow(step)(0) == 0.0 && Slow(step)(5) == DEADLINE
  {
    hide Slow;
    var clock := Slow(step);
    SlowReading(step, 0);
    SlowReading(step, 1);
    SlowReading(step, 2);
    SlowReading(step, 3);
    SlowReading(step, 4);
    assert 0.0 <= clock(1) < 1.0 && 0.0 <= clock(3) < 1.0;
  }

  lemma SteadyWidens(clock: nat -> real, floor: int, gap: real, wider: real)
    requires Steady(clock, floor, gap) && gap <= wider
    ensures Steady(clock, floor, wider)
  {
    forall i: nat
      ensures clock(i + 1) <= clock(i) + wider
    {
      assert clock(i + 1) <= clock(i) + gap;
    }
  }

  /** No login wait fails, for any clock and any floor at most a second ahead, exactly as
      long as the clock never moves by more than 1.5 s between two readings. */
  lemma WaitNeverFailsIff(gap: real)
    ensures NeverFails(gap) <==> gap <= 1.5
  {
    hide Steady, Outcome;
    if gap <= 1.5 {
      forall clock: nat -> real, floor: int, ok: bool, last: nat |
        Steady(clock, floor, gap) && Outcome(clock, floor, ok, last)
        ensures ok
      {
        WaitSucceeds(clock, floor, ok, last, gap);
      }
    } else {
      var jump := if gap <= DEADLINE then gap else DEADLINE;
      JumpFailsTheWait(jump);
      SteadyWidens(Jumping(jump), 1, jump, gap);
    }
  }

  /** Every such wait ends before its deadline exactly up to 0.75 s. */
  lemma WaitIsTimelyIff(gap: real)
    ensures AlwaysTimely(gap) <==> gap <= 0.75
  {
    hide Steady, Outcome;
    if gap <= 0.75 {
      forall clock: nat -> real, floor: int, ok: bool, last: nat |
        Steady(clock, floor, gap) && Outcome(clock, floor, ok, last)
        ensures ok && clock(last) < clock(0) + DEADLINE
      {
        WaitSucceeds(clock, floor, ok, last, gap);
      }
    } else {
      var step := if gap <= 1.0 then gap else 1.0;
      SlowIsSteady(step);
      SlowIsLate(step);
      SteadyWidens(Slow(step), 1, step, gap);
    }
  }

  /** The login window of a floor opens in time, or not, on this clock. */
  ghost predicate Opens(clock: nat -> real, floor: int, inTime: bool) {
    exists last: nat :: Outcome(clock, floor, inTime, last)
  }

  /** With floors near the clock, which holds in every run, a change of a member that was
      stored is also reported as done, unless the clock moves by more than 1.5 s. */
  lemma MemberChangesAreReported(s: Security, from: real, op: Op, clock: nat -> real, gap: real)
    requires Near(s, from) && s.floors == s.store.floors && 0.0 <= from <= op.now <= clock(0)
    requires Subject(op).Some? && TakesEffect(s, op) && gap <= 1.5
    requires Advances(clock) && forall i: nat :: clock(i + 1) <= clock(i) + gap
    requires Opens(clock, FloorOf(Do(s, op).0.floors, Subject(op).value), op.io.after)
    ensures Do(s, op).1 == Ok(NewFloor(s, op))
  {
    hide Do, Near, Outcome, Advances, Seconds;
    FailuresAreCleanOrLate(s, op);
    DoStaysNear(s, from, op);
    var floor := FloorOf(Do(s, op).0.floors, Subject(op).value);
    assert floor <= Seconds(clock(0)) + 1 by {
      NearFloor(Do(s, op).0, op.now, Subject(op).value);
      SecondsMonotone(op.now, clock(0));
    }
    var last: nat :| Outcome(clock, floor, op.io.after, last);
    WaitSucceeds(clock, floor, op.io.after, last, gap);
  }

  lemma NearFloor(s: Security, now: real, name: string)
    requires Near(s, now)
    ensures FloorOf(s.floors, name) <= Seconds(now) + 1
  {
  }

  class ApplianceAccountSecurity {
    const verify: (string, string) -> bool
    var store: Store
    var users: map<string, string>
    var active: set<string>
    var floor: int
    var floors: map<string, int>
    var epoch: nat

    function State(): Security
      reads this
    {
      Security(store, users, active, floor, floors, epoch)
    }

    constructor (p: Store, now: real, verify: (string, string) -> bool)
      requires Started(p, now).Some?
      ensures State() == Started(p, now).value && this.verify == verify
    {
      var accounts := Normalized(p).value;
      this.verify := verify;
      store, users, active, floor, floors, epoch := p, Live(accounts), Live(accounts).Keys, p.floor, p.floors, 0;
    }

    method ClaimsAreCurrent(c: Claims) returns (current: bool)
      ensures current == Current(State(), c)
    {
      if c.iat.None? {
        return false;
      }
      var applies := floor;
      if c.sub.Some? && LOCAL <= c.sub.value {
        var name := c.sub.value[|LOCAL|..];
        if name !in active {
          return false;
        }
        applies := Max(applies, FloorOf(floors, name));
      }
      current := c.iat.value >= applies;
    }

    method PersistMemberAccount(
      now: real, name: string, account: Option<Account>, shouldExist: bool, written: bool)
      returns (r: Result<int, Failure>)
      modifies this
      ensures (State(), r) == Persist(old(State()), now, name, account, shouldExist, written)
    {
      hide Normalized, NextAccountFloor, ValidFloors;
      if name == "" || name == ADMIN {
        return Err(Invalid);
      }
      var accounts := NormalizedAccounts(store);
      if accounts.None? {
        return Err(Corrupt);
      }
      if (name in accounts.value) != shouldExist {
        return Err(Changed);
      }
      var next: Option<map<string, Account>>;
      if account.None? {
        next := Some(accounts.value - {name});
      } else {
        next := NormalizedAccounts(store.(accounts := Some(accounts.value[name := account.value])));
      }
      var own := NextAccountFloor(State(), now, name);
      if next.None? || !ValidFloors(store.floors, now) {
        return Err(Corrupt);
      }
      if !written {
        return Err(WriteFailed);
      }
      floors := store.floors[name := own];
      store := store.(accounts := Some(next.value), floors := floors);
      if account.Some? && account.value.active {
        users, active := users[name := account.value.hash], active + {name};
      } else {
        users, active := users - {name}, active - {name};
      }
      r := Ok(own);
    }

    method Revoke(now: real, io: Io) returns (r: Result<int, Failure>)
      modifies this
      ensures (State(), r) == RevokeAll(old(State()), now, io)
    {
      if !io.before {
        return Err(AuditFailed);
      }
      var next := NextFloor(State(), now);
      if !io.written {
        return Err(WriteFailed);
      }
      store := store.(floor := next);
      floor, epoch := next, epoch + 1;
      r := if io.after then Ok(next) else Err(AuditFailed);
    }

    /** `bytes` is the length of the password in UTF-8, `hash` its new hash. */
    method RotatePassword(now: real, password: string, bytes: nat, hash: string, io: Io)
      returns (r: Result<int, Failure>)
      requires Agrees(State()) && GoodHash(hash)
      modifies this
      ensures var refused := |password| < 12 || bytes > 72 || (ADMIN in old(users) && verify(password, old(users)[ADMIN]));
              && (refused ==> r == Err(Invalid) && State() == old(State()))
              && (!refused ==> (State(), r) == Rotate(old(State()), now, hash, io) && Agrees(State()))
    {
      hide Agrees, Rehashed, NextFloor, GoodHash;
      if |password| < 12 || bytes > 72 {
        return Err(Invalid);
      }
      AdminCanLogIn(State());
      if verify(password, users[ADMIN]) {
        return Err(Invalid);
      }
      RotateAgrees(State(), now, hash, io);
      if !io.before {
        return Err(AuditFailed);
      }
      var next := NextFloor(State(), now);
      if !io.written {
        return Err(WriteFailed);
      }
      store := Rehashed(store, next, hash);
      users, floor, epoch := users[ADMIN := hash], next, epoch + 1;
      r := if io.after then Ok(next) else Err(AuditFailed);
    }
  }

  lemma AdminCanLogIn(s: Security)
    requires Agrees(s)
    ensures ADMIN in s.users && s.users[ADMIN] == s.store.adminHash
  {
    NormalizedIsStable(s.store);
    AdminActive(Normalized(s.store).value, s.store.adminHash);
  }

  lemma AdminActive(m: map<string, Account>, hash: string)
    requires GoodDirectory(m, hash)
    ensures ADMIN in m && m[ADMIN].active && m[ADMIN].hash == hash
  {
    assert GoodRecord(ADMIN, m[ADMIN], hash);
  }

  class ApplianceAccountDirectory {
    const security: ApplianceAccountSecurity

    constructor (security: ApplianceAccountSecurity)
      ensures this.security == security
    {
      this.security := security;
    }

    method MemberAccount(name: string) returns (m: Result<Account, Failure>)
      ensures match MemberOf(security.State(), name)
              case Some(account) => m == Ok(account)
              case None => m == Err(NoMember(security.State(), name))
    {
      if !Username(name) || name == ADMIN {
        return Err(Invalid);
      }
      var accounts := NormalizedAccounts(security.store);
      if accounts.None? {
        return Err(Corrupt);
      }
      if name !in accounts.value || accounts.value[name].role != Member {
        return Err(Missing);
      }
      m := Ok(accounts.value[name]);
    }

    /** A member change goes on disk, and then its login window is waited for.  The wait
        comes too late to take the change back. */
    method PersistAndWait(
      now: real, name: string, account: Option<Account>, shouldExist: bool, written: bool, clock: nat -> real)
      returns (r: Result<int, Failure>, inTime: bool)
      requires Advances(clock)
      modifies security
      ensures (security.State(), r)
              == Waited(Persist(old(security.State()), now, name, account, shouldExist, written), inTime)
      ensures r.Ok? || r == Err(WaitFailed) ==> Opens(clock, FloorOf(security.State().floors, name), inTime)
    {
      hide Persist, Advances, Outcome;
      r := security.PersistMemberAccount(now, name, account, shouldExist, written);
      inTime := true;
      PersistFailure(old(security.State()), now, name, account, shouldExist, written);
      if r.Err? {
        return;
      }
      var last;
      inTime, last := WaitForLoginWindow(clock, FloorOf(security.floors, name));
      if !inTime {
        r := Err(WaitFailed);
      }
    }

    /** Every change of a member: the operation it is, and the clock of its login wait. */
    ghost predicate Done(before: Security, op: Op, r: Result<int, Failure>, clock: nat -> real)
      requires Subject(op).Some?
      reads security
    {
      && (security.State(), r) == Do(before, op)
      && (TakesEffect(before, op) ==>
            Opens(clock, FloorOf(security.State().floors, Subject(op).value), op.io.after))
    }

    method ApplyLink(now: real, name: string, display: string, hash: string, written: bool, clock: nat -> real)
      returns (r: Result<int, Failure>, inTime: bool)
      requires Advances(clock)
      modifies security
      ensures Done(old(security.State()), Link(now, name, display, hash, Io(true, written, inTime)), r, clock)
    {
      hide Persist, Advances, Opens, Normalized;
      inTime := true;
      var accounts := NormalizedAccounts(security.store);
      if accounts.None? {
        return Err(Corrupt), inTime;
      }
      if name in accounts.value {
        return Err(Changed), inTime;
      }
      if |accounts.value| >= MAX_ACCOUNTS {
        return Err(Full), inTime;
      }
      var account := Account(display, Member, hash, Some(name), true);
      r, inTime := PersistAndWait(now, name, Some(account), false, written, clock);
    }

    method ApplyStatus(now: real, name: string, active: bool, written: bool, clock: nat -> real)
      returns (r: Result<int, Failure>, inTime: bool)
      requires Advances(clock)
      modifies security
      ensures Done(old(security.State()), SetStatus(now, name, active, Io(true, written, inTime)), r, clock)
    {
      hide Persist, Advances, Opens, MemberOf;
      inTime := true;
      var account := MemberAccount(name);
      if account.Err? {
        return Err(account.error), inTime;
      }
      if account.value.active == active {
        return Err(Changed), inTime;
      }
      r, inTime := PersistAndWait(now, name, Some(account.value.(active := active)), true, written, clock);
    }

    method ApplyPassword(now: real, name: string, hash: string, written: bool, clock: nat -> real)
      returns (r: Result<int, Failure>, inTime: bool)
      requires Advances(clock)
      modifies security
      ensures Done(old(security.State()), ResetPassword(now, name, hash, Io(true, written, inTime)), r, clock)
    {
      hide Persist, Advances, Opens, MemberOf;
      inTime := true;
      var account := MemberAccount(name);
      if account.Err? {
        return Err(account.error), inTime;
      }
      r, inTime := PersistAndWait(now, name, Some(account.value.(hash := hash)), true, written, clock);
    }

    method ApplyUnlink(now: real, name: string, written: bool, clock: nat -> real)
      returns (r: Result<int, Failure>, inTime: bool)
      requires Advances(clock)
      modifies security
      ensures Done(old(security.State()), Unlink(now, name, Io(true, written, inTime)), r, clock)
    {
      hide Persist, Advances, Opens, MemberOf;
      inTime := true;
      var account := MemberAccount(name);
      if account.Err? {
        return Err(account.error), inTime;
      }
      if account.value.active {
        return Err(Changed), inTime;
      }
      r, inTime := PersistAndWait(now, name, None, true, written, clock);
    }
  }
}
