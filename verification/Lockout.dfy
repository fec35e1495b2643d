/** The sliding failure window behind the password step-up. */
module Lockout {
  import opened Wrappers

  const WINDOW: real := 300.0
  const LOCKOUT: real := 60.0
  const MAX_ENTRIES: nat := 10_000

  /** Times of recent wrong passwords, oldest first, and the end of a lock (0 = none). */
  datatype Record = Record(failures: seq<real>, lockedUntil: real)

  function PopOld(failures: seq<real>, cutoff: real): (r: seq<real>)
    ensures |r| <= |failures|
  {
    if failures != [] && failures[0] <= cutoff then PopOld(failures[1..], cutoff) else failures
  }

  /** Popping from the left keeps a suffix. */
  lemma {:induction false} PopKeepsSuffix(failures: seq<real>, cutoff: real)
    ensures var r := PopOld(failures, cutoff);
            r == failures[|failures| - |r|..] && (r != [] ==> r[0] > cutoff)
  {
    if failures != [] && failures[0] <= cutoff {
      PopKeepsSuffix(failures[1..], cutoff);
    }
  }

  /** `_prune_failures`. */
  function Prune(r: Record, now: real): Record {
    if r.lockedUntil != 0.0 && r.lockedUntil <= now then Record([], 0.0)
    else r.(failures := PopOld(r.failures, now - WINDOW))
  }

  function Ceiling(x: real): int {
    -((-x).Floor)
  }

  function AtLeastOne(n: int): nat {
    if n < 1 then 1 else n
  }

  /** `_retry_after`: the pruned record, absent once nothing is left, and the seconds
      the caller must wait. */
  function RetryAfter(r: Option<Record>, now: real): (Option<Record>, nat) {
    if r.None? then (None, 0)
    else
      var p := Prune(r.value, now);
      if p.lockedUntil <= now then (if p.failures == [] then None else Some(p), 0)
      else (Some(p), AtLeastOne(Ceiling(p.lockedUntil - now)))
  }

  /** `_record_failure` for the caller's own key. */
  function Fail(r: Option<Record>, now: real, maxFailures: nat): Record {
    var p := if r.None? then Record([], 0.0) else Prune(r.value, now);
    var failures := p.failures + [now];
    Record(failures, if |failures| >= maxFailures then now + LOCKOUT else p.lockedUntil)
  }

  datatype Attempt = Refused | Wrong | Right

  /** One password attempt: refused while locked, otherwise evaluated. */
  function Try(r: Option<Record>, now: real, correct: bool, maxFailures: nat): (Option<Record>, Attempt) {
    var (before, wait) := RetryAfter(r, now);
    if wait > 0 then (before, Refused)
    else if correct then (None, Right)
    else (RetryAfter(Some(Fail(before, now, maxFailures)), now).0, Wrong)
  }

  // ----- one key over time -----

  /** Wrong passwords of one key at non-decreasing times. */
  function Burst(r: Option<Record>, times: seq<real>, maxFailures: nat): (Option<Record>, nat)
    decreases |times|
  {
    if times == [] then (r, 0)
    else
      var (next, a) := Try(r, times[0], false, maxFailures);
      var (last, n) := Burst(next, times[1..], maxFailures);
      (last, n + if a == Wrong then 1 else 0)
  }

  ghost predicate Ordered(times: seq<real>) {
    forall i, j :: 0 <= i <= j < |times| ==> times[i] <= times[j]
  }

  /** What every record the service can hold at time `now` satisfies. */
  ghost predicate Reachable(r: Option<Record>, now: real, maxFailures: nat) {
    r.Some? ==>
      && r.value.lockedUntil <= now + LOCKOUT
      && (|r.value.failures| >= maxFailures ==> r.value.lockedUntil != 0.0)
  }

  lemma ReachableStep(r: Option<Record>, before: real, now: real, correct: bool, maxFailures: nat)
    requires Reachable(r, before, maxFailures) && 0.0 <= before <= now && maxFailures >= 1
    ensures Reachable(Try(r, now, correct, maxFailures).0, now, maxFailures)
  {
  }

  /** `n` evaluations since `start` are all still counted, and a lock that ends before
      `start + LOCKOUT` was set before the first of them. */
  ghost predicate Counted(r: Option<Record>, n: nat, start: real, maxFailures: nat) {
    && (n > 0 ==> r.Some? && n <= |r.value.failures|
                  && forall i :: |r.value.failures| - n <= i < |r.value.failures| ==> r.value.failures[i] >= start)
    && (r.Some? && r.value.lockedUntil != 0.0 && r.value.lockedUntil < start + LOCKOUT ==> n == 0)
    && (r.Some? && |r.value.failures| >= maxFailures ==> r.value.lockedUntil != 0.0)
  }

  lemma PruneKeepsCounted(r: Record, n: nat, start: real, now: real, maxFailures: nat)
    requires Counted(Some(r), n, start, maxFailures) && 0.0 <= start <= now < start + LOCKOUT && maxFailures >= 1
    ensures Counted(Some(Prune(r, now)), n, start, maxFailures)
  {
    var p := Prune(r, now);
    if !(r.lockedUntil != 0.0 && r.lockedUntil <= now) {
      PopKeepsSuffix(r.failures, now - WINDOW);
      var dropped := |r.failures| - |p.failures|;
      if n > 0 && n > |p.failures| {
        var i := |r.failures| - n;
        assert r.failures[i] >= start;
        PopKeepsTail(r.failures, now - WINDOW, i);
      }
      assert forall i :: 0 <= i < |p.failures| ==> p.failures[i] == r.failures[dropped + i];
    }
  }

  lemma {:induction false} PopKeepsTail(failures: seq<real>, cutoff: real, i: nat)
    requires i < |failures| && failures[i] > cutoff
    ensures |PopOld(failures, cutoff)| >= |failures| - i
  {
    if failures[0] <= cutoff {
      PopKeepsTail(failures[1..], cutoff, i - 1);
    }
  }

  /** Adding one failure to an unlocked, pruned record. */
  lemma FailKeepsCounted(failures: seq<real>, n: nat, start: real, now: real, maxFailures: nat)
    requires Counted(Some(Record(failures, 0.0)), n, start, maxFailures)
    requires 0.0 <= start <= now < start + LOCKOUT && maxFailures >= 1
    ensures var more := failures + [now];
            var f := Record(more, if |more| >= maxFailures then now + LOCKOUT else 0.0);
            Counted(Some(f), n + 1, start, maxFailures) && n + 1 <= maxFailures
  {
    assert |failures| < maxFailures;
  }

  /** What `RetryAfter` returns, without the arithmetic of the waiting time. */
  lemma RetryShape(r: Option<Record>, now: real)
    requires now >= 0.0 && r.Some?
    ensures var (before, wait) := RetryAfter(r, now);
            && (before.Some? ==> before.value == Prune(r.value, now))
            && (before.None? ==> wait == 0)
            && (wait == 0 && before.Some? ==> before.value.lockedUntil == 0.0)
  {
  }

  lemma WrongShape(f: Record, now: real)
    requires now >= 0.0 && f.failures != [] && f.failures[|f.failures| - 1] == now
    requires f.lockedUntil == 0.0 || f.lockedUntil > now
    ensures RetryAfter(Some(f), now).0 == Some(Prune(f, now))
  {
    PopKeepsTail(f.failures, now - WINDOW, |f.failures| - 1);
  }

  lemma WrongKeepsCounted(before: Option<Record>, n: nat, start: real, now: real, maxFailures: nat)
    requires Counted(before, n, start, maxFailures) && 0.0 <= start <= now < start + LOCKOUT && maxFailures >= 1
    requires before.Some? ==> before.value.lockedUntil == 0.0
    ensures Counted(RetryAfter(Some(Fail(before, now, maxFailures)), now).0, n + 1, start, maxFailures)
    ensures n + 1 <= maxFailures
  {
    if before.Some? {
      PruneKeepsCounted(before.value, n, start, now, maxFailures);
    }
    var failures := if before.None? then [] else Prune(before.value, now).failures;
    FailKeepsCounted(failures, n, start, now, maxFailures);
    PruneKeepsCounted(Fail(before, now, maxFailures), n + 1, start, now, maxFailures);
    WrongShape(Fail(before, now, maxFailures), now);
  }

  lemma TryKeepsCounted(r: Option<Record>, n: nat, start: real, now: real, maxFailures: nat)
    requires Counted(r, n, start, maxFailures) && 0.0 <= start <= now < start + LOCKOUT && maxFailures >= 1
    ensures var (next, a) := Try(r, now, false, maxFailures);
            && Counted(next, if a == Wrong then n + 1 else n, start, maxFailures)
            && (a == Wrong ==> n + 1 <= maxFailures)
  {
    var (before, wait) := RetryAfter(r, now);
    assert Counted(before, n, start, maxFailures) && (wait == 0 && before.Some? ==> before.value.lockedUntil == 0.0) by {
      if r.Some? {
        PruneKeepsCounted(r.value, n, start, now, maxFailures);
        RetryShape(r, now);
      }
    }
    if wait == 0 {
      WrongKeepsCounted(before, n, start, now, maxFailures);
    }
  }

  lemma {:induction false} BurstCounted(r: Option<Record>, n: nat, start: real, times: seq<real>, maxFailures: nat)
    requires Counted(r, n, start, maxFailures) && 0.0 <= start && maxFailures >= 1 && n <= maxFailures
    requires Ordered(times) && forall t :: t in times ==> start <= t < start + LOCKOUT
    ensures n + Burst(r, times, maxFailures).1 <= maxFailures
    decreases |times|
  {
    if times != [] {
      assert times[0] in times;
      assert forall t :: t in times[1..] ==> t in times;
      TryKeepsCounted(r, n, start, times[0], maxFailures);
      var (next, a) := Try(r, times[0], false, maxFailures);
      BurstCounted(next, if a == Wrong then n + 1 else n, start, times[1..], maxFailures);
    }
  }

  /** Rate bound: whatever happened before, in any half-open 60-second window without a
      success, a reset or an eviction of the key, at most `maxFailures` wrong passwords
      are evaluated. */
  lemma RateBound(r: Option<Record>, start: real, times: seq<real>, maxFailures: nat)
    requires Reachable(r, start, maxFailures) && 0.0 <= start && maxFailures >= 1
    requires Ordered(times) && forall t :: t in times ==> start <= t < start + LOCKOUT
    ensures Burst(r, times, maxFailures).1 <= maxFailures
  {
    BurstCounted(r, 0, start, times, maxFailures);
  }

  function Fresh(failures: nat, now: real): Option<Record> {
    if failures == 0 then None else Some(Record(seq(failures, _ => now), 0.0))
  }

  lemma {:induction false} AllRecent(failures: seq<real>, now: real)
    requires forall t :: t in failures ==> t == now
    ensures PopOld(failures, now - WINDOW) == failures
  {
    assert failures != [] ==> failures[0] in failures;
  }

  lemma TryFresh(failures: nat, now: real, maxFailures: nat)
    requires now >= 0.0 && failures < maxFailures
    ensures Try(Fresh(failures, now), now, false, maxFailures)
            == (if failures + 1 < maxFailures then Fresh(failures + 1, now)
                else Some(Record(seq(failures + 1, _ => now), now + LOCKOUT)), Wrong)
  {
    var before, more := seq(failures, _ => now), seq(failures + 1, _ => now);
    AllRecent(before, now);
    AllRecent(more, now);
    assert before + [now] == more;
    assert failures == 0 ==> before == [];
  }

  function Repeat(k: nat, now: real): (times: seq<real>)
    ensures |times| == k && forall t :: t in times ==> t == now
  {
    if k == 0 then [] else [now] + Repeat(k - 1, now)
  }

  /** The bound is reached: a key with `failures` recent failures gets exactly the
      missing evaluations out of any burst at one moment. */
  lemma {:induction false} BurstReachesBound(k: nat, failures: nat, now: real, maxFailures: nat)
    requires now >= 0.0 && failures < maxFailures
    ensures Burst(Fresh(failures, now), Repeat(k, now), maxFailures).1
            == if k < maxFailures - failures then k else maxFailures - failures
    decreases k
  {
    if k > 0 {
      var more := Repeat(k - 1, now);
      TryFresh(failures, now, maxFailures);
      BurstStep(Fresh(failures, now), now, more, maxFailures);
      assert Repeat(k, now) == [now] + more;
      if failures + 1 < maxFailures {
        BurstReachesBound(k - 1, failures + 1, now, maxFailures);
      } else {
        LockedBurst(Record(seq(failures + 1, _ => now), now + LOCKOUT), more, maxFailures);
      }
    }
  }

  lemma BurstStep(r: Option<Record>, now: real, more: seq<real>, maxFailures: nat)
    ensures var (next, a) := Try(r, now, false, maxFailures);
            Burst(r, [now] + more, maxFailures).1
            == Burst(next, more, maxFailures).1 + if a == Wrong then 1 else 0
  {
    assert ([now] + more)[1..] == more;
  }

  /** Nothing is evaluated while a lock lasts. */
  lemma {:induction false} LockedBurst(r: Record, times: seq<real>, maxFailures: nat)
    requires forall t :: t in times ==> t < r.lockedUntil
    ensures Burst(Some(r), times, maxFailures).1 == 0
    decreases |times|
  {
    if times != [] {
      assert times[0] in times && forall t :: t in times[1..] ==> t in times;
      LockedBurst(Prune(r, times[0]), times[1..], maxFailures);
    }
  }

  /** A lock that is over, or failures that are all out of the window, leave no trace:
      the key is treated like one that never failed. */
  lemma ForgottenInTime(r: Record, now: real, correct: bool, maxFailures: nat)
    requires now >= 0.0
    requires if r.lockedUntil != 0.0 then r.lockedUntil <= now
             else forall t :: t in r.failures ==> t <= now - WINDOW
    ensures Try(Some(r), now, correct, maxFailures) == Try(None, now, correct, maxFailures)
  {
    if r.lockedUntil == 0.0 {
      AllOld(r.failures, now - WINDOW);
    }
    assert Prune(r, now) == Record([], 0.0);
  }

  lemma {:induction false} AllOld(failures: seq<real>, cutoff: real)
    requires forall t :: t in failures ==> t <= cutoff
    ensures PopOld(failures, cutoff) == []
  {
    if failures != [] {
      assert failures[0] in failures && forall t :: t in failures[1..] ==> t in failures;
      AllOld(failures[1..], cutoff);
    }
  }
}
