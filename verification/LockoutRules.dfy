/** What the failure window and the lock do, attempt by attempt. */
module LockoutRules {
  import opened Lockout
  import opened Wrappers

  /** Wrong passwords at these times, and no lock yet. */
  function Unlocked(times: seq<real>): Option<Record> {
    if times == [] then None else Some(Record(times, 0.0))
  }

  /** The failures that still count at `now` are the last of them: the older ones are 300
      seconds old or more. */
  predicate StillCount(times: seq<real>, now: real, k: nat) {
    && k <= |times|
    && (forall i :: 0 <= i < |times| - k ==> times[i] <= now - 300.0)
    && forall i :: |times| - k <= i < |times| ==> times[i] > now - 300.0
  }

  lemma {:induction false} Pops(times: seq<real>, now: real, k: nat)
    requires StillCount(times, now, k)
    ensures PopOld(times, now - WINDOW) == times[|times| - k..]
  {
    if k < |times| {
      assert times[1..][|times| - 1 - k..] == times[|times| - k..];
      Pops(times[1..], now, k);
    }
  }

  lemma UnlockedPruned(times: seq<real>, now: real, k: nat)
    requires now >= 0.0 && StillCount(times, now, k)
    ensures RetryAfter(Unlocked(times), now) == (Unlocked(times[|times| - k..]), 0)
  {
    Pops(times, now, k);
  }

  lemma FailureCounted(kept: seq<real>, now: real, maxFailures: nat)
    requires StillCount(kept, now, |kept|)
    ensures Fail(Unlocked(kept), now, maxFailures)
            == Record(kept + [now], if |kept| + 1 >= maxFailures then now + 60.0 else 0.0)
  {
    Pops(kept, now, |kept|);
    assert kept[|kept| - |kept|..] == kept;
  }

  lemma CountedStays(r: Record, now: real)
    requires now >= 0.0 && StillCount(r.failures, now, |r.failures|) && r.failures != []
    requires r.lockedUntil == 0.0 || r.lockedUntil > now
    ensures RetryAfter(Some(r), now).0 == Some(r)
  {
    Pops(r.failures, now, |r.failures|);
    assert r.failures[|r.failures| - |r.failures|..] == r.failures;
  }

  /** A wrong password of a key that is not locked is counted among those of the last 300
      seconds; if that makes the maximum, the key is locked for 60 seconds. */
  lemma WrongPassword(times: seq<real>, now: real, k: nat, maxFailures: nat)
    requires now >= 0.0 && StillCount(times, now, k) && k < maxFailures
    ensures var counted := times[|times| - k..] + [now];
            Try(Unlocked(times), now, false, maxFailures)
            == (Some(Record(counted, if k + 1 >= maxFailures then now + 60.0 else 0.0)), Wrong)
  {
    hide RetryAfter, Fail, Unlocked;
    var kept := times[|times| - k..];
    UnlockedPruned(times, now, k);
    FailureCounted(kept, now, maxFailures);
    CountedStays(Record(kept + [now], if k + 1 >= maxFailures then now + 60.0 else 0.0), now);
  }

  /** A right password of a key that is not locked is accepted and clears the failures. */
  lemma RightPassword(times: seq<real>, now: real, maxFailures: nat)
    requires now >= 0.0
    ensures Try(Unlocked(times), now, true, maxFailures) == (None, Right)
  {
  }

  /** A locked key refuses every password until the lock ends, with the whole seconds to
      wait rounded up; from then on it is as if it had never failed. */
  lemma LockedKey(r: Record, now: real, correct: bool, maxFailures: nat)
    requires now >= 0.0 && r.lockedUntil > 0.0
    ensures now < r.lockedUntil ==>
              && Try(Some(r), now, correct, maxFailures).1 == Refused
              && Try(Some(r), now, correct, maxFailures).0.Some?
              && Try(Some(r), now, correct, maxFailures).0.value.lockedUntil == r.lockedUntil
              && var wait := RetryAfter(Some(r), now).1;
                 wait >= 1 && (wait - 1) as real < r.lockedUntil - now <= wait as real
    ensures now >= r.lockedUntil ==>
              && Try(Some(r), now, correct, maxFailures) == Try(None, now, correct, maxFailures)
              && RetryAfter(Some(r), now) == (None, 0)
  {
  }

  /** The maximum number of wrong passwords within 300 seconds: all are evaluated, and the
      last one locks the key for 60 seconds. */
  lemma {:induction false} MaximumLocks(before: seq<real>, times: seq<real>, maxFailures: nat)
    requires before + times != [] && Ordered(before + times) && 0.0 <= (before + times)[0]
    requires forall t :: t in before + times ==> t < (before + times)[0] + 300.0
    requires |before| < maxFailures && |before + times| <= maxFailures && times != []
    ensures Burst(Unlocked(before), times, maxFailures)
            == (Some(Record(before + times, if |before + times| == maxFailures then times[|times| - 1] + 60.0 else 0.0)),
                |times|)
    decreases |times|
  {
    hide Try, Unlocked;
    var all := before + times;
    var now := times[0];
    assert all[|before|] == now && now in all;
    forall i | 0 <= i < |before| ensures before[i] > now - 300.0 {
      assert all[i] == before[i] && all[0] <= all[i];
    }
    assert all[0] <= all[|before|];
    WrongPassword(before, now, |before|, maxFailures);
    assert before[|before| - |before|..] == before;
    var more := before + [now];
    if |times| > 1 {
      assert more + times[1..] == all;
      MaximumLocks(more, times[1..], maxFailures);
      RecordUnlocked(more);
    } else {
      assert times == [now] && all == more;
      OneAttempt(Unlocked(before), now, maxFailures);
    }
  }

  lemma RecordUnlocked(times: seq<real>)
    requires times != []
    ensures Unlocked(times) == Some(Record(times, 0.0))
  {
  }

  lemma OneAttempt(r: Option<Record>, now: real, maxFailures: nat)
    ensures Burst(r, [now], maxFailures)
            == (Try(r, now, false, maxFailures).0, if Try(r, now, false, maxFailures).1 == Wrong then 1 else 0)
  {
    assert [now][1..] == [];
  }
}
