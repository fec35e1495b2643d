/** The table of failure records, one per (actor, address), bounded by evicting the key
    that failed least recently. */
module LockoutTable {
  import opened Wrappers
  import opened Lockout

  datatype Key = Key(actor: string, ip: string)

  /** An ordered dictionary: its keys, least recently failed first, and their records. */
  datatype Table = Table(order: seq<Key>, records: map<Key, Record>)

  const EMPTY := Table([], map[])

  ghost predicate Distinct(ks: seq<Key>) {
    forall i, j :: 0 <= i < j < |ks| ==> ks[i] != ks[j]
  }

  ghost predicate Valid(t: Table) {
    && |t.order| <= MAX_ENTRIES
    && (forall k :: k in t.order <==> k in t.records)
    && Distinct(t.order)
  }

  function Look(t: Table, k: Key): Option<Record> {
    if k in t.records then Some(t.records[k]) else None
  }

  function Without(ks: seq<Key>, k: Key): (r: seq<Key>)
    ensures |r| <= |ks| && (k in ks ==> |r| < |ks|)
    ensures forall x :: x in r <==> x in ks && x != k
  {
    if ks == [] then [] else if ks[0] == k then Without(ks[1..], k) else [ks[0]] + Without(ks[1..], k)
  }

  /** Store or drop one record in place. */
  function Put(t: Table, k: Key, r: Option<Record>): Table
    requires k in t.records
  {
    if r.Some? then t.(records := t.records[k := r.value])
    else Table(Without(t.order, k), t.records - {k})
  }

  /** `_retry_after`. */
  function Pruned(t: Table, k: Key, now: real): (Table, nat) {
    if k in t.records then
      var (r, wait) := RetryAfter(Some(t.records[k]), now);
      (Put(t, k, r), wait)
    else (t, 0)
  }

  function Evicted(t: Table): (r: Table)
    ensures |r.order| <= MAX_ENTRIES
    decreases |t.order|
  {
    if |t.order| > MAX_ENTRIES then Evicted(Table(t.order[1..], t.records - {t.order[0]})) else t
  }

  function Moved(t: Table, k: Key, f: Record): Table {
    Table(Without(t.order, k) + [k], t.records[k := f])
  }

  /** `_record_failure` up to its final `_retry_after`. */
  function Failed(t: Table, k: Key, now: real, maxFailures: nat): Table {
    Evicted(Moved(t, k, Fail(Look(t, k), now, maxFailures)))
  }

  /** One password attempt against the table. */
  function TryAt(t: Table, k: Key, now: real, correct: bool, maxFailures: nat): (Table, Attempt, nat) {
    var (before, wait) := Pruned(t, k, now);
    if wait > 0 then (before, Refused, wait)
    else if correct then (Table(Without(before.order, k), before.records - {k}), Right, 0)
    else
      var (after, next) := Pruned(Failed(before, k, now, maxFailures), k, now);
      (after, Wrong, next)
  }

  lemma {:induction false} WithoutDistinct(ks: seq<Key>, k: Key)
    requires Distinct(ks)
    ensures Distinct(Without(ks, k))
  {
    if ks != [] {
      WithoutDistinct(ks[1..], k);
      var rest := Without(ks[1..], k);
      assert ks[0] !in rest by {
        assert ks[0] !in ks[1..];
      }
      assert forall i :: 0 < i <= |rest| ==> ([ks[0]] + rest)[i] in rest;
    }
  }

  lemma PrunedLooks(t: Table, k: Key, now: real)
    requires Valid(t)
    ensures Valid(Pruned(t, k, now).0)
    ensures Look(Pruned(t, k, now).0, k) == RetryAfter(Look(t, k), now).0
    ensures Pruned(t, k, now).1 == RetryAfter(Look(t, k), now).1
    ensures forall other :: other != k ==> Look(Pruned(t, k, now).0, other) == Look(t, other)
    ensures k !in Pruned(t, k, now).0.records ==> |Pruned(t, k, now).0.order| <= |t.order|
  {
    WithoutDistinct(t.order, k);
  }

  /** Dropping the oldest key of a table that is one too long. */
  lemma EvictedLooks(t: Table)
    requires |t.order| == MAX_ENTRIES + 1 && Distinct(t.order)
    requires forall k :: k in t.order <==> k in t.records
    ensures Valid(Evicted(t))
    ensures forall k :: Look(Evicted(t), k) == if k == t.order[0] then None else Look(t, k)
  {
    var cut := Table(t.order[1..], t.records - {t.order[0]});
    assert Evicted(t) == Evicted(cut) == cut;
    assert t.order == [t.order[0]] + t.order[1..];
  }

  lemma FailedLooks(t: Table, k: Key, now: real, maxFailures: nat)
    requires Valid(t)
    ensures Valid(Failed(t, k, now, maxFailures))
    ensures Look(Failed(t, k, now, maxFailures), k) == Some(Fail(Look(t, k), now, maxFailures))
    ensures forall other :: other != k ==>
      Look(Failed(t, k, now, maxFailures), other)
      == if |t.order| == MAX_ENTRIES && k !in t.records && t.order[0] == other then None else Look(t, other)
  {
    var f := Fail(Look(t, k), now, maxFailures);
    var grown := Moved(t, k, f);
    MovedLooks(t, k, f);
    if |grown.order| > MAX_ENTRIES {
      EvictedLooks(grown);
    }
  }

  lemma MovedLooks(t: Table, k: Key, f: Record)
    requires Valid(t)
    ensures var grown := Moved(t, k, f);
            && Distinct(grown.order) && (forall x :: x in grown.order <==> x in grown.records)
            && |grown.order| == (if k in t.records then |t.order| else |t.order| + 1)
            && (|grown.order| > MAX_ENTRIES ==> grown.order[0] == t.order[0])
  {
    WithoutDistinct(t.order, k);
    WithoutLength(t.order, k);
    if k !in t.records {
      WithoutAbsent(t.order, k);
    }
    assert forall x :: x in Moved(t, k, f).order <==> x in Without(t.order, k) || x == k;
  }

  lemma {:induction false} WithoutLength(ks: seq<Key>, k: Key)
    requires Distinct(ks)
    ensures |Without(ks, k)| == if k in ks then |ks| - 1 else |ks|
  {
    if ks != [] {
      WithoutLength(ks[1..], k);
      assert forall x :: x in ks[1..] ==> x != ks[0];
    }
  }

  lemma {:induction false} WithoutAbsent(ks: seq<Key>, k: Key)
    requires k !in ks
    ensures Without(ks, k) == ks
  {
    if ks != [] {
      WithoutAbsent(ks[1..], k);
    }
  }

  /** The table serves each key as if it were alone: an attempt follows `Try` on its own
      record and leaves every other record as it is, except for the one eviction that a
      new key causes in a full table. */
  lemma AttemptIsLocal(t: Table, k: Key, now: real, correct: bool, maxFailures: nat)
    requires Valid(t)
    ensures var (after, a, wait) := TryAt(t, k, now, correct, maxFailures);
            && Valid(after)
            && (Look(after, k), a) == Try(Look(t, k), now, correct, maxFailures)
            && forall other :: other != k ==>
                 || Look(after, other) == Look(t, other)
                 || (Look(after, other) == None && |t.order| == 10_000 && a == Wrong && t.order[0] == other)
  {
    PrunedLooks(t, k, now);
    var (before, wait) := Pruned(t, k, now);
    WithoutDistinct(before.order, k);
    if wait == 0 && !correct {
      FailedLooks(before, k, now, maxFailures);
      PrunedLooks(Failed(before, k, now, maxFailures), k, now);
      if k !in before.records && |before.order| == MAX_ENTRIES {
        PrunedAbsent(t, k, now);
      }
    }
  }

  /** A refused caller is told the whole seconds until the lock ends, rounded up, and one with
      a wrong password whether it is locked now. */
  lemma WaitIsTold(t: Table, k: Key, now: real, correct: bool, maxFailures: nat)
    requires Valid(t) && now >= 0.0
    ensures var (after, a, wait) := TryAt(t, k, now, correct, maxFailures);
            && (a == Refused ==>
                  && Look(t, k).Some? && wait >= 1
                  && (wait - 1) as real < Look(t, k).value.lockedUntil - now <= wait as real)
            && (a == Right ==> wait == 0)
            && (a == Wrong ==>
                  wait == if Look(after, k).Some? && Look(after, k).value.lockedUntil == now + 60.0 then 60 else 0)
  {
    hide Evicted, Moved;
    PrunedLooks(t, k, now);
    var (before, wait) := Pruned(t, k, now);
    if wait == 0 && !correct {
      FailedLooks(before, k, now, maxFailures);
      PrunedLooks(Failed(before, k, now, maxFailures), k, now);
      LockTold(Look(t, k), now, maxFailures);
    }
  }

  lemma LockTold(r: Option<Record>, now: real, maxFailures: nat)
    requires now >= 0.0 && RetryAfter(r, now).1 == 0
    ensures var (after, wait) := RetryAfter(Some(Fail(RetryAfter(r, now).0, now, maxFailures)), now);
            wait == if after.Some? && after.value.lockedUntil == now + 60.0 then 60 else 0
  {
  }

  lemma PrunedAbsent(t: Table, k: Key, now: real)
    requires Valid(t) && k !in Pruned(t, k, now).0.records && |Pruned(t, k, now).0.order| == MAX_ENTRIES
    ensures Pruned(t, k, now).0 == t
  {
  }

  // ----- runs -----

  datatype Op = Password(key: Key, now: real, correct: bool) | ChangePassword(now: real)

  function Step(t: Table, op: Op, maxFailures: nat): Table {
    match op
    case Password(k, now, correct) => TryAt(t, k, now, correct, maxFailures).0
    case ChangePassword(_) => EMPTY
  }

  /** Wrong passwords of key `k` that a run evaluates. */
  function Evaluations(t: Table, ops: seq<Op>, k: Key, maxFailures: nat): nat
    decreases |ops|
  {
    if ops == [] then 0
    else
      Evaluations(Step(t, ops[0], maxFailures), ops[1..], k, maxFailures)
      + if ops[0].Password? && ops[0].key == k
           && TryAt(t, k, ops[0].now, ops[0].correct, maxFailures).1 == Wrong then 1 else 0
  }

  /** The run stays in the half-open window of 60 seconds, at non-decreasing times, and
      keeps the key's record: no success of the key, no password change, no eviction. */
  ghost predicate Undisturbed(t: Table, ops: seq<Op>, k: Key, maxFailures: nat, from: real, start: real)
    decreases |ops|
  {
    ops != [] ==>
      && from <= ops[0].now < start + LOCKOUT
      && ops[0].Password?
      && (if ops[0].key == k
          then TryAt(t, k, ops[0].now, ops[0].correct, maxFailures).1 != Right
          else k in t.records ==> k in Step(t, ops[0], maxFailures).records)
      && Undisturbed(Step(t, ops[0], maxFailures), ops[1..], k, maxFailures, ops[0].now, start)
  }

  lemma RefusedAlike(r: Option<Record>, now: real, correct: bool, maxFailures: nat)
    ensures Try(r, now, correct, maxFailures).1 != Right ==>
              Try(r, now, correct, maxFailures) == Try(r, now, false, maxFailures)
  {
  }

  lemma {:induction false} CountedRun(
    t: Table, ops: seq<Op>, k: Key, maxFailures: nat, n: nat, from: real, start: real)
    requires Valid(t) && maxFailures >= 1 && 0.0 <= start <= from && n <= maxFailures
    requires Counted(Look(t, k), n, start, maxFailures)
    requires Undisturbed(t, ops, k, maxFailures, from, start)
    ensures n + Evaluations(t, ops, k, maxFailures) <= maxFailures
    decreases |ops|
  {
    if ops != [] {
      var op := ops[0];
      var next := Step(t, op, maxFailures);
      AttemptIsLocal(t, op.key, op.now, op.correct, maxFailures);
      if op.key == k {
        RefusedAlike(Look(t, k), op.now, op.correct, maxFailures);
        TryKeepsCounted(Look(t, k), n, start, op.now, maxFailures);
        var evaluated := TryAt(t, k, op.now, op.correct, maxFailures).1 == Wrong;
        CountedRun(next, ops[1..], k, maxFailures, if evaluated then n + 1 else n, op.now, start);
      } else {
        assert Look(next, k) == Look(t, k);
        CountedRun(next, ops[1..], k, maxFailures, n, op.now, start);
      }
    }
  }

  /** Rate bound of the whole service: however the attempts of other keys interleave, a
      key gets at most `maxFailures` wrong passwords evaluated in any half-open 60-second
      window free of a success, a password change and an eviction of that key. */
  lemma ServiceRateBound(t: Table, ops: seq<Op>, k: Key, maxFailures: nat, start: real)
    requires Valid(t) && maxFailures >= 1 && 0.0 <= start
    requires Lockout.Reachable(Look(t, k), start, maxFailures)
    requires Undisturbed(t, ops, k, maxFailures, start, start)
    ensures Evaluations(t, ops, k, maxFailures) <= maxFailures
  {
    CountedRun(t, ops, k, maxFailures, 0, start, start);
  }

  /** Every table the service can hold is valid and has only reachable records. */
  ghost predicate Sound(t: Table, now: real, maxFailures: nat) {
    Valid(t) && forall k :: k in t.records ==> Lockout.Reachable(Some(t.records[k]), now, maxFailures)
  }

  lemma SoundStep(t: Table, before: real, op: Op, maxFailures: nat)
    requires Sound(t, before, maxFailures) && 0.0 <= before <= op.now && maxFailures >= 1
    ensures Sound(Step(t, op, maxFailures), op.now, maxFailures)
  {
    if op.Password? {
      AttemptIsLocal(t, op.key, op.now, op.correct, maxFailures);
      var after := Step(t, op, maxFailures);
      forall k | k in after.records
        ensures Lockout.Reachable(Some(after.records[k]), op.now, maxFailures)
      {
        assert Look(after, k) == Some(after.records[k]);
        if k == op.key {
          assert Lockout.Reachable(Look(t, k), before, maxFailures);
          ReachableStep(Look(t, k), before, op.now, op.correct, maxFailures);
        } else {
          assert Look(after, k) == Look(t, k);
        }
      }
    }
  }

  function Run(t: Table, ops: seq<Op>, maxFailures: nat): Table
    decreases |ops|
  {
    if ops == [] then t else Run(Step(t, ops[0], maxFailures), ops[1..], maxFailures)
  }

  /** Times do not run backwards, from `from` up to `until`. */
  predicate Timed(from: real, ops: seq<Op>, until: real)
    decreases |ops|
  {
    if ops == [] then from <= until else from <= ops[0].now && Timed(ops[0].now, ops[1..], until)
  }

  lemma SoundLater(t: Table, before: real, now: real, maxFailures: nat)
    requires Sound(t, before, maxFailures) && before <= now
    ensures Sound(t, now, maxFailures)
  {
    hide Valid;
  }

  lemma {:induction false} SoundRun(t: Table, from: real, ops: seq<Op>, until: real, maxFailures: nat)
    requires Sound(t, from, maxFailures) && 0.0 <= from && Timed(from, ops, until) && maxFailures >= 1
    ensures Sound(Run(t, ops, maxFailures), until, maxFailures)
    decreases |ops|
  {
    hide Sound, Step;
    if ops == [] {
      SoundLater(t, from, until, maxFailures);
    } else {
      SoundStep(t, from, ops[0], maxFailures);
      SoundRun(Step(t, ops[0], maxFailures), ops[0].now, ops[1..], until, maxFailures);
    }
  }

  /** The rate bound of a service from its start: after any history of attempts and
      password changes, any later window free of a success, a password change and an
      eviction of the key evaluates at most `maxFailures` wrong passwords of it. */
  lemma RateBoundFromStart(history: seq<Op>, ops: seq<Op>, k: Key, maxFailures: nat, start: real)
    requires Timed(0.0, history, start) && maxFailures >= 1
    requires Undisturbed(Run(EMPTY, history, maxFailures), ops, k, maxFailures, start, start)
    ensures Evaluations(Run(EMPTY, history, maxFailures), ops, k, maxFailures) <= maxFailures
    ensures Sound(Run(EMPTY, history, maxFailures), start, maxFailures)
  {
    hide Undisturbed, Evaluations;
    SoundRun(EMPTY, 0.0, history, start, maxFailures);
    TimedForward(0.0, history, start);
    ServiceRateBound(Run(EMPTY, history, maxFailures), ops, k, maxFailures, start);
  }

  lemma {:induction false} TimedForward(from: real, ops: seq<Op>, until: real)
    requires Timed(from, ops, until)
    ensures from <= until
    decreases |ops|
  {
    if ops != [] {
      TimedForward(ops[0].now, ops[1..], until);
    }
  }
}
