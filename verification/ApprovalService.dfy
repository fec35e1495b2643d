/** The step-up service itself: password attempts feed the lockout table, tokens are
    consumed against the replay memory, and rotation clears what it may clear. */
module ApprovalService {
  import opened Clocks
  import opened Wrappers
  import T = ApprovalTokens
  import L = Lockout
  import opened LockoutTable

  datatype ApprovalError = ApprovalError(code: nat, retryAfter: nat)

  function Clip(s: string, n: nat): string {
    if |s| <= n then s else s[..n]
  }

  function FailureKey(actor: string, ip: string): Key {
    Key(Clip(actor, 256), Clip(if ip == "" then "unknown" else ip, 128))
  }

  /** The answer to one attempt, once its audit record is written. */
  function Answer(a: L.Attempt, wait: nat, token: T.Token, audit: bool): Result<T.Token, ApprovalError> {
    if !audit then Err(ApprovalError(503, 0))
    else match a
      case Refused => Err(ApprovalError(429, wait))
      case Wrong => Err(if wait > 0 then ApprovalError(429, wait) else ApprovalError(403, 0))
      case Right => Ok(token)
  }

  class HighRiskApprovalService {
    const ttl: nat
    const maxFailures: nat
    /** `verify_password`, which answers false for a malformed hash. */
    const verify: (string, string) -> bool
    var passwordHash: string
    var epoch: nat
    var consumed: seq<T.Used>
    var order: seq<Key>
    var records: map<Key, L.Record>

    function Tokens(): T.State
      reads this
    {
      T.State(epoch, consumed)
    }

    function Failures(): Table
      reads this
    {
      Table(order, records)
    }

    constructor (hash: string, ttlSeconds: int, failures: int, verify: (string, string) -> bool)
      requires hash != ""
      ensures Tokens() == T.State(0, []) && Failures() == EMPTY && passwordHash == hash
      ensures ttl >= 1 && maxFailures >= 1 && this.verify == verify
    {
      passwordHash := hash;
      ttl := if ttlSeconds < 1 then 1 else ttlSeconds;
      maxFailures := if failures < 1 then 1 else failures;
      this.verify := verify;
      epoch, consumed, order, records := 0, [], [], map[];
    }

    method InvalidateTokens()
      modifies this`epoch, this`consumed
      ensures Tokens() == T.Rotate(old(Tokens()))
    {
      epoch := epoch + 1;
      consumed := [];
    }

    /** A new password forgets every failure and every outstanding token. */
    method UpdatePasswordHash(hash: string) returns (ok: bool)
      modifies this
      ensures ok == (hash != "")
      ensures ok ==> passwordHash == hash && Failures() == EMPTY && Tokens() == T.Rotate(old(Tokens()))
      ensures !ok ==> unchanged(this)
    {
      if hash == "" {
        return false;
      }
      passwordHash := hash;
      order, records := [], map[];
      InvalidateTokens();
      ok := true;
    }

    method PruneFailures(k: Key, now: real)
      requires k in records
      modifies this`records
      ensures records == old(records)[k := L.Prune(old(records[k]), now)]
    {
      var cutoff, state := now - L.WINDOW, records[k];
      while state.failures != [] && state.failures[0] <= cutoff
        invariant state.lockedUntil == records[k].lockedUntil
        invariant L.PopOld(state.failures, cutoff) == L.PopOld(records[k].failures, cutoff)
        decreases |state.failures|
      {
        state := state.(failures := state.failures[1..]);
      }
      if state.lockedUntil != 0.0 && state.lockedUntil <= now {
        state := L.Record([], 0.0);
      }
      records := records[k := state];
    }

    method RetryAfter(k: Key, now: real) returns (wait: nat)
      modifies this`order, this`records
      ensures (Failures(), wait) == Pruned(old(Failures()), k, now)
    {
      if k !in records {
        return 0;
      }
      PruneFailures(k, now);
      if records[k].lockedUntil <= now {
        if records[k].failures == [] {
          order, records := Without(order, k), records - {k};
          assert records == old(records) - {k};
        }
        return 0;
      }
      wait := L.AtLeastOne(L.Ceiling(records[k].lockedUntil - now));
    }

    method RecordFailure(k: Key, now: real) returns (wait: nat)
      modifies this`order, this`records
      ensures (Failures(), wait) == Pruned(Failed(old(Failures()), k, now, maxFailures), k, now)
    {
      if k !in records {
        records := records[k := L.Record([], 0.0)];
      } else {
        PruneFailures(k, now);
      }
      var failures := records[k].failures + [now];
      records := records[k := L.Record(failures,
        if |failures| >= maxFailures then now + L.LOCKOUT else records[k].lockedUntil)];
      order := Without(order, k) + [k];
      assert Failures() == Moved(old(Failures()), k, L.Fail(Look(old(Failures()), k), now, maxFailures));
      while |order| > L.MAX_ENTRIES
        invariant Evicted(Failures()) == Failed(old(Failures()), k, now, maxFailures)
        decreases |order|
      {
        order, records := order[1..], records - {order[0]};
      }
      wait := RetryAfter(k, now);
    }

    method Issue(c: T.Claim, knownTarget: bool, password: string, ip: string, now: real, jti: string, audit: bool)
      returns (r: Result<T.Token, ApprovalError>)
      modifies this`order, this`records
      ensures (c.intent.Some? && !T.ValidIntent(c.intent.value)) || !knownTarget ==>
                r.Err? && Failures() == old(Failures())
      ensures (c.intent.None? || T.ValidIntent(c.intent.value)) && knownTarget ==>
                var (after, a, wait) := TryAt(old(Failures()), FailureKey(c.actor, ip), now,
                                              verify(password, passwordHash), maxFailures);
                && Failures() == after
                && r == Answer(a, wait, T.Issue(Tokens(), c, jti, ttl, Seconds(now)), audit)
    {
      if (c.intent.Some? && !T.ValidIntent(c.intent.value)) || !knownTarget {
        return Err(if audit then ApprovalError(422, 0) else ApprovalError(503, 0));
      }
      var key := FailureKey(c.actor, ip);
      var wait := RetryAfter(key, now);
      if wait > 0 {
        return Err(if audit then ApprovalError(429, wait) else ApprovalError(503, 0));
      }
      if !verify(password, passwordHash) {
        wait := RecordFailure(key, now);
        return Err(if !audit then ApprovalError(503, 0)
                   else if wait > 0 then ApprovalError(429, wait) else ApprovalError(403, 0));
      }
      order, records := Without(order, key), records - {key};
      if !audit {
        return Err(ApprovalError(503, 0));
      }
      r := Ok(T.Issue(Tokens(), c, jti, ttl, Seconds(now)));
    }

    static method KeepAlive(us: seq<T.Used>, now: int) returns (kept: seq<T.Used>)
      ensures kept == T.Alive(us, now)
    {
      hide T.Alive;
      kept := [];
      for i := 0 to |us|
        invariant kept + T.Alive(us[i..], now) == T.Alive(us, now)
      {
        assert us[i..][1..] == us[i + 1..];
        AliveStep(kept, us[i..], now);
        kept := if us[i].exp > now then kept + [us[i]] else kept;
      }
      AliveStep(kept, us[|us|..], now);
    }

    method PruneConsumed(now: int)
      modifies this`consumed
      ensures consumed == T.Prune(old(consumed), now)
    {
      hide T.Alive;
      consumed := KeepAlive(consumed, now);
      while |consumed| > T.MAX_ENTRIES
        invariant T.Newest(consumed) == T.Prune(old(consumed), now)
      {
        consumed := consumed[1..];
      }
    }

    method Consume(token: T.Token, c: T.Claim, now: int, audit: bool) returns (v: T.Verdict)
      modifies this`consumed
      ensures (Tokens(), v) == T.Consume(old(Tokens()), token, c, now, audit)
    {
      if !T.Fits(epoch, token, c, now) {
        return if audit then T.Denied else T.AuditFailed;
      }
      PruneConsumed(now);
      if T.Replayed(consumed, token.payload.jti) {
        return if audit then T.Denied else T.AuditFailed;
      }
      consumed := consumed + [T.Used(token.payload.jti, token.payload.exp)];
      PruneConsumed(now);
      v := if audit then T.Accepted else T.AuditFailed;
    }
  }

  /** One turn of the loop that keeps the unexpired entries. */
  lemma AliveStep(kept: seq<T.Used>, us: seq<T.Used>, now: int)
    ensures us == [] ==> kept + T.Alive(us, now) == kept
    ensures us != [] ==> kept + T.Alive(us, now)
                         == (if us[0].exp > now then kept + [us[0]] else kept) + T.Alive(us[1..], now)
  {
    if us != [] {
      assert kept + ([us[0]] + T.Alive(us[1..], now)) == kept + [us[0]] + T.Alive(us[1..], now);
    }
  }
}
