/** The bridge service for quotas. */
module OmvQuotaService {
  import opened OmvCalls
  import opened OmvQuota
  import opened Privileges
  import opened Texts
  import opened Wrappers

  class OmvQuotaControl {
    var env: QuotaEnv

    constructor (env: QuotaEnv)
      ensures this.env == env
    {
      this.env := env;
    }

    method Runner(c: Call) returns (ok: bool)
      modifies this
      ensures (env, ok) == Rpc(old(env), c)
    {
      var (next, answered) := Rpc(env, c);
      env, ok := next, answered;
    }

    static method MatchingRows(rows: seq<Row>, who: Principal) returns (r: Option<seq<Subject>>)
      ensures r == Matching(rows, who)
    {
      var matching: seq<Subject>, i := [], 0;
      JoinedNone(Matching(rows, who));
      assert rows[0..] == rows;
      while i < |rows|
        invariant 0 <= i <= |rows|
        invariant Matching(rows, who) == Joined(matching, Matching(rows[i..], who))
      {
        assert rows[i..][1..] == rows[i + 1..];
        if rows[i].who == who {
          var s := SubjectOf(rows[i]);
          if s.None? {
            return None;
          }
          JoinedNext(matching, s.value, Matching(rows[i + 1..], who));
          matching := matching + [s.value];
        }
        i := i + 1;
      }
      assert matching + [] == matching;
      r := Some(matching);
    }

    method QuotaContext(d: Desired) returns (r: Result<Context, Failure>)
      modifies this
      ensures (env, r) == ContextOf(old(env), d)
    {
      var ok := Runner(IsDirty);
      if !ok {
        return Err(Broken);
      }
      if env.omv.dirty {
        return Err(Conflict);
      }
      ok := Runner(GetMounts);
      if !ok {
        return Err(Broken);
      }
      var mount := FindMount(env.omv.mounts, d.filesystem);
      if mount.None? {
        return Err(Invalid);
      }
      if mount.value.readOnly || !mount.value.supportsQuota {
        return Err(Conflict);
      }
      ok := Runner(GetQuota(d.filesystem));
      if !ok || d.filesystem !in env.omv.quotas || |env.omv.quotas[d.filesystem]| > MAX_ROWS {
        return Err(Broken);
      }
      var matching := MatchingRows(env.omv.quotas[d.filesystem], d.who);
      if matching.None? {
        return Err(Broken);
      }
      if |matching.value| != 1 {
        return Err(Invalid);
      }
      r := Ok(Context(mount.value, matching.value[0]));
    }

    /** Set, apply, read back and compare. */
    method SetAndVerify(d: Desired, limit: int) returns (done: bool)
      modifies this
      ensures (env, done) == Install(old(env), d, limit)
    {
      done := Runner(SetQuota(d.filesystem, d.who, limit / 1024));
      if !done {
        return;
      }
      done := Runner(ApplyChanges);
      if !done {
        return;
      }
      var observed := QuotaContext(d);
      done := observed.Ok? && observed.value.subject.limit == limit;
    }

    method ApplyFilesystemQuota(raw: Desired, approved: PlanId) returns (r: Result<Outcome, Failure>)
      modifies this
      ensures Validated(raw).None? ==> r == Err(Invalid) && env == old(env)
      ensures Validated(raw).Some? ==> (env, r) == Apply(old(env), Validated(raw).value, approved)
    {
      var validated := Validated(raw);
      if validated.None? {
        return Err(Invalid);
      }
      var d := validated.value;
      var c := QuotaContext(d);
      if c.Err? {
        return Err(c.error);
      }
      if PlanId(c.value.mount, c.value.subject, d) != approved {
        return Err(Conflict);
      }
      if approved.subject.limit == d.limit {
        return Ok(Outcome(approved, false));
      }
      var done := SetAndVerify(d, d.limit);
      if done {
        return Ok(Outcome(approved, true));
      }
      var undone := SetAndVerify(d, approved.subject.limit);
      r := Err(if undone then Broken else RollbackFailed);
    }
  }

  function Joined(done: seq<Subject>, rest: Option<seq<Subject>>): Option<seq<Subject>> {
    if rest.None? then None else Some(done + rest.value)
  }

  lemma JoinedNone(rest: Option<seq<Subject>>)
    ensures Joined([], rest) == rest
  {
    assert rest.Some? ==> [] + rest.value == rest.value;
  }

  lemma JoinedNext(done: seq<Subject>, s: Subject, rest: Option<seq<Subject>>)
    ensures Joined(done, Joined([s], rest)) == Joined(done + [s], rest)
  {
    if rest.Some? {
      assert done + ([s] + rest.value) == done + [s] + rest.value;
    }
  }
}
