/** The bridge service: the loops and the rollback of the privilege apply. */
module OmvSharingService {
  import opened Privileges
  import opened OmvSharing
  import opened Texts
  import opened Wrappers

  class OmvSharingControl {
    var env: Env

    constructor (env: Env)
      ensures this.env == env
    {
      this.env := env;
    }

    method Runner(c: Call) returns (ok: bool)
      modifies this
      ensures (env, ok) == Rpc(old(env), c)
    {
      var (next, answered) := Rpc(env, c);
      env, ok := next, answered;
    }

    /** Check each row and reject repeated principals, then sort. */
    method PrivilegeInventory(uuid: string) returns (r: Option<seq<Entry>>)
      modifies this
      ensures (env, r) == Inventory(old(env), uuid)
    {
      var ok := Runner(GetFolders);
      if !ok || !Enumerated(env.omv.Folders(), uuid) {
        return None;
      }
      ok := Runner(GetPrivileges(uuid));
      if !ok || uuid !in env.omv.privileges || |env.omv.privileges[uuid]| > MAX_PRIVILEGES {
        return None;
      }
      r := Checked(env.omv.privileges[uuid]);
    }

    static method Checked(payload: seq<Entry>) returns (r: Option<seq<Entry>>)
      requires |payload| <= MAX_PRIVILEGES
      ensures r == Normalized(Some(payload))
    {
      hide ValidEntry, SortBy;
      var result: seq<Entry>, identities: set<Principal> := [], {};
      for i := 0 to |payload|
        invariant result == payload[..i]
        invariant identities == set k | 0 <= k < i :: payload[k].who
        invariant forall k :: 0 <= k < i ==> ValidEntry(payload[k])
        invariant forall j, k :: 0 <= j < k < i ==> payload[j].who != payload[k].who
      {
        var item := payload[i];
        assert item == payload[i];
        if !ValidEntry(item) {
          return None;
        }
        if item.who in identities {
          var k :| 0 <= k < i && payload[k].who == item.who;
          assert Names(payload, EntryKey)[k] == Names(payload, EntryKey)[i];
          return None;
        }
        identities := identities + {item.who};
        result := result + [item];
      }
      assert result == payload;
      assert forall k :: 0 <= k < |payload| ==> Names(payload, EntryKey)[k] == payload[k].who;
      r := Some(SortBy(result, EntryKey));
    }

    method AssertPrivilegeModulesClean() returns (r: Option<Failure>)
      modifies this
      ensures (env, r) == AssertClean(old(env), MODULES)
    {
      var i := 0;
      while i < |MODULES|
        invariant 0 <= i <= |MODULES|
        invariant AssertClean(env, MODULES[i..]) == AssertClean(old(env), MODULES)
      {
        assert MODULES[i..][1..] == MODULES[i + 1..];
        var ok := Runner(IsDirty(MODULES[i]));
        if !ok {
          return Some(Broken);
        }
        if MODULES[i] in env.omv.dirty {
          return Some(Conflict);
        }
        i := i + 1;
      }
      r := None;
    }

    method ApplyPrivilegeModules() returns (r: Option<seq<Module>>)
      modifies this
      ensures (env, r) == Deploy(old(env), MODULES)
    {
      var i, deployed := 0, [];
      assert MODULES[0..] == MODULES;
      PrefixedNone(Deploy(env, MODULES));
      while i < |MODULES|
        invariant 0 <= i <= |MODULES|
        invariant Deploy(old(env), MODULES) == Prefixed(deployed, Deploy(env, MODULES[i..]))
      {
        assert MODULES[i..][1..] == MODULES[i + 1..];
        var ok := Runner(IsDirty(MODULES[i]));
        if !ok {
          return None;
        }
        if MODULES[i] in env.omv.dirty {
          ok := Runner(ApplyChanges(MODULES[i]));
          if !ok {
            return None;
          }
          PrefixedTwice(deployed, [MODULES[i]], Deploy(env, MODULES[i + 1..]));
          deployed := deployed + [MODULES[i]];
        }
        i := i + 1;
      }
      assert deployed + [] == deployed;
      r := Some(deployed);
    }

    method SharePrivilegeContext(d: Desired) returns (r: Result<Context, Failure>)
      modifies this
      ensures (env, r) == ContextOf(old(env), d)
    {
      var ok := Runner(GetFolders);
      if !ok {
        return Err(Broken);
      }
      var folder := FindFolder(env.omv.Folders(), d.folder);
      if folder.None? {
        return Err(Invalid);
      }
      if !Online(folder.value) {
        return Err(Conflict);
      }
      var inventory := PrivilegeInventory(d.folder);
      if inventory.None? {
        return Err(Broken);
      }
      var matching := Matching(inventory.value, d.who);
      if |matching| != 1 {
        return Err(Invalid);
      }
      r := Ok(Context(folder.value, inventory.value, matching[0]));
    }

    method PlanSharePrivilege(raw: Desired) returns (r: Result<Plan, Failure>)
      modifies this
      ensures Validated(raw).None? ==> r == Err(Invalid) && env == old(env)
      ensures Validated(raw).Some? ==> (env, r) == PlanOf(old(env), Validated(raw).value)
    {
      var validated := Validated(raw);
      if validated.None? {
        return Err(Invalid);
      }
      var unclean := AssertPrivilegeModulesClean();
      if unclean.Some? {
        return Err(unclean.value);
      }
      var c := SharePrivilegeContext(validated.value);
      r := if c.Err? then Err(c.error) else Ok(PlanFor(c.value, validated.value));
    }

    /** Set, deploy, read back and compare. */
    method SetAndVerify(uuid: string, ss: seq<Setting>) returns (r: Option<seq<Module>>)
      modifies this
      ensures (env, r) == Install(old(env), uuid, ss)
    {
      var ok := Runner(SetPrivileges(uuid, ss));
      if !ok {
        return None;
      }
      var deployed := ApplyPrivilegeModules();
      if deployed.None? {
        return None;
      }
      var observed := PrivilegeInventory(uuid);
      r := if observed.Some? && Configured(observed.value) == ss then deployed else None;
    }

    method ApplySharePrivilege(raw: Desired, approved: PlanId) returns (r: Result<Outcome, Failure>)
      modifies this
      ensures Validated(raw).None? ==> r == Err(Invalid) && env == old(env)
      ensures Validated(raw).Some? ==> (env, r) == Apply(old(env), Validated(raw).value, approved)
    {
      var validated := Validated(raw);
      if validated.None? {
        return Err(Invalid);
      }
      var d := validated.value;
      ValidatedAgain(raw);
      var plan := PlanSharePrivilege(d);
      if plan.Err? {
        return Err(plan.error);
      }
      if plan.value.id != approved {
        return Err(Conflict);
      }
      if !plan.value.Changes() {
        return Ok(Outcome(plan.value, false, []));
      }
      var c := SharePrivilegeContext(d);
      if c.Err? {
        return Err(c.error);
      }
      var original := Configured(c.value.inventory);
      if Revision(c.value.folder, original) != plan.value.id.base {
        return Err(Conflict);
      }
      var unclean := AssertPrivilegeModulesClean();
      if unclean.Some? {
        return Err(unclean.value);
      }
      var deployed := SetAndVerify(d.folder, Wanted(original, d.who, Perms(d.permission)));
      if deployed.Some? {
        return Ok(Outcome(plan.value, true, deployed.value));
      }
      var restored := SetAndVerify(d.folder, original);
      r := Err(if restored.Some? then Broken else RollbackFailed);
    }
  }

  function Prefixed(done: seq<Module>, r: (Env, Option<seq<Module>>)): (Env, Option<seq<Module>>) {
    (r.0, if r.1.None? then None else Some(done + r.1.value))
  }

  lemma PrefixedNone(r: (Env, Option<seq<Module>>))
    ensures Prefixed([], r) == r
  {
    assert r.1.Some? ==> [] + r.1.value == r.1.value;
  }

  lemma PrefixedTwice(a: seq<Module>, b: seq<Module>, r: (Env, Option<seq<Module>>))
    ensures Prefixed(a, Prefixed(b, r)) == Prefixed(a + b, r)
  {
    if r.1.Some? {
      assert a + (b + r.1.value) == a + b + r.1.value;
    }
  }

  /** Validating a validated request changes nothing. */
  lemma ValidatedAgain(raw: Desired)
    requires Validated(raw).Some?
    ensures Validated(Validated(raw).value) == Validated(raw)
  {
    LowerUuid(raw.folder);
  }
}
