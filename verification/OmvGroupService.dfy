/** The bridge service for groups. */
module OmvGroupService {
  import opened OmvCalls
  import opened OmvGroup
  import opened Privileges
  import opened Texts
  import opened Wrappers

  class OmvAccountControl {
    var env: GroupEnv

    constructor (env: GroupEnv)
      ensures this.env == env
    {
      this.env := env;
    }

    method Runner(c: Call) returns (ok: bool)
      modifies this
      ensures (env, ok) == Rpc(old(env), c)
    {
      var (next, answered) := Rpc(env, c);
      env, ok := next, answered;
    }

    static method NormalGroups(payload: seq<Row>) returns (r: seq<Listed>)
      ensures r == Listing(payload)
    {
      hide SafeText;
      var rows := if |payload| <= MAX_LISTED then payload else payload[..MAX_LISTED];
      var groups: seq<Listed> := [];
      for i := 0 to |rows|
        invariant groups + Rows(rows[i..]) == Rows(rows)
      {
        assert rows[i..][1..] == rows[i + 1..] && rows[i..][0] == rows[i];
        RowsStep(rows[i..], groups);
        if Shown(rows[i]) {
          groups := groups + [Listed(SafeText(rows[i].name, 255), rows[i].gid.value, rows[i].members.value)];
        }
      }
      assert groups == Rows(rows);
      r := SortBy(groups, ListedKey);
    }

    method PlanGroup(d: Desired) returns (r: Result<PlanId, Failure>)
      modifies this
      ensures (env, r) == PlanOf(old(env), d)
    {
      var ok := Runner(GetGroups);
      if !ok {
        return Err(Broken);
      }
      var groups := NormalGroups(env.omv.groups);
      if HasName(groups, d.name) {
        return Err(Conflict);
      }
      ok := Runner(GetUsers);
      r := if ok then Ok(PlanId(groups, env.omv.users, d)) else Err(Broken);
    }

    method ApplyGroup(d: Desired, approved: PlanId) returns (r: Result<PlanId, Failure>)
      modifies this
      ensures (env, r) == Apply(old(env), d, approved)
    {
      var plan := PlanGroup(d);
      if plan.Err? || plan.value != approved {
        return if plan.Err? then plan else Err(Conflict);
      }
      var ok := Runner(SetGroup(d.name, d.comment));
      if ok {
        ok := Runner(GetGroup(d.name));
        if ok && Created(env.omv, d) {
          return plan;
        }
      }
      ok := Runner(DeleteGroup(d.name));
      if ok {
        ok := Runner(GetGroups);
        if ok {
          var groups := NormalGroups(env.omv.groups);
          if !HasName(groups, d.name) {
            return Err(Broken);
          }
        }
      }
      r := Err(RollbackFailed);
    }
  }

  lemma RowsStep(rows: seq<Row>, done: seq<Listed>)
    requires rows != []
    ensures done + Rows(rows)
            == (if Shown(rows[0])
                then done + [Listed(SafeText(rows[0].name, 255), rows[0].gid.value, rows[0].members.value)] else done)
               + Rows(rows[1..])
  {
    hide SafeText;
    if Shown(rows[0]) {
      var first := Listed(SafeText(rows[0].name, 255), rows[0].gid.value, rows[0].members.value);
      assert done + ([first] + Rows(rows[1..])) == done + [first] + Rows(rows[1..]);
    }
  }
}
