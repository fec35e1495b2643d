/** The privilege apply is a transaction. */
module OmvSharingProofs {
  import opened Privileges
  import opened OmvSharing
  import opened Wrappers

  /** The host grants a principal this permission on the folder. */
  predicate Grants(o: Omv, uuid: string, s: Setting) {
    uuid in o.privileges && Lists(o.privileges[uuid], s)
  }

  ghost predicate GrantsExactly(o: Omv, uuid: string, ss: seq<Setting>) {
    forall s :: Grants(o, uuid, s) <==> s in ss
  }

  predicate Reading(c: Call) {
    !c.SetPrivileges? && !c.ApplyChanges?
  }

  predicate NotSetting(c: Call) {
    !c.SetPrivileges?
  }

  /** The calls sent between two points of a run. */
  ghost predicate SentOnly(e: Env, e': Env, p: Call -> bool) {
    e.sent <= e'.sent && forall i :: |e.sent| <= i < |e'.sent| ==> p(e'.sent[i])
  }

  lemma SentTrans(a: Env, b: Env, c: Env, p: Call -> bool)
    requires SentOnly(a, b, p) && SentOnly(b, c, p)
    ensures SentOnly(a, c, p)
  {
  }

  lemma SortedEntry(es: seq<Entry>, s: Setting)
    ensures Lists(SortBy(es, EntryKey), s) <==> Lists(es, s)
  {
    SameMembers(SortBy(es, EntryKey), es);
    var sorted := SortBy(es, EntryKey);
    if Lists(es, s) {
      var i :| 0 <= i < |es| && es[i].who == s.who && es[i].perms == Some(s.perms);
      assert es[i] in sorted;
    }
    if Lists(sorted, s) {
      var i :| 0 <= i < |sorted| && sorted[i].who == s.who && sorted[i].perms == Some(s.perms);
      assert sorted[i] in es;
    }
  }

  /** An inventory that was read is valid and in order, and says what the host grants. */
  lemma InventoryRead(e: Env, uuid: string)
    requires Inventory(e, uuid).1.Some?
    ensures var (e', es) := Inventory(e, uuid);
            && ValidInventory(es.value) && GrantsExactly(e'.omv, uuid, Configured(es.value))
  {
    var payload := Listing(e, uuid).1.value;
    assert forall i :: 0 <= i < |payload| ==> Names(payload, EntryKey)[i] == EntryKey(payload[i]);
    SortAscending(payload, EntryKey);
    SameMembers(SortBy(payload, EntryKey), payload);
    forall s ensures Lists(SortBy(payload, EntryKey), s) <==> Lists(payload, s) {
      SortedEntry(payload, s);
    }
  }

  /** A completed installation was read back. */
  lemma InstalledIsRead(e: Env, uuid: string, ss: seq<Setting>)
    requires Install(e, uuid, ss).1.Some?
    ensures GrantsExactly(Install(e, uuid, ss).0.omv, uuid, ss)
  {
    var (e1, _) := Rpc(e, SetPrivileges(uuid, ss));
    var (e2, _) := Deploy(e1, MODULES);
    InventoryRead(e2, uuid);
  }

  // ----- which calls are sent -----

  lemma {:induction false} AssertCleanSends(e: Env, ms: seq<Module>)
    ensures SentOnly(e, AssertClean(e, ms).0, Reading)
    decreases |ms|
  {
    if ms != [] {
      var (e1, ok) := Rpc(e, IsDirty(ms[0]));
      AssertCleanSends(e1, ms[1..]);
    }
  }

  lemma {:induction false} DeploySends(e: Env, ms: seq<Module>)
    ensures SentOnly(e, Deploy(e, ms).0, NotSetting)
    decreases |ms|
  {
    if ms != [] {
      var (e1, ok) := Rpc(e, IsDirty(ms[0]));
      DeploySends(e1, ms[1..]);
      DeploySends(Rpc(e1, ApplyChanges(ms[0])).0, ms[1..]);
    }
  }

  lemma InventorySends(e: Env, uuid: string)
    ensures SentOnly(e, Inventory(e, uuid).0, Reading)
  {
    var (e1, ok) := Rpc(e, GetFolders);
    assert SentOnly(e, e1, Reading);
    var (e2, answered) := Rpc(e1, GetPrivileges(uuid));
    assert SentOnly(e1, e2, Reading);
    SentTrans(e, e1, e2, Reading);
    assert Inventory(e, uuid).0 in {e1, e2};
  }

  lemma ContextSends(e: Env, d: Desired)
    ensures SentOnly(e, ContextOf(e, d).0, Reading)
  {
    var (e1, _) := Rpc(e, GetFolders);
    InventorySends(e1, d.folder);
    SentTrans(e, e1, Inventory(e1, d.folder).0, Reading);
  }

  lemma PlanSends(e: Env, d: Desired)
    ensures SentOnly(e, PlanOf(e, d).0, Reading)
  {
    var (e1, _) := AssertClean(e, MODULES);
    AssertCleanSends(e, MODULES);
    ContextSends(e1, d);
    SentTrans(e, e1, ContextOf(e1, d).0, Reading);
  }

  lemma RecheckSends(e: Env, plan: Plan)
    ensures SentOnly(e, Recheck(e, plan).0, Reading)
  {
    var (e1, _) := ContextOf(e, plan.id.desired);
    ContextSends(e, plan.id.desired);
    AssertCleanSends(e1, MODULES);
    SentTrans(e, e1, AssertClean(e1, MODULES).0, Reading);
  }

  lemma SetSends(e: Env, uuid: string, ss: seq<Setting>)
    requires RunnerAccepts(ss)
    ensures SentOnly(e, Rpc(e, SetPrivileges(uuid, ss)).0, Allowed)
  {
    hide RunnerAccepts, Effect;
  }

  lemma InstallSends(e: Env, uuid: string, ss: seq<Setting>)
    requires RunnerAccepts(ss)
    ensures SentOnly(e, Install(e, uuid, ss).0, Allowed)
  {
    hide Inventory, Deploy, Configured, RunnerAccepts;
    var (e1, _) := Rpc(e, SetPrivileges(uuid, ss));
    var (e2, _) := Deploy(e1, MODULES);
    DeploySends(e1, MODULES);
    SetSends(e, uuid, ss);
    assert SentOnly(e1, e2, Allowed);
    SentTrans(e, e1, e2, Allowed);
    InventorySends(e2, uuid);
    assert SentOnly(e2, Inventory(e2, uuid).0, Allowed);
    SentTrans(e, e2, Inventory(e2, uuid).0, Allowed);
  }

  // ----- the transaction -----

  /** The change that the apply is about to make, once its checks have passed. */
  lemma ContextRead(e: Env, d: Desired)
    requires ContextOf(e, d).1.Ok?
    ensures var c := ContextOf(e, d).1.value;
            && ValidInventory(c.inventory) && c.principal in c.inventory && c.principal.who == d.who
            && d.who in Names(c.inventory, EntryKey)
  {
    var (e1, _) := Rpc(e, GetFolders);
    InventoryRead(e1, d.folder);
    var c := ContextOf(e, d).1.value;
    assert c.principal in Matching(c.inventory, d.who);
    var i :| 0 <= i < |c.inventory| && c.inventory[i] == c.principal;
    assert Names(c.inventory, EntryKey)[i] == d.who;
  }

  lemma ReplaceOutcome(e: Env, uuid: string, original: seq<Setting>, wanted: seq<Setting>)
    ensures var (e', r) := Replace(e, uuid, original, wanted);
            && (r.Ok? ==> GrantsExactly(e'.omv, uuid, wanted))
            && (r == Err(Broken) ==> GrantsExactly(e'.omv, uuid, original))
            && (r.Err? ==> r.error in {Broken, RollbackFailed})
  {
    var (e1, deployed) := Install(e, uuid, wanted);
    if deployed.Some? {
      InstalledIsRead(e, uuid, wanted);
    } else if Install(e1, uuid, original).1.Some? {
      InstalledIsRead(e1, uuid, original);
    }
  }

  /** Whatever the host does: a verified success grants the principal exactly the wanted
      permission and everybody else what the approved plan was based on; an error that
      does not report a failed rollback either sent nothing that changes the host or
      leaves exactly what the approved plan was based on. */
  lemma ApplyIsTransactional(e: Env, d: Desired, approved: PlanId)
    ensures var (e', r) := Apply(e, d, approved);
            && (r.Ok? && r.value.applied ==>
                  forall s :: Grants(e'.omv, d.folder, s) <==>
                    if s.who == d.who then Perms(d.permission) == Some(s.perms) else s in approved.base.configured)
            && ((r.Ok? && !r.value.applied) || r == Err(Invalid) || r == Err(Conflict) ==>
                  SentOnly(e, e', Reading))
            && (r == Err(Broken) ==>
                  || SentOnly(e, e', Reading)
                  || GrantsExactly(e'.omv, d.folder, approved.base.configured))
  {
    var (e1, plan) := PlanOf(e, d);
    PlanSends(e, d);
    if plan.Ok? && plan.value.id == approved && plan.value.Changes() {
      var (e2, c) := Recheck(e1, plan.value);
      RecheckSends(e1, plan.value);
      SentTrans(e, e1, e2, Reading);
      if c.Ok? {
        var original := Configured(c.value.inventory);
        var wanted := Wanted(original, d.who, Perms(d.permission));
        ReplaceOutcome(e2, d.folder, original, wanted);
        WantedMeaning(original, d.who, Perms(d.permission));
      }
    }
  }

  /** Nothing is sent that changes the host unless a fresh plan equals the approved one. */
  lemma OnlyApprovedPlansMutate(e: Env, d: Desired, approved: PlanId)
    ensures var (e', r) := Apply(e, d, approved);
            SentOnly(e, e', Reading) || (PlanOf(e, d).1.Ok? && PlanOf(e, d).1.value.id == approved)
    ensures approved.desired != d ==> Apply(e, d, approved).1.Err?
  {
    PlanSends(e, d);
  }

  /** What a successful recheck read is the context. */
  lemma RecheckContext(e: Env, plan: Plan)
    requires Recheck(e, plan).1.Ok?
    ensures Recheck(e, plan).1 == ContextOf(e, plan.id.desired).1
  {
    hide ContextOf, AssertClean, Configured;
  }

  lemma PlanDesired(e: Env, d: Desired)
    requires PlanOf(e, d).1.Ok?
    ensures PlanOf(e, d).1.value.id.desired == d
  {
    hide ContextOf, AssertClean, Configured;
  }

  lemma PermsValid(p: Permission)
    ensures ValidPerms(Perms(p))
  {
  }

  /** Every list sent, forward or in rollback, passes the runner's canonical check. */
  lemma EveryListAccepted(e: Env, d: Desired, approved: PlanId)
    ensures SentOnly(e, Apply(e, d, approved).0, Allowed)
  {
    hide Rpc, PlanOf, ContextOf, Recheck, Install, Configured, Wanted, ValidInventory, RunnerAccepts;
    var (e1, plan) := PlanOf(e, d);
    PlanSends(e, d);
    assert SentOnly(e, e1, Allowed);
    if plan.Ok? && plan.value.id == approved && plan.value.Changes() {
      var (e2, c) := Recheck(e1, plan.value);
      RecheckSends(e1, plan.value);
      SentTrans(e, e1, e2, Reading);
      assert SentOnly(e, e2, Allowed);
      if c.Ok? {
        RecheckContext(e1, plan.value);
        PlanDesired(e, d);
        ContextRead(e1, d);
        var es := c.value.inventory;
        PermsValid(d.permission);
        var wanted := Wanted(Configured(es), d.who, Perms(d.permission));
        OriginalAccepted(es);
        WantedAccepted(es, d.who, Perms(d.permission));
        InstallSends(e2, d.folder, wanted);
        var (e3, _) := Install(e2, d.folder, wanted);
        InstallSends(e3, d.folder, Configured(es));
        SentTrans(e, e2, e3, Allowed);
        SentTrans(e, e3, Install(e3, d.folder, Configured(es)).0, Allowed);
      }
    }
  }
}
