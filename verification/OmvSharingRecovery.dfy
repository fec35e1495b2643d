/** The privilege apply succeeds on a working host and recovers from any single fault. */
module OmvSharingRecovery {
  import opened OmvCalls
  import opened Privileges
  import opened OmvSharing
  import opened OmvSharingProofs
  import opened Wrappers

  lemma RpcOneFault(e: OmvSharing.Env, c: Call)
    requires OneFault(e.script) && Allowed(c)
    ensures var (e', ok) := Rpc(e, c);
            && OneFault(e'.script) && (ok || Calm(e'.script)) && (Calm(e.script) ==> ok && Calm(e'.script))
            && (e'.omv == Effect(e.omv, c) || (!ok && e'.omv == e.omv))
  {
    SendOneFault(e, c, Effect);
  }

  // ----- reading leaves the host alone -----

  lemma {:induction false} AssertCleanKeeps(e: OmvSharing.Env, ms: seq<Module>)
    requires OneFault(e.script)
    ensures var (e', unclean) := AssertClean(e, ms);
            && e'.omv == e.omv && OneFault(e'.script) && unclean != Some(RollbackFailed)
            && (Calm(e.script) && unclean != Some(Conflict) ==> Calm(e'.script) && unclean.None?)
            && (unclean.None? ==> forall i :: 0 <= i < |ms| ==> ms[i] !in e.omv.dirty)
            && (Calm(e.script) && (forall i :: 0 <= i < |ms| ==> ms[i] !in e.omv.dirty) ==> unclean.None?)
    decreases |ms|
  {
    if ms != [] {
      RpcOneFault(e, IsDirty(ms[0]));
      AssertCleanKeeps(Rpc(e, IsDirty(ms[0])).0, ms[1..]);
    }
  }

  lemma ListingKeeps(e: OmvSharing.Env, uuid: string)
    requires OneFault(e.script)
    ensures var (e', payload) := Listing(e, uuid);
            && e'.omv == e.omv && OneFault(e'.script)
            && (payload.Some? ==> Enumerated(e.omv.Folders(), uuid) && uuid in e.omv.privileges
                                  && payload.value == e.omv.privileges[uuid])
            && (Enumerated(e.omv.Folders(), uuid) && uuid in e.omv.privileges ==>
                  (payload.Some? || Calm(e'.script)) && (Calm(e.script) ==> payload.Some? && Calm(e'.script)))
  {
    RpcOneFault(e, GetFolders);
    var (e1, ok) := Rpc(e, GetFolders);
    RpcOneFault(e1, GetPrivileges(uuid));
  }

  lemma ContextKeeps(e: OmvSharing.Env, d: Desired)
    requires OneFault(e.script)
    ensures var (e', c) := ContextOf(e, d);
            && e'.omv == e.omv && OneFault(e'.script) && c != Err(RollbackFailed)
            && (c.Ok? ==> Enumerated(e.omv.Folders(), d.folder) && d.folder in e.omv.privileges
                          && GoodPayload(e.omv.privileges[d.folder])
                          && c.value.inventory == SortBy(e.omv.privileges[d.folder], EntryKey)
                          && FindFolder(e.omv.Folders(), d.folder) == Some(c.value.folder))
            && (c.Ok? && Calm(e.script) ==> Calm(e'.script))
  {
    hide Rpc, Listing, Shared, SortBy, GoodPayload, FindFolder, Calm, OneFault;
    RpcOneFault(e, GetFolders);
    ListingKeeps(Rpc(e, GetFolders).0, d.folder);
  }

  // ----- installing a list -----

  /** The folder is listed with a valid inventory that has every principal of the list. */
  predicate Ready(o: Omv, uuid: string, ss: seq<Setting>) {
    Enumerated(o.Folders(), uuid) && uuid in o.privileges && Storable(o.privileges[uuid], ss)
  }

  predicate Storable(es: seq<Entry>, ss: seq<Setting>) {
    && GoodPayload(es) && RunnerAccepts(ss) && AscendingBy(ss, SettingKey)
    && forall s :: s in ss ==> s.who in Names(es, EntryKey)
  }

  lemma HeadIsAlone(ss: seq<Setting>)
    requires AscendingBy(ss, SettingKey) && ss != []
    ensures forall s :: s in ss[1..] ==> s.who != ss[0].who
  {
    forall k | 0 < k < |ss| ensures ss[k].who != ss[0].who {
      BeforeOrder(ss[0].who, ss[0].who, ss[0].who);
      assert Before(SettingKey(ss[0]), SettingKey(ss[k]));
    }
  }

  lemma {:induction false} LookupExact(ss: seq<Setting>, p: Principal, x: int)
    requires AscendingBy(ss, SettingKey)
    ensures Lookup(ss, p) == Some(x) <==> Setting(p, x) in ss
  {
    if ss != [] {
      LookupExact(ss[1..], p, x);
      HeadIsAlone(ss);
    }
  }

  lemma StoreKeepsNames(es: seq<Entry>, ss: seq<Setting>)
    ensures Names(Store(es, ss), EntryKey) == Names(es, EntryKey)
  {
  }

  lemma StoreKeepsStorable(es: seq<Entry>, ss: seq<Setting>, tt: seq<Setting>)
    requires Storable(es, ss) && Storable(es, tt)
    ensures Storable(Store(es, ss), tt)
  {
    StoreKeepsNames(es, ss);
    forall i | 0 <= i < |es| ensures ValidEntry(Store(es, ss)[i]) {
      var perms := Lookup(ss, es[i].who);
      if perms.Some? {
        LookupExact(ss, es[i].who, perms.value);
      }
    }
  }

  /** Storing a list makes the host grant exactly that list. */
  lemma StoreGrants(es: seq<Entry>, ss: seq<Setting>, s: Setting)
    requires AscendingBy(ss, SettingKey)
    requires forall x :: x in ss ==> x.who in Names(es, EntryKey)
    ensures Lists(Store(es, ss), s) <==> s in ss
  {
    var stored := Store(es, ss);
    LookupExact(ss, s.who, s.perms);
    if s in ss {
      var i :| 0 <= i < |es| && Names(es, EntryKey)[i] == s.who;
      assert stored[i].who == s.who && stored[i].perms == Some(s.perms);
    }
  }

  lemma EmptyAlike(a: seq<Setting>, b: seq<Setting>)
    requires forall s :: s in a <==> s in b
    ensures a == [] ==> b == []
  {
    if b != [] {
      assert b[0] in b;
    }
  }

  lemma {:induction false} AscendingUnique(a: seq<Setting>, b: seq<Setting>)
    requires AscendingBy(a, SettingKey) && AscendingBy(b, SettingKey)
    requires forall s :: s in a <==> s in b
    ensures a == b
  {
    if a != [] && b != [] {
      assert a[0] in b && b[0] in a;
      BeforeOrder(a[0].who, b[0].who, a[0].who);
      assert a[0] == b[0];
      HeadIsAlone(a);
      HeadIsAlone(b);
      assert a == [a[0]] + a[1..] && b == [b[0]] + b[1..];
      forall s ensures s in a[1..] <==> s in b[1..] {
        assert s in a <==> s == a[0] || s in a[1..];
        assert s in b <==> s == b[0] || s in b[1..];
      }
      AscendingUnique(a[1..], b[1..]);
    } else {
      EmptyAlike(a, b);
      EmptyAlike(b, a);
    }
  }

  /** Reading back a host that grants exactly `ss` observes `ss`. */
  lemma ReadBack(es: seq<Entry>, ss: seq<Setting>)
    requires GoodPayload(es) && AscendingBy(ss, SettingKey) && forall s :: Lists(es, s) <==> s in ss
    ensures Configured(SortBy(es, EntryKey)) == ss
  {
    var sorted := SortBy(es, EntryKey);
    assert forall i :: 0 <= i < |es| ==> Names(es, EntryKey)[i] == EntryKey(es[i]);
    SortAscending(es, EntryKey);
    ConfiguredAscending(sorted);
    forall s ensures s in Configured(sorted) <==> s in ss {
      SortedEntry(es, s);
    }
    AscendingUnique(Configured(sorted), ss);
  }

  function Dirty(ms: seq<Module>, dirty: set<Module>): seq<Module> {
    if ms == [] then [] else (if ms[0] in dirty then [ms[0]] else []) + Dirty(ms[1..], dirty)
  }

  function Cleaned(ms: seq<Module>, dirty: set<Module>): set<Module> {
    if ms == [] then dirty else Cleaned(ms[1..], dirty - {ms[0]})
  }

  lemma {:induction false} DeployKeeps(e: OmvSharing.Env, ms: seq<Module>)
    requires OneFault(e.script)
    requires forall i, j :: 0 <= i < j < |ms| ==> ms[i] != ms[j]
    ensures var (e', deployed) := Deploy(e, ms);
            && e'.omv == e.omv.(dirty := e'.omv.dirty) && OneFault(e'.script)
            && (deployed.Some? || Calm(e'.script))
            && (deployed.Some? ==> deployed.value == Dirty(ms, e.omv.dirty) && e'.omv.dirty == Cleaned(ms, e.omv.dirty))
            && (Calm(e.script) ==> deployed.Some? && Calm(e'.script))
    decreases |ms|
  {
    if ms != [] {
      RpcOneFault(e, IsDirty(ms[0]));
      var (e1, ok) := Rpc(e, IsDirty(ms[0]));
      if ok && ms[0] !in e1.omv.dirty {
        DeployKeeps(e1, ms[1..]);
        assert e.omv.dirty - {ms[0]} == e.omv.dirty;
      } else if ok {
        RpcOneFault(e1, ApplyChanges(ms[0]));
        var (e2, done) := Rpc(e1, ApplyChanges(ms[0]));
        if done {
          DeployKeeps(e2, ms[1..]);
          SameDirty(ms[1..], e.omv.dirty, e2.omv.dirty);
        }
      }
    }
  }

  lemma {:induction false} SameDirty(ms: seq<Module>, a: set<Module>, b: set<Module>)
    requires forall m :: m in ms ==> (m in a <==> m in b)
    ensures Dirty(ms, a) == Dirty(ms, b)
  {
    if ms != [] {
      SameDirty(ms[1..], a, b);
    }
  }

  /** With at most one fault an installation either completes or has used the fault up. */
  lemma InstallOneFault(e: OmvSharing.Env, uuid: string, ss: seq<Setting>, tt: seq<Setting>)
    requires OneFault(e.script) && Ready(e.omv, uuid, ss) && Ready(e.omv, uuid, tt)
    ensures var (e', deployed) := Install(e, uuid, ss);
            && Ready(e'.omv, uuid, tt) && (deployed.Some? || Calm(e'.script))
            && (deployed.Some? ==>
                  e'.omv == Effect(e.omv, SetPrivileges(uuid, ss)).(dirty := e.omv.dirty + e.omv.touches - {Samba, Rsyncd}))
            && (Calm(e.script) ==> deployed == Some(Dirty(MODULES, e.omv.dirty + e.omv.touches)))
  {
    hide Rpc, Deploy, Dirty, Listing, Normalized, Storable, GoodPayload, Store, SortBy, Configured, Calm, OneFault;
    assert Storable(e.omv.privileges[uuid], ss) && Allowed(SetPrivileges(uuid, ss)) by {
      StorableAllowed(e.omv.privileges[uuid], ss, uuid);
    }
    RpcOneFault(e, SetPrivileges(uuid, ss));
    StoreKeepsStorable(e.omv.privileges[uuid], ss, tt);
    var (e1, ok) := Rpc(e, SetPrivileges(uuid, ss));
    if ok {
      var stored := Store(e.omv.privileges[uuid], ss);
      var (e2, deployed) := Deploy(e1, MODULES);
      DeployKeeps(e1, MODULES);
      if deployed.Some? {
        assert e2.omv.privileges[uuid] == stored;
        ListingKeeps(e2, uuid);
        StoredReadsBack(e.omv.privileges[uuid], ss);
        BothCleaned(e1.omv.dirty);
      }
    }
  }

  lemma BothCleaned(dirty: set<Module>)
    ensures Cleaned(MODULES, dirty) == dirty - {Samba, Rsyncd}
  {
    assert MODULES[0] == Samba && MODULES[1..] == [Rsyncd] && [Rsyncd][1..] == [];
    assert dirty - {Samba} - {Rsyncd} == dirty - {Samba, Rsyncd};
    assert Cleaned(MODULES, dirty) == Cleaned([Rsyncd], dirty - {Samba}) == Cleaned([], dirty - {Samba} - {Rsyncd});
  }

  lemma StorableAllowed(es: seq<Entry>, ss: seq<Setting>, uuid: string)
    requires Storable(es, ss)
    ensures Allowed(SetPrivileges(uuid, ss))
  {
  }

  lemma StoredReadsBack(es: seq<Entry>, ss: seq<Setting>)
    requires Storable(es, ss)
    ensures Normalized(Some(Store(es, ss))).Some? && Configured(Normalized(Some(Store(es, ss))).value) == ss
  {
    StoreKeepsStorable(es, ss, ss);
    forall s ensures Lists(Store(es, ss), s) <==> s in ss {
      StoreGrants(es, ss, s);
    }
    ReadBack(Store(es, ss), ss);
  }

  /** The checked context leaves a host that is ready for both lists. */
  lemma RecheckReady(e: OmvSharing.Env, plan: Plan)
    requires OneFault(e.script) && Recheck(e, plan).1.Ok?
    ensures var (e', c) := Recheck(e, plan);
            var d := plan.id.desired;
            var original := Configured(c.value.inventory);
            && e'.omv == e.omv && OneFault(e'.script) && (Calm(e.script) ==> Calm(e'.script))
            && Ready(e'.omv, d.folder, original)
            && Ready(e'.omv, d.folder, Wanted(original, d.who, Perms(d.permission)))
            && Samba !in e'.omv.dirty && Rsyncd !in e'.omv.dirty
            && original == plan.id.base.configured
  {
    hide Rpc, AssertClean, ContextOf, Storable, GoodPayload, SortBy, Configured, Wanted, Enumerated, Calm, OneFault;
    var d := plan.id.desired;
    var (e1, c) := ContextOf(e, d);
    ContextKeeps(e, d);
    ContextRead(e, d);
    AssertCleanKeeps(e1, MODULES);
    BothStorable(e.omv.privileges[d.folder], d.who, Perms(d.permission));
    assert MODULES[0] == Samba && MODULES[1] == Rsyncd;
  }

  lemma RecheckError(e: OmvSharing.Env, plan: Plan)
    requires OneFault(e.script)
    ensures Recheck(e, plan).1 != Err(RollbackFailed)
  {
    hide Rpc, AssertClean, ContextOf, Calm, OneFault;
    ContextKeeps(e, plan.id.desired);
    AssertCleanKeeps(ContextOf(e, plan.id.desired).0, MODULES);
  }

  /** The configured list of a valid inventory and the wanted one can both be stored. */
  lemma BothStorable(raw: seq<Entry>, p: Principal, perms: Option<int>)
    requires GoodPayload(raw) && ValidInventory(SortBy(raw, EntryKey)) && ValidPerms(perms)
    requires p in Names(SortBy(raw, EntryKey), EntryKey)
    ensures Storable(raw, Configured(SortBy(raw, EntryKey)))
    ensures Storable(raw, Wanted(Configured(SortBy(raw, EntryKey)), p, perms))
  {
    var es := SortBy(raw, EntryKey);
    var original := Configured(es);
    OriginalAccepted(es);
    ConfiguredAscending(es);
    WantedAccepted(es, p, perms);
    WantedAscending(original, p, perms);
    WantedMeaning(original, p, perms);
    forall s: Setting | s in original || s.who == p ensures s.who in Names(raw, EntryKey) {
      ListedAlike(raw, es, s.who);
      if s in original {
        var i :| 0 <= i < |es| && es[i].who == s.who;
        assert Names(es, EntryKey)[i] == s.who;
      }
    }
  }

  lemma ListedAlike(raw: seq<Entry>, es: seq<Entry>, p: Principal)
    requires multiset(es) == multiset(raw)
    ensures p in Names(es, EntryKey) ==> p in Names(raw, EntryKey)
  {
    if p in Names(es, EntryKey) {
      var i :| 0 <= i < |es| && Names(es, EntryKey)[i] == p;
      SameMember(es, raw, es[i]);
      assert es[i] in es;
      var k :| 0 <= k < |raw| && raw[k] == es[i];
      assert Names(raw, EntryKey)[k] == p;
    }
  }

  lemma PlanKeeps(e: OmvSharing.Env, d: Desired)
    requires OneFault(e.script)
    ensures var (e', plan) := PlanOf(e, d);
            && e'.omv == e.omv && OneFault(e'.script) && plan != Err(RollbackFailed)
            && (plan.Ok? && Calm(e.script) ==> Calm(e'.script))
  {
    AssertCleanKeeps(e, MODULES);
    ContextKeeps(AssertClean(e, MODULES).0, d);
  }

  /** One failing call, wherever it falls and whether or not it took effect, never
      leaves the share in the "rollback also failed" state. */
  lemma SingleFaultRecovers(e: OmvSharing.Env, d: Desired, approved: PlanId)
    requires OneFault(e.script)
    ensures Apply(e, d, approved).1 != Err(RollbackFailed)
  {
    hide Rpc, AssertClean, ContextOf, Recheck, Install, Ready, Configured, Wanted, Calm, OneFault, Dirty;
    var (e1, plan) := PlanOf(e, d);
    PlanKeeps(e, d);
    if plan.Ok? && plan.value.id == approved && plan.value.Changes() {
      var (e2, c) := Recheck(e1, plan.value);
      RecheckError(e1, plan.value);
      if c.Ok? {
        RecheckReady(e1, plan.value);
        var original := Configured(c.value.inventory);
        var wanted := Wanted(original, d.who, Perms(d.permission));
        InstallOneFault(e2, d.folder, wanted, original);
        var (e3, deployed) := Install(e2, d.folder, wanted);
        if deployed.None? {
          CalmIsOneFault(e3.script);
          InstallOneFault(e3, d.folder, original, original);
        }
      }
    }
  }

  lemma SecondContext(e: OmvSharing.Env, e1: OmvSharing.Env, d: Desired)
    requires Calm(e.script) && PlanOf(e, d) == (e1, PlanOf(e, d).1) && PlanOf(e, d).1.Ok?
    ensures Recheck(e1, PlanOf(e, d).1.value).1.Ok?
  {
    hide Rpc, AssertClean, ContextOf, Configured, Calm, OneFault;
    CalmIsOneFault(e.script);
    PlanKeeps(e, d);
    AssertCleanKeeps(e, MODULES);
    var (e0, _) := AssertClean(e, MODULES);
    ContextRepeats(e0, e1, d);
    CalmIsOneFault(ContextOf(e1, d).0.script);
    AssertCleanKeeps(ContextOf(e1, d).0, MODULES);
  }

  /** Reading the same working host twice reads the same. */
  lemma ContextRepeats(e: OmvSharing.Env, e1: OmvSharing.Env, d: Desired)
    requires Calm(e.script) && Calm(e1.script) && e.omv == e1.omv && ContextOf(e, d).1.Ok?
    ensures ContextOf(e1, d).1 == ContextOf(e, d).1
    ensures Calm(ContextOf(e1, d).0.script) && ContextOf(e1, d).0.omv == e.omv
  {
    hide Rpc, Listing, Shared, SortBy, GoodPayload, Matching, FindFolder, Calm, OneFault;
    CalmIsOneFault(e.script);
    CalmIsOneFault(e1.script);
    RpcOneFault(e, GetFolders);
    ListingKeeps(Rpc(e, GetFolders).0, d.folder);
    RpcOneFault(e1, GetFolders);
    ListingKeeps(Rpc(e1, GetFolders).0, d.folder);
  }

  /** On a host that works, an approved change is applied, verified, and deployed to
      exactly the modules that it made dirty.  The host then differs in this folder's
      permissions alone, and has nothing left to deploy. */
  lemma WorkingHostApplies(e: OmvSharing.Env, d: Desired, approved: PlanId)
    requires Calm(e.script)
    requires PlanOf(e, d).1.Ok? && PlanOf(e, d).1.value.id == approved && PlanOf(e, d).1.value.Changes()
    ensures Apply(e, d, approved).1 == Ok(Outcome(PlanOf(e, d).1.value, true, Dirty(MODULES, e.omv.touches)))
    ensures var after := Apply(e, d, approved).0.omv;
            && after.rows == e.omv.rows && after.dirty == e.omv.dirty + e.omv.touches - {Samba, Rsyncd}
            && d.folder in e.omv.privileges
            && after.privileges == e.omv.privileges[d.folder :=
                 Store(e.omv.privileges[d.folder],
                       Wanted(approved.base.configured, d.who, Perms(d.permission)))]
  {
    hide Rpc, AssertClean, ContextOf, Recheck, Install, Storable, Store, Configured, Wanted, Calm, OneFault, Dirty;
    CalmIsOneFault(e.script);
    var (e1, plan) := PlanOf(e, d);
    PlanKeeps(e, d);
    SecondContext(e, e1, d);
    var (e2, c) := Recheck(e1, plan.value);
    RecheckReady(e1, plan.value);
    var original := Configured(c.value.inventory);
    var wanted := Wanted(original, d.who, Perms(d.permission));
    InstallOneFault(e2, d.folder, wanted, original);
    SameDirty(MODULES, e2.omv.dirty + e2.omv.touches, e.omv.touches);
  }
}
