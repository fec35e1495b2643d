/** What planning and applying a privilege change answer on a host that works, and which
    permission a success grants. */
module OmvSharingAnswers {
  import opened OmvCalls
  import opened OmvSharing
  import opened OmvSharingProofs
  import opened OmvSharingRecovery
  import opened Privileges
  import opened Texts
  import opened Wrappers

  /** The permission that OMV stores, by name. */
  predicate Named(perms: Option<int>, p: Permission) {
    match p
    case Inherit => perms.None?
    case NoAccess => perms == Some(0)
    case Read => perms == Some(5)
    case ReadWrite => perms == Some(7)
  }

  /** A verified success grants the principal exactly the wanted bits, or nothing of its own
      if the share default is to apply. */
  lemma GrantedBits(e: OmvSharing.Env, d: Desired, approved: PlanId, bits: int)
    requires Apply(e, d, approved).1.Ok? && Apply(e, d, approved).1.value.applied
    ensures Grants(Apply(e, d, approved).0.omv, d.folder, Setting(d.who, bits)) <==>
            match d.permission
            case Inherit => false
            case NoAccess => bits == 0
            case Read => bits == 5
            case ReadWrite => bits == 7
  {
    hide Apply, Grants;
    ApplyIsTransactional(e, d, approved);
  }

  /** What the host shows of a folder. */
  datatype View = Unlisted | Offline | Unreadable | Stranger | Shown(folder: Folder, row: Entry)

  /** The first listed folder of this id, its status, its rows, and the one of the
      principal. */
  ghost predicate Shows(o: Omv, d: Desired, v: View) {
    var fs := o.Folders();
    match v
    case Unlisted => forall i :: 0 <= i < |fs| ==> fs[i].uuid != d.folder
    case Offline => exists i :: FirstOf(fs, d.folder, i) && Folded(fs[i].status) !in {"ok", "online"}
    case Unreadable =>
      && (exists i :: FirstOf(fs, d.folder, i) && Folded(fs[i].status) in {"ok", "online"})
      && (d.folder !in o.privileges || !GoodPayload(o.privileges[d.folder]))
    case Stranger =>
      && (exists i :: FirstOf(fs, d.folder, i) && Folded(fs[i].status) in {"ok", "online"})
      && d.folder in o.privileges && GoodPayload(o.privileges[d.folder])
      && forall x :: x in o.privileges[d.folder] ==> x.who != d.who
    case Shown(folder, row) =>
      && (exists i :: FirstOf(fs, d.folder, i) && fs[i] == folder && Folded(folder.status) in {"ok", "online"})
      && d.folder in o.privileges && GoodPayload(o.privileges[d.folder])
      && row in o.privileges[d.folder] && row.who == d.who
  }

  predicate FirstOf(fs: seq<Folder>, uuid: string, i: int) {
    0 <= i < |fs| && fs[i].uuid == uuid && forall k :: 0 <= k < i ==> fs[k].uuid != uuid
  }

  lemma {:induction false} FindIsFirst(fs: seq<Folder>, uuid: string)
    ensures FindFolder(fs, uuid).None? <==> forall i :: 0 <= i < |fs| ==> fs[i].uuid != uuid
    ensures forall i :: FirstOf(fs, uuid, i) ==> FindFolder(fs, uuid) == Some(fs[i])
    ensures FindFolder(fs, uuid).Some? ==> exists i :: FirstOf(fs, uuid, i)
  {
    if fs != [] {
      FindIsFirst(fs[1..], uuid);
      if fs[0].uuid == uuid {
        assert FirstOf(fs, uuid, 0);
        forall i | FirstOf(fs, uuid, i) ensures i == 0 {
        }
      } else {
        forall i | FirstOf(fs, uuid, i) ensures FirstOf(fs[1..], uuid, i - 1) {
          assert forall k :: 0 <= k < |fs[1..]| ==> fs[1..][k] == fs[k + 1];
        }
        if FindFolder(fs, uuid).Some? {
          var i :| FirstOf(fs[1..], uuid, i);
          assert forall k :: 0 <= k < |fs[1..]| ==> fs[1..][k] == fs[k + 1];
          assert FirstOf(fs, uuid, i + 1);
        }
      }
    }
  }

  lemma {:induction false} MatchingOne(es: seq<Entry>, p: Principal)
    requires forall i, j :: 0 <= i < j < |es| ==> es[i].who != es[j].who
    ensures |Matching(es, p)| <= 1
    ensures forall x :: x in es && x.who == p ==> Matching(es, p) == [x]
    ensures (forall x :: x in es ==> x.who != p) ==> Matching(es, p) == []
  {
    if es != [] {
      MatchingOne(es[1..], p);
      forall x | x in es[1..] ensures x.who != es[0].who {
        var k :| 0 <= k < |es[1..]| && es[1..][k] == x;
        assert es[k + 1] == x;
      }
      assert es == [es[0]] + es[1..];
      if es[0].who == p {
        assert Matching(es[1..], p) == [];
      }
    }
  }

  lemma SortedOnce(es: seq<Entry>)
    requires GoodPayload(es)
    ensures var sorted := SortBy(es, EntryKey);
            && (forall x :: x in sorted <==> x in es)
            && forall i, j :: 0 <= i < j < |sorted| ==> sorted[i].who != sorted[j].who
  {
    hide ValidEntry;
    var sorted := SortBy(es, EntryKey);
    SameMembers(sorted, es);
    SortAscending(es, EntryKey);
    AscendingDistinct(sorted, EntryKey);
    forall i, j | 0 <= i < j < |sorted| ensures sorted[i].who != sorted[j].who {
      assert Names(sorted, EntryKey)[i] != Names(sorted, EntryKey)[j];
    }
  }

  /** The row of one principal among the sorted rows. */
  lemma SortedRow(es: seq<Entry>, p: Principal)
    requires GoodPayload(es)
    ensures var found := Matching(SortBy(es, EntryKey), p);
            && (forall x :: x in es && x.who == p ==> found == [x])
            && ((forall x :: x in es ==> x.who != p) ==> found == [])
  {
    hide GoodPayload;
    SortedOnce(es);
    var sorted := SortBy(es, EntryKey);
    forall i, j | 0 <= i < j < |sorted| ensures sorted[i].who != sorted[j].who {
      assert SortBy(es, EntryKey)[i].who != SortBy(es, EntryKey)[j].who;
    }
    MatchingOne(sorted, p);
  }

  lemma CalmCall(e: OmvSharing.Env, c: Call)
    requires Calm(e.script) && Allowed(c)
    ensures var (e', ok) := Rpc(e, c); ok && Calm(e'.script) && e'.omv == Effect(e.omv, c)
  {
    CalmIsOneFault(e.script);
    RpcOneFault(e, c);
  }

  lemma CalmClean(e: OmvSharing.Env)
    requires Calm(e.script)
    ensures var (e', unclean) := AssertClean(e, MODULES);
            && e'.omv == e.omv && (unclean.None? ==> Calm(e'.script))
            && unclean == if Samba in e.omv.dirty || Rsyncd in e.omv.dirty then Some(Conflict) else None
  {
    hide Rpc, Calm, OneFault;
    CalmCall(e, IsDirty(Samba));
    var e1 := Rpc(e, IsDirty(Samba)).0;
    CalmCall(e1, IsDirty(Rsyncd));
    assert MODULES == [Samba, Rsyncd] && MODULES[1..] == [Rsyncd] && MODULES[1..][1..] == [];
  }

  lemma CalmListing(e: OmvSharing.Env, uuid: string)
    requires Calm(e.script) && Enumerated(e.omv.Folders(), uuid)
    ensures Listing(e, uuid).1 == if uuid in e.omv.privileges then Some(e.omv.privileges[uuid]) else None
  {
    hide Rpc, Calm, Shared;
    CalmCall(e, GetFolders);
    CalmCall(Rpc(e, GetFolders).0, GetPrivileges(uuid));
  }

  lemma CalmContext(e: OmvSharing.Env, d: Desired)
    requires Calm(e.script)
    ensures var r, o := ContextOf(e, d).1, e.omv;
            && (Shows(o, d, Unlisted) ==> r == Err(Invalid))
            && (Shows(o, d, Offline) ==> r == Err(Conflict))
            && (Shows(o, d, Unreadable) ==> r == Err(Broken))
            && (Shows(o, d, Stranger) ==> r == Err(Invalid))
            && forall folder, row :: Shows(o, d, Shown(folder, row)) ==>
                 r == Ok(Context(folder, SortBy(o.privileges[d.folder], EntryKey), row))
  {
    hide Rpc, Calm, Shared, Listing, GoodPayload, SortBy, Folded, Omv.Folders;
    CalmCall(e, GetFolders);
    var e1, o := Rpc(e, GetFolders).0, e.omv;
    FindIsFirst(o.Folders(), d.folder);
    if FindFolder(o.Folders(), d.folder).Some? {
      CalmListing(e1, d.folder);
      if d.folder in o.privileges && GoodPayload(o.privileges[d.folder]) {
        SortedRow(o.privileges[d.folder], d.who);
      }
    }
  }

  /** On a host that works, planning refuses unfinished changes, folders that are not listed,
      offline folders, unreadable rows and unknown principals, each with its own error;
      otherwise it answers a plan for just this request, based on what the host grants, with
      the permission that is stored now. */
  lemma PlanAnswers(e: OmvSharing.Env, d: Desired)
    requires Calm(e.script)
    ensures var r, o := PlanOf(e, d).1, e.omv;
            if Samba in o.dirty || Rsyncd in o.dirty then r == Err(Conflict)
            else
              && (Shows(o, d, Unlisted) ==> r == Err(Invalid))
              && (Shows(o, d, Offline) ==> r == Err(Conflict))
              && (Shows(o, d, Unreadable) ==> r == Err(Broken))
              && (Shows(o, d, Stranger) ==> r == Err(Invalid))
              && forall folder, row :: Shows(o, d, Shown(folder, row)) ==>
                   && r.Ok? && r.value.id.desired == d && r.value.id.base.folder == folder
                   && r.value.principalId == row.id && Named(row.perms, r.value.before)
                   && forall s :: s in r.value.id.base.configured <==> Lists(o.privileges[d.folder], s)
  {
    hide Rpc, Calm, ContextOf, AssertClean, Shows, SortBy, Configured, Lists;
    CalmClean(e);
    var e1 := AssertClean(e, MODULES).0;
    if AssertClean(e, MODULES).1.None? {
      CalmContext(e1, d);
      forall folder, row | Shows(e.omv, d, Shown(folder, row))
        ensures d.folder in e.omv.privileges && Named(row.perms, PermissionOf(row.perms))
        ensures forall s :: Lists(SortBy(e.omv.privileges[d.folder], EntryKey), s) <==> Lists(e.omv.privileges[d.folder], s)
      {
        ShownRow(e.omv, d, folder, row);
        forall s ensures Lists(SortBy(e.omv.privileges[d.folder], EntryKey), s) <==> Lists(e.omv.privileges[d.folder], s) {
          SortedEntry(e.omv.privileges[d.folder], s);
        }
      }
    }
  }

  lemma ShownRow(o: Omv, d: Desired, folder: Folder, row: Entry)
    requires Shows(o, d, Shown(folder, row))
    ensures d.folder in o.privileges && Named(row.perms, PermissionOf(row.perms))
  {
    var es := o.privileges[d.folder];
    var k :| 0 <= k < |es| && es[k] == row;
    assert ValidEntry(es[k]);
  }

  /** The five views cover everything a host can show. */
  lemma OneView(o: Omv, d: Desired)
    ensures exists v :: Shows(o, d, v)
  {
    hide GoodPayload, Folded, Omv.Folders;
    FindIsFirst(o.Folders(), d.folder);
    if !Shows(o, d, Unlisted) && !Shows(o, d, Offline) && !Shows(o, d, Unreadable) && !Shows(o, d, Stranger) {
      var i :| FirstOf(o.Folders(), d.folder, i);
      var row :| row in o.privileges[d.folder] && row.who == d.who;
      assert Shows(o, d, Shown(o.Folders()[i], row));
    }
  }

  /** Applying on a host that works: a plan other than the approved one is refused, one that
      changes nothing sends nothing that changes the host, and any other is applied. */
  lemma ApplyAnswers(e: OmvSharing.Env, d: Desired, approved: PlanId)
    requires Calm(e.script)
    ensures var plan, r := PlanOf(e, d).1, Apply(e, d, approved).1;
            && (plan.Err? ==> r == Err(plan.error))
            && (plan.Ok? && plan.value.id != approved ==> r == Err(Conflict))
            && (plan.Ok? && plan.value.id == approved && plan.value.before == d.permission ==>
                  r == Ok(Outcome(plan.value, false, [])) && Apply(e, d, approved).0.omv == e.omv)
            && (plan.Ok? && plan.value.id == approved && plan.value.before != d.permission ==>
                  r.Ok? && r.value.applied && r.value.plan == plan.value)
  {
    hide Rpc, Calm, OneFault, PlanOf, Recheck, Replace;
    CalmIsOneFault(e.script);
    PlanKeeps(e, d);
    if PlanOf(e, d).1.Ok? {
      PlanDesired(e, d);
    }
    if PlanOf(e, d).1.Ok? && PlanOf(e, d).1.value.id == approved && PlanOf(e, d).1.value.Changes() {
      WorkingHostApplies(e, d, approved);
    }
  }
}
