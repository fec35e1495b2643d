/** The client side of the share privilege plan: what it accepts from the bridge. */
module OmvPlanClient {
  import opened Privileges
  import opened OmvSharing
  import P = OmvSharingProofs
  import opened Texts
  import opened Wrappers

  const PLAN_SCHEMA := "echo.omv.share-privilege-plan.v1"
  const DESIRED_SCHEMA := "echo.omv.share-privilege-desired.v1"
  const MAX_ID: int := 0x7fff_ffff

  datatype WireDesired = WireDesired(schema: string, folder: string, role: string, name: string, permission: string)
  datatype WirePrincipal = WirePrincipal(role: string, id: int, name: string, before: string, after: string)
  datatype WireChange = WireChange(field: string, before: string, after: string)

  /** A plan or a result as it crosses the socket; the last three fields only on results. */
  datatype Wire = Wire(
    schema: string, planId: PlanId, base: Revision, operation: string, requiresApproval: bool,
    folder: Folder, principal: WirePrincipal, desired: WireDesired, changes: seq<WireChange>,
    safety: seq<(string, string)>, applied: Option<bool>, verified: Option<bool>, deployed: Option<seq<string>>)

  const SAFETY: seq<(string, string)> := [
    ("scope", "sharedFolderConfigPrivilege"), ("principal", "existingOmvUserOrGroup"),
    ("filesystemAcl", "notModified"), ("recursive", "never"),
    ("serviceDeploy", "sambaAndRsyncdWhenDirty"), ("delete", "notManaged")]

  const PERMISSIONS: set<string> := {"inherit", "none", "read", "readWrite"}

  function RoleText(r: Role): string {
    match r case User => "user" case Group => "group"
  }

  function PermissionText(p: Permission): string {
    match p
    case Inherit => "inherit"
    case NoAccess => "none"
    case Read => "read"
    case ReadWrite => "readWrite"
  }

  function ModuleText(m: Module): string {
    match m case Samba => "samba" case Rsyncd => "rsyncd"
  }

  function ModuleTexts(ms: seq<Module>): (r: seq<string>)
    ensures |r| == |ms| && forall i :: 0 <= i < |ms| ==> r[i] == ModuleText(ms[i])
  {
    if ms == [] then [] else [ModuleText(ms[0])] + ModuleTexts(ms[1..])
  }

  // ----- what the bridge sends -----

  function DesiredWire(d: Desired): WireDesired {
    WireDesired(DESIRED_SCHEMA, d.folder, RoleText(d.who.role), d.who.name, PermissionText(d.permission))
  }

  function PlanWire(plan: Plan): Wire {
    var d := plan.id.desired;
    var before, after := PermissionText(plan.before), PermissionText(d.permission);
    Wire(PLAN_SCHEMA, plan.id, plan.id.base, if plan.Changes() then "update" else "none", plan.Changes(),
         plan.id.base.folder, WirePrincipal(RoleText(d.who.role), plan.principalId, d.who.name, before, after),
         DesiredWire(d), if plan.Changes() then [WireChange("permission", before, after)] else [],
         SAFETY, None, None, None)
  }

  function OutcomeWire(o: Outcome): Wire {
    PlanWire(o.plan).(applied := Some(o.applied), verified := Some(true), deployed := Some(ModuleTexts(o.deployed)))
  }

  // ----- what the client accepts -----

  /** `validate_share_privilege_desired`. */
  function DesiredAccepted(w: WireDesired): Option<WireDesired> {
    if w.schema == DESIRED_SCHEMA && w.role in {"user", "group"} && BoundedText(w.name, 255) && w.name != ""
       && TrimmedName(w.name) && w.permission in PERMISSIONS && IsUuid(w.folder)
    then Some(w.(folder := Lower(w.folder)))
    else None
  }

  predicate ShapeAccepted(w: Wire) {
    w.schema == PLAN_SCHEMA && w.operation in {"update", "none"} && |w.changes| <= 1 && IsUuid(w.folder.uuid)
  }

  predicate ConsistentChanges(w: Wire) {
    && (forall i :: 0 <= i < |w.changes| ==>
          w.changes[i] == WireChange("permission", w.principal.before, w.principal.after))
    && w.requiresApproval == (w.operation == "update")
    && (w.operation == "none") == (w.principal.before == w.principal.after && w.changes == [])
    && (w.operation == "update" ==> |w.changes| == 1)
  }

  predicate ServicesAccepted(w: Wire) {
    w.deployed.Some? ==> w.deployed.value in {[], ["samba"], ["rsyncd"], ["samba", "rsyncd"]}
  }

  /** `_share_privilege_plan`: the plan as the client will use it, if it is for exactly
      the change that was asked for. */
  function Normalize(w: Wire, expected: WireDesired): Option<Wire> {
    var desired := DesiredAccepted(w.desired);
    if !ShapeAccepted(w) || desired.None? then None
    else
      var d, p := desired.value, w.principal;
      if && d == expected && Lower(w.folder.uuid) == d.folder
         && BoundedText(w.folder.name, 255) && w.folder.name != ""
         && BoundedText(w.folder.status, 64) && w.folder.status != ""
         && p.role == d.role && BoundedText(p.name, 255) && p.name == d.name && 0 <= p.id <= MAX_ID
         && p.before in PERMISSIONS && p.after == d.permission
         && ConsistentChanges(w) && w.safety == SAFETY && ServicesAccepted(w)
      then Some(w.(folder := w.folder.(uuid := Lower(w.folder.uuid)), desired := d))
      else None
  }

  // ----- compatibility -----

  /** What the client needs of a plan besides its shape. */
  predicate Sendable(plan: Plan) {
    var d := plan.id.desired;
    && Validated(d) == Some(d) && CleanFolder(plan.id.base.folder) && plan.id.base.folder.uuid == d.folder
    && 0 <= plan.principalId <= MAX_ID
  }

  lemma PlanSendable(e: Env, d: Desired)
    requires Validated(d) == Some(d) && PlanOf(e, d).1.Ok?
    ensures Sendable(PlanOf(e, d).1.value) && PlanOf(e, d).1.value.id.desired == d
  {
    hide Rpc, Inventory, Shared, Matching;
    var (e1, _) := AssertClean(e, MODULES);
    var c := ContextOf(e1, d).1.value;
    P.ContextRead(e1, d);
    assert c.principal in c.inventory;
  }

  lemma SendableAccepted(plan: Plan, applied: Option<bool>, verified: Option<bool>, deployed: Option<seq<string>>)
    requires Sendable(plan)
    requires deployed.Some? ==> deployed.value in {[], ["samba"], ["rsyncd"], ["samba", "rsyncd"]}
    ensures var w := PlanWire(plan).(applied := applied, verified := verified, deployed := deployed);
            Normalize(w, DesiredWire(plan.id.desired)) == Some(w)
  {
    hide IsUuid, Lower, TrimmedName;
    var d := plan.id.desired;
    assert BoundedText(d.who.name, 255) && TrimmedName(d.who.name) && d.who.name != "";
    assert Lower(d.folder) == d.folder && IsUuid(d.folder);
    assert DesiredAccepted(DesiredWire(d)) == Some(DesiredWire(d));
  }

  lemma {:induction false} DeployedInOrder(e: Env, ms: seq<Module>)
    requires Deploy(e, ms).1.Some?
    requires ms == MODULES || ms == [Rsyncd] || ms == []
    ensures var ds := Deploy(e, ms).1.value;
            && (ms == [] ==> ds == []) && (ms == [Rsyncd] ==> ds in {[], [Rsyncd]})
            && ds in {[], [Samba], [Rsyncd], [Samba, Rsyncd]}
    decreases |ms|
  {
    hide Rpc;
    if ms != [] {
      var (e1, ok) := Rpc(e, IsDirty(ms[0]));
      if ms[0] !in e1.omv.dirty {
        DeployedInOrder(e1, ms[1..]);
      } else {
        var e2 := Rpc(e1, ApplyChanges(ms[0])).0;
        DeployedInOrder(e2, ms[1..]);
        assert Deploy(e, ms).1.value == [ms[0]] + Deploy(e2, ms[1..]).1.value;
        assert [ms[0]] + [] == [ms[0]] && [ms[0]] + [Rsyncd] == [ms[0], Rsyncd];
      }
    }
  }

  /** Every plan the bridge builds is accepted by its client and returned unchanged. */
  lemma EveryPlanAccepted(e: Env, d: Desired)
    requires Validated(d) == Some(d) && PlanOf(e, d).1.Ok?
    ensures var w := PlanWire(PlanOf(e, d).1.value);
            Normalize(w, DesiredWire(d)) == Some(w)
  {
    PlanSendable(e, d);
    SendableAccepted(PlanOf(e, d).1.value, None, None, None);
  }

  /** So is every result of an apply. */
  lemma EveryOutcomeAccepted(e: Env, d: Desired, approved: PlanId)
    requires Validated(d) == Some(d) && Apply(e, d, approved).1.Ok?
    ensures var w := OutcomeWire(Apply(e, d, approved).1.value);
            Normalize(w, DesiredWire(d)) == Some(w)
  {
    hide PlanOf, Recheck, Normalize, PlanWire, Sendable, Validated, Inventory, Rpc, Deploy, Configured, Wanted;
    var o := Apply(e, d, approved).1.value;
    PlanSendable(e, d);
    assert o.plan == PlanOf(e, d).1.value;
    assert o.deployed in {[], [Samba], [Rsyncd], [Samba, Rsyncd]} by {
      if o.applied {
        var (e1, plan) := PlanOf(e, d);
        var (e2, c) := Recheck(e1, plan.value);
        var wanted := Wanted(Configured(c.value.inventory), d.who, Perms(d.permission));
        var (e3, _) := Rpc(e2, SetPrivileges(d.folder, wanted));
        DeployedInOrder(e3, MODULES);
      }
    }
    DeployedTexts(o.deployed);
    SendableAccepted(o.plan, Some(o.applied), Some(true), Some(ModuleTexts(o.deployed)));
  }

  lemma DeployedTexts(ms: seq<Module>)
    requires ms in {[], [Samba], [Rsyncd], [Samba, Rsyncd]}
    ensures ModuleTexts(ms) in {[], ["samba"], ["rsyncd"], ["samba", "rsyncd"]}
  {
    var r := ModuleTexts(ms);
    if |ms| == 1 {
      assert r == [ModuleText(ms[0])];
    } else if |ms| == 2 {
      assert r == [ModuleText(ms[0]), ModuleText(ms[1])];
    }
  }

  /** The client lets nothing else through: an accepted plan is for the requested change,
      asks for approval exactly when it is an update, lists that one change, and is
      accepted again as it stands. */
  lemma AcceptedIsConsistent(w: Wire, expected: WireDesired)
    requires Normalize(w, expected).Some?
    ensures var n := Normalize(w, expected).value;
            && n.desired == expected && n.folder.uuid == expected.folder
            && n.principal.role == expected.role && n.principal.name == expected.name
            && n.principal.after == expected.permission
            && n.requiresApproval == (n.operation == "update")
            && n.changes == (if n.operation == "update"
                             then [WireChange("permission", n.principal.before, expected.permission)] else [])
            && (n.operation == "none" ==> n.principal.before == expected.permission)
            && Normalize(n, expected) == Some(n)
  {
    LowerUuid(w.folder.uuid);
    LowerUuid(w.desired.folder);
    if w.operation == "update" {
      assert w.changes == [w.changes[0]];
    }
  }
}
