/** Planning and applying one privilege change against an OMV host whose calls may fail
    before or after taking effect, or leave any state behind. */
module OmvSharing {
  import OmvCalls
  import opened Privileges
  import opened Texts
  import opened Wrappers

  datatype Module = Samba | Rsyncd

  datatype Folder = Folder(uuid: string, name: string, status: string)

  const MAX_FOLDERS: nat := 1024

  predicate CleanFolder(f: Folder) {
    IsUuid(f.uuid) && Lower(f.uuid) == f.uuid
    && f.name != "" && BoundedText(f.name, 255) && f.status != "" && BoundedText(f.status, 64)
  }

  /** `shared_folders`: the well-formed rows, cleaned, with their UUIDs in lower case. */
  function Shared(rows: seq<Folder>): (fs: seq<Folder>)
    ensures forall f :: f in fs ==> CleanFolder(f)
  {
    if rows == [] then []
    else
      var uuid, name, status := SafeText(rows[0].uuid, 36), SafeText(rows[0].name, 255), SafeText(rows[0].status, 64);
      if !IsUuid(uuid) || name == "" then Shared(rows[1..])
      else
        LowerUuid(uuid);
        [Folder(Lower(uuid), name, if status == "" then "unknown" else status)] + Shared(rows[1..])
  }

  predicate Online(f: Folder) {
    Folded(f.status) in {"ok", "online"}
  }

  /** `rows` are the shared folders as OMV lists them; `touches` are the modules that a stored privilege list makes dirty. */
  datatype Omv = Omv(
    rows: seq<Folder>, privileges: map<string, seq<Entry>>, dirty: set<Module>, touches: set<Module>)
  {
    function Folders(): seq<Folder> {
      Shared(if |rows| <= MAX_FOLDERS then rows else rows[..MAX_FOLDERS])
    }
  }

  datatype Call =
    | IsDirty(m: Module)
    | ApplyChanges(m: Module)
    | GetFolders
    | GetPrivileges(uuid: string)
    | SetPrivileges(uuid: string, settings: seq<Setting>)

  type Env = OmvCalls.Env<Omv, Call>

  function Lookup(ss: seq<Setting>, p: Principal): Option<int> {
    if ss == [] then None else if ss[0].who == p then Some(ss[0].perms) else Lookup(ss[1..], p)
  }

  function Store(es: seq<Entry>, ss: seq<Setting>): (r: seq<Entry>)
    ensures |r| == |es|
    ensures forall i :: 0 <= i < |es| ==> r[i] == es[i].(perms := Lookup(ss, es[i].who))
  {
    if es == [] then [] else [es[0].(perms := Lookup(ss, es[0].who))] + Store(es[1..], ss)
  }

  /** What a working call does. */
  function Effect(o: Omv, c: Call): Omv {
    match c
    case ApplyChanges(m) => o.(dirty := o.dirty - {m})
    case SetPrivileges(uuid, ss) =>
      if uuid in o.privileges
      then o.(privileges := o.privileges[uuid := Store(o.privileges[uuid], ss)], dirty := o.dirty + o.touches)
      else o
    case _ => o
  }

  /** The runner refuses lists that are not canonical. */
  predicate Allowed(c: Call) {
    c.SetPrivileges? ==> RunnerAccepts(c.settings)
  }

  function Rpc(e: Env, c: Call): (Env, bool) {
    OmvCalls.Send(e, c, Effect, Allowed(c))
  }

  datatype Permission = Inherit | NoAccess | Read | ReadWrite

  function Perms(p: Permission): Option<int> {
    match p
    case Inherit => None
    case NoAccess => Some(0)
    case Read => Some(5)
    case ReadWrite => Some(7)
  }

  datatype Desired = Desired(folder: string, who: Principal, permission: Permission)

  /** `_validated_share_privilege_desired`. */
  function Validated(d: Desired): Option<Desired> {
    if IsUuid(d.folder) && ValidName(d.who.name) then Some(d.(folder := Lower(d.folder))) else None
  }

  /** Digests of what they are computed from. */
  datatype Revision = Revision(folder: Folder, configured: seq<Setting>)
  datatype PlanId = PlanId(base: Revision, desired: Desired)

  datatype Plan = Plan(id: PlanId, principalId: int, before: Permission) {
    predicate Changes() {
      before != id.desired.permission
    }
  }

  datatype Failure = Invalid | Conflict | Broken | RollbackFailed

  datatype Outcome = Outcome(plan: Plan, applied: bool, deployed: seq<Module>)

  const MODULES: seq<Module> := [Samba, Rsyncd]

  function AssertClean(e: Env, ms: seq<Module>): (Env, Option<Failure>)
    decreases |ms|
  {
    if ms == [] then (e, None)
    else
      var (e1, ok) := Rpc(e, IsDirty(ms[0]));
      if !ok then (e1, Some(Broken))
      else if ms[0] in e1.omv.dirty then (e1, Some(Conflict))
      else AssertClean(e1, ms[1..])
  }

  /** `_apply_privilege_modules`: deploy each dirty module. */
  function Deploy(e: Env, ms: seq<Module>): (Env, Option<seq<Module>>)
    decreases |ms|
  {
    if ms == [] then (e, Some([]))
    else
      var (e1, ok) := Rpc(e, IsDirty(ms[0]));
      if !ok then (e1, None)
      else if ms[0] !in e1.omv.dirty then Deploy(e1, ms[1..])
      else
        var (e2, deployed) := Rpc(e1, ApplyChanges(ms[0]));
        if !deployed then (e2, None)
        else
          var (e3, more) := Deploy(e2, ms[1..]);
          (e3, if more.None? then None else Some([ms[0]] + more.value))
  }

  predicate GoodPayload(es: seq<Entry>) {
    && |es| <= MAX_PRIVILEGES
    && (forall i :: 0 <= i < |es| ==> ValidEntry(es[i]))
    && Distinct(Names(es, EntryKey))
  }

  predicate Enumerated(folders: seq<Folder>, uuid: string) {
    exists i :: 0 <= i < |folders| && folders[i].uuid == uuid
  }

  /** The rows that `getPrivileges` answers for an enumerated folder. */
  function Listing(e: Env, uuid: string): (Env, Option<seq<Entry>>) {
    var (e1, ok) := Rpc(e, GetFolders);
    if !ok || !Enumerated(e1.omv.Folders(), uuid) then (e1, None)
    else
      var (e2, answered) := Rpc(e1, GetPrivileges(uuid));
      (e2, if answered && uuid in e2.omv.privileges then Some(e2.omv.privileges[uuid]) else None)
  }

  function Normalized(payload: Option<seq<Entry>>): Option<seq<Entry>> {
    if payload.Some? && GoodPayload(payload.value) then Some(SortBy(payload.value, EntryKey)) else None
  }

  /** `_privilege_inventory`. */
  function Inventory(e: Env, uuid: string): (Env, Option<seq<Entry>>) {
    var (e', payload) := Listing(e, uuid);
    (e', Normalized(payload))
  }

  function FindFolder(fs: seq<Folder>, uuid: string): (r: Option<Folder>)
    ensures r.Some? <==> Enumerated(fs, uuid)
    ensures r.Some? ==> r.value in fs && r.value.uuid == uuid
  {
    if fs == [] then None else if fs[0].uuid == uuid then Some(fs[0]) else FindFolder(fs[1..], uuid)
  }

  function Matching(es: seq<Entry>, p: Principal): (r: seq<Entry>)
    ensures forall e :: e in r <==> e in es && e.who == p
  {
    if es == [] then []
    else (if es[0].who == p then [es[0]] else []) + Matching(es[1..], p)
  }

  datatype Context = Context(folder: Folder, inventory: seq<Entry>, principal: Entry)

  /** `_share_privilege_context`. */
  function ContextOf(e: Env, d: Desired): (Env, Result<Context, Failure>) {
    var (e1, ok) := Rpc(e, GetFolders);
    if !ok then (e1, Err(Broken))
    else
      var folder := FindFolder(e1.omv.Folders(), d.folder);
      if folder.None? then (e1, Err(Invalid))
      else if !Online(folder.value) then (e1, Err(Conflict))
      else
        var (e2, inventory) := Inventory(e1, d.folder);
        if inventory.None? then (e2, Err(Broken))
        else if |Matching(inventory.value, d.who)| != 1 then (e2, Err(Invalid))
        else (e2, Ok(Context(folder.value, inventory.value, Matching(inventory.value, d.who)[0])))
  }

  function PermissionOf(perms: Option<int>): Permission {
    if perms.None? then Inherit else if perms.value == 0 then NoAccess
    else if perms.value == 5 then Read else ReadWrite
  }

  function PlanFor(c: Context, d: Desired): Plan {
    Plan(PlanId(Revision(c.folder, Configured(c.inventory)), d), c.principal.id, PermissionOf(c.principal.perms))
  }

  /** `plan_share_privilege` of a validated request. */
  function PlanOf(e: Env, d: Desired): (Env, Result<Plan, Failure>) {
    var (e1, unclean) := AssertClean(e, MODULES);
    if unclean.Some? then (e1, Err(unclean.value))
    else
      var (e2, c) := ContextOf(e1, d);
      (e2, if c.Err? then Err(c.error) else Ok(PlanFor(c.value, d)))
  }

  /** Set a list, deploy, and read it back; the same for an update and its rollback. */
  function Install(e: Env, uuid: string, ss: seq<Setting>): (Env, Option<seq<Module>>) {
    var (e1, ok) := Rpc(e, SetPrivileges(uuid, ss));
    if !ok then (e1, None)
    else
      var (e2, deployed) := Deploy(e1, MODULES);
      if deployed.None? then (e2, None)
      else
        var (e3, observed) := Inventory(e2, uuid);
        (e3, if observed.Some? && Configured(observed.value) == ss then deployed else None)
  }

  /** The mutating half of `apply_share_privilege`. */
  function Replace(e: Env, uuid: string, original: seq<Setting>, wanted: seq<Setting>)
    : (Env, Result<seq<Module>, Failure>)
  {
    var (e1, deployed) := Install(e, uuid, wanted);
    if deployed.Some? then (e1, Ok(deployed.value))
    else
      var (e2, restored) := Install(e1, uuid, original);
      (e2, Err(if restored.Some? then Broken else RollbackFailed))
  }

  /** The checks of `apply_share_privilege` after its plan is confirmed. */
  function Recheck(e: Env, plan: Plan): (Env, Result<Context, Failure>) {
    var (e1, c) := ContextOf(e, plan.id.desired);
    if c.Err? then (e1, c)
    else if Revision(c.value.folder, Configured(c.value.inventory)) != plan.id.base then (e1, Err(Conflict))
    else
      var (e2, unclean) := AssertClean(e1, MODULES);
      (e2, if unclean.Some? then Err(unclean.value) else c)
  }

  /** `apply_share_privilege` of a validated request. */
  function Apply(e: Env, d: Desired, approved: PlanId): (Env, Result<Outcome, Failure>) {
    var (e1, plan) := PlanOf(e, d);
    if plan.Err? then (e1, Err(plan.error))
    else if plan.value.id != approved then (e1, Err(Conflict))
    else if !plan.value.Changes() then (e1, Ok(Outcome(plan.value, false, [])))
    else
      var (e2, c) := Recheck(e1, plan.value);
      if c.Err? then (e2, Err(c.error))
      else
        var original := Configured(c.value.inventory);
        var (e3, r) := Replace(e2, d.folder, original, Wanted(original, d.who, Perms(d.permission)));
        (e3, if r.Ok? then Ok(Outcome(plan.value, true, r.value)) else Err(r.error))
  }
}
