/** Planning and applying one filesystem quota.  Limits are read in any unit but written
    in whole KiB. */
module OmvQuota {
  import opened OmvCalls
  import opened Privileges
  import opened Texts
  import opened Wrappers

  const MAX_QUOTA: int := 0x7fff_ffff_ffff_ffff
  const MAX_ROWS: nat := 2048

  datatype Unit = B | KiB | MiB | GiB | TiB | PiB | EiB | Unknown

  function Factor(u: Unit): int
    requires !u.Unknown?
  {
    match u
    case B => 1
    case KiB => 0x400
    case MiB => 0x10_0000
    case GiB => 0x4000_0000
    case TiB => 0x100_0000_0000
    case PiB => 0x4_0000_0000_0000
    case EiB => 0x1000_0000_0000_0000
  }

  /** `_quota_limit_bytes`: an exact, bounded number of bytes, or nothing. */
  function LimitBytes(value: Option<real>, unit: Unit): (r: Option<int>)
    ensures r.Some? ==> 0 <= r.value <= MAX_QUOTA
  {
    if value.None? || unit.Unknown? || value.value < 0.0 then None
    else
      var exact := value.value * (Factor(unit) as real);
      if exact == exact.Floor as real && exact.Floor <= MAX_QUOTA then Some(exact.Floor) else None
  }

  /** A mounted filesystem; `info` is the rest of what its revision covers. */
  datatype Mount = Mount(uuid: string, info: string, readOnly: bool, supportsQuota: bool)

  datatype Row = Row(who: Principal, value: Option<real>, unit: Unit, used: string)

  datatype Host = Host(mounts: seq<Mount>, quotas: map<string, seq<Row>>, dirty: bool)

  datatype Call = IsDirty | GetMounts | GetQuota(uuid: string) | SetQuota(uuid: string, who: Principal, kib: int) | ApplyChanges

  function Stored(rows: seq<Row>, who: Principal, kib: int): (r: seq<Row>)
    ensures |r| == |rows|
    ensures forall i :: 0 <= i < |rows| ==>
              r[i] == if rows[i].who == who then rows[i].(value := Some(kib as real), unit := KiB) else rows[i]
  {
    if rows == [] then []
    else [if rows[0].who == who then rows[0].(value := Some(kib as real), unit := KiB) else rows[0]]
         + Stored(rows[1..], who, kib)
  }

  function Effect(h: Host, c: Call): Host {
    match c
    case SetQuota(uuid, who, kib) =>
      if uuid in h.quotas then h.(quotas := h.quotas[uuid := Stored(h.quotas[uuid], who, kib)], dirty := true) else h
    case ApplyChanges => h.(dirty := false)
    case _ => h
  }

  type QuotaEnv = Env<Host, Call>

  predicate Allowed(c: Call) {
    c.SetQuota? ==> 0 <= c.kib <= MAX_QUOTA / 1024
  }

  function Rpc(e: QuotaEnv, c: Call): (QuotaEnv, bool) {
    Send(e, c, Effect, Allowed(c))
  }

  datatype Desired = Desired(filesystem: string, who: Principal, limit: int)

  /** `_validated_quota_desired`. */
  function Validated(d: Desired): (r: Option<Desired>)
    ensures r.Some? ==> 0 <= r.value.limit <= MAX_QUOTA && r.value.limit % 1024 == 0
  {
    if IsUuid(d.filesystem) && BoundedText(d.who.name, 255) && Strip(d.who.name) != ""
       && 0 <= d.limit <= MAX_QUOTA && d.limit % 1024 == 0
    then Some(Desired(Lower(d.filesystem), d.who.(name := Strip(d.who.name)), d.limit))
    else None
  }

  datatype Subject = Subject(limit: int, used: string)

  datatype Failure = Invalid | Conflict | Broken | RollbackFailed

  function FindMount(ms: seq<Mount>, uuid: string): Option<Mount> {
    if ms == [] then None else if Lower(ms[0].uuid) == uuid then Some(ms[0]) else FindMount(ms[1..], uuid)
  }

  function SubjectOf(row: Row): Option<Subject> {
    var limit := LimitBytes(row.value, row.unit);
    var used := SafeText(row.used, 64);
    if limit.None? then None else Some(Subject(limit.value, if used == "" then "unknown" else used))
  }

  /** The subjects of the rows that match, or nothing if one of them has no valid limit. */
  function Matching(rows: seq<Row>, who: Principal): Option<seq<Subject>> {
    if rows == [] then Some([])
    else if rows[0].who != who then Matching(rows[1..], who)
    else
      var s, rest := SubjectOf(rows[0]), Matching(rows[1..], who);
      if s.None? || rest.None? then None else Some([s.value] + rest.value)
  }

  /** What a reading of the quota rows says about one principal. */
  function Reading(rows: seq<Row>, who: Principal): Result<Subject, Failure> {
    if |rows| > MAX_ROWS then Err(Broken)
    else
      var ms := Matching(rows, who);
      if ms.None? then Err(Broken) else if |ms.value| != 1 then Err(Invalid) else Ok(ms.value[0])
  }

  datatype Context = Context(mount: Mount, subject: Subject)

  predicate Usable(h: Host, d: Desired) {
    var m := FindMount(h.mounts, d.filesystem);
    m.Some? && !m.value.readOnly && m.value.supportsQuota
  }

  /** `_quota_context`. */
  function ContextOf(e: QuotaEnv, d: Desired): (QuotaEnv, Result<Context, Failure>) {
    var (e1, ok1) := Rpc(e, IsDirty);
    if !ok1 then (e1, Err(Broken))
    else if e1.omv.dirty then (e1, Err(Conflict))
    else
      var (e2, ok2) := Rpc(e1, GetMounts);
      if !ok2 then (e2, Err(Broken))
      else if FindMount(e2.omv.mounts, d.filesystem).None? then (e2, Err(Invalid))
      else if !Usable(e2.omv, d) then (e2, Err(Conflict))
      else
        var (e3, ok3) := Rpc(e2, GetQuota(d.filesystem));
        if !ok3 || d.filesystem !in e3.omv.quotas then (e3, Err(Broken))
        else
          var s := Reading(e3.omv.quotas[d.filesystem], d.who);
          (e3, if s.Err? then Err(s.error) else Ok(Context(FindMount(e2.omv.mounts, d.filesystem).value, s.value)))
  }

  datatype PlanId = PlanId(mount: Mount, subject: Subject, desired: Desired)

  /** Set a limit, apply it and read it back; the same for an update and its rollback. */
  function Install(e: QuotaEnv, d: Desired, limit: int): (QuotaEnv, bool) {
    var (e1, ok1) := Rpc(e, SetQuota(d.filesystem, d.who, limit / 1024));
    if !ok1 then (e1, false)
    else
      var (e2, ok2) := Rpc(e1, ApplyChanges);
      if !ok2 then (e2, false)
      else
        var (e3, c) := ContextOf(e2, d);
        (e3, c.Ok? && c.value.subject.limit == limit)
  }

  datatype Outcome = Outcome(id: PlanId, applied: bool)

  /** `plan_filesystem_quota` of a validated request. */
  function PlanOf(e: QuotaEnv, d: Desired): (QuotaEnv, Result<PlanId, Failure>) {
    var (e1, c) := ContextOf(e, d);
    (e1, if c.Err? then Err(c.error) else Ok(PlanId(c.value.mount, c.value.subject, d)))
  }

  /** `apply_filesystem_quota` of a validated request. */
  function Apply(e: QuotaEnv, d: Desired, approved: PlanId): (QuotaEnv, Result<Outcome, Failure>) {
    var (e1, plan) := PlanOf(e, d);
    if plan.Err? then (e1, Err(plan.error))
    else if plan.value != approved then (e1, Err(Conflict))
    else if approved.subject.limit == d.limit then (e1, Ok(Outcome(approved, false)))
    else
      var (e2, done) := Install(e1, d, d.limit);
      if done then (e2, Ok(Outcome(approved, true)))
      else
        var (e3, undone) := Install(e2, d, approved.subject.limit);
        (e3, Err(if undone then Broken else RollbackFailed))
  }

  // ----- the transaction -----

  /** The limit that the host holds for the subject. */
  function Held(h: Host, d: Desired): Option<int> {
    if d.filesystem !in h.quotas then None
    else
      var s := Reading(h.quotas[d.filesystem], d.who);
      if s.Ok? then Some(s.value.limit) else None
  }

  lemma ContextRead(e: QuotaEnv, d: Desired)
    requires ContextOf(e, d).1.Ok?
    ensures var (e', c) := ContextOf(e, d);
            Held(e'.omv, d) == Some(c.value.subject.limit)
  {
    hide Rpc, Reading, FindMount;
  }

  lemma InstalledIsHeld(e: QuotaEnv, d: Desired, limit: int)
    requires Install(e, d, limit).1
    ensures Held(Install(e, d, limit).0.omv, d) == Some(limit)
  {
    hide Rpc, ContextOf, Held;
    ContextRead(Rpc(Rpc(e, SetQuota(d.filesystem, d.who, limit / 1024)).0, ApplyChanges).0, d);
  }

  predicate Mutating(c: Call) {
    c.SetQuota? || c.ApplyChanges?
  }

  ghost predicate OnlyReads(e: QuotaEnv, e': QuotaEnv) {
    e.sent <= e'.sent && forall i :: |e.sent| <= i < |e'.sent| ==> !Mutating(e'.sent[i])
  }

  lemma ContextOnlyReads(e: QuotaEnv, d: Desired)
    ensures OnlyReads(e, ContextOf(e, d).0)
  {
    hide Rpc, FindMount, Reading, OnlyReads;
    ReadSends(e, IsDirty);
    var e1 := Rpc(e, IsDirty).0;
    ReadSends(e1, GetMounts);
    var e2 := Rpc(e1, GetMounts).0;
    ReadSends(e2, GetQuota(d.filesystem));
    OnlyReadsTrans(e, e1, e2);
    OnlyReadsTrans(e, e2, Rpc(e2, GetQuota(d.filesystem)).0);
  }

  lemma ReadSends(e: QuotaEnv, c: Call)
    requires !Mutating(c)
    ensures OnlyReads(e, Rpc(e, c).0)
  {
    hide Effect;
  }

  lemma OnlyReadsTrans(a: QuotaEnv, b: QuotaEnv, c: QuotaEnv)
    requires OnlyReads(a, b) && OnlyReads(b, c)
    ensures OnlyReads(a, c)
  {
  }

  /** Whatever the host does: a verified success leaves the requested limit, and an error
      that does not report a failed rollback either sent nothing that changes the host or
      leaves the limit of the approved plan. */
  lemma QuotaIsTransactional(e: QuotaEnv, d: Desired, approved: PlanId)
    ensures var (e', r) := Apply(e, d, approved);
            && (r.Ok? ==> Held(e'.omv, d) == Some(d.limit) && (r.value.applied || OnlyReads(e, e')))
            && (r.Err? && r.error != RollbackFailed ==>
                  OnlyReads(e, e') || Held(e'.omv, d) == Some(approved.subject.limit))
            && (OnlyReads(e, e') || (PlanOf(e, d).1 == Ok(approved) && approved.desired == d))
  {
    hide Install, ContextOf, Held, OnlyReads;
    ContextOnlyReads(e, d);
    var (e1, c) := ContextOf(e, d);
    if c.Ok? {
      ContextRead(e, d);
      var (e2, done) := Install(e1, d, d.limit);
      if done {
        InstalledIsHeld(e1, d, d.limit);
      } else if Install(e2, d, approved.subject.limit).1 {
        InstalledIsHeld(e2, d, approved.subject.limit);
      }
    }
  }

  // ----- when a rollback can succeed -----

  /** The host lists a usable filesystem with one readable row for the subject. */
  predicate Ready(h: Host, d: Desired) {
    Usable(h, d) && d.filesystem in h.quotas && Reading(h.quotas[d.filesystem], d.who).Ok?
  }

  lemma WholeKib(kib: int)
    requires 0 <= kib <= MAX_QUOTA / 1024
    ensures LimitBytes(Some(kib as real), KiB) == Some(kib * 1024)
  {
    assert Factor(KiB) as real == 1024.0;
    var exact := (kib as real) * 1024.0;
    assert exact == (kib * 1024) as real;
    assert exact.Floor == kib * 1024;
    assert (kib as real) * (Factor(KiB) as real) == exact;
  }

  lemma {:induction false} MatchingStored(rows: seq<Row>, who: Principal, kib: int)
    requires 0 <= kib <= MAX_QUOTA / 1024 && Matching(rows, who).Some?
    ensures var after := Matching(Stored(rows, who, kib), who);
            && after.Some? && |after.value| == |Matching(rows, who).value|
            && forall i :: 0 <= i < |after.value| ==> after.value[i].limit == kib * 1024
  {
    hide LimitBytes;
    if rows != [] {
      var stored := Stored(rows, who, kib);
      MatchingFront(rows, who);
      MatchingStored(rows[1..], who, kib);
      assert stored[1..] == Stored(rows[1..], who, kib);
      WholeKib(kib);
    }
  }

  lemma MatchingFront(rows: seq<Row>, who: Principal)
    requires rows != [] && Matching(rows, who).Some?
    ensures Matching(rows[1..], who).Some?
  {
  }

  /** Storing a limit rounds it down to whole KiB. */
  lemma StoredReads(h: Host, d: Desired, limit: int)
    requires Ready(h, d) && 0 <= limit <= MAX_QUOTA
    ensures var h' := Effect(Effect(h, SetQuota(d.filesystem, d.who, limit / 1024)), ApplyChanges);
            && Ready(h', d) && !h'.dirty && Held(h', d) == Some(limit / 1024 * 1024)
  {
    MatchingStored(h.quotas[d.filesystem], d.who, limit / 1024);
  }

  lemma SetKeepsReady(h: Host, d: Desired, kib: int)
    requires Ready(h, d) && 0 <= kib <= MAX_QUOTA / 1024
    ensures Ready(Effect(h, SetQuota(d.filesystem, d.who, kib)), d)
  {
    MatchingStored(h.quotas[d.filesystem], d.who, kib);
  }

  lemma RpcOneFault(e: QuotaEnv, c: Call)
    requires OneFault(e.script) && Allowed(c)
    ensures var (e', ok) := Rpc(e, c);
            && OneFault(e'.script) && (ok || Calm(e'.script)) && (Calm(e.script) ==> ok && Calm(e'.script))
            && (e'.omv == Effect(e.omv, c) || (!ok && e'.omv == e.omv))
  {
    SendOneFault(e, c, Effect);
  }

  lemma ContextKeeps(e: QuotaEnv, d: Desired)
    requires OneFault(e.script)
    ensures var (e', c) := ContextOf(e, d);
            && e'.omv == e.omv && OneFault(e'.script)
            && (c.Ok? ==> Ready(e.omv, d) && Held(e.omv, d) == Some(c.value.subject.limit))
            && (Calm(e.script) ==> Calm(e'.script))
            && (Ready(e.omv, d) && !e.omv.dirty ==> (c.Ok? || Calm(e'.script)) && (Calm(e.script) ==> c.Ok?))
  {
    hide Rpc, FindMount, Matching, Calm, OneFault;
    RpcOneFault(e, IsDirty);
    var (e1, _) := Rpc(e, IsDirty);
    RpcOneFault(e1, GetMounts);
    var (e2, _) := Rpc(e1, GetMounts);
    RpcOneFault(e2, GetQuota(d.filesystem));
  }

  /** On a host that works an installation is verified exactly if the limit is whole KiB. */
  lemma InstallOneFault(e: QuotaEnv, d: Desired, limit: int)
    requires OneFault(e.script) && Ready(e.omv, d) && 0 <= limit <= MAX_QUOTA
    ensures var (e', done) := Install(e, d, limit);
            && Ready(e'.omv, d) && OneFault(e'.script)
            && (done ==> limit % 1024 == 0)
            && (limit % 1024 == 0 ==> done || Calm(e'.script))
            && (Calm(e.script) && limit % 1024 == 0 ==> done)
  {
    hide Rpc, ContextOf, Ready, Held, Calm, OneFault;
    var c := SetQuota(d.filesystem, d.who, limit / 1024);
    RpcOneFault(e, c);
    SetKeepsReady(e.omv, d, limit / 1024);
    var (e1, ok1) := Rpc(e, c);
    if ok1 {
      RpcOneFault(e1, ApplyChanges);
      StoredReads(e.omv, d, limit);
      CleaningKeepsReady(e1.omv, d);
      var (e2, ok2) := Rpc(e1, ApplyChanges);
      if ok2 {
        ContextKeeps(e2, d);
        assert e2.omv == Effect(Effect(e.omv, c), ApplyChanges);
      }
    }
  }

  lemma CleaningKeepsReady(h: Host, d: Desired)
    requires Ready(h, d)
    ensures Ready(Effect(h, ApplyChanges), d)
  {
  }

  lemma HeldBounds(e: QuotaEnv, d: Desired)
    requires ContextOf(e, d).1.Ok?
    ensures 0 <= ContextOf(e, d).1.value.subject.limit <= MAX_QUOTA
  {
    hide Rpc, FindMount;
    var e2 := Rpc(Rpc(e, IsDirty).0, GetMounts).0;
    var rows := Rpc(e2, GetQuota(d.filesystem)).0.omv.quotas[d.filesystem];
    MatchingBounds(rows, d.who);
  }

  lemma {:induction false} MatchingBounds(rows: seq<Row>, who: Principal)
    requires Matching(rows, who).Some?
    ensures forall s :: s in Matching(rows, who).value ==> 0 <= s.limit <= MAX_QUOTA
  {
    if rows != [] {
      MatchingFront(rows, who);
      MatchingBounds(rows[1..], who);
    }
  }

  /** The bridge writes whole KiB but reads bytes, so with a single failing call the
      rollback fails precisely for an original limit that is not a multiple of 1024. */
  lemma RollbackFailsIffPartialKib(e: QuotaEnv, d: Desired, approved: PlanId)
    requires OneFault(e.script) && d.limit % 1024 == 0 && 0 <= d.limit <= MAX_QUOTA
    requires PlanOf(e, d).1 == Ok(approved) && approved.subject.limit != d.limit
    ensures var r := Apply(e, d, approved).1;
            && (Calm(e.script) ==> r == Ok(Outcome(approved, true)))
            && (r.Err? ==> (r.error == RollbackFailed <==> approved.subject.limit % 1024 != 0))
  {
    hide Install, ContextOf, Ready, Held, Calm, OneFault;
    ContextKeeps(e, d);
    HeldBounds(e, d);
    var (e1, _) := ContextOf(e, d);
    InstallOneFault(e1, d, d.limit);
    var (e2, done) := Install(e1, d, d.limit);
    if !done {
      InstallOneFault(e2, d, approved.subject.limit);
    }
  }

  /** A limit of one byte can be read but never written back. */
  lemma OneByteIsLost(e: QuotaEnv, d: Desired)
    ensures LimitBytes(Some(1.0), B) == Some(1)
    ensures OneFault(e.script) && Ready(e.omv, d) ==> !Install(e, d, 1).1
  {
    if OneFault(e.script) && Ready(e.omv, d) {
      InstallOneFault(e, d, 1);
    }
  }

  // ----- everybody else -----

  /** The same rows for every other subject, on every filesystem. */
  ghost predicate OthersKept(h: Host, h': Host, d: Desired) {
    && h.quotas.Keys == h'.quotas.Keys
    && forall uuid :: uuid in h.quotas ==>
      && |h'.quotas[uuid]| == |h.quotas[uuid]|
      && forall i :: 0 <= i < |h.quotas[uuid]| ==>
           || h'.quotas[uuid][i] == h.quotas[uuid][i]
           || (uuid == d.filesystem && h.quotas[uuid][i].who == d.who && h'.quotas[uuid][i].who == d.who)
  }

  lemma RpcKeepsOthers(h: Host, e: QuotaEnv, c: Call, d: Desired)
    requires Orderly(e.script) && OthersKept(h, e.omv, d)
    requires c.SetQuota? ==> c.uuid == d.filesystem && c.who == d.who
    ensures Orderly(Rpc(e, c).0.script) && OthersKept(h, Rpc(e, c).0.omv, d)
  {
    hide OthersKept;
    EffectKeepsOthers(h, e.omv, c, d);
    assert e.script != [] ==> !e.script[0].Anything?;
  }

  lemma EffectKeepsOthers(h: Host, g: Host, c: Call, d: Desired)
    requires OthersKept(h, g, d)
    requires c.SetQuota? ==> c.uuid == d.filesystem && c.who == d.who
    ensures OthersKept(h, Effect(g, c), d)
  {
  }

  lemma ContextKeepsOthers(h: Host, e: QuotaEnv, d: Desired)
    requires Orderly(e.script) && OthersKept(h, e.omv, d)
    ensures Orderly(ContextOf(e, d).0.script) && OthersKept(h, ContextOf(e, d).0.omv, d)
  {
    hide Rpc, OthersKept, Orderly, Reading, FindMount;
    RpcKeepsOthers(h, e, IsDirty, d);
    var e1 := Rpc(e, IsDirty).0;
    RpcKeepsOthers(h, e1, GetMounts, d);
    RpcKeepsOthers(h, Rpc(e1, GetMounts).0, GetQuota(d.filesystem), d);
  }

  lemma InstallKeepsOthers(h: Host, e: QuotaEnv, d: Desired, limit: int)
    requires Orderly(e.script) && OthersKept(h, e.omv, d)
    ensures Orderly(Install(e, d, limit).0.script) && OthersKept(h, Install(e, d, limit).0.omv, d)
  {
    hide Rpc, OthersKept, Orderly, ContextOf;
    var c := SetQuota(d.filesystem, d.who, limit / 1024);
    RpcKeepsOthers(h, e, c, d);
    var e1 := Rpc(e, c).0;
    RpcKeepsOthers(h, e1, ApplyChanges, d);
    ContextKeepsOthers(h, Rpc(e1, ApplyChanges).0, d);
  }

  /** However the calls fail, no apply changes another subject's quota. */
  lemma ApplyKeepsOthers(e: QuotaEnv, d: Desired, approved: PlanId)
    requires Orderly(e.script)
    ensures OthersKept(e.omv, Apply(e, d, approved).0.omv, d)
  {
    hide ContextOf, Install, Orderly;
    var h := e.omv;
    ContextKeepsOthers(h, e, d);
    var e1 := ContextOf(e, d).0;
    InstallKeepsOthers(h, e1, d, d.limit);
    InstallKeepsOthers(h, Install(e1, d, d.limit).0, d, approved.subject.limit);
  }
}
