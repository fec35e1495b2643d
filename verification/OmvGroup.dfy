/** Creating an OMV group: check that it is new, set it, read it back, or delete it again. */
module OmvGroup {
  import opened OmvCalls
  import opened Privileges
  import opened Texts
  import opened Wrappers

  const MAX_LISTED: nat := 1024

  /** One group as OMV stores it; a listing shows it only with a valid id and members. */
  datatype Row = Row(name: string, comment: string, gid: Option<int>, members: Option<seq<string>>)

  datatype Host = Host(groups: seq<Row>, users: seq<string>)

  datatype Call = GetGroups | GetUsers | SetGroup(name: string, comment: string) | GetGroup(name: string) | DeleteGroup(name: string)

  function Find(rows: seq<Row>, name: string): (r: Option<Row>)
    ensures r.None? <==> Absent(rows, name)
    ensures r.Some? ==> r.value in rows && r.value.name == name
  {
    if rows == [] then None else if rows[0].name == name then Some(rows[0]) else Find(rows[1..], name)
  }

  predicate Absent(rows: seq<Row>, name: string) {
    forall i :: 0 <= i < |rows| ==> rows[i].name != name
  }

  /** Everybody else, in order. */
  function Others(rows: seq<Row>, name: string): (r: seq<Row>)
    ensures Absent(r, name)
    ensures Absent(rows, name) ==> r == rows
  {
    if rows == [] then [] else if rows[0].name == name then Others(rows[1..], name) else [rows[0]] + Others(rows[1..], name)
  }

  function Emptied(rows: seq<Row>, name: string, comment: string): (r: seq<Row>)
    ensures Others(r, name) == Others(rows, name)
    ensures |r| == |rows|
    ensures forall i :: 0 <= i < |rows| ==>
              r[i] == if rows[i].name == name then rows[i].(comment := comment, members := Some([])) else rows[i]
  {
    if rows == [] then []
    else
      var first := if rows[0].name == name then rows[0].(comment := comment, members := Some([])) else rows[0];
      var r := [first] + Emptied(rows[1..], name, comment);
      assert r[1..] == Emptied(rows[1..], name, comment);
      r
  }

  function Effect(h: Host, c: Call): Host {
    match c
    case SetGroup(name, comment) =>
      h.(groups := if Absent(h.groups, name) then h.groups + [Row(name, comment, Some(100), Some([]))]
                   else Emptied(h.groups, name, comment))
    case DeleteGroup(name) => h.(groups := Others(h.groups, name))
    case _ => h
  }

  type GroupEnv = Env<Host, Call>

  function Rpc(e: GroupEnv, c: Call): (GroupEnv, bool) {
    Send(e, c, Effect, true)
  }

  datatype Desired = Desired(name: string, comment: string)

  datatype Failure = Conflict | Broken | RollbackFailed

  /** A group as the bridge lists it. */
  datatype Listed = Listed(name: string, gid: int, members: seq<string>)

  function ListedKey(g: Listed): Principal { Principal(Group, g.name) }

  predicate Shown(row: Row) {
    SafeText(row.name, 255) != "" && row.gid.Some? && 0 <= row.gid.value <= 0x7fff_ffff && row.members.Some?
  }

  function Rows(rows: seq<Row>): (r: seq<Listed>)
    ensures forall i :: 0 <= i < |rows| && Shown(rows[i]) ==>
              exists k :: 0 <= k < |r| && r[k].name == SafeText(rows[i].name, 255)
  {
    if rows == [] then []
    else if Shown(rows[0]) then
      var rest := Rows(rows[1..]);
      var first := Listed(SafeText(rows[0].name, 255), rows[0].gid.value, rows[0].members.value);
      assert ([first] + rest)[0] == first && forall k :: 0 <= k < |rest| ==> ([first] + rest)[k + 1] == rest[k];
      [first] + rest
    else Rows(rows[1..])
  }

  /** `_normal_groups`: only the first 1,024 rows are looked at. */
  function Listing(rows: seq<Row>): seq<Listed> {
    SortBy(Rows(if |rows| <= MAX_LISTED then rows else rows[..MAX_LISTED]), ListedKey)
  }

  predicate HasName(ls: seq<Listed>, name: string) {
    exists i :: 0 <= i < |ls| && ls[i].name == name
  }

  datatype PlanId = PlanId(groups: seq<Listed>, users: seq<string>, desired: Desired)

  /** `plan_group` of a validated request. */
  function PlanOf(e: GroupEnv, d: Desired): (GroupEnv, Result<PlanId, Failure>) {
    var (e1, ok1) := Rpc(e, GetGroups);
    if !ok1 then (e1, Err(Broken))
    else if HasName(Listing(e1.omv.groups), d.name) then (e1, Err(Conflict))
    else
      var (e2, ok2) := Rpc(e1, GetUsers);
      if !ok2 then (e2, Err(Broken)) else (e2, Ok(PlanId(Listing(e1.omv.groups), e2.omv.users, d)))
  }

  predicate Created(h: Host, d: Desired) {
    var g := Find(h.groups, d.name);
    g.Some? && SafeText(g.value.comment, 65) == d.comment && g.value.members == Some([])
  }

  function Create(e: GroupEnv, d: Desired): (GroupEnv, bool) {
    var (e1, ok1) := Rpc(e, SetGroup(d.name, d.comment));
    if !ok1 then (e1, false)
    else
      var (e2, ok2) := Rpc(e1, GetGroup(d.name));
      (e2, ok2 && Created(e2.omv, d))
  }

  function Undo(e: GroupEnv, d: Desired): (GroupEnv, bool) {
    var (e1, ok1) := Rpc(e, DeleteGroup(d.name));
    if !ok1 then (e1, false)
    else
      var (e2, ok2) := Rpc(e1, GetGroups);
      (e2, ok2 && !HasName(Listing(e2.omv.groups), d.name))
  }

  /** `apply_group` of a validated request. */
  function Apply(e: GroupEnv, d: Desired, approved: PlanId): (GroupEnv, Result<PlanId, Failure>) {
    var (e1, plan) := PlanOf(e, d);
    if plan.Err? then (e1, plan)
    else if plan.value != approved then (e1, Err(Conflict))
    else
      var (e2, done) := Create(e1, d);
      if done then (e2, plan)
      else
        var (e3, undone) := Undo(e2, d);
        (e3, Err(if undone then Broken else RollbackFailed))
  }

  /** Whatever the host does: success leaves the requested empty group, and an error after
      the group was set that does not report a failed rollback leaves no listed group of
      that name. */
  lemma GroupIsTransactional(e: GroupEnv, d: Desired, approved: PlanId)
    ensures var (e', r) := Apply(e, d, approved);
            && (r.Ok? ==> Created(e'.omv, d))
            && (r == Err(Broken) && PlanOf(e, d).1 == Ok(approved) ==> !HasName(Listing(e'.omv.groups), d.name))
            && (PlanOf(e, d).1 != Ok(approved) ==> e' == PlanOf(e, d).0 && r.Err?)
  {
    hide Listing, Find, Rpc;
  }

  // ----- what the 1,024-row window misses -----

  lemma RpcOrderly(e: GroupEnv, c: Call)
    requires Orderly(e.script)
    ensures var (e', ok) := Rpc(e, c);
            && Orderly(e'.script) && (e'.omv == Effect(e.omv, c) || (!ok && e'.omv == e.omv))
  {
  }

  /** However the calls fail, every other group keeps its row. */
  lemma EffectKeepsOthers(h: Host, c: Call, name: string)
    requires c.SetGroup? || c.DeleteGroup? ==> c.name == name
    ensures Others(Effect(h, c).groups, name) == Others(h.groups, name)
  {
    if c.SetGroup? && Absent(h.groups, name) {
      OthersAppend(h.groups, Row(name, c.comment, Some(100), Some([])));
    }
  }

  lemma {:induction false} OthersAppend(rows: seq<Row>, g: Row)
    ensures Others(rows + [g], g.name) == Others(rows, g.name)
  {
    if rows != [] {
      assert (rows + [g])[1..] == rows[1..] + [g];
      OthersAppend(rows[1..], g);
    }
  }

  lemma PlanOrderly(e: GroupEnv, d: Desired)
    requires Orderly(e.script)
    ensures Orderly(PlanOf(e, d).0.script) && PlanOf(e, d).0.omv == e.omv
    ensures PlanOf(e, d).1.Ok? ==> !HasName(Listing(e.omv.groups), d.name)
  {
    hide Rpc, Listing, Orderly;
    RpcOrderly(e, GetGroups);
    RpcOrderly(Rpc(e, GetGroups).0, GetUsers);
  }

  lemma CreateOrderly(e: GroupEnv, d: Desired)
    requires Orderly(e.script)
    ensures Orderly(Create(e, d).0.script) && Others(Create(e, d).0.omv.groups, d.name) == Others(e.omv.groups, d.name)
  {
    hide Rpc, Others, Orderly, Find, Emptied, Absent;
    var c := SetGroup(d.name, d.comment);
    RpcOrderly(e, c);
    EffectKeepsOthers(e.omv, c, d.name);
    RpcOrderly(Rpc(e, c).0, GetGroup(d.name));
  }

  /** A reported rollback on an orderly host removes the name altogether and changes no
      other group: it restores the host exactly if the name was absent before. */
  lemma RollbackRestoresIffAbsent(e: GroupEnv, d: Desired, approved: PlanId)
    requires Orderly(e.script) && PlanOf(e, d).1 == Ok(approved)
    requires Apply(e, d, approved).1 == Err(Broken)
    ensures Apply(e, d, approved).0.omv.groups == Others(e.omv.groups, d.name)
    ensures Apply(e, d, approved).0.omv.groups == e.omv.groups <==> Absent(e.omv.groups, d.name)
  {
    hide Rpc, Others, Orderly, Listing, PlanOf, Create;
    PlanOrderly(e, d);
    var e1 := PlanOf(e, d).0;
    CreateOrderly(e1, d);
    var e2 := Create(e1, d).0;
    RpcOrderly(e2, DeleteGroup(d.name));
    RpcOrderly(Rpc(e2, DeleteGroup(d.name)).0, GetGroups);
  }

  /** A new group is added after the others; one that the listing missed is emptied. */
  lemma SuccessAddsIffAbsent(e: GroupEnv, d: Desired, approved: PlanId)
    requires Orderly(e.script) && Apply(e, d, approved).1.Ok?
    ensures var after := Apply(e, d, approved).0.omv.groups;
            && Others(after, d.name) == Others(e.omv.groups, d.name)
            && (e.omv.groups <= after && |after| == |e.omv.groups| + 1 <==> Absent(e.omv.groups, d.name))
  {
    hide Rpc, Orderly, Listing, PlanOf, Find, Others;
    PlanOrderly(e, d);
    var e1 := PlanOf(e, d).0;
    CreateOrderly(e1, d);
    var c := SetGroup(d.name, d.comment);
    RpcOrderly(e1, c);
    RpcOrderly(Rpc(e1, c).0, GetGroup(d.name));
  }

  /** Up to 1,024 groups, all well-formed, nothing is missed: what was planned is new. */
  lemma ShortListingsMissNothing(h: Host, name: string)
    requires |h.groups| <= MAX_LISTED
    requires forall g :: g in h.groups && g.name == name ==> Shown(g) && SafeText(name, 255) == name
    requires !HasName(Listing(h.groups), name)
    ensures Absent(h.groups, name)
  {
    forall i | 0 <= i < |h.groups| ensures h.groups[i].name != name {
      assert h.groups[i] in h.groups;
      if h.groups[i].name == name {
        ShownIsListed(h.groups, i);
      }
    }
  }

  lemma ShownIsListed(rows: seq<Row>, i: nat)
    requires i < |rows| <= MAX_LISTED && Shown(rows[i])
    ensures HasName(Listing(rows), SafeText(rows[i].name, 255))
  {
    var ls := Rows(rows);
    var k :| 0 <= k < |ls| && ls[k].name == SafeText(rows[i].name, 255);
    SameMember(Listing(rows), ls, ls[k]);
    assert ls[k] in ls;
  }

  function Filler(n: nat): (rows: seq<Row>)
    ensures |rows| == n && forall i :: 0 <= i < n ==> rows[i] == Row("g", "", Some(i), Some([]))
  {
    seq(n, i => Row("g", "", Some(i), Some([])))
  }

  /** A group beyond the first 1,024 rows is not seen: the plan takes its name for new,
      and applying the plan empties it. */
  lemma HiddenGroupIsEmptied(rows: seq<Row>, users: seq<string>, d: Desired, at: nat)
    requires MAX_LISTED <= at < |rows| && rows[at].name == d.name
    requires forall i :: 0 <= i < at ==> rows[i].name != d.name
    requires !HasName(Listing(rows[..MAX_LISTED]), d.name) && SafeText(d.comment, 65) == d.comment
    ensures var e := Env(Host(rows, users), [], []);
            var plan := PlanOf(e, d).1;
            && plan.Ok? && Apply(e, d, plan.value).1.Ok?
            && Find(Apply(e, d, plan.value).0.omv.groups, d.name)
               == Some(rows[at].(comment := d.comment, members := Some([])))
  {
    hide PlanOf, Create, SafeText, Emptied, Find;
    var e := Env(Host(rows, users), [], []);
    PlanWithoutScript(e, d);
    var e1 := PlanOf(e, d).0;
    CreateWithoutScript(e1, d, at);
  }

  lemma PlanWithoutScript(e: GroupEnv, d: Desired)
    requires e.script == [] && |e.omv.groups| > MAX_LISTED
    requires !HasName(Listing(e.omv.groups[..MAX_LISTED]), d.name)
    ensures PlanOf(e, d).1.Ok? && PlanOf(e, d).0.omv == e.omv && PlanOf(e, d).0.script == []
  {
    hide SortBy, Rows, HasName;
    assert Listing(e.omv.groups) == Listing(e.omv.groups[..MAX_LISTED]);
  }

  lemma CreateWithoutScript(e: GroupEnv, d: Desired, at: nat)
    requires e.script == [] && at < |e.omv.groups| && e.omv.groups[at].name == d.name
    requires forall i :: 0 <= i < at ==> e.omv.groups[i].name != d.name
    requires SafeText(d.comment, 65) == d.comment
    ensures Create(e, d).1
    ensures Find(Create(e, d).0.omv.groups, d.name)
            == Some(e.omv.groups[at].(comment := d.comment, members := Some([])))
  {
    hide SafeText, Emptied, Find;
    var rows := Emptied(e.omv.groups, d.name, d.comment);
    FindAt(rows, d.name, at);
    var (e1, ok) := Rpc(e, SetGroup(d.name, d.comment));
    assert e1.omv.groups == rows;
  }

  /** For instance the 1,025th group of a host. */
  lemma StaffIsEmptied(users: seq<string>)
    ensures var e := Env(Host(Filler(MAX_LISTED) + [Row("staff", "all staff", Some(5000), Some(["ann"]))], users), [], []);
            var d := Desired("staff", "");
            var plan := PlanOf(e, d).1;
            && plan.Ok? && Apply(e, d, plan.value).1.Ok?
            && Find(Apply(e, d, plan.value).0.omv.groups, "staff") == Some(Row("staff", "", Some(5000), Some([])))
  {
    hide Rpc, Apply, PlanOf, Find;
    var rows := Filler(MAX_LISTED) + [Row("staff", "all staff", Some(5000), Some(["ann"]))];
    assert rows[..MAX_LISTED] == Filler(MAX_LISTED);
    OnlyFiller(MAX_LISTED);
    HiddenGroupIsEmptied(rows, users, Desired("staff", ""), MAX_LISTED);
  }

  lemma {:induction false} FindAt(rows: seq<Row>, name: string, i: nat)
    requires i < |rows| && rows[i].name == name && forall k :: 0 <= k < i ==> rows[k].name != name
    ensures Find(rows, name) == Some(rows[i])
  {
    if i > 0 {
      FindAt(rows[1..], name, i - 1);
    }
  }

  lemma OnlyFiller(n: nat)
    requires n <= MAX_LISTED
    ensures !HasName(Listing(Filler(n)), "staff")
  {
    RowsNamed(Filler(n), "g");
    var sorted := SortBy(Rows(Filler(n)), ListedKey);
    forall i | 0 <= i < |sorted| ensures sorted[i].name != "staff" {
      SameMember(sorted, Rows(Filler(n)), sorted[i]);
      assert sorted[i] in sorted;
    }
  }

  lemma {:induction false} RowsNamed(rows: seq<Row>, name: string)
    requires forall i :: 0 <= i < |rows| ==> rows[i].name == name
    ensures forall l :: l in Rows(rows) ==> l.name == SafeText(name, 255)
  {
    if rows != [] {
      RowsNamed(rows[1..], name);
    }
  }
}
