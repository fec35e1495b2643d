/** What planning and creating a group answer on a host that works. */
module OmvGroupAnswers {
  import opened OmvCalls
  import opened OmvGroup
  import opened Privileges
  import opened Texts
  import opened Wrappers

  /** The row is a group that the bridge shows: a name, an id of 31 bits, and members. */
  predicate IsShown(row: Row) {
    && SafeText(row.name, 255) != "" && row.members.Some?
    && row.gid.Some? && 0 <= row.gid.value < 0x8000_0000
  }

  /** One of the first 1,024 rows is shown under this name. */
  ghost predicate ListedAs(rows: seq<Row>, name: string) {
    exists i :: 0 <= i < |rows| && i < 1024 && IsShown(rows[i]) && SafeText(rows[i].name, 255) == name
  }

  ghost predicate ShownAs(rows: seq<Row>, name: string) {
    exists i :: 0 <= i < |rows| && IsShown(rows[i]) && SafeText(rows[i].name, 255) == name
  }

  lemma ShownAsFront(rows: seq<Row>, name: string)
    requires rows != []
    ensures ShownAs(rows, name) <==> (IsShown(rows[0]) && SafeText(rows[0].name, 255) == name) || ShownAs(rows[1..], name)
  {
    hide SafeText, IsShown;
    if i :| 0 <= i < |rows| && IsShown(rows[i]) && SafeText(rows[i].name, 255) == name {
      if i > 0 {
        assert rows[1..][i - 1] == rows[i];
      }
    }
    if i :| 0 <= i < |rows[1..]| && IsShown(rows[1..][i]) && SafeText(rows[1..][i].name, 255) == name {
      assert rows[i + 1] == rows[1..][i];
    }
  }

  lemma HasNameFront(first: Listed, rest: seq<Listed>, name: string)
    ensures HasName([first] + rest, name) <==> first.name == name || HasName(rest, name)
  {
    var ls := [first] + rest;
    if i :| 0 <= i < |rest| && rest[i].name == name {
      assert ls[i + 1].name == name;
    }
    if i :| 0 <= i < |ls| && ls[i].name == name {
      assert i > 0 ==> rest[i - 1] == ls[i];
    }
    assert ls[0] == first;
  }

  lemma {:induction false} RowsNamed(rows: seq<Row>, name: string)
    ensures HasName(Rows(rows), name) <==> ShownAs(rows, name)
  {
    hide SafeText, HasName, ShownAs;
    if rows == [] {
      NobodyNamed(name);
    } else {
      RowsNamed(rows[1..], name);
      ShownAsFront(rows, name);
      if Shown(rows[0]) {
        HasNameFront(Listed(SafeText(rows[0].name, 255), rows[0].gid.value, rows[0].members.value), Rows(rows[1..]), name);
      }
    }
  }

  lemma NobodyNamed(name: string)
    ensures !HasName([], name) && !ShownAs([], name)
  {
  }

  /** The listing names exactly those groups. */
  lemma ListingNames(rows: seq<Row>, name: string)
    ensures HasName(Listing(rows), name) <==> ListedAs(rows, name)
  {
    hide Rows, SafeText, SortBy;
    var seen := if |rows| <= MAX_LISTED then rows else rows[..MAX_LISTED];
    RowsNamed(seen, name);
    SameMembers(Listing(rows), Rows(seen));
    if HasName(Listing(rows), name) {
      var k :| 0 <= k < |Listing(rows)| && Listing(rows)[k].name == name;
      assert Listing(rows)[k] in Rows(seen);
      var i :| 0 <= i < |seen| && IsShown(seen[i]) && SafeText(seen[i].name, 255) == name;
      assert rows[i] == seen[i];
    }
    if i :| 0 <= i < |rows| && i < 1024 && IsShown(rows[i]) && SafeText(rows[i].name, 255) == name {
      assert seen[i] == rows[i];
      var k :| 0 <= k < |Rows(seen)| && Rows(seen)[k].name == name;
      assert Rows(seen)[k] in Listing(rows);
      var n :| 0 <= n < |Listing(rows)| && Listing(rows)[n] == Rows(seen)[k];
    }
  }

  lemma CalmCall(e: GroupEnv, c: Call)
    requires Calm(e.script)
    ensures var (e', ok) := Rpc(e, c); ok && Calm(e'.script) && e'.omv == Effect(e.omv, c)
  {
    CalmIsOneFault(e.script);
    SendOneFault(e, c, Effect);
  }

  /** On a host that works, a plan is refused exactly if a group of this name is listed, and
      is otherwise for just this request. */
  lemma PlanAnswers(e: GroupEnv, d: Desired)
    requires Calm(e.script)
    ensures PlanOf(e, d).1 == if ListedAs(e.omv.groups, d.name) then Err(Conflict)
                              else Ok(PlanId(Listing(e.omv.groups), e.omv.users, d))
    ensures PlanOf(e, d).0.omv == e.omv && Calm(PlanOf(e, d).0.script)
  {
    hide Rpc, Calm, Listing, HasName;
    CalmCall(e, GetGroups);
    CalmCall(Rpc(e, GetGroups).0, GetUsers);
    ListingNames(e.omv.groups, d.name);
  }

  /** Applying on a host that works: any plan but the approved one is refused; the approved
      one leaves an empty group of that name and comment, whatever stood there, and all
      other groups as they were. */
  lemma ApplyAnswers(e: GroupEnv, d: Desired, approved: PlanId)
    requires Calm(e.script) && SafeText(d.comment, 65) == d.comment
    ensures var plan, (e', r) := PlanOf(e, d).1, Apply(e, d, approved);
            && (plan != Ok(approved) ==> e'.omv == e.omv && r == if plan.Err? then plan else Err(Conflict))
            && (plan == Ok(approved) ==>
                  && r == plan
                  && (exists row :: row in e'.omv.groups && row.name == d.name)
                  && (forall row :: row in e'.omv.groups && row.name == d.name ==>
                        row.comment == d.comment && row.members == Some([]))
                  && (forall row: Row :: row.name != d.name ==> (row in e'.omv.groups <==> row in e.omv.groups))
                  && e'.omv.users == e.omv.users)
  {
    hide Rpc, Calm, PlanOf, SafeText, Emptied;
    PlanAnswers(e, d);
    if PlanOf(e, d).1 == Ok(approved) {
      var e1 := PlanOf(e, d).0;
      CalmCall(e1, SetGroup(d.name, d.comment));
      var e2 := Rpc(e1, SetGroup(d.name, d.comment)).0;
      CalmCall(e2, GetGroup(d.name));
      SetLeaves(e.omv, d);
    }
  }

  lemma SetLeaves(h: Host, d: Desired)
    ensures var gs := Effect(h, SetGroup(d.name, d.comment)).groups;
            && (exists row :: row in gs && row.name == d.name)
            && (forall row :: row in gs && row.name == d.name ==> row.comment == d.comment && row.members == Some([]))
            && (forall row: Row :: row.name != d.name ==> (row in gs <==> row in h.groups))
            && Find(gs, d.name).Some? && Find(gs, d.name).value in gs && Find(gs, d.name).value.name == d.name
  {
    hide Emptied;
    var gs := Effect(h, SetGroup(d.name, d.comment)).groups;
    if Absent(h.groups, d.name) {
      assert gs[|h.groups|] in gs && gs[|h.groups|].name == d.name;
      forall row | row in h.groups ensures row.name != d.name {
      }
    } else {
      var i :| 0 <= i < |h.groups| && h.groups[i].name == d.name;
      assert gs[i] in gs;
      assert forall k :: 0 <= k < |gs| ==>
          gs[k] == if h.groups[k].name == d.name then h.groups[k].(comment := d.comment, members := Some([])) else h.groups[k];
      forall row: Row | row.name != d.name ensures row in gs <==> row in h.groups {
        if row in gs {
          var k :| 0 <= k < |gs| && gs[k] == row;
          assert h.groups[k] == row;
        }
        if row in h.groups {
          var k :| 0 <= k < |h.groups| && h.groups[k] == row;
          assert gs[k] == row;
        }
      }
    }
  }
}
