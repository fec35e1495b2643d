/** Building a member's scope from OMV's folders and privileges. */
module DataScope {
  import opened ArchivePaths
  import opened DataAccess
  import opened Privileges
  import opened Wrappers

  /** One row of the privilege list; no permission means inherit. */
  datatype Grant = Grant(who: Principal, permission: Option<Perm>)

  /** Rows with names, each principal once. */
  predicate ValidGrants(gs: seq<Grant>) {
    && (forall i :: 0 <= i < |gs| ==> gs[i].who.name != "")
    && forall i, j :: 0 <= i < j < |gs| ==> gs[i].who != gs[j].who
  }

  function Direct(gs: seq<Grant>, user: string): Option<Perm> {
    if gs == [] then None
    else if gs[0].who == Principal(User, user) then gs[0].permission
    else Direct(gs[1..], user)
  }

  predicate ThroughGroup(g: Grant, groups: set<string>) {
    g.who.role == Group && g.who.name in groups && g.permission.Some?
  }

  /** The highest permission of the member's groups. */
  function Best(gs: seq<Grant>, groups: set<string>): Perm {
    if gs == [] then NoAccess
    else
      var rest := Best(gs[1..], groups);
      if ThroughGroup(gs[0], groups) && Rank(gs[0].permission.value) > Rank(rest) then gs[0].permission.value else rest
  }

  /** `_effective_permission`: the member's own row wins, then the best of the groups. */
  function Effective(gs: seq<Grant>, user: string, groups: set<string>): Option<Perm> {
    if !ValidGrants(gs) then None
    else if Direct(gs, user).Some? then Direct(gs, user)
    else Some(Best(gs, groups))
  }

  lemma {:induction false} DirectIsOwnRow(gs: seq<Grant>, user: string, p: Perm)
    requires ValidGrants(gs)
    ensures Direct(gs, user) == Some(p) <==> Grant(Principal(User, user), Some(p)) in gs
  {
    if gs != [] {
      DirectIsOwnRow(gs[1..], user, p);
      assert gs == [gs[0]] + gs[1..];
      assert forall g :: g in gs[1..] ==> g.who != gs[0].who;
    }
  }

  lemma {:induction false} BestIsHighest(gs: seq<Grant>, groups: set<string>)
    ensures forall g :: g in gs && ThroughGroup(g, groups) ==> Rank(g.permission.value) <= Rank(Best(gs, groups))
    ensures Best(gs, groups) == NoAccess
            || exists g :: g in gs && ThroughGroup(g, groups) && g.permission.value == Best(gs, groups)
  {
    if gs != [] {
      BestIsHighest(gs[1..], groups);
      assert gs[0] in gs && forall g :: g in gs[1..] ==> g in gs;
      assert forall g :: g in gs ==> g == gs[0] || g in gs[1..];
    }
  }

  lemma SameRows(gs: seq<Grant>, hs: seq<Grant>)
    requires multiset(gs) == multiset(hs)
    ensures forall g :: g in gs <==> g in hs
    ensures ValidGrants(gs) ==> ValidGrants(hs)
  {
    forall g ensures g in gs <==> g in hs {
      assert g in gs <==> g in multiset(gs);
    }
    if ValidGrants(gs) {
      assert forall i :: 0 <= i < |hs| ==> hs[i] in gs;
      forall i, j | 0 <= i < j < |hs| ensures hs[i].who != hs[j].who {
        DistinctWho(gs, hs, i, j);
      }
    }
  }

  /** Two rows for one principal would have to be one row twice. */
  lemma DistinctWho(gs: seq<Grant>, hs: seq<Grant>, i: nat, j: nat)
    requires ValidGrants(gs) && multiset(gs) == multiset(hs) && i < j < |hs|
    ensures hs[i].who != hs[j].who
  {
    assert hs[i] in multiset(gs) && hs[j] in multiset(gs);
    var a :| 0 <= a < |gs| && gs[a] == hs[i];
    var b :| 0 <= b < |gs| && gs[b] == hs[j];
    AtMostOnce(gs, a);
    TwiceCounts(hs, i, j);
    assert a != b;
  }

  lemma TwiceCounts(hs: seq<Grant>, i: nat, j: nat)
    requires i < j < |hs|
    ensures hs[i] == hs[j] ==> multiset(hs)[hs[i]] >= 2
  {
    assert hs == hs[..j] + hs[j..];
    assert hs[..j][i] == hs[i] && hs[j..][0] == hs[j];
    assert hs[i] in multiset(hs[..j]) && hs[j] in multiset(hs[j..]);
  }

  lemma {:induction false} AtMostOnce(gs: seq<Grant>, a: nat)
    requires ValidGrants(gs) && a < |gs|
    ensures multiset(gs)[gs[a]] == 1
  {
    assert gs == gs[..a] + [gs[a]] + gs[a + 1..];
    assert gs[a] !in gs[..a] && gs[a] !in gs[a + 1..];
    assert multiset(gs[..a])[gs[a]] == 0 && multiset(gs[a + 1..])[gs[a]] == 0;
  }

  /** The effective permission does not depend on the order of the privilege list. */
  lemma EffectiveIgnoresOrder(gs: seq<Grant>, hs: seq<Grant>, user: string, groups: set<string>)
    requires multiset(gs) == multiset(hs)
    ensures Effective(gs, user, groups) == Effective(hs, user, groups)
  {
    hide ValidGrants;
    SameRows(gs, hs);
    SameRows(hs, gs);
    if ValidGrants(gs) {
      forall p ensures Direct(gs, user) == Some(p) <==> Direct(hs, user) == Some(p) {
        DirectIsOwnRow(gs, user, p);
        DirectIsOwnRow(hs, user, p);
      }
      assert Direct(gs, user) == Direct(hs, user);
      BestIsHighest(gs, groups);
      BestIsHighest(hs, groups);
      assert Rank(Best(gs, groups)) == Rank(Best(hs, groups));
    }
  }

  /** A member may write through a group only if no row of their own says otherwise. */
  lemma OwnRowWins(gs: seq<Grant>, user: string, groups: set<string>, p: Perm)
    requires ValidGrants(gs) && Grant(Principal(User, user), Some(p)) in gs
    ensures Effective(gs, user, groups) == Some(p)
  {
    DirectIsOwnRow(gs, user, p);
  }

  method EffectivePermission(gs: seq<Grant>, user: string, groups: set<string>) returns (r: Option<Perm>)
    ensures r == Effective(gs, user, groups)
  {
    var direct: Option<Perm>, inherited: Perm, seen: set<Principal> := None, NoAccess, {};
    var own := false;
    for i := 0 to |gs|
      invariant seen == set k | 0 <= k < i :: gs[k].who
      invariant forall k :: 0 <= k < i ==> gs[k].who.name != ""
      invariant forall j, k :: 0 <= j < k < i ==> gs[j].who != gs[k].who
      invariant own == (Principal(User, user) in seen)
      invariant Direct(gs, user) == if own then direct else Direct(gs[i..], user)
      invariant !own ==> direct == None
      invariant Best(gs, groups) == if Rank(Best(gs[i..], groups)) >= Rank(inherited) then Best(gs[i..], groups) else inherited
    {
      assert gs[i..][1..] == gs[i + 1..];
      var g := gs[i];
      if g.who.name == "" || g.who in seen {
        return None;
      }
      seen := seen + {g.who};
      if g.who == Principal(User, user) {
        direct, own := g.permission, true;
      } else if ThroughGroup(g, groups) {
        inherited := if Rank(g.permission.value) > Rank(inherited) then g.permission.value else inherited;
      }
    }
    r := if direct.Some? then direct else Some(inherited);
  }

  // ----- the scope -----

  /** A shared folder: whether it is online, its path, and its privilege list if it could
      be read. */
  datatype Folder = Folder(online: bool, path: string, grants: Option<seq<Grant>>)

  /** What one folder adds: nothing, a rule, or a failure. */
  datatype Added = Skip | Add(rule: Rule) | Fail

  function RuleOf(f: Folder, user: string, groups: set<string>, mounted: Path): Added {
    if !f.online then Skip
    else
      var p := PathParts(f.path, false);
      if p.None? then Fail
      else if !(mounted <= p.value) then Skip
      else if f.grants.None? then Fail
      else
        var e := Effective(f.grants.value, user, groups);
        if e.None? then Fail else Add(Rule(p.value[|mounted|..], e.value))
  }

  /** The rules of the folders, or nothing if one fails or two have the same root. */
  function Rules(fs: seq<Folder>, user: string, groups: set<string>, mounted: Path): Option<seq<Rule>> {
    if fs == [] then Some([])
    else
      var before := Rules(fs[..|fs| - 1], user, groups, mounted);
      var added := RuleOf(fs[|fs| - 1], user, groups, mounted);
      if before.None? || added.Fail? then None
      else if added.Skip? then before
      else if RuleAt(before.value, added.rule.root).Some? then None
      else Some(before.value + [added.rule])
  }

  /** A scope that is built has no root twice, so all the laws of scopes hold of it. */
  lemma {:induction false} RulesAreBuilt(fs: seq<Folder>, user: string, groups: set<string>, mounted: Path)
    requires Rules(fs, user, groups, mounted).Some?
    ensures Built(Rules(fs, user, groups, mounted).value)
  {
    hide RuleOf;
    if fs != [] {
      RulesAreBuilt(fs[..|fs| - 1], user, groups, mounted);
    }
  }

  /** Every online folder below the mount has its own rule with its effective permission,
      and that rule decides at its root. */
  lemma {:induction false} FolderDecidesItsRoot(
    fs: seq<Folder>, user: string, groups: set<string>, mounted: Path, i: nat)
    requires Rules(fs, user, groups, mounted).Some? && i < |fs|
    requires RuleOf(fs[i], user, groups, mounted).Add?
    ensures var rules, rule := Rules(fs, user, groups, mounted).value, RuleOf(fs[i], user, groups, mounted).rule;
            rule in rules && Permission(rules, rule.root) == rule.permission
  {
    hide RuleOf, Permission;
    RuleIsThere(fs, user, groups, mounted, i);
    var rules, rule := Rules(fs, user, groups, mounted).value, RuleOf(fs[i], user, groups, mounted).rule;
    RulesAreBuilt(fs, user, groups, mounted);
    var k :| 0 <= k < |rules| && rules[k] == rule;
    OwnRuleDecides(rules, k);
  }

  lemma {:induction false} RuleIsThere(fs: seq<Folder>, user: string, groups: set<string>, mounted: Path, i: nat)
    requires Rules(fs, user, groups, mounted).Some? && i < |fs|
    requires RuleOf(fs[i], user, groups, mounted).Add?
    ensures RuleOf(fs[i], user, groups, mounted).rule in Rules(fs, user, groups, mounted).value
  {
    hide RuleOf;
    if i < |fs| - 1 {
      assert fs[..|fs| - 1][i] == fs[i];
      RuleIsThere(fs[..|fs| - 1], user, groups, mounted, i);
    }
  }

  // ----- the order of the rules -----

  predicate PathBefore(a: Path, b: Path) {
    b != [] && (a == [] || TextBefore(a[0], b[0]) || (a[0] == b[0] && PathBefore(a[1..], b[1..])))
  }

  /** Shorter roots first, and roots of one length by their parts. */
  predicate RuleBefore(r: Rule, s: Rule) {
    |r.root| < |s.root| || (|r.root| == |s.root| && PathBefore(r.root, s.root))
  }

  function Insert(r: Rule, rules: seq<Rule>): (s: seq<Rule>)
    ensures multiset(s) == multiset(rules) + multiset{r}
  {
    if rules == [] || RuleBefore(r, rules[0]) then [r] + rules
    else
      assert rules == [rules[0]] + rules[1..];
      [rules[0]] + Insert(r, rules[1..])
  }

  /** The rules as the scope lists them. */
  function Ordered(rules: seq<Rule>): (s: seq<Rule>)
    ensures multiset(s) == multiset(rules)
  {
    if rules == [] then []
    else
      assert rules == [rules[0]] + rules[1..];
      Insert(rules[0], Ordered(rules[1..]))
  }

  lemma {:induction false} PathOrder(a: Path, b: Path, c: Path)
    ensures !PathBefore(a, a)
    ensures PathBefore(a, b) && PathBefore(b, c) ==> PathBefore(a, c)
    ensures PathBefore(a, b) || PathBefore(b, a) || a == b
  {
    if a != [] && b != [] {
      TextOrder(a[0], b[0], if c == [] then "" else c[0]);
      PathOrder(a[1..], b[1..], if c == [] then [] else c[1..]);
      assert a == [a[0]] + a[1..] && b == [b[0]] + b[1..];
    } else if a != [] {
      TextOrder(a[0], a[0], a[0]);
      PathOrder(a[1..], [], []);
    }
  }

  ghost predicate InOrder(rules: seq<Rule>) {
    forall i, j :: 0 <= i < j < |rules| ==> RuleBefore(rules[i], rules[j])
  }

  lemma {:induction false} InsertInOrder(r: Rule, rules: seq<Rule>)
    requires InOrder(rules) && forall x :: x in rules ==> x.root != r.root
    ensures InOrder(Insert(r, rules))
  {
    hide PathBefore;
    if rules != [] {
      PathOrder(r.root, rules[0].root, []);
      if RuleBefore(r, rules[0]) {
        forall x | x in rules ensures RuleBefore(r, x) {
          PathOrder(r.root, rules[0].root, x.root);
        }
      } else {
        InsertInOrder(r, rules[1..]);
        var rest := Insert(r, rules[1..]);
        forall x | x in rest ensures RuleBefore(rules[0], x) {
          assert x in multiset(rest);
        }
      }
    }
  }

  /** The rules of a scope are listed by length and text of their roots, each once, and
      ordering them changes no decision. */
  lemma {:induction false} OrderedRules(rules: seq<Rule>)
    requires Built(rules)
    ensures InOrder(Ordered(rules)) && Built(Ordered(rules)) && multiset(Ordered(rules)) == multiset(rules)
  {
    hide RuleBefore;
    if rules != [] {
      OrderedRules(rules[1..]);
      var rest := Ordered(rules[1..]);
      forall x | x in rest ensures x.root != rules[0].root {
        assert x in multiset(rest);
        var k :| 0 <= k < |rules[1..]| && rules[1..][k] == x;
        assert rules[k + 1] == x;
      }
      InsertInOrder(rules[0], rest);
    }
    InOrderBuilt(Ordered(rules));
  }

  lemma InOrderBuilt(rules: seq<Rule>)
    requires InOrder(rules)
    ensures Built(rules)
  {
    hide PathBefore;
    forall i, j | 0 <= i < j < |rules| ensures rules[i].root != rules[j].root {
      PathOrder(rules[i].root, rules[j].root, []);
    }
  }

  lemma OrderDecidesAlike(fs: seq<Folder>, user: string, groups: set<string>, mounted: Path, path: Path)
    requires Rules(fs, user, groups, mounted).Some?
    ensures var rules := Rules(fs, user, groups, mounted).value;
            InOrder(Ordered(rules)) && Permission(Ordered(rules), path) == Permission(rules, path)
  {
    hide Permission, Ordered, Rules;
    RulesAreBuilt(fs, user, groups, mounted);
    var rules := Rules(fs, user, groups, mounted).value;
    OrderedRules(rules);
    PermissionIgnoresOrder(Ordered(rules), rules, path);
  }

  /** A list of rules in order is the only one with these rules. */
  lemma {:induction false} InOrderUnique(rules: seq<Rule>, others: seq<Rule>)
    requires InOrder(rules) && InOrder(others) && multiset(rules) == multiset(others)
    ensures rules == others
  {
    hide RuleBefore;
    if rules == [] {
      assert |others| == |multiset(others)| == 0;
    } else {
      assert |rules| == |multiset(rules)| == |multiset(others)| == |others|;
      SameFirst(rules, others);
      assert rules == [rules[0]] + rules[1..] && others == [others[0]] + others[1..];
      assert multiset(rules[1..]) == multiset(rules) - multiset{rules[0]};
      assert multiset(others[1..]) == multiset(others) - multiset{others[0]};
      InOrderUnique(rules[1..], others[1..]);
    }
  }

  lemma SameFirst(rules: seq<Rule>, others: seq<Rule>)
    requires rules != [] && others != [] && InOrder(rules) && InOrder(others) && multiset(rules) == multiset(others)
    ensures rules[0] == others[0]
  {
    hide PathBefore;
    assert rules[0] in multiset(rules) && others[0] in multiset(others);
    var i :| 0 <= i < |others| && others[i] == rules[0];
    var j :| 0 <= j < |rules| && rules[j] == others[0];
    PathOrder(rules[0].root, others[0].root, rules[0].root);
    assert i > 0 ==> RuleBefore(others[0], rules[0]);
    assert j > 0 ==> RuleBefore(rules[0], others[0]);
  }

  method BuildScope(fs: seq<Folder>, user: string, groups: set<string>, mounted: Path) returns (r: Option<Scope>)
    ensures r == if Rules(fs, user, groups, mounted).None? then None
                 else Some(Scope(false, Ordered(Rules(fs, user, groups, mounted).value)))
  {
    var rules: seq<Rule>, roots: set<Path> := [], {};
    assert fs[..0] == [];
    for i := 0 to |fs|
      invariant Rules(fs[..i], user, groups, mounted) == Some(rules)
      invariant forall q :: q in roots <==> RuleAt(rules, q).Some?
    {
      assert fs[..i + 1][..i] == fs[..i];
      var added := AddFolder(fs[i], user, groups, mounted);
      if added.Fail? || (added.Add? && added.rule.root in roots) {
        NoRules(fs, i + 1, user, groups, mounted);
        return None;
      }
      if added.Add? {
        forall q ensures RuleAt(rules + [added.rule], q).Some? <==> RuleAt(rules, q).Some? || q == added.rule.root {
          RuleAtAppend(rules, added.rule, q);
        }
        roots := roots + {added.rule.root};
        rules := rules + [added.rule];
      }
    }
    assert fs[..|fs|] == fs;
    r := Some(Scope(false, Ordered(rules)));
  }

  lemma RuleAtAppend(rules: seq<Rule>, rule: Rule, q: Path)
    ensures RuleAt(rules + [rule], q).Some? <==> RuleAt(rules, q).Some? || q == rule.root
  {
    hide RuleAt;
    if RuleAt(rules, q).Some? {
      var k :| 0 <= k < |rules| && rules[k] == RuleAt(rules, q).value;
      assert (rules + [rule])[k].root == q;
    }
    assert (rules + [rule])[|rules|] == rule;
  }

  method AddFolder(f: Folder, user: string, groups: set<string>, mounted: Path) returns (added: Added)
    ensures added == RuleOf(f, user, groups, mounted)
  {
    if !f.online {
      return Skip;
    }
    var p := PathParts(f.path, false);
    if p.None? {
      return Fail;
    }
    if !(mounted <= p.value) {
      return Skip;
    }
    if f.grants.None? {
      return Fail;
    }
    var e := EffectivePermission(f.grants.value, user, groups);
    added := if e.None? then Fail else Add(Rule(p.value[|mounted|..], e.value));
  }

  lemma {:induction false} NoRules(fs: seq<Folder>, i: nat, user: string, groups: set<string>, mounted: Path)
    requires i <= |fs| && Rules(fs[..i], user, groups, mounted).None?
    ensures Rules(fs, user, groups, mounted).None?
  {
    hide RuleOf;
    if i == |fs| {
      assert fs[..i] == fs;
    } else {
      assert fs[..|fs| - 1][..i] == fs[..i];
      NoRules(fs[..|fs| - 1], i, user, groups, mounted);
    }
  }
}
