/** What a member's scope grants, read off the shared folders and their privilege rows. */
module ScopeMeaning {
  import opened ArchivePaths
  import opened DataAccess
  import opened DataScope
  import opened Privileges
  import opened Texts
  import opened Wrappers

  // ----- paths -----

  /** A part of a path that may be asked for. */
  predicate Plain(part: string) {
    part !in {"", ".", ".."} && !(".echo-" <= part) && '/' !in part
  }

  lemma TrimsNothing(s: string)
    requires s != "" && s[0] != '/' && s[|s| - 1] != '/'
    ensures TrimRight(TrimLeft(s)) == s
  {
  }

  lemma {:induction false} JoinedEnds(p: Path)
    requires p != [] && forall i :: 0 <= i < |p| ==> Plain(p[i])
    ensures Joined(p) !in {"", "."} && Joined(p)[0] != '/' && Joined(p)[|Joined(p)| - 1] != '/'
  {
    var s := p[0];
    assert s[0] in s && s[|s| - 1] in s;
    if |p| > 1 {
      JoinedEnds(p[1..]);
    }
  }

  /** The plain spelling of a list of plain parts is read back as that list. */
  lemma PlainPathIsRead(p: Path, allowRoot: bool)
    requires p != [] && forall i :: 0 <= i < |p| ==> Plain(p[i])
    requires '\0' !in Joined(p) && '\\' !in Joined(p) && TrimmedName(Joined(p))
    ensures PathParts(Joined(p), allowRoot) == Some(p)
  {
    StripFixed(Joined(p));
    JoinedEnds(p);
    TrimsNothing(Joined(p));
    PartsJoined(p);
  }

  // ----- privileges -----

  /** The permission of the member's own row. */
  ghost predicate OwnRow(gs: seq<Grant>, user: string, p: Perm) {
    exists i :: 0 <= i < |gs| && gs[i].who == Principal(User, user) && gs[i].permission == Some(p)
  }

  /** The permission of the row of a group the member is in. */
  ghost predicate GroupRow(gs: seq<Grant>, groups: set<string>, p: Perm) {
    exists i :: 0 <= i < |gs| && gs[i].who.role == Group && gs[i].who.name in groups && gs[i].permission == Some(p)
  }

  ghost predicate HighestOfGroups(gs: seq<Grant>, groups: set<string>, p: Perm) {
    && (forall q :: GroupRow(gs, groups, q) ==> Rank(q) <= Rank(p))
    && (p == NoAccess || GroupRow(gs, groups, p))
  }

  /** Rows without a name or for one principal twice are refused. Otherwise the member's own
      row decides, and without one the highest of their groups, and no access without any. */
  lemma EffectiveMeaning(gs: seq<Grant>, user: string, groups: set<string>, p: Perm)
    ensures Effective(gs, user, groups) == None
            <==> (exists i :: 0 <= i < |gs| && gs[i].who.name == "")
                 || (exists i, j :: 0 <= i < j < |gs| && gs[i].who == gs[j].who)
    ensures Effective(gs, user, groups).Some? ==>
              (Effective(gs, user, groups) == Some(p)
               <==> OwnRow(gs, user, p)
                    || ((forall q :: !OwnRow(gs, user, q)) && HighestOfGroups(gs, groups, p)))
  {
    if Effective(gs, user, groups).Some? {
      forall q ensures OwnRow(gs, user, q) <==> Direct(gs, user) == Some(q) {
        DirectIsOwnRow(gs, user, q);
        assert Grant(Principal(User, user), Some(q)) in gs
          <==> exists i :: 0 <= i < |gs| && gs[i] == Grant(Principal(User, user), Some(q));
        forall i | 0 <= i < |gs| && gs[i].who == Principal(User, user) && gs[i].permission == Some(q)
          ensures gs[i] == Grant(Principal(User, user), Some(q)) {
        }
      }
      if Direct(gs, user).None? {
        HighestIsBest(gs, groups, p);
      } else {
        assert OwnRow(gs, user, Direct(gs, user).value);
      }
    }
  }

  lemma HighestIsBest(gs: seq<Grant>, groups: set<string>, p: Perm)
    ensures HighestOfGroups(gs, groups, p) <==> Best(gs, groups) == p
  {
    BestIsHighest(gs, groups);
    var b := Best(gs, groups);
    forall q | GroupRow(gs, groups, q) ensures Rank(q) <= Rank(b) {
      var i :| 0 <= i < |gs| && gs[i].who.role == Group && gs[i].who.name in groups && gs[i].permission == Some(q);
      assert ThroughGroup(gs[i], groups);
    }
    if b != NoAccess {
      var g :| g in gs && ThroughGroup(g, groups) && g.permission.value == b;
      var i :| 0 <= i < |gs| && gs[i] == g;
      assert GroupRow(gs, groups, b);
    }
    assert HighestOfGroups(gs, groups, b);
  }

  // ----- folders -----

  /** An online folder at the rule's root below the mounted one, on which the member has
      the rule's permission. */
  predicate Gives(f: Folder, user: string, groups: set<string>, mounted: Path, r: Rule) {
    && f.online && PathParts(f.path, false) == Some(mounted + r.root)
    && f.grants.Some? && Effective(f.grants.value, user, groups) == Some(r.permission)
  }

  /** An online folder that has no readable path, or lies below the mounted one and has no
      readable privileges. */
  predicate Breaks(f: Folder, user: string, groups: set<string>, mounted: Path) {
    && f.online
    && (|| PathParts(f.path, false) == None
        || (&& mounted <= PathParts(f.path, false).value
            && (f.grants.None? || Effective(f.grants.value, user, groups) == None)))
  }

  lemma RuleOfIs(f: Folder, user: string, groups: set<string>, mounted: Path)
    ensures RuleOf(f, user, groups, mounted).Fail? <==> Breaks(f, user, groups, mounted)
    ensures forall r :: RuleOf(f, user, groups, mounted) == Add(r) <==> Gives(f, user, groups, mounted, r)
  {
    hide PathParts, Effective;
    var p := PathParts(f.path, false);
    forall r ensures RuleOf(f, user, groups, mounted) == Add(r) <==> Gives(f, user, groups, mounted, r) {
      if p.Some? && mounted <= p.value {
        assert p.value == mounted + p.value[|mounted|..];
      }
      assert (mounted + r.root)[|mounted|..] == r.root;
    }
  }

  /** No folder breaks the scope, and no two give a rule at one place. */
  ghost predicate Clear(fs: seq<Folder>, user: string, groups: set<string>, mounted: Path) {
    && (forall i :: 0 <= i < |fs| ==> !Breaks(fs[i], user, groups, mounted))
    && forall i, j, r, s ::
         0 <= i < j < |fs| && Gives(fs[i], user, groups, mounted, r) && Gives(fs[j], user, groups, mounted, s)
         ==> r.root != s.root
  }

  ghost predicate Given(fs: seq<Folder>, user: string, groups: set<string>, mounted: Path, r: Rule) {
    exists i :: 0 <= i < |fs| && Gives(fs[i], user, groups, mounted, r)
  }

  lemma GivenLast(fs: seq<Folder>, user: string, groups: set<string>, mounted: Path, r: Rule)
    requires fs != []
    ensures Given(fs, user, groups, mounted, r)
            <==> Given(fs[..|fs| - 1], user, groups, mounted, r) || Gives(fs[|fs| - 1], user, groups, mounted, r)
  {
    hide Gives;
    var before := fs[..|fs| - 1];
    if Given(fs, user, groups, mounted, r) {
      var i :| 0 <= i < |fs| && Gives(fs[i], user, groups, mounted, r);
      assert i < |before| ==> before[i] == fs[i];
    }
    if Given(before, user, groups, mounted, r) {
      var i :| 0 <= i < |before| && Gives(before[i], user, groups, mounted, r);
      assert before[i] == fs[i];
    }
  }

  lemma ClearLast(fs: seq<Folder>, user: string, groups: set<string>, mounted: Path)
    requires fs != []
    ensures Clear(fs, user, groups, mounted)
            <==> && Clear(fs[..|fs| - 1], user, groups, mounted)
                 && !Breaks(fs[|fs| - 1], user, groups, mounted)
                 && forall r, s ::
                      Given(fs[..|fs| - 1], user, groups, mounted, r) && Gives(fs[|fs| - 1], user, groups, mounted, s)
                      ==> r.root != s.root
  {
    hide Gives, Breaks;
    var before := fs[..|fs| - 1];
    assert forall i :: 0 <= i < |before| ==> before[i] == fs[i];
  }

  /** A scope is built exactly if no folder breaks it and no two share a place, and its rules
      are exactly those the folders give: what is offline or not below the mounted folder
      adds nothing. */
  lemma {:induction false} ScopeIs(fs: seq<Folder>, user: string, groups: set<string>, mounted: Path)
    ensures Rules(fs, user, groups, mounted).Some? <==> Clear(fs, user, groups, mounted)
    ensures Rules(fs, user, groups, mounted).Some? ==>
              forall r :: r in Rules(fs, user, groups, mounted).value <==> Given(fs, user, groups, mounted, r)
  {
    hide RuleOf, Gives, Breaks;
    if fs != [] {
      hide Clear, Given;
      var before, last := fs[..|fs| - 1], fs[|fs| - 1];
      ScopeIs(before, user, groups, mounted);
      ClearLast(fs, user, groups, mounted);
      RuleOfIs(last, user, groups, mounted);
      forall r ensures Given(fs, user, groups, mounted, r)
                       <==> Given(before, user, groups, mounted, r) || Gives(last, user, groups, mounted, r) {
        GivenLast(fs, user, groups, mounted, r);
      }
    }
  }

  /** A path has the permission of the nearest folder at or above it, and no access if there
      is none. */
  lemma NearestFolderDecides(
    fs: seq<Folder>, user: string, groups: set<string>, mounted: Path, path: Path, r: Rule)
    requires Rules(fs, user, groups, mounted).Some?
    ensures var rules := Rules(fs, user, groups, mounted).value;
            && (&& Given(fs, user, groups, mounted, r) && r.root <= path
                && (forall s :: Given(fs, user, groups, mounted, s) && s.root <= path ==> |s.root| <= |r.root|)
                ==> Permission(rules, path) == r.permission)
            && ((forall s :: Given(fs, user, groups, mounted, s) ==> !(s.root <= path))
                ==> Permission(rules, path) == NoAccess)
  {
    hide Permission, Nearest, Rules, Given, Longest, Least;
    ScopeIs(fs, user, groups, mounted);
    var rules := Rules(fs, user, groups, mounted).value;
    RulesAreBuilt(fs, user, groups, mounted);
    PermissionIsNearest(rules, path);
    NearestIsLongest(rules, path);
    var n := Nearest(rules, path);
    if r in rules && r.root <= path && forall s :: s in rules && s.root <= path ==> |s.root| <= |r.root| {
      var i :| 0 <= i < |rules| && rules[i] == r;
      assert Matches(rules[i], path);
      var k :| 0 <= k < |rules| && rules[k] == n.value;
      LongestIsUnique(rules, path, i, k);
    }
  }
}
