/** Which data paths a family member may list, read and write. */
module DataAccess {
  import opened ArchivePaths
  import opened Texts
  import opened Wrappers

  datatype Perm = NoAccess | Read | ReadWrite

  function Rank(p: Perm): nat {
    match p case NoAccess => 0 case Read => 1 case ReadWrite => 2
  }

  datatype Rule = Rule(root: Path, permission: Perm)

  datatype Scope = Scope(operator: bool, rules: seq<Rule>)

  // ----- reading a path -----

  function TrimLeft(s: string): (r: string)
    ensures |r| <= |s|
  {
    if s != "" && s[0] == '/' then TrimLeft(s[1..]) else s
  }

  function TrimRight(s: string): (r: string)
    ensures |r| <= |s|
  {
    if s != "" && s[|s| - 1] == '/' then TrimRight(s[..|s| - 1]) else s
  }

  predicate Hidden(part: string) {
    part == ".." || ".echo-" <= part
  }

  /** `_path_parts`. */
  function PathParts(raw: string, allowRoot: bool): Option<Path> {
    if '\0' in raw || '\\' in raw then None
    else
      var value := TrimRight(TrimLeft(Strip(raw)));
      if value == "" || value == "." then (if allowRoot then Some([]) else None)
      else
        var p := Parts(value);
        if exists i :: 0 <= i < |p| && Hidden(p[i]) then None else Some(p)
  }

  /** An accepted path has no parent part and no reserved part, and no empty ones. */
  lemma PathPartsAreClean(raw: string, allowRoot: bool)
    requires PathParts(raw, allowRoot).Some?
    ensures forall i :: 0 <= i < |PathParts(raw, allowRoot).value| ==>
              var part := PathParts(raw, allowRoot).value[i];
              part !in {"", ".", ".."} && '/' !in part && !(".echo-" <= part)
  {
  }

  /** Slashes and single dots only. */
  predicate DotsOnly(s: string) {
    && (forall i :: 0 <= i < |s| ==> s[i] == '/' || s[i] == '.')
    && forall i :: 0 <= i < |s| - 1 ==> s[i] == '/' || s[i + 1] == '/'
  }

  lemma {:induction false} NoPartsIff(s: string)
    ensures Parts(s) == [] <==> DotsOnly(s)
    decreases |s|
  {
    if s != "" {
      var h, rest := Head(s), Rest(s);
      NoPartsIff(rest);
      assert Parts(s) == (if h in {"", "."} then [] else [h]) + Parts(rest);
      hide Parts, Head, Rest;
      if h in {"", "."} {
        DotsOnlyAfter(s, |h|);
      } else {
        PartIsNoDot(s, h);
      }
    }
  }

  lemma PartIsNoDot(s: string, h: string)
    requires h <= s && '/' !in h && h !in {"", "."}
    ensures !DotsOnly(s)
  {
    assert s[0] == h[0] && h[0] in h;
    if |h| >= 2 {
      assert s[0 + 1] == h[1] && h[1] in h;
      assert !(s[0] == '/' || s[0 + 1] == '/');
    } else {
      assert h == [h[0]];
    }
  }

  lemma DotsOnlyAfter(s: string, n: nat)
    requires n <= 1 && n <= |s| && (n < |s| ==> s[n] == '/') && (n == 1 ==> s[0] == '.')
    ensures DotsOnly(s) <==> DotsOnly(if n == |s| then "" else s[n + 1..])
  {
    if n < |s| {
      var r := s[n + 1..];
      assert forall i :: 0 <= i < |r| ==> r[i] == s[n + 1 + i];
      if DotsOnly(r) {
        forall i | 0 <= i < |s| ensures s[i] == '/' || s[i] == '.' {
          assert i > n ==> s[i] == r[i - n - 1];
        }
        forall i | 0 <= i < |s| - 1 ensures s[i] == '/' || s[i + 1] == '/' {
          assert i > n ==> s[i] == r[i - n - 1] && s[i + 1] == r[i - n];
        }
      }
    }
  }

  /** Where the root is not allowed only its two shortest spellings are refused: a longer
      path is still read as the root exactly if it consists of slashes and single dots. */
  lemma RootSlipsThroughIff(raw: string)
    requires '\0' !in raw && '\\' !in raw
    ensures var value := TrimRight(TrimLeft(Strip(raw)));
            PathParts(raw, false) == Some([]) <==> value !in {"", "."} && DotsOnly(value)
  {
    NoPartsIff(TrimRight(TrimLeft(Strip(raw))));
  }

  /** For instance "./.". */
  lemma DotPathIsRoot()
    ensures PathParts("./.", false) == Some([]) && PathParts(".", false) == None
  {
    assert Strip("./.") == "./." && TrimLeft("./.") == "./." && TrimRight("./.") == "./.";
    assert Strip(".") == "." && TrimLeft(".") == "." && TrimRight(".") == ".";
    RootSlipsThroughIff("./.");
  }

  // ----- deciding -----

  predicate Matches(r: Rule, path: Path) {
    r.root <= path
  }

  /** The longest root of the matching rules. */
  function Longest(rules: seq<Rule>, path: Path): (n: int)
    ensures n >= -1
    ensures forall i :: 0 <= i < |rules| && Matches(rules[i], path) ==> |rules[i].root| <= n
    ensures n >= 0 ==> exists i :: 0 <= i < |rules| && Matches(rules[i], path) && |rules[i].root| == n
  {
    if rules == [] then -1
    else
      var rest := Longest(rules[1..], path);
      assert rest >= 0 ==> exists i :: 0 <= i < |rules[1..]| && Matches(rules[1..][i], path) && |rules[1..][i].root| == rest;
      assert forall i :: 0 <= i < |rules[1..]| ==> rules[1..][i] == rules[i + 1];
      if Matches(rules[0], path) && |rules[0].root| > rest then |rules[0].root| else rest
  }

  /** The least permission of the matching rules of this length. */
  function Least(rules: seq<Rule>, path: Path, n: int): Perm {
    if rules == [] then ReadWrite
    else
      var rest := Least(rules[1..], path, n);
      if Matches(rules[0], path) && |rules[0].root| == n && Rank(rules[0].permission) < Rank(rest)
      then rules[0].permission else rest
  }

  /** `_permission` of a member. */
  function Permission(rules: seq<Rule>, path: Path): Perm {
    var n := Longest(rules, path);
    if n < 0 then NoAccess else Least(rules, path, n)
  }

  predicate CanRead(s: Scope, path: Path) {
    s.operator || Rank(Permission(s.rules, path)) >= 1
  }

  predicate CanWrite(s: Scope, path: Path) {
    s.operator || Permission(s.rules, path) == ReadWrite
  }

  predicate CanList(s: Scope, path: Path) {
    CanRead(s, path) || exists i :: 0 <= i < |s.rules| && Rank(s.rules[i].permission) >= 1 && path <= s.rules[i].root
  }

  // ----- the tree laws -----

  /** A scope that was built: no root twice. */
  ghost predicate Built(rules: seq<Rule>) {
    forall i, j :: 0 <= i < j < |rules| ==> rules[i].root != rules[j].root
  }

  /** The nearest rule at or above the path, walking up. */
  function Nearest(rules: seq<Rule>, path: Path): Option<Rule>
    decreases |path|
  {
    if RuleAt(rules, path).Some? then RuleAt(rules, path)
    else if path == [] then None
    else Nearest(rules, path[..|path| - 1])
  }

  function RuleAt(rules: seq<Rule>, path: Path): (r: Option<Rule>)
    ensures r.Some? ==> r.value in rules && r.value.root == path
    ensures r.None? ==> forall i :: 0 <= i < |rules| ==> rules[i].root != path
  {
    if rules == [] then None else if rules[0].root == path then Some(rules[0]) else RuleAt(rules[1..], path)
  }

  /** The longest matching rule is unique. */
  lemma LongestIsUnique(rules: seq<Rule>, path: Path, i: nat, j: nat)
    requires Built(rules) && i < |rules| && j < |rules|
    requires Matches(rules[i], path) && Matches(rules[j], path) && |rules[i].root| == |rules[j].root|
    ensures i == j
  {
    assert rules[i].root == path[..|rules[i].root|] == rules[j].root;
  }

  lemma {:induction false} LeastOfOne(rules: seq<Rule>, path: Path, n: nat, i: nat)
    requires i < |rules| && Matches(rules[i], path) && |rules[i].root| == n
    requires forall j :: 0 <= j < |rules| && j != i ==> !(Matches(rules[j], path) && |rules[j].root| == n)
    ensures Least(rules, path, n) == rules[i].permission
  {
    if i > 0 {
      LeastOfOne(rules[1..], path, n, i - 1);
    } else {
      LeastOfNone(rules[1..], path, n);
    }
  }

  lemma {:induction false} LeastOfNone(rules: seq<Rule>, path: Path, n: nat)
    requires forall j :: 0 <= j < |rules| ==> !(Matches(rules[j], path) && |rules[j].root| == n)
    ensures Least(rules, path, n) == ReadWrite
  {
    if rules != [] {
      LeastOfNone(rules[1..], path, n);
    }
  }

  lemma {:induction false} NearestIsLongest(rules: seq<Rule>, path: Path)
    ensures var r := Nearest(rules, path);
            && (r.None? ==> forall i :: 0 <= i < |rules| ==> !Matches(rules[i], path))
            && (r.Some? ==> r.value in rules && Matches(r.value, path)
                            && forall i :: 0 <= i < |rules| && Matches(rules[i], path) ==> |rules[i].root| <= |r.value.root|)
    decreases |path|
  {
    if RuleAt(rules, path).None? && path != [] {
      var up := path[..|path| - 1];
      NearestIsLongest(rules, up);
      forall i | 0 <= i < |rules| ensures Matches(rules[i], path) <==> Matches(rules[i], up) {
        if Matches(rules[i], path) {
          assert rules[i].root == path[..|rules[i].root|];
          assert rules[i].root != path ==> rules[i].root == up[..|rules[i].root|];
        }
        if Matches(rules[i], up) {
          assert rules[i].root == path[..|rules[i].root|];
        }
      }
    }
  }

  /** The decision by longest prefix is the decision of the nearest rule above the path,
      and it does not depend on the order of the rules. */
  lemma PermissionIsNearest(rules: seq<Rule>, path: Path)
    requires Built(rules)
    ensures Permission(rules, path)
            == if Nearest(rules, path).None? then NoAccess else Nearest(rules, path).value.permission
  {
    hide Longest, Least, Nearest;
    NearestIsLongest(rules, path);
    var r, n := Nearest(rules, path), Longest(rules, path);
    if r.Some? {
      var i :| 0 <= i < |rules| && rules[i] == r.value;
      assert |rules[i].root| == n;
      forall j | 0 <= j < |rules| && j != i ensures !(Matches(rules[j], path) && |rules[j].root| == n) {
        if Matches(rules[j], path) && |rules[j].root| == n {
          LongestIsUnique(rules, path, i, j);
        }
      }
      LeastOfOne(rules, path, n, i);
    }
  }

  lemma PermissionIgnoresOrder(rules: seq<Rule>, others: seq<Rule>, path: Path)
    requires Built(rules) && Built(others) && multiset(rules) == multiset(others)
    ensures Permission(rules, path) == Permission(others, path)
  {
    hide Nearest;
    PermissionIsNearest(rules, path);
    PermissionIsNearest(others, path);
    NearestIgnoresOrder(rules, others, path);
  }

  lemma {:induction false} NearestIgnoresOrder(rules: seq<Rule>, others: seq<Rule>, path: Path)
    requires Built(rules) && Built(others) && multiset(rules) == multiset(others)
    ensures Nearest(rules, path) == Nearest(others, path)
    decreases |path|
  {
    RuleAtIgnoresOrder(rules, others, path);
    if RuleAt(rules, path).None? && path != [] {
      NearestIgnoresOrder(rules, others, path[..|path| - 1]);
    }
  }

  lemma RuleAtIgnoresOrder(rules: seq<Rule>, others: seq<Rule>, path: Path)
    requires Built(rules) && Built(others) && multiset(rules) == multiset(others)
    ensures RuleAt(rules, path) == RuleAt(others, path)
  {
    if RuleAt(rules, path).Some? {
      RuleMoves(rules, others, path);
    }
    if RuleAt(others, path).Some? {
      RuleMoves(others, rules, path);
    }
  }

  lemma RuleMoves(rules: seq<Rule>, others: seq<Rule>, path: Path)
    requires Built(others) && multiset(rules) == multiset(others) && RuleAt(rules, path).Some?
    ensures RuleAt(others, path) == RuleAt(rules, path)
  {
    hide RuleAt;
    var a, b := RuleAt(rules, path), RuleAt(others, path);
    assert a.value in multiset(others);
    var j :| 0 <= j < |others| && others[j] == a.value;
    assert b.Some?;
    var k :| 0 <= k < |others| && others[k] == b.value;
    assert j == k;
  }

  /** Without a rule of its own, an entry has the permission of its folder. */
  lemma EntryInherits(rules: seq<Rule>, folder: Path, name: string)
    requires Built(rules) && RuleAt(rules, folder + [name]).None?
    ensures Permission(rules, folder + [name]) == Permission(rules, folder)
  {
    PermissionIsNearest(rules, folder);
    PermissionIsNearest(rules, folder + [name]);
    assert (folder + [name])[..|folder|] == folder;
  }

  /** Who may write may read, who may read may list, and whoever may list a path may list
      every folder above it. */
  lemma ListableIsClosedUpwards(s: Scope, path: Path, above: Path)
    requires Built(s.rules) && above <= path
    ensures CanWrite(s, path) ==> CanRead(s, path)
    ensures CanRead(s, path) ==> CanList(s, path)
    ensures CanList(s, path) ==> CanList(s, above)
  {
    hide Permission, Nearest;
    if CanList(s, path) && !s.operator {
      if CanRead(s, path) {
        PermissionIsNearest(s.rules, path);
        NearestIsLongest(s.rules, path);
        var r := Nearest(s.rules, path).value;
        var i :| 0 <= i < |s.rules| && s.rules[i] == r;
        if above <= r.root {
          assert above <= s.rules[i].root;
        } else {
          SameNearestBetween(s.rules, path, above);
          PermissionIsNearest(s.rules, above);
        }
      } else {
        var i :| 0 <= i < |s.rules| && Rank(s.rules[i].permission) >= 1 && path <= s.rules[i].root;
        assert above <= s.rules[i].root;
      }
    }
  }

  /** Between the nearest rule and the path, the nearest rule stays the same. */
  lemma {:induction false} SameNearestBetween(rules: seq<Rule>, path: Path, above: Path)
    requires Nearest(rules, path).Some? && above <= path && !(above <= Nearest(rules, path).value.root)
    ensures Nearest(rules, above) == Nearest(rules, path)
    decreases |path|
  {
    if above != path {
      var up := path[..|path| - 1];
      assert above == path[..|above|] == up[..|above|];
      if RuleAt(rules, path).None? {
        SameNearestBetween(rules, up, above);
      }
    }
  }

  /** What is listable without being readable lies above something readable. */
  lemma ListableLeadsToReadable(s: Scope, path: Path)
    requires Built(s.rules) && CanList(s, path) && !CanRead(s, path)
    ensures exists r :: r in s.rules && path < r.root && CanRead(s, r.root)
  {
    hide Permission, Nearest;
    var i :| 0 <= i < |s.rules| && Rank(s.rules[i].permission) >= 1 && path <= s.rules[i].root;
    var r := s.rules[i];
    OwnRuleDecides(s.rules, i);
    assert CanRead(s, r.root);
    assert path != r.root;
  }

  lemma OwnRuleDecides(rules: seq<Rule>, i: nat)
    requires Built(rules) && i < |rules|
    ensures Permission(rules, rules[i].root) == rules[i].permission
  {
    PermissionIsNearest(rules, rules[i].root);
    var r := RuleAt(rules, rules[i].root);
    var k :| 0 <= k < |rules| && rules[k] == r.value;
    assert k == i;
  }
}
