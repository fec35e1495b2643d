/** Writing a state directory into an archive, and getting it back. */
module StateBackupCreate {
  import opened ArchivePaths
  import opened Privileges
  import opened StateBackup
  import opened StateBackupLayout
  import opened StateBackupRestore
  import opened Wrappers

  const LOCK := ".echo-state.lock"

  /** What a directory tree looks like: everything hangs below directories, names are
      names, and links have targets. */
  ghost predicate StateTree(s: Tree) {
    && Rooted(s)
    && (forall p, i :: p in s && 0 <= i < |p| ==> p[i] !in {"", ".", ".."} && '/' !in p[i])
    && forall p :: p in s && s[p].Link? ==> s[p].target != ""
  }

  // ----- walking the directory -----

  function ChildNames(s: Tree, p: Path): set<string> {
    set q | q in s && |q| == |p| + 1 && q[..|p|] == p :: q[|p|]
  }

  predicate Least(ns: set<string>, x: string) {
    x in ns && forall y :: y in ns ==> y == x || TextBefore(x, y)
  }

  lemma {:induction false} ThereIsLeast(ns: set<string>)
    requires ns != {}
    ensures exists x :: Least(ns, x)
  {
    var x :| x in ns;
    if ns == {x} {
      assert Least(ns, x);
    } else {
      ThereIsLeast(ns - {x});
      var rest :| Least(ns - {x}, rest);
      TextOrder(x, rest, rest);
      if TextBefore(rest, x) {
        assert Least(ns, rest);
      } else {
        forall y | y in ns && y != x ensures TextBefore(x, y) {
          TextOrder(x, rest, y);
        }
        assert Least(ns, x);
      }
    }
  }

  /** `sorted`. */
  ghost function InTextOrder(ns: set<string>): (r: seq<string>)
    ensures forall x :: x in r <==> x in ns
    ensures forall i, j :: 0 <= i < j < |r| ==> TextBefore(r[i], r[j])
  {
    if ns == {} then []
    else
      ThereIsLeast(ns);
      var x :| Least(ns, x);
      [x] + InTextOrder(ns - {x})
  }

  /** The lock file, and what belongs to the NAS data, is left out with all below it. */
  predicate Skipped(p: Path, nas: Path -> bool) {
    p != [] && (p[|p| - 1] == LOCK || nas(p))
  }

  function Under(s: Tree, p: Path): set<Path> {
    set q | q in s && p <= q
  }

  lemma UnderChild(s: Tree, p: Path, name: string)
    requires p in s
    ensures |Under(s, p + [name])| < |Under(s, p)|
  {
    assert p in Under(s, p) && p !in Under(s, p + [name]);
    forall q | q in Under(s, p + [name]) ensures q in Under(s, p) {
      assert p == (p + [name])[..|p|] == q[..|p|];
    }
    SubsetSmaller(Under(s, p + [name]), Under(s, p), p);
  }

  lemma {:induction false} SubsetSmaller(a: set<Path>, b: set<Path>, x: Path)
    requires a <= b && x in b && x !in a
    ensures |a| < |b|
  {
    if a != {} {
      var y :| y in a;
      SubsetSmaller(a - {y}, b - {y}, x);
    }
  }

  lemma ChildrenListed(s: Tree, p: Path)
    ensures forall n :: n in InTextOrder(ChildNames(s, p)) <==> p + [n] in s
  {
    forall n ensures n in ChildNames(s, p) <==> p + [n] in s {
      if p + [n] in s {
        assert (p + [n])[..|p|] == p && (p + [n])[|p|] == n;
      }
      if n in ChildNames(s, p) {
        var q :| q in s && |q| == |p| + 1 && q[..|p|] == p && q[|p|] == n;
        assert q == p + [n];
      }
    }
  }

  /** `archive.add` of one entry, directories before what is in them. */
  ghost function Added(s: Tree, p: Path, nas: Path -> bool): seq<Path>
    requires p in s
    decreases |Under(s, p)|, 1, 0
  {
    if Skipped(p, nas) then []
    else if s[p].Dir? then
      ChildrenListed(s, p);
      [p] + AddedAll(s, p, InTextOrder(ChildNames(s, p)), nas)
    else [p]
  }

  ghost function AddedAll(s: Tree, p: Path, names: seq<string>, nas: Path -> bool): seq<Path>
    requires p in s && forall n :: n in names ==> p + [n] in s
    decreases |Under(s, p)|, 0, |names|
  {
    if names == [] then []
    else
      assert names[0] in names;
      UnderChild(s, p, names[0]);
      Added(s, p + [names[0]], nas) + AddedAll(s, p, names[1..], nas)
  }

  /** Everything in the directory, top entries in order. */
  ghost function Listing(s: Tree, nas: Path -> bool): seq<Path>
    requires StateTree(s)
  {
    ChildrenListed(s, []);
    AddedAll(s, [], InTextOrder(ChildNames(s, [])), nas)
  }

  // ----- the archive -----

  function KindOf(n: Node): Kind {
    match n case Dir => IsDir case File(_) => IsFile case Link(_) => IsLink
  }

  function MemberOf(p: Path, n: Node, size: int -> nat): Member {
    Member(Joined(p), KindOf(n), if n.File? then size(n.data) else 0, if n.Link? then n.target else "",
           if n.File? then n.data else 0, Unreadable)
  }

  function Entries(s: Tree, ps: seq<Path>, size: int -> nat): (ms: seq<Member>)
    requires forall p :: p in ps ==> p in s
    ensures |ms| == |ps| && forall i :: 0 <= i < |ps| ==> ms[i] == MemberOf(ps[i], s[ps[i]], size)
  {
    seq(|ps|, i requires 0 <= i < |ps| => MemberOf(ps[i], s[ps[i]], size))
  }

  /** What is not skipped, and below nothing skipped. */
  predicate Kept(s: Tree, nas: Path -> bool, q: Path) {
    q in s && forall k :: 0 < k <= |q| ==> !Skipped(q[..k], nas)
  }

  function KeptTree(s: Tree, nas: Path -> bool): Tree {
    map q | q in s && Kept(s, nas, q) :: s[q]
  }

  // ----- the listing is what is kept, each once -----

  ghost predicate Once(ps: seq<Path>) {
    forall i, j :: 0 <= i < j < |ps| ==> ps[i] != ps[j]
  }

  lemma OnceConcat(a: seq<Path>, b: seq<Path>)
    requires Once(a) && Once(b) && forall p :: p in a ==> p !in b
    ensures Once(a + b)
  {
    forall i, j | 0 <= i < j < |a + b| ensures (a + b)[i] != (a + b)[j] {
      if i < |a| <= j {
        assert a[i] in a && b[j - |a|] in b;
      }
    }
  }

  /** From `p` down to `q` nothing is skipped. */
  predicate Reached(s: Tree, nas: Path -> bool, p: Path, q: Path) {
    p <= q && q in s && forall k :: |p| <= k <= |q| ==> !Skipped(q[..k], nas)
  }

  lemma {:induction false} AddedIs(s: Tree, p: Path, nas: Path -> bool)
    requires Rooted(s) && p in s && p != []
    ensures Once(Added(s, p, nas)) && forall q :: q in Added(s, p, nas) <==> Reached(s, nas, p, q)
    decreases |Under(s, p)|, 1, 0
  {
    hide Rooted, Skipped, InTextOrder, ChildNames;
    if Skipped(p, nas) {
      forall q ensures !Reached(s, nas, p, q) {
        assert p <= q ==> q[..|p|] == p;
      }
    } else if s[p].Dir? {
      var names := InTextOrder(ChildNames(s, p));
      ChildrenListed(s, p);
      AddedAllIs(s, p, names, nas);
      forall q ensures Reached(s, nas, p, q) <==> q == p || ReachedBelow(s, nas, p, names, q) {
        ReachedSplit(s, nas, p, q);
      }
      OnceConcat([p], AddedAll(s, p, names, nas));
    } else {
      forall q ensures Reached(s, nas, p, q) <==> q == p {
        NothingBelow(s, p, q);
        assert p[..|p|] == p;
      }
    }
  }

  /** Strictly below `p`, starting with one of these names. */
  predicate ReachedBelow(s: Tree, nas: Path -> bool, p: Path, names: seq<string>, q: Path) {
    p < q && q[|p|] in names && Reached(s, nas, p + [q[|p|]], q)
  }

  lemma NothingBelow(s: Tree, p: Path, q: Path)
    requires Rooted(s) && p in s && !s[p].Dir?
    ensures p <= q && q in s ==> q == p
  {
    if p <= q && q in s {
      assert q[..|p|] == p;
      if |p| < |q| {
        AncestorsAreDirs(s, q, |p|);
      } else {
        assert q == p;
      }
    }
  }

  lemma ReachedSplit(s: Tree, nas: Path -> bool, p: Path, q: Path)
    requires Rooted(s) && p in s && !Skipped(p, nas)
    ensures var names := InTextOrder(ChildNames(s, p));
            Reached(s, nas, p, q) <==> q == p || ReachedBelow(s, nas, p, names, q)
  {
    hide Skipped, InTextOrder, ChildNames, Rooted;
    ChildrenListed(s, p);
    assert p[..|p|] == p;
    if p <= q && q in s {
      assert q[..|p|] == p;
      if |p| < |q| {
        ChildIsThere(s, p, q);
        ReachedChild(s, nas, p, q);
      } else {
        assert q == p;
      }
    }
  }

  lemma ReachedChild(s: Tree, nas: Path -> bool, p: Path, q: Path)
    requires p < q && q in s && !Skipped(p, nas)
    ensures Reached(s, nas, p, q) <==> Reached(s, nas, p + [q[|p|]], q)
  {
    hide Skipped;
    var child := p + [q[|p|]];
    assert q[..|child|] == child && q[..|p|] == p;
  }

  lemma ChildIsThere(s: Tree, p: Path, q: Path)
    requires Rooted(s) && p < q && q in s
    ensures p + [q[|p|]] in s
  {
    assert q[..|p| + 1] == p + [q[|p|]];
    if |p| + 1 < |q| {
      AncestorsAreDirs(s, q, |p| + 1);
    } else {
      assert q[..|p| + 1] == q;
    }
  }

  lemma {:induction false} AddedAllIs(s: Tree, p: Path, names: seq<string>, nas: Path -> bool)
    requires Rooted(s) && p in s && forall n :: n in names ==> p + [n] in s
    requires forall i, j :: 0 <= i < j < |names| ==> TextBefore(names[i], names[j])
    ensures Once(AddedAll(s, p, names, nas))
    ensures forall q :: q in AddedAll(s, p, names, nas) <==> ReachedBelow(s, nas, p, names, q)
    decreases |Under(s, p)|, 0, |names|
  {
    hide Rooted, TextBefore, Reached;
    if names != [] {
      var first := names[0];
      assert first in names;
      UnderChild(s, p, first);
      AddedIs(s, p + [first], nas);
      AddedAllIs(s, p, names[1..], nas);
      FirstIsLeast(names);
      forall q ensures ReachedBelow(s, nas, p, names, q) <==>
                       Reached(s, nas, p + [first], q) || ReachedBelow(s, nas, p, names[1..], q) {
        assert names == [first] + names[1..];
        if Reached(s, nas, p + [first], q) {
          ReachedFrom(s, nas, p, first, q);
        }
      }
      OnceConcat(Added(s, p + [first], nas), AddedAll(s, p, names[1..], nas)) by {
        forall q | Reached(s, nas, p + [first], q) ensures !ReachedBelow(s, nas, p, names[1..], q) {
          ReachedFrom(s, nas, p, first, q);
        }
      }
    }
  }

  lemma FirstIsLeast(names: seq<string>)
    requires names != [] && forall i, j :: 0 <= i < j < |names| ==> TextBefore(names[i], names[j])
    ensures names[0] !in names[1..]
  {
    forall j | 0 < j < |names| ensures names[j] != names[0] {
      TextOrder(names[0], names[0], names[0]);
    }
  }

  lemma ReachedFrom(s: Tree, nas: Path -> bool, p: Path, first: string, q: Path)
    requires Reached(s, nas, p + [first], q)
    ensures p < q && q[|p|] == first
  {
    assert p == (p + [first])[..|p|] == q[..|p|];
  }

  /** The listing is what is kept, each entry once. */
  lemma ListingIs(s: Tree, nas: Path -> bool)
    requires StateTree(s)
    ensures Once(Listing(s, nas)) && forall q :: q in Listing(s, nas) <==> q != [] && Kept(s, nas, q)
  {
    hide Skipped, InTextOrder, ChildNames, Rooted, Once;
    var names := InTextOrder(ChildNames(s, []));
    ChildrenListed(s, []);
    RootIsDir(s);
    AddedAllIs(s, [], names, nas);
    forall q ensures ReachedBelow(s, nas, [], names, q) <==> q != [] && Kept(s, nas, q) {
      if q != [] {
        assert [] + [q[0]] == [q[0]];
        if q in s {
          ChildIsThere(s, [], q);
          assert q[..1] == [q[0]];
        }
      }
    }
  }

  // ----- creating -----

  function ManifestOf(bytes: nat): Member {
    Member(MANIFEST, IsFile, bytes, "", 0, Compatible)
  }

  /** The members in the order in which they are written. */
  ghost function Written(s: Tree, nas: Path -> bool, size: int -> nat, bytes: nat): seq<Member>
    requires StateTree(s)
  {
    ListingIs(s, nas);
    [ManifestOf(bytes)] + Entries(s, Listing(s, nas), size)
  }

  /** `_create_archive`: the members are checked as they are written, and the archive as a
      whole at the end. */
  ghost function Create(s: Tree, nas: Path -> bool, size: int -> nat, bytes: nat): Option<seq<Member>>
    requires StateTree(s)
  {
    var ms := Written(s, nas, size, bytes);
    if Inspected(ms) then Some(ms) else None
  }

  lemma GoodName(p: Path)
    requires p != [] && forall i :: 0 <= i < |p| ==> p[i] !in {"", ".", ".."} && '/' !in p[i]
    ensures Joined(p) != "" && !Absolute(Joined(p)) && Parts(Joined(p)) == p && ".." !in p
  {
    PartsJoined(p);
    hide Parts;
    assert p[0] in p && p[0] != "" && p[0][0] in p[0];
    assert Joined(p)[0] == p[0][0];
  }

  /** The `i`-th member after the manifest. */
  lemma WrittenAt(s: Tree, nas: Path -> bool, size: int -> nat, bytes: nat, i: nat)
    requires StateTree(s) && 0 < i < |Written(s, nas, size, bytes)|
    ensures var ms, ps := Written(s, nas, size, bytes), Listing(s, nas);
            && |ms| == |ps| + 1 && var p := ps[i - 1];
            && p in s && p != [] && Kept(s, nas, p) && ms[i] == MemberOf(p, s[p], size)
            && Parts(ms[i].name) == p && Canonical(ms[i].name)
            && ms[i].name != "" && !Absolute(ms[i].name) && ".." !in p
            && NodeOf(ms[i]) == s[p] && !ms[i].kind.Other?
            && (ms[i].name == MANIFEST <==> p == [MANIFEST])
  {
    hide Parts, Listing, Kept, Rooted, MANIFEST, Once;
    ListingIs(s, nas);
    var p := Listing(s, nas)[i - 1];
    assert p in Listing(s, nas);
    KeptIsIn(s, nas, p);
    GoodName(p);
    ManifestPath();
  }

  lemma KeptIsIn(s: Tree, nas: Path -> bool, p: Path)
    ensures Kept(s, nas, p) ==> p in s
  {
  }

  lemma ManifestPath()
    ensures Parts(MANIFEST) == [MANIFEST] && Joined([MANIFEST]) == MANIFEST
  {
    hide MANIFEST, Parts;
    PlainManifest();
    OnePart(MANIFEST);
  }

  lemma PlainManifest()
    ensures '/' !in MANIFEST && MANIFEST !in {"", "."}
  {
  }

  /** Every kept entry is written, and none twice. */
  lemma WrittenOnce(s: Tree, nas: Path -> bool, size: int -> nat, bytes: nat)
    requires StateTree(s)
    ensures var ms, ps := Written(s, nas, size, bytes), Listing(s, nas);
            && |ms| == |ps| + 1 && ms[0] == ManifestOf(bytes)
            && (forall i, j :: 0 < i < j < |ms| ==> Parts(ms[i].name) != Parts(ms[j].name))
            && forall q :: q != [] && Kept(s, nas, q) ==> exists i :: 0 < i < |ms| && Parts(ms[i].name) == q
  {
    hide Parts, Listing, Kept, Rooted, MANIFEST;
    ListingIs(s, nas);
    var ms, ps := Written(s, nas, size, bytes), Listing(s, nas);
    forall i | 0 < i < |ms| ensures Parts(ms[i].name) == ps[i - 1] {
      WrittenAt(s, nas, size, bytes, i);
    }
    forall q | q != [] && Kept(s, nas, q) ensures exists i :: 0 < i < |ms| && Parts(ms[i].name) == q {
      var k :| 0 <= k < |ps| && ps[k] == q;
      assert Parts(ms[k + 1].name) == q;
    }
  }

  lemma KeptAbove(s: Tree, nas: Path -> bool, q: Path, k: nat)
    requires Rooted(s) && Kept(s, nas, q) && k < |q|
    ensures Kept(s, nas, q[..k]) && s[q[..k]] == Dir
  {
    hide Skipped;
    AncestorsAreDirs(s, q, k);
    assert forall i :: 0 < i <= k ==> q[..k][..i] == q[..i];
  }

  lemma KeptRooted(s: Tree, nas: Path -> bool)
    requires Rooted(s)
    ensures Rooted(KeptTree(s, nas))
  {
    hide Kept, Rooted;
    RootIsDir(s);
    RootKept(s, nas);
    var t := KeptTree(s, nas);
    forall p | p in t && p != [] ensures p[..|p| - 1] in t && t[p[..|p| - 1]] == Dir {
      KeptAbove(s, nas, p, |p| - 1);
      KeptIsIn(s, nas, p[..|p| - 1]);
    }
    RootedWhen(t);
  }

  lemma RootKept(s: Tree, nas: Path -> bool)
    requires [] in s
    ensures Kept(s, nas, [])
  {
  }

  lemma RootedWhen(t: Tree)
    requires [] in t && t[[]] == Dir && forall p :: p in t && p != [] ==> p[..|p| - 1] in t && t[p[..|p| - 1]] == Dir
    ensures Rooted(t)
  {
  }

  /** Nothing called like the manifest is kept. */
  ghost predicate Unnamed(s: Tree, nas: Path -> bool) {
    !Kept(s, nas, [MANIFEST])
  }

  /** The archive says exactly what is kept. */
  lemma WrittenExactly(s: Tree, nas: Path -> bool, size: int -> nat, bytes: nat)
    requires StateTree(s) && Unnamed(s, nas)
    ensures Exactly(Written(s, nas, size, bytes), KeptTree(s, nas))
  {
    hide Parts, Listing, Kept, Rooted, MANIFEST, NodeOf;
    var ms, t := Written(s, nas, size, bytes), KeptTree(s, nas);
    KeptRooted(s, nas);
    WrittenOnce(s, nas, size, bytes);
    forall i | 0 <= i < |ms| && (Plain(ms[i]) || IsLinkMember(ms[i]))
      ensures Parts(ms[i].name) in t && t[Parts(ms[i].name)] == NodeOf(ms[i])
    {
      WrittenAt(s, nas, size, bytes, i);
    }
    forall q ensures q in t <==> q == [] || Below(ms, q, Plain) || Below(ms, q, IsLinkMember) {
      WrittenBelow(s, nas, size, bytes, q);
    }
  }

  lemma WrittenBelow(s: Tree, nas: Path -> bool, size: int -> nat, bytes: nat, q: Path)
    requires StateTree(s) && Unnamed(s, nas)
    ensures var ms := Written(s, nas, size, bytes);
            q in KeptTree(s, nas) <==> q == [] || Below(ms, q, Plain) || Below(ms, q, IsLinkMember)
  {
    hide Parts, Listing, Kept, MANIFEST, NodeOf, Rooted;
    var ms := Written(s, nas, size, bytes);
    WrittenOnce(s, nas, size, bytes);
    RootIsDir(s);
    RootKept(s, nas);
    KeptIsIn(s, nas, q);
    if q != [] && Kept(s, nas, q) {
      var i :| 0 < i < |ms| && Parts(ms[i].name) == q;
      WrittenAt(s, nas, size, bytes, i);
      assert Plain(ms[i]) || IsLinkMember(ms[i]);
    }
    if i :| 0 <= i < |ms| && (Plain(ms[i]) || IsLinkMember(ms[i])) && Prefix(q, Parts(ms[i].name)) {
      WrittenAt(s, nas, size, bytes, i);
      PrefixKept(s, nas, q, Parts(ms[i].name));
    }
  }

  lemma PrefixKept(s: Tree, nas: Path -> bool, q: Path, p: Path)
    requires Rooted(s) && Kept(s, nas, p) && Prefix(q, p)
    ensures Kept(s, nas, q)
  {
    assert q == p[..|q|];
    if |q| < |p| {
      KeptAbove(s, nas, p, |q|);
    } else {
      assert q == p;
    }
  }

  /** It can be laid out as its names say. */
  lemma WrittenLayable(s: Tree, nas: Path -> bool, size: int -> nat, bytes: nat)
    requires StateTree(s) && Unnamed(s, nas)
    ensures Layable(Written(s, nas, size, bytes)) && CanonicalLinks(Written(s, nas, size, bytes))
  {
    hide Parts, Listing, Kept, MANIFEST, NodeOf, Rooted, Layable, Canonical, Written, Prefix;
    var ms := Written(s, nas, size, bytes);
    WrittenOnce(s, nas, size, bytes);
    forall i, j | 0 <= i < |ms| && 0 <= j < |ms| && i != j && Made(ms[i]) && Made(ms[j]) && !ms[i].kind.IsDir?
      ensures !Prefix(Parts(ms[i].name), Parts(ms[j].name))
    {
      WrittenAt(s, nas, size, bytes, i);
      WrittenAt(s, nas, size, bytes, j);
      NotAbove(s, Parts(ms[i].name), Parts(ms[j].name));
      NodeKind(ms[i]);
    }
    forall i | 0 <= i < |ms| && Made(ms[i]) && !ms[i].kind.IsDir?
      ensures Parts(ms[i].name) != [] && (ms[i].kind.IsLink? ==> ms[i].link != "")
    {
      WrittenAt(s, nas, size, bytes, i);
      NodeKind(ms[i]);
    }
    LayableWhen(ms);
    forall k | 0 <= k < |ms| && ms[k].kind.IsLink? ensures Canonical(ms[k].name) {
      WrittenAt(s, nas, size, bytes, k);
    }
  }

  lemma NodeKind(m: Member)
    requires !m.kind.Other?
    ensures NodeOf(m).Dir? <==> m.kind.IsDir?
    ensures m.kind.IsLink? ==> NodeOf(m) == Link(m.link)
    ensures NodeOf(m).Link? <==> m.kind.IsLink?
  {
  }

  lemma NotAbove(s: Tree, p: Path, q: Path)
    requires Rooted(s) && p in s && q in s && p != q && !s[p].Dir?
    ensures !Prefix(p, q)
  {
    NothingBelow(s, p, q);
  }

  /** It is clear of the decrypted archive exactly if nothing of that name is kept. */
  lemma WrittenPayload(s: Tree, nas: Path -> bool, size: int -> nat, bytes: nat)
    requires StateTree(s) && Unnamed(s, nas)
    ensures PayloadFree(Written(s, nas, size, bytes)) <==> !Kept(s, nas, [PAYLOAD])
  {
    hide Parts, Listing, Kept, MANIFEST, PAYLOAD, NodeOf, Rooted, Written;
    var ms := Written(s, nas, size, bytes);
    WrittenOnce(s, nas, size, bytes);
    forall i | 0 <= i < |ms| && Made(ms[i]) && Prefix([PAYLOAD], Parts(ms[i].name)) ensures Kept(s, nas, [PAYLOAD]) {
      WrittenAt(s, nas, size, bytes, i);
      PrefixKept(s, nas, [PAYLOAD], Parts(ms[i].name));
    }
    if Kept(s, nas, [PAYLOAD]) {
      var i :| 0 < i < |ms| && Parts(ms[i].name) == [PAYLOAD];
      WrittenAt(s, nas, size, bytes, i);
      PayloadPath();
      assert Made(ms[i]) && Prefix([PAYLOAD], Parts(ms[i].name));
    }
  }

  // ----- what can be backed up -----

  /** What the archive can carry: names without a backslash, and links that pass the depth
      count. */
  predicate Portables(s: Tree, nas: Path -> bool) {
    forall q :: q in s && q != [] && Kept(s, nas, q) ==>
      '\\' !in Joined(q) && (s[q].Link? ==> Portable(q, s[q].target))
  }

  lemma WrittenValid(s: Tree, nas: Path -> bool, size: int -> nat, bytes: nat)
    requires StateTree(s)
    ensures AllValid(Written(s, nas, size, bytes)) <==> Portables(s, nas)
  {
    hide Parts, Listing, Kept, NodeOf, Rooted, Written, Portable, ValidMember, Joined;
    var ms := Written(s, nas, size, bytes);
    WrittenOnce(s, nas, size, bytes);
    ManifestValid(bytes);
    forall i | 0 < i < |ms|
      ensures var q := Parts(ms[i].name);
              && q in s && q != [] && Kept(s, nas, q)
              && (ValidMember(ms[i]) <==> '\\' !in Joined(q) && (s[q].Link? ==> Portable(q, s[q].target)))
    {
      WrittenAt(s, nas, size, bytes, i);
      MemberValid(ms[i], s[Parts(ms[i].name)]);
    }
    forall q | q in s && q != [] && Kept(s, nas, q) ensures exists i :: 0 < i < |ms| && Parts(ms[i].name) == q {
    }
  }

  lemma MemberValid(m: Member, n: Node)
    requires Parts(m.name) != [] && Canonical(m.name) && m.name != "" && !Absolute(m.name) && ".." !in Parts(m.name)
    requires !m.kind.Other? && NodeOf(m) == n
    ensures ValidMember(m) <==>
            '\\' !in Joined(Parts(m.name)) && (n.Link? ==> Portable(Parts(m.name), n.target))
  {
    hide Parts, Portable, Joined;
    NodeKind(m);
  }

  lemma ManifestValid(bytes: nat)
    ensures ValidMember(ManifestOf(bytes))
  {
    ManifestPath();
    ManifestText();
    hide Parts, MANIFEST;
  }

  lemma ManifestText()
    ensures MANIFEST != "" && MANIFEST != ".." && !Absolute(MANIFEST) && '\\' !in MANIFEST
  {
  }

  /** Nothing of it lies under a link. */
  lemma WrittenClear(s: Tree, nas: Path -> bool, size: int -> nat, bytes: nat, i: nat)
    requires StateTree(s) && i < |Written(s, nas, size, bytes)|
    ensures !UnderLink(Written(s, nas, size, bytes), Parts(Written(s, nas, size, bytes)[i].name))
  {
    hide Parts, Joined, Listing, Kept, NodeOf, Rooted, Written, MANIFEST;
    var ms := Written(s, nas, size, bytes);
    WrittenOnce(s, nas, size, bytes);
    var p := Parts(ms[i].name);
    ManifestPath();
    if i > 0 {
      WrittenAt(s, nas, size, bytes, i);
    }
    forall k, j | 0 < k < |p| && 0 <= j < |ms| && ms[j].kind.IsLink? ensures ms[j].name != Joined(p[..k]) {
      WrittenAt(s, nas, size, bytes, j);
      WrittenAt(s, nas, size, bytes, i);
      AncestorsAreDirs(s, p, k);
      NodeKind(ms[j]);
      GoodName(p[..k]);
    }
  }

  /** `_create_archive` succeeds if and only if the archive keeps to its limits, nothing
      kept is called like the manifest, no kept name has a backslash, and every kept link
      passes the depth count. */
  lemma CreateIff(s: Tree, nas: Path -> bool, size: int -> nat, bytes: nat)
    requires StateTree(s)
    ensures var ms := Written(s, nas, size, bytes);
            Create(s, nas, size, bytes).Some? <==>
            && |ms| <= MAX_MEMBERS && Size(ms) <= MAX_BYTES && Unnamed(s, nas) && Portables(s, nas)
  {
    hide Parts, Joined, Listing, Kept, NodeOf, Rooted, Written, ValidMember, Size, UnderLink, Portables, MANIFEST;
    var ms := Written(s, nas, size, bytes);
    WrittenOnce(s, nas, size, bytes);
    WrittenValid(s, nas, size, bytes);
    ManifestPath();
    forall i | 0 <= i < |ms| ensures !UnderLink(ms, Parts(ms[i].name)) {
      WrittenClear(s, nas, size, bytes, i);
    }
    NamesOnce(s, nas, size, bytes);
    InspectedWhen(ms);
  }

  lemma NamesOnce(s: Tree, nas: Path -> bool, size: int -> nat, bytes: nat)
    requires StateTree(s)
    ensures var ms := Written(s, nas, size, bytes);
            (forall i, j :: 0 <= i < j < |ms| ==> ms[i].name != ms[j].name) <==> Unnamed(s, nas)
  {
    hide Parts, Joined, Listing, Kept, NodeOf, Rooted, Written, MANIFEST;
    var ms := Written(s, nas, size, bytes);
    WrittenOnce(s, nas, size, bytes);
    ManifestPath();
    if Kept(s, nas, [MANIFEST]) {
      var i :| 0 < i < |ms| && Parts(ms[i].name) == [MANIFEST];
      WrittenAt(s, nas, size, bytes, i);
      assert ms[0].name == ms[i].name;
    }
    if Unnamed(s, nas) {
      forall i, j | 0 <= i < j < |ms| ensures ms[i].name != ms[j].name {
        WrittenAt(s, nas, size, bytes, j);
        if i > 0 {
          assert Parts(ms[i].name) != Parts(ms[j].name);
        }
      }
    }
  }

  lemma InspectedWhen(ms: seq<Member>)
    requires ms != [] && ms[0].name == MANIFEST && ms[0].manifest.Compatible?
    requires forall i :: 0 <= i < |ms| ==> !UnderLink(ms, Parts(ms[i].name))
    ensures Inspected(ms) <==>
            && |ms| <= MAX_MEMBERS && Size(ms) <= MAX_BYTES && AllValid(ms)
            && forall i, j :: 0 <= i < j < |ms| ==> ms[i].name != ms[j].name
  {
    hide ValidMember, Size, UnderLink, Parts, MANIFEST;
  }

  // ----- and back -----

  /** Only one tree holds an archive exactly. */
  lemma ExactIsUnique(ms: seq<Member>, t: Tree, u: Tree)
    requires Exactly(ms, t) && Exactly(ms, u)
    ensures t == u
  {
    hide Parts, NodeOf, Plain;
    forall q | q in t ensures t[q] == u[q] {
      if q != [] {
        var i := MemberAbove(ms, q);
        NodesAgree(ms, t, q, i);
        NodesAgree(ms, u, q, i);
      }
    }
    assert t.Keys == u.Keys;
  }

  lemma MemberAbove(ms: seq<Member>, q: Path) returns (i: nat)
    requires Below(ms, q, Plain) || Below(ms, q, IsLinkMember)
    ensures i < |ms| && (Plain(ms[i]) || IsLinkMember(ms[i])) && Prefix(q, Parts(ms[i].name))
  {
    hide Parts, Plain;
    if Below(ms, q, Plain) {
      i :| 0 <= i < |ms| && Plain(ms[i]) && Prefix(q, Parts(ms[i].name));
    } else {
      i :| 0 <= i < |ms| && IsLinkMember(ms[i]) && Prefix(q, Parts(ms[i].name));
    }
  }

  lemma NodesAgree(ms: seq<Member>, t: Tree, q: Path, i: nat)
    requires Exactly(ms, t) && i < |ms| && (Plain(ms[i]) || IsLinkMember(ms[i])) && Prefix(q, Parts(ms[i].name))
    ensures q in t && t[q] == if q == Parts(ms[i].name) then NodeOf(ms[i]) else Dir
  {
    hide Parts, NodeOf, Plain, Below;
    var p := Parts(ms[i].name);
    assert p in t && t[p] == NodeOf(ms[i]);
    assert p[..|q|] == q;
    if |q| < |p| {
      AncestorsAreDirs(t, p, |q|);
    } else {
      assert q == p;
    }
  }

  /** Backup and restore: an archive that was created restores to exactly what was kept of
      the state directory, on every host, unless something kept has the name of the
      decrypted archive; then it cannot be restored at all. */
  lemma BackupRoundTrip(s: Tree, nas: Path -> bool, size: int -> nat, bytes: nat, host: Host)
    requires StateTree(s) && Create(s, nas, size, bytes).Some?
    ensures Restore(Create(s, nas, size, bytes).value, host)
            == if Kept(s, nas, [PAYLOAD]) then Failed else Done(KeptTree(s, nas))
  {
    hide Kept, Written, Restore, Inspected, Layable, PayloadFree, Exactly, CanonicalLinks, KeptTree, PAYLOAD, Portables;
    hide Rooted, WritesThrough, Leaves;
    var ms := Written(s, nas, size, bytes);
    CreateIff(s, nas, size, bytes);
    WrittenLayable(s, nas, size, bytes);
    WrittenPayload(s, nas, size, bytes);
    WrittenExactly(s, nas, size, bytes);
    RestoreNeverWritesThroughLinks(ms, host);
    if !Kept(s, nas, [PAYLOAD]) {
      ExactIsUnique(ms, Restore(ms, host).tree, KeptTree(s, nas));
    }
  }
}
