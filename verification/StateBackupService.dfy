/** The scan and the extraction loops. */
module StateBackupService {
  import opened ArchivePaths
  import opened StateBackup
  import opened StateBackupRestore
  import opened Wrappers

  /** A parent of the name is in the set of link names. */
  method TraversesLink(p: Path, links: set<string>) returns (found: bool)
    ensures found <==> exists k :: 0 < k < |p| && Joined(p[..k]) in links
  {
    hide Joined;
    var n := |p|;
    while n > 1
      invariant n <= |p|
      invariant forall k :: n <= k < |p| && 0 < k ==> Joined(p[..k]) !in links
    {
      n := n - 1;
      if Joined(p[..n]) in links {
        return true;
      }
    }
    found := false;
  }

  /** What the first loop has seen of the archive. */
  ghost predicate Scanned(ms: seq<Member>, i: nat, seen: set<string>, links: set<string>, bytes: int, manifest: Manifest)
    requires i <= |ms|
  {
    && (forall n :: n in seen <==> Named(ms[..i], n))
    && (forall n :: n in links <==> LinkNamed(ms[..i], n))
    && bytes == Size(ms[..i]) <= MAX_BYTES
    && (forall k :: 0 <= k < i ==> ValidMember(ms[k]))
    && (forall j, k :: 0 <= j < k < i ==> ms[j].name != ms[k].name)
    && (Named(ms[..i], MANIFEST) ==> exists k :: 0 <= k < i && ms[k].name == MANIFEST && ms[k].manifest == manifest)
    && (manifest == Compatible ==> Named(ms[..i], MANIFEST))
  }

  lemma ScannedStep(ms: seq<Member>, i: nat, seen: set<string>, links: set<string>, bytes: int, manifest: Manifest)
    requires i < |ms| && Scanned(ms, i, seen, links, bytes, manifest)
    requires ValidMember(ms[i]) && ms[i].name !in seen
    ensures var m := ms[i];
            var bytes' := bytes + if m.bytes < 0 then 0 else m.bytes;
            bytes' == Size(ms[..i + 1])
            && (bytes' <= MAX_BYTES ==>
                  Scanned(ms, i + 1, seen + {m.name}, if m.kind.IsLink? then links + {m.name} else links, bytes',
                          if m.name == MANIFEST then m.manifest else manifest))
  {
    hide ValidMember;
    var m, more := ms[i], ms[..i + 1];
    assert more[..i] == ms[..i] && more[i] == m;
    forall n ensures Named(more, n) <==> Named(ms[..i], n) || n == m.name {
      if k :| 0 <= k < i && ms[..i][k].name == n {
        assert more[k].name == n;
      }
      if k :| 0 <= k < |more| && more[k].name == n {
        assert k < i ==> ms[..i][k].name == n;
      }
    }
    forall n ensures LinkNamed(more, n) <==> LinkNamed(ms[..i], n) || (m.kind.IsLink? && n == m.name) {
      if k :| 0 <= k < i && ms[..i][k].name == n && ms[..i][k].kind.IsLink? {
        assert more[k].name == n;
      }
      if k :| 0 <= k < |more| && more[k].name == n && more[k].kind.IsLink? {
        assert k < i ==> ms[..i][k].name == n;
      }
    }
    forall k | 0 <= k < i ensures ms[k].name != m.name {
      assert ms[..i][k].name == ms[k].name;
    }
  }

  /** A repeated name or an excess of bytes is found at its first occurrence. */
  lemma SizeGrows(ms: seq<Member>, i: nat)
    requires i <= |ms|
    ensures Size(ms[..i]) <= Size(ms)
    decreases |ms| - i
  {
    if i == |ms| {
      assert ms[..i] == ms;
    } else {
      assert ms[..i + 1][..i] == ms[..i];
      SizeGrows(ms, i + 1);
    }
  }

  lemma SeenTwice(ms: seq<Member>, i: nat)
    requires i < |ms| && Named(ms[..i], ms[i].name)
    ensures !Inspected(ms)
  {
    hide ValidMember, UnderLink, Size;
    var k :| 0 <= k < i && ms[..i][k].name == ms[i].name;
    assert ms[k].name == ms[i].name;
  }

  lemma ScanDecides(ms: seq<Member>, seen: set<string>, links: set<string>, bytes: int, manifest: Manifest)
    requires Scanned(ms, |ms|, seen, links, bytes, manifest) && |ms| <= MAX_MEMBERS
    ensures Inspected(ms)
            <==> manifest == Compatible && forall i :: 0 <= i < |ms| ==> !UnderLink(ms, Parts(ms[i].name))
    ensures forall n :: n in links <==> LinkNamed(ms, n)
  {
    hide ValidMember, UnderLink, Size, Parts;
    assert ms[..|ms|] == ms;
    if k :| 0 <= k < |ms| && ms[k].name == MANIFEST && ms[k].manifest.Compatible? {
      assert Named(ms, MANIFEST);
    }
  }

  method InspectArchive(ms: seq<Member>) returns (ok: bool)
    ensures ok == Inspected(ms)
  {
    hide ValidMember, UnderLink, Size, Parts, Scanned;
    var seen: set<string>, links: set<string>, bytes, manifest := {}, {}, 0, Unreadable;
    ScanStarts(ms);
    var i := 0;
    while i < |ms|
      invariant i <= |ms| && i <= MAX_MEMBERS
      invariant Scanned(ms, i, seen, links, bytes, manifest)
    {
      var m := ms[i];
      if i + 1 > MAX_MEMBERS || !ValidMember(m) {
        return false;
      }
      if m.name in seen {
        NamedWhenSeen(ms, i, seen, links, bytes, manifest);
        SeenTwice(ms, i);
        return false;
      }
      ScannedStep(ms, i, seen, links, bytes, manifest);
      seen := seen + {m.name};
      links := if m.kind.IsLink? then links + {m.name} else links;
      bytes := bytes + if m.bytes < 0 then 0 else m.bytes;
      if bytes > MAX_BYTES {
        SizeGrows(ms, i + 1);
        return false;
      }
      manifest := if m.name == MANIFEST then m.manifest else manifest;
      i := i + 1;
    }
    ScanDecides(ms, seen, links, bytes, manifest);
    if manifest != Compatible {
      return false;
    }
    i := 0;
    while i < |ms|
      invariant i <= |ms|
      invariant forall k :: 0 <= k < i ==> !UnderLink(ms, Parts(ms[k].name))
    {
      var traverses := TraversesLink(Parts(ms[i].name), links);
      UnderLinkFound(ms, Parts(ms[i].name), links);
      if traverses {
        return false;
      }
      i := i + 1;
    }
    ok := true;
  }

  lemma ScanStarts(ms: seq<Member>)
    ensures Scanned(ms, 0, {}, {}, 0, Unreadable)
  {
    assert ms[..0] == [];
  }

  lemma NamedWhenSeen(ms: seq<Member>, i: nat, seen: set<string>, links: set<string>, bytes: int, manifest: Manifest)
    requires i < |ms| && Scanned(ms, i, seen, links, bytes, manifest) && ms[i].name in seen
    ensures Named(ms[..i], ms[i].name)
  {
    hide ValidMember, Size;
  }

  lemma UnderLinkFound(ms: seq<Member>, p: Path, links: set<string>)
    requires forall n :: n in links <==> LinkNamed(ms, n)
    ensures UnderLink(ms, p) <==> exists k :: 0 < k < |p| && Joined(p[..k]) in links
  {
    hide Joined;
    if k :| 0 < k < |p| && Joined(p[..k]) in links {
      assert LinkNamed(ms, Joined(p[..k]));
    }
    if k :| 0 < k < |p| && LinkNamed(ms, Joined(p[..k])) {
      assert Joined(p[..k]) in links;
    }
  }

  /** `Path.mkdir` with parents. */
  method MakeDirs(t: Tree, p: Path) returns (r: Option<Tree>)
    ensures r == Mkdirs(t, p)
  {
    var made := t;
    for i := 1 to |p| + 1
      invariant Mkdirs(t, p[..i - 1]) == Some(made)
      invariant i <= |p| + 1
    {
      var q := p[..i];
      assert q[..|q| - 1] == p[..i - 1];
      if q !in made {
        made := made[q := Dir];
      } else if made[q] != Dir {
        MkdirsFails(t, p, i);
        return None;
      }
    }
    assert p[..|p|] == p;
    r := Some(made);
  }

  lemma {:induction false} MkdirsFails(t: Tree, p: Path, i: nat)
    requires i <= |p| && Mkdirs(t, p[..i]).None?
    ensures Mkdirs(t, p).None?
    decreases |p|
  {
    if i == |p| {
      assert p[..i] == p;
    } else {
      assert p[..|p| - 1][..i] == p[..i];
      MkdirsFails(t, p[..|p| - 1], i);
    }
  }

  /** Making one link: its folder with parents, and then the link itself. */
  method MakeLink(t: Tree, p: Path, target: string) returns (r: Landing)
    requires p != []
    ensures forall m: Member :: m.kind.IsLink? && Parts(m.name) == p && m.link == target ==> r == Land(t, m)
  {
    hide Parts, Enter;
    var folder := Enter(t, p[..|p| - 1]);
    if folder.Refused? {
      return Unplaced;
    }
    if folder.Escaped? {
      return Away;
    }
    var place := folder.place + [p[|p| - 1]];
    if place in folder.tree || target == "" {
      return Unplaced;
    }
    r := Here(folder.tree[place := Link(target)]);
  }

  /** The links, one after the other; `away`: some of them belong outside. */
  method MakeLinks(plain: Tree, ms: seq<Member>, host: Host) returns (r: Restored, away: bool)
    ensures r == LinkPhase(plain, ms, host)
    ensures r.Done? ==> (away <==> exists j :: 0 <= j < |ms| && AwayAt(plain, ms, j, host))
  {
    hide Parts, Land;
    var tree := plain;
    away := false;
    assert ms[..0] == [] && ms[..|ms|] == ms;
    var i := 0;
    while i < |ms|
      invariant i <= |ms| && LinkPhase(plain, ms[..i], host) == Done(tree)
      invariant away <==> exists j :: 0 <= j < i && AwayAt(plain, ms, j, host)
    {
      NextPlaced(plain, ms, i, host);
      var landing := Here(tree);
      if ms[i].kind.IsLink? {
        var p := Parts(ms[i].name);
        landing := Unplaced;
        if p != [] {
          landing := MakeLink(tree, p, ms[i].link);
        } else {
          RootIsTaken(tree, ms[i]);
        }
      } else {
        NoLinkPlaced(tree, ms[i]);
      }
      assert landing.Away? <==> AwayAt(plain, ms, i, host);
      if landing.Unplaced? || (landing.Away? && (ms[i].link == "" || !host.makes(ms[i]))) {
        LinkPhasePrefix(plain, ms, i + 1, host);
        return Failed, away;
      }
      if landing.Away? {
        away := true;
      } else {
        tree := landing.tree;
      }
      i := i + 1;
    }
    r := Done(tree);
  }

  /** `away`: some entry has gone outside the destination. */
  method ExtractArchive(ms: seq<Member>, host: Host) returns (r: Restored, away: bool)
    ensures r == Extract(ms, host)
    ensures r.Done? ==> away == Leaves(ms, host)
  {
    hide Parts, Place, Mkdirs, Land, ValidMember;
    var tree := STAGED;
    away := false;
    assert ms[..0] == [];
    var i := 0;
    while i < |ms|
      invariant i <= |ms| && PlainPhase(STAGED, ms[..i]) == Some(tree)
      invariant forall k :: 0 <= k < i ==> ValidMember(ms[k])
    {
      assert ms[..i + 1][..i] == ms[..i];
      if !ValidMember(ms[i]) {
        return Failed, away;
      }
      if ms[i].name != MANIFEST && !ms[i].kind.IsLink? {
        var p := Parts(ms[i].name);
        var next: Option<Tree>;
        if ms[i].kind.IsDir? {
          next := MakeDirs(tree, p);
        } else {
          next := Place(tree, p, File(ms[i].data));
        }
        if next.None? {
          PlainPhaseFails(ms, i + 1);
          return Failed, away;
        }
        tree := next.value;
      }
      i := i + 1;
    }
    assert ms[..|ms|] == ms;
    r, away := MakeLinks(tree, ms, host);
  }

  lemma RootIsTaken(t: Tree, m: Member)
    requires m.kind.IsLink? && Parts(m.name) == []
    ensures Land(t, m) == Unplaced
  {
  }

  lemma NoLinkPlaced(t: Tree, m: Member)
    requires !m.kind.IsLink?
    ensures Land(t, m) == Here(t)
  {
  }

  method RestoreBackup(ms: seq<Member>, host: Host) returns (r: Restored)
    ensures r == Restore(ms, host)
  {
    hide Inspected, Extract, Leaves;
    var ok := InspectArchive(ms);
    if !ok {
      return Failed;
    }
    var away;
    r, away := ExtractArchive(ms, host);
    if r.Done? {
      r := if away && !host.renames then Failed else Done(r.tree - {[PAYLOAD]});
    }
  }

  lemma {:induction false} PlainPhaseFails(ms: seq<Member>, i: nat)
    requires i <= |ms| && PlainPhase(STAGED, ms[..i]).None?
    ensures PlainPhase(STAGED, ms).None?
  {
    if i == |ms| {
      assert ms[..i] == ms;
    } else {
      assert ms[..|ms| - 1][..i] == ms[..i];
      PlainPhaseFails(ms[..|ms| - 1], i);
    }
  }
}
