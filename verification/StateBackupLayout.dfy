/** Laying out an archive where its names say: exactly which archives can be, and which
    ones have a link above another one. */
module StateBackupLayout {
  import opened ArchivePaths
  import opened StateBackup
  import opened Wrappers

  /** A link is among the proper ancestors. */
  predicate Through(t: Tree, p: Path) {
    exists k :: 0 <= k < |p| && p[..k] in t && t[p[..k]].Link?
  }

  /** What becomes of links laid one after the other where their names say, until one has
      a link above it. */
  datatype Layout = Laid(tree: Tree) | Blocked | MetLink

  function LayLink(t: Tree, m: Member): Layout {
    var p := Parts(m.name);
    if !m.kind.IsLink? then Laid(t)
    else if Through(t, p) then MetLink
    else
      var r := Place(t, p, Link(m.link));
      if r.None? || m.link == "" then Blocked else Laid(r.value)
  }

  /** Then every link. */
  function LayLinks(t: Tree, ms: seq<Member>): Layout {
    if ms == [] then Laid(t)
    else
      var before := LayLinks(t, ms[..|ms| - 1]);
      if before.Laid? then LayLink(before.tree, ms[|ms| - 1]) else before
  }

  /** First every file and directory, then the links. */
  function Lay(ms: seq<Member>): Layout {
    var plain := PlainPhase(FRESH, ms);
    if plain.None? then Blocked else LayLinks(plain.value, ms)
  }

  // ----- what a tree looks like -----

  /** Everything hangs below directories. */
  ghost predicate Rooted(t: Tree) {
    [] in t && t[[]] == Dir && forall p :: p in t && p != [] ==> p[..|p| - 1] in t && t[p[..|p| - 1]] == Dir
  }

  lemma {:induction false} AncestorsAreDirs(t: Tree, p: Path, k: nat)
    requires Rooted(t) && p in t && k < |p|
    ensures p[..k] in t && t[p[..k]] == Dir
    decreases |p|
  {
    var q := p[..|p| - 1];
    if k < |q| {
      AncestorsAreDirs(t, q, k);
      assert q[..k] == p[..k];
    } else {
      assert q == p[..k];
    }
  }

  predicate Prefix(q: Path, p: Path) {
    q <= p
  }

  lemma PrefixStep(x: Path, p: Path)
    requires p != []
    ensures Prefix(x, p) <==> Prefix(x, p[..|p| - 1]) || x == p
  {
    var q := p[..|p| - 1];
    if x <= p && x != p {
      assert x == q[..|x|];
    }
    if x <= q {
      assert x == p[..|x|];
    }
  }

  lemma {:induction false} MkdirsShape(t: Tree, p: Path)
    requires Rooted(t) && Mkdirs(t, p).Some?
    ensures var u := Mkdirs(t, p).value;
            && Rooted(u) && p in u && u[p] == Dir
            && (forall q :: q in u <==> q in t || Prefix(q, p))
            && (forall q :: q in t ==> u[q] == t[q])
            && forall q :: q in u && q !in t ==> u[q] == Dir
    decreases |p|
  {
    if p != [] {
      var q := p[..|p| - 1];
      MkdirsShape(t, q);
      forall x: Path ensures Prefix(x, p) <==> Prefix(x, q) || x == p {
        PrefixStep(x, p);
      }
    }
  }

  lemma PlaceShape(t: Tree, p: Path, n: Node)
    requires Rooted(t) && Place(t, p, n).Some?
    ensures var u := Place(t, p, n).value;
            && Rooted(u) && u[p] == n && p !in t
            && (forall q :: q in u <==> q in t || Prefix(q, p))
            && (forall q :: q in t ==> u[q] == t[q])
            && forall q :: q in u && q !in t && q != p ==> u[q] == Dir
  {
    hide Mkdirs, Rooted;
    var q := p[..|p| - 1];
    MkdirsShape(t, q);
    RootedAdd(Mkdirs(t, q).value, p, n);
    forall x: Path ensures Prefix(x, p) <==> Prefix(x, q) || x == p {
      PrefixStep(x, p);
    }
  }

  lemma RootedAdd(t: Tree, q: Path, n: Node)
    requires Rooted(t) && q !in t && q != [] && q[..|q| - 1] in t && t[q[..|q| - 1]] == Dir
    ensures Rooted(t[q := n])
  {
    var u := t[q := n];
    forall p | p in u && p != [] ensures p[..|p| - 1] in u && u[p[..|p| - 1]] == Dir {
      assert p[..|p| - 1] != q || p !in t;
      assert p == q ==> p[..|p| - 1] != q;
    }
  }

  /** The node that a member becomes. */
  function NodeOf(m: Member): Node {
    match m.kind
    case IsDir => Dir
    case IsLink => Link(m.link)
    case _ => File(m.data)
  }

  predicate Plain(m: Member) {
    m.name != MANIFEST && !m.kind.IsLink?
  }

  /** Some selected member's path begins with `q`. */
  ghost predicate Below(ms: seq<Member>, q: Path, sel: Member -> bool) {
    exists i :: 0 <= i < |ms| && sel(ms[i]) && Prefix(q, Parts(ms[i].name))
  }

  lemma BelowAppend(ms: seq<Member>, q: Path, sel: Member -> bool)
    requires ms != []
    ensures Below(ms, q, sel)
            <==> Below(ms[..|ms| - 1], q, sel) || (sel(ms[|ms| - 1]) && Prefix(q, Parts(ms[|ms| - 1].name)))
  {
    hide Parts;
    var init := ms[..|ms| - 1];
    if i :| 0 <= i < |init| && sel(init[i]) && Prefix(q, Parts(init[i].name)) {
      assert ms[i] == init[i];
    }
    if i :| 0 <= i < |ms| && sel(ms[i]) && Prefix(q, Parts(ms[i].name)) {
      assert i < |init| ==> init[i] == ms[i];
    }
  }

  /** Every selected member is in the tree as itself. */
  ghost predicate AllIn(ms: seq<Member>, t: Tree, sel: Member -> bool) {
    forall i :: 0 <= i < |ms| && sel(ms[i]) ==> Parts(ms[i].name) in t && t[Parts(ms[i].name)] == NodeOf(ms[i])
  }

  lemma AllInAppend(ms: seq<Member>, t: Tree, u: Tree, sel: Member -> bool)
    requires ms != [] && AllIn(ms[..|ms| - 1], t, sel)
    requires forall q :: q in t ==> q in u && u[q] == t[q]
    requires var m := ms[|ms| - 1]; sel(m) ==> Parts(m.name) in u && u[Parts(m.name)] == NodeOf(m)
    ensures AllIn(ms, u, sel)
  {
    hide Parts, NodeOf;
    forall i | 0 <= i < |ms| && sel(ms[i])
      ensures Parts(ms[i].name) in u && u[Parts(ms[i].name)] == NodeOf(ms[i])
    {
      assert i < |ms| - 1 ==> ms[..|ms| - 1][i] == ms[i];
    }
  }

  /** What one placed file or directory, or one placed link, does to the tree. */
  ghost predicate Grown(t: Tree, u: Tree, p: Path, n: Node) {
    && Rooted(u) && p in u && u[p] == n
    && (forall q :: q in u <==> q in t || Prefix(q, p))
    && (forall q :: q in t ==> u[q] == t[q])
    && forall q :: q in u && q !in t && q != p ==> u[q] == Dir
  }

  lemma PlainGrows(t: Tree, m: Member)
    requires Rooted(t) && Plain(m) && PlacePlain(t, m).Some?
    ensures Grown(t, PlacePlain(t, m).value, Parts(m.name), NodeOf(m))
  {
    hide Parts, Mkdirs, Place;
    if m.kind.IsDir? {
      MkdirsShape(t, Parts(m.name));
    } else {
      PlaceShape(t, Parts(m.name), File(m.data));
    }
  }

  lemma LinkGrows(t: Tree, m: Member)
    requires Rooted(t) && m.kind.IsLink? && LayLink(t, m).Laid?
    ensures Grown(t, LayLink(t, m).tree, Parts(m.name), NodeOf(m))
  {
    hide Parts, Mkdirs, Place, Through;
    PlaceShape(t, Parts(m.name), Link(m.link));
  }

  ghost predicate NoLinks(t: Tree) {
    forall q :: q in t ==> !t[q].Link?
  }

  /** After the first phase: no link anywhere, and exactly the files and directories. */
  lemma {:induction false} PlainPhaseShape(ms: seq<Member>)
    requires PlainPhase(FRESH, ms).Some?
    ensures var t := PlainPhase(FRESH, ms).value;
            && Rooted(t) && NoLinks(t) && AllIn(ms, t, Plain)
            && forall q :: q in t <==> q == [] || Below(ms, q, Plain)
  {
    hide Parts, PlacePlain, AllIn, Below, Rooted;
    if ms == [] {
      FreshShape();
    } else {
      var n := |ms| - 1;
      PlainPhaseShape(ms[..n]);
      var t, m := PlainPhase(FRESH, ms[..n]).value, ms[n];
      var u := PlainPhase(FRESH, ms).value;
      forall q ensures Below(ms, q, Plain) <==> Below(ms[..n], q, Plain) || (Plain(m) && Prefix(q, Parts(m.name))) {
        BelowAppend(ms, q, Plain);
      }
      if Plain(m) {
        PlainGrows(t, m);
      } else {
        SkippedPlain(t, m);
      }
      AllInAppend(ms, t, u, Plain);
    }
  }

  lemma FreshShape()
    ensures Rooted(FRESH) && AllIn([], FRESH, Plain) && forall q :: !Below([], q, Plain)
  {
  }

  lemma SkippedPlain(t: Tree, m: Member)
    requires !Plain(m)
    ensures PlacePlain(t, m) == Some(t)
  {
  }

  predicate IsLinkMember(m: Member) {
    m.kind.IsLink?
  }

  /** A link of the archive has exactly this path. */
  ghost predicate LinkAt(ms: seq<Member>, q: Path) {
    exists i :: 0 <= i < |ms| && IsLinkMember(ms[i]) && Parts(ms[i].name) == q
  }

  lemma LinkAtAppend(ms: seq<Member>, q: Path)
    requires ms != []
    ensures LinkAt(ms, q)
            <==> LinkAt(ms[..|ms| - 1], q) || (IsLinkMember(ms[|ms| - 1]) && Parts(ms[|ms| - 1].name) == q)
  {
    hide Parts;
    var init := ms[..|ms| - 1];
    if i :| 0 <= i < |init| && IsLinkMember(init[i]) && Parts(init[i].name) == q {
      assert ms[i] == init[i];
    }
    if i :| 0 <= i < |ms| && IsLinkMember(ms[i]) && Parts(ms[i].name) == q {
      assert i < |init| ==> init[i] == ms[i];
    }
  }

  /** After the second phase: the first phase's tree, and exactly the links. */
  lemma {:induction false} LayLinksShape(t: Tree, ms: seq<Member>)
    requires Rooted(t) && NoLinks(t) && LayLinks(t, ms).Laid?
    ensures var u := LayLinks(t, ms).tree;
            && Rooted(u) && AllIn(ms, u, IsLinkMember)
            && (forall q :: q in u <==> q in t || Below(ms, q, IsLinkMember))
            && (forall q :: q in t ==> u[q] == t[q])
            && forall q :: q in u && u[q].Link? <==> LinkAt(ms, q)
  {
    hide Parts, LayLink, AllIn, Below, Rooted, LinkAt;
    if ms == [] {
      EmptyLinks(t);
    } else {
      var n := |ms| - 1;
      LayLinksShape(t, ms[..n]);
      var u, m := LayLinks(t, ms[..n]).tree, ms[n];
      var v := LayLinks(t, ms).tree;
      forall q ensures Below(ms, q, IsLinkMember)
                       <==> Below(ms[..n], q, IsLinkMember) || (IsLinkMember(m) && Prefix(q, Parts(m.name))) {
        BelowAppend(ms, q, IsLinkMember);
      }
      forall q ensures LinkAt(ms, q) <==> LinkAt(ms[..n], q) || (IsLinkMember(m) && Parts(m.name) == q) {
        LinkAtAppend(ms, q);
      }
      if m.kind.IsLink? {
        LinkGrows(u, m);
      } else {
        SkippedLink(u, m);
      }
      AllInAppend(ms, u, v, IsLinkMember);
    }
  }

  lemma EmptyLinks(t: Tree)
    ensures AllIn([], t, IsLinkMember) && (forall q :: !Below([], q, IsLinkMember)) && forall q :: !LinkAt([], q)
  {
  }

  lemma SkippedLink(t: Tree, m: Member)
    requires !m.kind.IsLink?
    ensures LayLink(t, m) == Laid(t)
  {
  }

  /** A completed layout is exactly the archive: every file, directory and link is at
      its own path with its own content, every ancestor is a directory, and nothing else
      is there. */
  lemma LaidExactly(ms: seq<Member>)
    requires Lay(ms).Laid?
    ensures var t := Lay(ms).tree;
            && Rooted(t) && AllIn(ms, t, IsLinkMember) && AllIn(ms, t, Plain)
            && forall q :: q in t <==> q == [] || Below(ms, q, Plain) || Below(ms, q, IsLinkMember)
  {
    hide PlainPhase, LayLinks, Below, Rooted, Parts, NodeOf;
    PlainPhaseShape(ms);
    LayLinksShape(PlainPhase(FRESH, ms).value, ms);
  }

  // ----- links above links -----

  /** Two links of the archive, the later one below the earlier one. */
  predicate Nested(ms: seq<Member>, i: nat, j: nat) {
    && i < j < |ms| && ms[i].kind.IsLink? && ms[j].kind.IsLink?
    && Parts(ms[i].name) != [] && Parts(ms[i].name) < Parts(ms[j].name)
  }

  /** The link that has another one above it. */
  lemma {:induction false} LayLinksEscapes(t: Tree, ms: seq<Member>) returns (i: nat, j: nat)
    requires Rooted(t) && NoLinks(t) && LayLinks(t, ms) == MetLink
    ensures Nested(ms, i, j) && LayLinks(t, ms[..j]).Laid?
  {
    hide Parts, Place, Below, AllIn, Rooted, NoLinks, Nested, LinkAt;
    var n := |ms| - 1;
    var init := ms[..n];
    if LayLinks(t, init).Laid? {
      LayLinksShape(t, init);
      var u, p := LayLinks(t, init).tree, Parts(ms[n].name);
      var k :| 0 <= k < |p| && p[..k] in u && u[p[..k]].Link?;
      assert LinkAt(init, p[..k]);
      RootIsNoLink(u, p[..k]);
      i := LinkBelowIsNested(ms, p[..k]);
      j := n;
    } else {
      i, j := LayLinksEscapes(t, init);
      NestedLonger(ms, i, j);
      assert init[..j] == ms[..j];
    }
  }

  lemma RootIsNoLink(t: Tree, q: Path)
    requires Rooted(t) && q in t && t[q].Link?
    ensures q != []
  {
  }

  lemma NestedLonger(ms: seq<Member>, i: nat, j: nat)
    requires ms != [] && Nested(ms[..|ms| - 1], i, j)
    ensures Nested(ms, i, j) && j < |ms| - 1
  {
    hide Parts;
  }

  lemma LinkBelowIsNested(ms: seq<Member>, q: Path) returns (i: nat)
    requires ms != [] && ms[|ms| - 1].kind.IsLink? && LinkAt(ms[..|ms| - 1], q)
    requires q != [] && q < Parts(ms[|ms| - 1].name)
    ensures Nested(ms, i, |ms| - 1)
  {
    hide Parts;
    var init := ms[..|ms| - 1];
    i :| 0 <= i < |init| && IsLinkMember(init[i]) && Parts(init[i].name) == q;
    assert ms[i] == init[i];
  }

  lemma {:induction false} LayLinksStops(t: Tree, ms: seq<Member>, i: nat, j: nat)
    requires Rooted(t) && NoLinks(t) && Nested(ms, i, j)
    ensures !LayLinks(t, ms).Laid?
  {
    hide Parts, Place, Below, AllIn, Rooted, NoLinks;
    var n := |ms| - 1;
    var init := ms[..n];
    assert init[i] == ms[i];
    if j < n {
      assert init[j] == ms[j];
      LayLinksStops(t, init, i, j);
    } else if LayLinks(t, init).Laid? {
      LayLinksShape(t, init);
      assert LinkAt(init, Parts(ms[i].name)) by {
        assert IsLinkMember(init[i]);
      }
      ThroughLink(LayLinks(t, init).tree, Parts(ms[i].name), Parts(ms[n].name));
    }
  }

  lemma ThroughLink(t: Tree, q: Path, p: Path)
    requires q < p && q in t && t[q].Link?
    ensures Through(t, p)
  {
    assert q == p[..|q|];
  }

  /** A link phase that has gone wrong stays wrong. */
  lemma {:induction false} LayLinksStays(t: Tree, ms: seq<Member>, k: nat)
    requires k <= |ms| && !LayLinks(t, ms[..k]).Laid?
    ensures LayLinks(t, ms) == LayLinks(t, ms[..k])
  {
    hide LayLink;
    if k < |ms| {
      assert ms[..|ms| - 1][..k] == ms[..k];
      LayLinksStays(t, ms[..|ms| - 1], k);
    } else {
      assert ms[..k] == ms;
    }
  }

  /** A layout meets a link only if one link of the archive lies below an earlier one, and
      such an archive is never laid out completely. */
  lemma MeetsLinkOnlyNested(ms: seq<Member>)
    ensures Lay(ms) == MetLink ==> exists i, j :: Nested(ms, i, j)
    ensures (exists i, j :: Nested(ms, i, j)) ==> !Lay(ms).Laid?
  {
    hide PlainPhase, LayLinks, Nested, Rooted, NoLinks;
    var plain := PlainPhase(FRESH, ms);
    if plain.Some? {
      PlainPhaseShape(ms);
      if Lay(ms) == MetLink {
        var i, j := LayLinksEscapes(plain.value, ms);
      }
      if i: nat, j: nat :| Nested(ms, i, j) {
        LayLinksStops(plain.value, ms, i, j);
      }
    }
  }

  /** The member becomes something in the tree. */
  predicate Made(m: Member) {
    Plain(m) || m.kind.IsLink?
  }

  /** Nothing lies at or below a file or a link but itself, and files and links have a
      name and links a target. */
  ghost predicate Layable(ms: seq<Member>) {
    && (forall i, j :: 0 <= i < |ms| && 0 <= j < |ms| && i != j && Made(ms[i]) && Made(ms[j]) && !ms[i].kind.IsDir? ==>
          !Prefix(Parts(ms[i].name), Parts(ms[j].name)))
    && forall i :: 0 <= i < |ms| && Made(ms[i]) && !ms[i].kind.IsDir? ==>
         Parts(ms[i].name) != [] && (ms[i].kind.IsLink? ==> ms[i].link != "")
  }

  // ----- what one placement needs and excludes -----

  lemma {:induction false} MkdirsSucceeds(t: Tree, p: Path)
    requires Rooted(t) && forall q :: q in t && Prefix(q, p) ==> t[q] == Dir
    ensures Mkdirs(t, p).Some?
    decreases |p|
  {
    if p != [] {
      var up := p[..|p| - 1];
      forall q | q in t && Prefix(q, up) ensures t[q] == Dir {
        PrefixStep(q, p);
      }
      MkdirsSucceeds(t, up);
      MkdirsShape(t, up);
      PrefixStep(p, p);
    }
  }

  lemma PlaceSucceeds(t: Tree, p: Path, n: Node)
    requires Rooted(t) && p != [] && p !in t && forall q :: q in t && Prefix(q, p) ==> t[q] == Dir
    ensures Place(t, p, n).Some?
  {
    hide Mkdirs;
    var up := p[..|p| - 1];
    forall q | q in t && Prefix(q, up) ensures t[q] == Dir {
      PrefixStep(q, p);
    }
    MkdirsSucceeds(t, up);
    MkdirsShape(t, up);
    assert !Prefix(p, up);
  }

  /** Something placed at `p` has only directories above it, and nothing below it unless
      it is a directory. */
  lemma PlacedApart(t: Tree, u: Tree, p: Path, n: Node, q: Path)
    requires Rooted(t) && Grown(t, u, p, n) && (n != Dir ==> p !in t) && q in t
    ensures Prefix(q, p) ==> t[q] == Dir || (q == p && n == t[q])
    ensures Prefix(p, q) ==> n == Dir
  {
    if Prefix(q, p) && q != p {
      AncestorsAreDirs(u, p, |q|);
      assert p[..|q|] == q;
    }
    if Prefix(p, q) {
      if p != q {
        AncestorsAreDirs(t, q, |p|);
      }
      assert q[..|p|] == p;
    }
  }

  lemma PlainFresh(t: Tree, m: Member)
    requires Rooted(t) && Plain(m) && PlacePlain(t, m).Some?
    ensures NodeOf(m) != Dir ==> Parts(m.name) !in t && Parts(m.name) != []
  {
    hide Parts, Mkdirs;
    if !m.kind.IsDir? {
      PlaceShape(t, Parts(m.name), File(m.data));
    }
  }

  lemma LinkFresh(t: Tree, m: Member)
    requires Rooted(t) && m.kind.IsLink? && LayLink(t, m).Laid?
    ensures Parts(m.name) !in t && Parts(m.name) != [] && m.link != ""
  {
    hide Parts, Mkdirs, Through;
    PlaceShape(t, Parts(m.name), Link(m.link));
  }

  // ----- what is laid out can be -----

  ghost predicate ApartIn(ms: seq<Member>, sel: Member -> bool) {
    forall i, j :: 0 <= i < |ms| && 0 <= j < |ms| && i != j && sel(ms[i]) && sel(ms[j]) && NodeOf(ms[i]) != Dir ==>
      !Prefix(Parts(ms[i].name), Parts(ms[j].name))
  }

  lemma ApartAppend(ms: seq<Member>, t: Tree, u: Tree, sel: Member -> bool)
    requires ms != [] && Rooted(t) && ApartIn(ms[..|ms| - 1], sel) && AllIn(ms[..|ms| - 1], t, sel)
    requires var m := ms[|ms| - 1];
             sel(m) ==> Grown(t, u, Parts(m.name), NodeOf(m)) && (NodeOf(m) != Dir ==> Parts(m.name) !in t)
    ensures ApartIn(ms, sel)
  {
    hide Parts, NodeOf, Rooted, Grown;
    var n := |ms| - 1;
    forall i, j | 0 <= i < |ms| && 0 <= j < |ms| && i != j && sel(ms[i]) && sel(ms[j]) && NodeOf(ms[i]) != Dir
      ensures !Prefix(Parts(ms[i].name), Parts(ms[j].name))
    {
      assert forall k :: 0 <= k < n ==> ms[..n][k] == ms[k];
      if j == n {
        PlacedApart(t, u, Parts(ms[n].name), NodeOf(ms[n]), Parts(ms[i].name));
      } else if i == n {
        PlacedApart(t, u, Parts(ms[n].name), NodeOf(ms[n]), Parts(ms[j].name));
      }
    }
  }

  lemma {:induction false} PlainApart(ms: seq<Member>)
    requires PlainPhase(FRESH, ms).Some?
    ensures ApartIn(ms, Plain)
    ensures forall i :: 0 <= i < |ms| && Plain(ms[i]) && NodeOf(ms[i]) != Dir ==> Parts(ms[i].name) != []
  {
    hide Parts, PlacePlain, AllIn, Rooted, NodeOf, ApartIn, Grown;
    if ms == [] {
      NothingApart(Plain);
    } else {
      var n := |ms| - 1;
      PlainApart(ms[..n]);
      PlainPhaseShape(ms[..n]);
      var t, u := PlainPhase(FRESH, ms[..n]).value, PlainPhase(FRESH, ms).value;
      if Plain(ms[n]) {
        PlainGrows(t, ms[n]);
        PlainFresh(t, ms[n]);
      }
      ApartAppend(ms, t, u, Plain);
      assert forall k :: 0 <= k < n ==> ms[..n][k] == ms[k];
    }
  }

  lemma NothingApart(sel: Member -> bool)
    ensures ApartIn([], sel)
  {
  }

  /** Each link against the links before it and the tree it started from. */
  ghost predicate LinksFit(t: Tree, ms: seq<Member>) {
    forall i :: 0 <= i < |ms| && ms[i].kind.IsLink? ==>
      var p := Parts(ms[i].name);
      && p != [] && ms[i].link != ""
      && forall q :: q in t ==> !Prefix(p, q) && (Prefix(q, p) ==> t[q] == Dir)
  }

  lemma {:induction false} LinksApart(t: Tree, ms: seq<Member>)
    requires Rooted(t) && NoLinks(t) && LayLinks(t, ms).Laid?
    ensures ApartIn(ms, IsLinkMember) && LinksFit(t, ms)
  {
    hide Parts, LayLink, AllIn, Rooted, NodeOf, ApartIn, Grown, NoLinks;
    if ms == [] {
      NothingApart(IsLinkMember);
    } else {
      var n := |ms| - 1;
      LinksApart(t, ms[..n]);
      LayLinksShape(t, ms[..n]);
      var u, v, m := LayLinks(t, ms[..n]).tree, LayLinks(t, ms).tree, ms[n];
      if m.kind.IsLink? {
        LinkGrows(u, m);
        LinkFresh(u, m);
        LinkIsNoDir(m);
        forall q | q in t ensures !Prefix(Parts(m.name), q) && (Prefix(q, Parts(m.name)) ==> t[q] == Dir) {
          PlacedApart(u, v, Parts(m.name), NodeOf(m), q);
        }
      }
      ApartAppend(ms, u, v, IsLinkMember);
      assert forall k :: 0 <= k < n ==> ms[..n][k] == ms[k];
    }
  }

  lemma LinkIsNoDir(m: Member)
    requires m.kind.IsLink?
    ensures NodeOf(m) != Dir
  {
  }

  lemma LaidIsLayable(ms: seq<Member>)
    requires Lay(ms).Laid?
    ensures Layable(ms)
  {
    hide Parts, PlainPhase, LayLinks, Rooted, NoLinks;
    var t := PlainPhase(FRESH, ms).value;
    PlainPhaseShape(ms);
    PlainApart(ms);
    LinksApart(t, ms);
    forall i, j | 0 <= i < |ms| && 0 <= j < |ms| && i != j && Made(ms[i]) && Made(ms[j]) && !ms[i].kind.IsDir?
      ensures !Prefix(Parts(ms[i].name), Parts(ms[j].name))
    {
      assert NodeOf(ms[i]) != Dir;
      if Plain(ms[j]) && ms[i].kind.IsLink? {
        assert Parts(ms[j].name) in t;
      } else if Plain(ms[i]) && ms[j].kind.IsLink? {
        assert Parts(ms[i].name) in t && t[Parts(ms[i].name)] == NodeOf(ms[i]);
      } else if Plain(ms[i]) {
        assert ApartIn(ms, Plain);
      } else {
        assert IsLinkMember(ms[i]) && IsLinkMember(ms[j]);
      }
    }
  }

  // ----- what can be laid out is -----

  /** A file of the archive has exactly this path. */
  ghost predicate FileAt(ms: seq<Member>, q: Path) {
    exists i :: 0 <= i < |ms| && Plain(ms[i]) && !ms[i].kind.IsDir? && Parts(ms[i].name) == q
  }

  /** What the first phase makes is a directory or a file of the archive. */
  lemma {:induction false} PlainNodes(ms: seq<Member>)
    requires PlainPhase(FRESH, ms).Some?
    ensures forall q :: q in PlainPhase(FRESH, ms).value && PlainPhase(FRESH, ms).value[q] != Dir ==> FileAt(ms, q)
  {
    hide Parts, PlacePlain, Rooted, AllIn, Below;
    if ms != [] {
      var n := |ms| - 1;
      PlainNodes(ms[..n]);
      PlainPhaseShape(ms[..n]);
      var t, u, m := PlainPhase(FRESH, ms[..n]).value, PlainPhase(FRESH, ms).value, ms[n];
      if Plain(m) {
        PlainGrows(t, m);
      } else {
        SkippedPlain(t, m);
      }
      forall q | q in u && u[q] != Dir ensures FileAt(ms, q) {
        if q in t {
          var i :| 0 <= i < n && Plain(ms[..n][i]) && !ms[..n][i].kind.IsDir? && Parts(ms[..n][i].name) == q;
          assert ms[i] == ms[..n][i];
        } else {
          assert Parts(ms[n].name) == q;
        }
      }
    }
  }

  /** What the second phase adds is a directory or a link. */
  lemma {:induction false} LinkNodes(t: Tree, ms: seq<Member>)
    requires Rooted(t) && NoLinks(t) && LayLinks(t, ms).Laid?
    ensures forall q :: q in LayLinks(t, ms).tree && q !in t ==>
              LayLinks(t, ms).tree[q] == Dir || LayLinks(t, ms).tree[q].Link?
  {
    hide Parts, LayLink, Rooted, AllIn, Below, NoLinks, LinkAt;
    if ms != [] {
      var n := |ms| - 1;
      LinkNodes(t, ms[..n]);
      LayLinksShape(t, ms[..n]);
      var u, m := LayLinks(t, ms[..n]).tree, ms[n];
      if m.kind.IsLink? {
        LinkGrows(u, m);
      } else {
        SkippedLink(u, m);
      }
    }
  }

  lemma LayablePrefix(ms: seq<Member>, k: nat)
    requires Layable(ms) && k <= |ms|
    ensures Layable(ms[..k])
  {
    hide Parts, Plain;
    var init := ms[..k];
    assert forall i :: 0 <= i < k ==> init[i] == ms[i];
  }

  /** No file before a member lies at or above its path. */
  lemma NoFileAbove(ms: seq<Member>, k: nat, q: Path)
    requires Layable(ms) && k < |ms| && Made(ms[k]) && Prefix(q, Parts(ms[k].name))
    ensures !FileAt(ms[..k], q)
  {
    hide Parts;
    forall i | 0 <= i < k && Plain(ms[..k][i]) && !ms[..k][i].kind.IsDir? ensures Parts(ms[..k][i].name) != q {
      assert ms[..k][i] == ms[i] && Made(ms[i]);
    }
  }

  /** In such an archive only directories lie above a member of the first phase,
      and a file is not there yet. */
  lemma PlainHasRoom(ms: seq<Member>, t: Tree, k: nat)
    requires Layable(ms) && k < |ms| && Plain(ms[k]) && PlainPhase(FRESH, ms[..k]) == Some(t)
    ensures PlacePlain(t, ms[k]).Some?
  {
    hide Parts, PlainPhase, Mkdirs, Place, Rooted, AllIn, NoLinks;
    var init, m, p := ms[..k], ms[k], Parts(ms[k].name);
    PlainPhaseShape(init);
    PlainNodes(init);
    forall q | q in t && Prefix(q, p) ensures t[q] == Dir {
      NoFileAbove(ms, k, q);
    }
    if m.kind.IsDir? {
      MkdirsSucceeds(t, p);
    } else {
      assert Made(ms[k]);
      NotBelow(ms, k, Plain);
      PlaceSucceeds(t, p, File(m.data));
    }
  }

  /** Nothing selected before a file or a link lies at or below it. */
  lemma NotBelow(ms: seq<Member>, k: nat, sel: Member -> bool)
    requires Layable(ms) && k < |ms| && Made(ms[k]) && !ms[k].kind.IsDir?
    requires forall m: Member :: sel(m) ==> Made(m)
    ensures !Below(ms[..k], Parts(ms[k].name), sel)
  {
    hide Parts, Plain, Made;
    forall i | 0 <= i < k && sel(ms[..k][i]) ensures !Prefix(Parts(ms[k].name), Parts(ms[..k][i].name)) {
      assert ms[..k][i] == ms[i] && Made(ms[i]);
    }
  }

  lemma {:induction false} PlainCompletes(ms: seq<Member>)
    requires Layable(ms)
    ensures PlainPhase(FRESH, ms).Some?
  {
    hide Parts, PlacePlain, Layable;
    if ms != [] {
      var n := |ms| - 1;
      LayablePrefix(ms, n);
      PlainCompletes(ms[..n]);
      if Plain(ms[n]) {
        PlainHasRoom(ms, PlainPhase(FRESH, ms[..n]).value, n);
      } else {
        SkippedPlain(PlainPhase(FRESH, ms[..n]).value, ms[n]);
      }
    }
  }

  /** The whole archive against one of its links: all files and directories are there
      already, and the links before it. */
  lemma LinkHasRoom(ms: seq<Member>, t: Tree, u: Tree, k: nat)
    requires Layable(ms) && k < |ms| && ms[k].kind.IsLink?
    requires PlainPhase(FRESH, ms) == Some(t) && LayLinks(t, ms[..k]) == Laid(u)
    ensures LayLink(u, ms[k]).Laid?
  {
    hide Parts, PlainPhase, LayLinks, Mkdirs, Place, Rooted, AllIn, NoLinks, Below;
    var init, p := ms[..k], Parts(ms[k].name);
    PlainPhaseShape(ms);
    PlainNodes(ms);
    LayLinksShape(t, init);
    LinkNodes(t, init);
    assert Made(ms[k]);
    forall q | q in u && Prefix(q, p) ensures u[q] == Dir {
      NoNodeAbove(ms, k, q);
      assert q in t ==> u[q] == t[q];
    }
    NotBelow(ms, k, IsLinkMember);
    NotBelowPlain(ms, k);
    PlaceSucceeds(u, p, Link(ms[k].link));
    assert !Through(u, p) by {
      forall i | 0 <= i < |p| && p[..i] in u ensures !u[p[..i]].Link? {
        assert Prefix(p[..i], p);
      }
    }
  }

  /** No file of the archive and no earlier link is at a path above or at the link's. */
  lemma NoNodeAbove(ms: seq<Member>, k: nat, q: Path)
    requires Layable(ms) && k < |ms| && ms[k].kind.IsLink? && Prefix(q, Parts(ms[k].name))
    ensures !FileAt(ms, q) && !LinkAt(ms[..k], q)
  {
    hide Parts;
    forall i | 0 <= i < |ms| && Plain(ms[i]) && !ms[i].kind.IsDir? ensures Parts(ms[i].name) != q {
      assert Made(ms[i]) && Made(ms[k]) && i != k;
    }
    forall i | 0 <= i < k && IsLinkMember(ms[..k][i]) ensures Parts(ms[..k][i].name) != q {
      assert ms[..k][i] == ms[i] && Made(ms[i]) && Made(ms[k]);
    }
  }

  lemma NotBelowPlain(ms: seq<Member>, k: nat)
    requires Layable(ms) && k < |ms| && ms[k].kind.IsLink?
    ensures !Below(ms, Parts(ms[k].name), Plain)
  {
    hide Parts;
    forall i | 0 <= i < |ms| && Plain(ms[i]) ensures !Prefix(Parts(ms[k].name), Parts(ms[i].name)) {
      assert Made(ms[i]) && Made(ms[k]) && i != k;
    }
  }

  lemma {:induction false} LinksComplete(ms: seq<Member>, t: Tree, k: nat)
    requires Layable(ms) && PlainPhase(FRESH, ms) == Some(t) && k <= |ms|
    ensures LayLinks(t, ms[..k]).Laid?
  {
    hide Parts, LayLink, Layable, PlainPhase;
    if k > 0 {
      LinksComplete(ms, t, k - 1);
      assert ms[..k][..k - 1] == ms[..k - 1] && ms[..k][k - 1] == ms[k - 1];
      var u := LayLinks(t, ms[..k - 1]).tree;
      if ms[k - 1].kind.IsLink? {
        LinkHasRoom(ms, t, u, k - 1);
      } else {
        SkippedLink(u, ms[k - 1]);
      }
    }
  }

  /** An archive is laid out completely if and only if nothing lies at or below a file
      or a link but itself; the order of its entries does not matter. */
  lemma LaysIff(ms: seq<Member>)
    ensures Lay(ms).Laid? <==> Layable(ms)
  {
    hide PlainPhase, LayLinks, Layable;
    if Lay(ms).Laid? {
      LaidIsLayable(ms);
    }
    if Layable(ms) {
      PlainCompletes(ms);
      LinksComplete(ms, PlainPhase(FRESH, ms).value, |ms|);
      assert ms[..|ms|] == ms;
    }
  }

  // ----- what is in place before a link -----

  /** The files and directories of the archive. */
  function Plains(ms: seq<Member>): seq<Member> {
    if ms == [] then []
    else Plains(ms[..|ms| - 1]) + if ms[|ms| - 1].kind.IsLink? then [] else [ms[|ms| - 1]]
  }

  /** What is in place when the `k`-th entry is reached as a link: all files and
      directories, and the links before it. */
  function InPlace(ms: seq<Member>, k: nat): seq<Member>
    requires k <= |ms|
  {
    ms[..k] + Plains(ms[k..])
  }

  lemma {:induction false} PlainsDecide(t: Tree, a: seq<Member>, b: seq<Member>)
    ensures PlainPhase(t, a + Plains(b)) == PlainPhase(t, a + b)
    ensures LayLinks(t, a + Plains(b)) == LayLinks(t, a)
    decreases |b|
  {
    hide PlacePlain, LayLink;
    if b == [] {
      assert a + [] == a;
    } else {
      var init, m := b[..|b| - 1], b[|b| - 1];
      PlainsDecide(t, a, init);
      assert (a + b)[..|a + b| - 1] == a + init;
      forall u {
        SkipOther(u, m);
      }
      if m.kind.IsLink? {
        assert Plains(b) == Plains(init);
      } else {
        var c := a + Plains(b);
        assert c[..|c| - 1] == a + Plains(init) && c[|c| - 1] == m;
      }
    }
  }

  lemma SkipOther(t: Tree, m: Member)
    ensures m.kind.IsLink? ==> PlacePlain(t, m) == Some(t)
    ensures !m.kind.IsLink? ==> LayLink(t, m) == Laid(t)
  {
  }
}
