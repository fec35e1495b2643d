/** Where the links of a restored tree lead. */
module StateBackupLinks {
  import opened ArchivePaths
  import opened StateBackup
  import opened StateBackupLayout
  import opened StateBackupRestore
  import opened Wrappers

  /** Every ".." of a link target comes before its first name. */
  predicate ClimbsFirst(parts: Path) {
    forall i, j :: 0 <= i < j < |parts| && parts[j] == ".." ==> parts[i] == ".."
  }

  /** Every link passes the depth count of `_portable_symlink` at its own place. */
  ghost predicate PortableLinks(t: Tree) {
    forall p :: p in t ==> ".." !in p && (t[p].Link? ==> p != [] && Portable(p, t[p].target))
  }

  predicate LeadsOutside(t: Tree, p: Path)
    requires p in t && t[p].Link? && p != []
  {
    Walk(t, p[..|p| - 1], Parts(t[p].target), MAX_LINKS) == Beyond
  }

  // ----- the depth count -----

  lemma {:induction false} NormalizedConcat(from: Path, a: Path, b: Path)
    ensures Normalized(from, a + b) ==
            if Normalized(from, a).None? then None else Normalized(Normalized(from, a).value, b)
    decreases |a|
  {
    if a == [] {
      assert a + b == b;
    } else {
      assert (a + b)[1..] == a[1..] + b;
      if a[0] != ".." {
        NormalizedConcat(from + [a[0]], a[1..], b);
      } else if from != [] {
        NormalizedConcat(from[..|from| - 1], a[1..], b);
      }
    }
  }

  lemma {:induction false} NormalizedNames(from: Path, names: Path)
    requires ".." !in names
    ensures Normalized(from, names) == Some(from + names)
    decreases |names|
  {
    if names == [] {
      assert from + names == from;
    } else {
      assert names[0] in names && forall x :: x in names[1..] ==> x in names;
      NormalizedNames(from + [names[0]], names[1..]);
      assert from + [names[0]] + names[1..] == from + names;
    }
  }

  /** Only the depth of the starting point matters. */
  lemma {:induction false} NormalizedDepth(from: Path, other: Path, parts: Path)
    requires |from| == |other|
    ensures Normalized(from, parts).Some? <==> Normalized(other, parts).Some?
    decreases |parts|
  {
    if parts != [] {
      if parts[0] != ".." {
        NormalizedDepth(from + [parts[0]], other + [parts[0]], parts[1..]);
      } else if from != [] {
        NormalizedDepth(from[..|from| - 1], other[..|other| - 1], parts[1..]);
      }
    }
  }

  lemma PortableFrom(p: Path, target: string)
    requires p != [] && ".." !in p
    ensures Portable(p, target) <==>
            !Absolute(target) && '\\' !in target && Normalized(p[..|p| - 1], Parts(target)).Some?
  {
    hide Parts;
    var folder := p[..|p| - 1];
    NormalizedNames([], folder);
    assert [] + folder == folder;
    NormalizedConcat([], folder, Parts(target));
  }

  // ----- links that climb first stay inside -----

  ghost predicate AllClimbFirst(t: Tree) {
    forall p :: p in t && t[p].Link? ==> ClimbsFirst(Parts(t[p].target))
  }

  lemma {:induction false} StaysInside(t: Tree, at: Path, parts: Path, left: nat)
    requires Rooted(t) && PortableLinks(t) && AllClimbFirst(t) && at in t && t[at] == Dir
    requires ClimbsFirst(parts) && Normalized(at, parts).Some?
    ensures Walk(t, at, parts, left) != Beyond
    decreases left, |parts|
  {
    hide Parts, Rooted, Absolute;
    if parts != [] {
      var rest := parts[1..];
      if parts[0] == ".." {
        assert at != [];
        DirAbove(t, at);
        StaysInside(t, at[..|at| - 1], rest, left);
      } else {
        var q := at + [parts[0]];
        if q in t && t[q].Dir? {
          StaysInside(t, q, rest, left);
        } else if q in t && t[q].Link? && left > 0 {
          LinkStays(t, at, parts);
          StaysInside(t, at, Parts(t[q].target) + rest, left - 1);
        }
      }
    }
  }

  lemma DirAbove(t: Tree, at: Path)
    requires Rooted(t) && at in t && at != []
    ensures at[..|at| - 1] in t && t[at[..|at| - 1]] == Dir
  {
  }

  /** Replacing a link by its target keeps the depth count right. */
  lemma LinkStays(t: Tree, at: Path, parts: Path)
    requires PortableLinks(t) && AllClimbFirst(t) && at in t && parts != [] && parts[0] != ".." && ClimbsFirst(parts)
    requires at + [parts[0]] in t && t[at + [parts[0]]].Link?
    ensures var target := t[at + [parts[0]]].target;
            && !Absolute(target) && ClimbsFirst(Parts(target) + parts[1..])
            && Normalized(at, Parts(target) + parts[1..]).Some?
  {
    hide Parts;
    var q := at + [parts[0]];
    var rest := parts[1..];
    assert q[..|q| - 1] == at;
    PortableFrom(q, t[q].target);
    assert ".." !in rest;
    NormalizedConcat(at, Parts(t[q].target), rest);
    NormalizedNames(Normalized(at, Parts(t[q].target)).value, rest);
  }

  /** In a tree whose links pass the depth count and climb first, no link leads outside. */
  lemma ClimbingLinksStayInside(t: Tree, p: Path)
    requires Rooted(t) && PortableLinks(t) && AllClimbFirst(t) && p in t && t[p].Link?
    ensures !LeadsOutside(t, p)
  {
    hide Parts, Rooted;
    PortableFrom(p, t[p].target);
    DirAbove(t, p);
    StaysInside(t, p[..|p| - 1], Parts(t[p].target), MAX_LINKS);
  }

  /** The links of a tree that holds a valid archive exactly. */
  lemma ExactIsPortable(ms: seq<Member>, t: Tree)
    requires AllValid(ms) && Exactly(ms, t)
    ensures PortableLinks(t)
    ensures forall p :: p in t && t[p].Link? ==> LinkAt(ms, p)
    ensures (forall i :: 0 <= i < |ms| && ms[i].kind.IsLink? ==> ClimbsFirst(Parts(ms[i].link))) ==> AllClimbFirst(t)
  {
    hide Parts, Portable, ClimbsFirst, Size, UnderLink;
    forall p | p in t ensures ".." !in p {
      if p != [] {
        PrefixHasNoUp(ms, p);
      }
    }
    forall p | p in t && t[p].Link? ensures exists i :: 0 <= i < |ms| && LinkIs(ms, i, p, t[p].target) {
      var i := LinkOf(ms, t, p);
    }
  }

  ghost predicate LinkIs(ms: seq<Member>, i: nat, p: Path, target: string)
    requires i < |ms|
  {
    IsLinkMember(ms[i]) && Parts(ms[i].name) == p && p != [] && ms[i].link == target && Portable(p, target)
  }

  lemma MemberBelow(ms: seq<Member>, p: Path) returns (i: nat)
    requires Below(ms, p, Plain) || Below(ms, p, IsLinkMember)
    ensures i < |ms| && (Plain(ms[i]) || IsLinkMember(ms[i])) && Prefix(p, Parts(ms[i].name))
  {
    hide Parts, Plain;
    if Below(ms, p, Plain) {
      i :| 0 <= i < |ms| && Plain(ms[i]) && Prefix(p, Parts(ms[i].name));
    } else {
      i :| 0 <= i < |ms| && IsLinkMember(ms[i]) && Prefix(p, Parts(ms[i].name));
    }
  }

  lemma PrefixHasNoUp(ms: seq<Member>, p: Path)
    requires AllValid(ms) && (Below(ms, p, Plain) || Below(ms, p, IsLinkMember))
    ensures ".." !in p
  {
    hide Parts, Portable, PortableMember, Plain, Below;
    var i := MemberBelow(ms, p);
    assert ValidMember(ms[i]);
    var q := Parts(ms[i].name);
    assert p == q[..|p|];
    assert forall x :: x in q[..|p|] ==> x in q;
  }

  lemma LinkOf(ms: seq<Member>, t: Tree, p: Path) returns (i: nat)
    requires AllValid(ms) && Exactly(ms, t) && p in t && t[p].Link?
    ensures i < |ms| && LinkIs(ms, i, p, t[p].target)
  {
    hide Parts, Portable, Below, Plain, ValidMember;
    assert p != [];
    i := MemberBelow(ms, p);
    var q := Parts(ms[i].name);
    assert q in t && t[q] == NodeOf(ms[i]);
    DirOrEnd(t, q, p);
    ValidLink(ms[i]);
  }

  lemma DirOrEnd(t: Tree, q: Path, p: Path)
    requires Rooted(t) && q in t && Prefix(p, q)
    ensures p in t && (p == q || t[p] == Dir)
  {
    assert q[..|p|] == p;
    if |p| < |q| {
      AncestorsAreDirs(t, q, |p|);
    } else {
      assert p == q;
    }
  }

  lemma ValidLink(m: Member)
    requires ValidMember(m) && m.kind.IsLink? && Parts(m.name) != []
    ensures Portable(Parts(m.name), m.link)
  {
    hide Parts, Portable;
  }

  /** A restored archive whose targets climb first has no link that leads outside. */
  lemma RestoredLinksStayInside(ms: seq<Member>, p: Path, host: Host)
    requires Inspected(ms) && Restorable(ms)
    requires forall i :: 0 <= i < |ms| && ms[i].kind.IsLink? ==> ClimbsFirst(Parts(ms[i].link))
    requires Restore(ms, host).Done? && p in Restore(ms, host).tree && Restore(ms, host).tree[p].Link?
    ensures p != [] && !LeadsOutside(Restore(ms, host).tree, p)
  {
    hide Inspected, Restorable, Restore, ClimbsFirst, Parts, ValidMember;
    InspectedValid(ms);
    RestoredExactlyIff(ms, host);
    ExactIsPortable(ms, Restore(ms, host).tree);
    ClimbingLinksStayInside(Restore(ms, host).tree, p);
  }

  // ----- exactly which targets are safe -----

  function Ups(k: nat): (p: Path)
    ensures |p| == k && forall i :: 0 <= i < k ==> p[i] == ".."
  {
    seq(k, _ => "..")
  }

  /** A target in which a name is followed by a "..": how it climbs, the names up to the
      first such ".." and the rest. */
  lemma {:induction false} FirstRetrace(x: Path) returns (k: nat, m: nat)
    requires !ClimbsFirst(x)
    ensures m >= 1 && k + m < |x| && x[..k] == Ups(k) && ".." !in x[k..k + m] && x[k + m] == ".."
  {
    if x[0] == ".." {
      var rest := x[1..];
      forall i, j | 0 <= i < j < |x| && x[j] == ".." && x[i] != ".." ensures !ClimbsFirst(rest) {
        assert rest[j - 1] == ".." && rest[i - 1] != "..";
      }
      k, m := FirstRetrace(rest);
      assert x[1..][..k] == x[1..k + 1] && x[..k + 1] == [".."] + x[1..k + 1];
      assert x[1..][k..k + m] == x[k + 1..k + 1 + m];
      k := k + 1;
    } else {
      k, m := 0, 1;
      var j :| 0 <= j < |x| && x[j] == "..";
      while x[m] != ".."
        invariant 1 <= m <= j && ".." !in x[..m]
        decreases j - m
      {
        assert x[..m + 1] == x[..m] + [x[m]];
        m := m + 1;
      }
      assert x[0..m] == x[..m];
    }
  }

  lemma {:induction false} WalkUps(t: Tree, at: Path, k: nat, rest: Path, left: nat)
    requires k <= |at|
    ensures Walk(t, at, Ups(k) + rest, left) == Walk(t, at[..|at| - k], rest, left)
    decreases k
  {
    hide Parts, Absolute;
    if k == 0 {
      assert Ups(0) + rest == rest && at[..|at|] == at;
    } else {
      var up := at[..|at| - 1];
      assert (Ups(k) + rest)[1..] == Ups(k - 1) + rest && (Ups(k) + rest)[0] == "..";
      WalkUps(t, up, k - 1, rest, left);
      assert up[..|up| - (k - 1)] == at[..|at| - k];
    }
  }

  lemma {:induction false} WalkDirs(t: Tree, at: Path, names: Path, rest: Path, left: nat)
    requires ".." !in names && forall i :: 1 <= i <= |names| ==> at + names[..i] in t && t[at + names[..i]] == Dir
    ensures Walk(t, at, names + rest, left) == Walk(t, at + names, rest, left)
    decreases |names|
  {
    hide Parts, Absolute;
    if names == [] {
      assert names + rest == rest && at + names == at;
    } else {
      var q := at + [names[0]];
      assert names[..1] == [names[0]] && at + names[..1] == q;
      assert (names + rest)[1..] == names[1..] + rest && (names + rest)[0] == names[0];
      forall i | 1 <= i <= |names[1..]| ensures q + names[1..][..i] in t && t[q + names[1..][..i]] == Dir {
        assert q + names[1..][..i] == at + names[..i + 1];
      }
      WalkDirs(t, q, names[1..], rest, left);
      assert q + names[1..] == at + names;
    }
  }

  /** A name longer than all of these. */
  function Long(parts: Path): (s: string)
    ensures |s| > 2 && forall i :: 0 <= i < |parts| ==> |s| > |parts[i]|
  {
    if parts == [] then "zzz" else parts[0] + Long(parts[1..])
  }

  function UpTarget(k: nat): string {
    Joined(Ups(k))
  }

  lemma {:induction false} UpTargetText(k: nat)
    ensures Parts(UpTarget(k)) == Ups(k) && !Absolute(UpTarget(k)) && '\\' !in UpTarget(k)
  {
    hide Parts;
    PartsJoined(Ups(k));
    if k >= 2 {
      assert Ups(k)[1..] == Ups(k - 1);
      UpTargetText(k - 1);
    }
  }

  /** `t` holds `target` at `p`, passes the depth count, and its other links climb first. */
  ghost predicate Around(t: Tree, p: Path, target: string) {
    && Rooted(t) && PortableLinks(t) && p in t && t[p] == Link(target)
    && forall q :: q in t && q != p && t[q].Link? ==> ClimbsFirst(Parts(t[q].target))
  }

  /** The tree of a link `p`, and a link `w` to the top of the tree. */
  lemma TwoLinks(p: Path, target: string, w: Path, up: string) returns (t: Tree)
    requires p != [] && w != [] && !Prefix(p, w) && !Prefix(w, p)
    ensures Rooted(t) && p in t && t[p] == Link(target) && w in t && t[w] == Link(up)
    ensures forall q :: q in t ==> Prefix(q, p) || Prefix(q, w)
    ensures forall q :: q in t && q != p && q != w ==> t[q] == Dir
  {
    hide Place, Rooted;
    FreshShape();
    PlaceSucceeds(FRESH, p, Link(target));
    PlaceShape(FRESH, p, Link(target));
    var t1 := Place(FRESH, p, Link(target)).value;
    PlaceSucceeds(t1, w, Link(up));
    PlaceShape(t1, w, Link(up));
    t := Place(t1, w, Link(up)).value;
  }

  /** Whatever its depth: a target with a ".." after a name leads outside in some tree. */
  lemma RetraceEscapes(p0: Path, target: string) returns (t: Tree, p: Path)
    requires p0 != [] && ".." !in p0 && Portable(p0, target) && !ClimbsFirst(Parts(target))
    ensures |p| == |p0| && Around(t, p, target) && LeadsOutside(t, p)
  {
    hide Parts, Rooted, ClimbsFirst, Portable, Absolute, Walk, UpTarget, PortableLinks;
    var x, n := Parts(target), |p0| - 1;
    var k, m := FirstRetrace(x);
    var g := Long(x);
    var folder := seq(n, _ => g);
    p := folder + [g];
    assert p[..n] == folder;
    PortableFrom(p0, target);
    NormalizedDepth(p0[..n], folder, x);
    PortableFrom(p, target);
    ClimbFits(folder, x, k);
    var at, names := folder[..n - k], x[k..k + m];
    var w := at + names;
    var up := UpTarget(|w| - 1);
    UpTargetText(|w| - 1);
    assert w[n - k] == x[k] && p[n - k] == g && |g| > |x[k]|;
    t := TwoLinks(p, target, w, up);
    UpPortable(w, x);
    PortableTwo(t, p, target, w, up);
    UpsClimb(|w| - 1);
    RetraceWalk(t, folder, x, k, m, g);
  }

  lemma UpsClimb(k: nat)
    ensures ClimbsFirst(Ups(k))
  {
  }

  /** A target that passes the depth count climbs no further than its depth. */
  lemma {:induction false} ClimbFits(from: Path, x: Path, k: nat)
    requires k <= |x| && x[..k] == Ups(k) && Normalized(from, x).Some?
    ensures k <= |from|
    decreases k
  {
    if k > 0 {
      assert x[0] == x[..k][0];
      assert x[1..][..k - 1] == x[..k][1..] == Ups(k - 1);
      ClimbFits(from[..|from| - 1], x[1..], k - 1);
    }
  }

  lemma UpPortable(w: Path, x: Path)
    requires w != [] && ".." !in w
    ensures Portable(w, UpTarget(|w| - 1))
  {
    hide Parts;
    UpTargetText(|w| - 1);
    ClimbsOut(w[..|w| - 1]);
    PortableFrom(w, UpTarget(|w| - 1));
  }

  lemma {:induction false} ClimbsOut(from: Path)
    ensures Normalized(from, Ups(|from|)) == Some([])
    decreases |from|
  {
    if from != [] {
      assert Ups(|from|)[1..] == Ups(|from| - 1);
      ClimbsOut(from[..|from| - 1]);
    }
  }

  lemma PortableTwo(t: Tree, p: Path, target: string, w: Path, up: string)
    requires p != [] && w != [] && p in t && w in t && t[p] == Link(target) && t[w] == Link(up)
    requires ".." !in p && ".." !in w && Portable(p, target) && Portable(w, up)
    requires forall q :: q in t ==> Prefix(q, p) || Prefix(q, w)
    requires forall q :: q in t && q != p && q != w ==> t[q] == Dir
    ensures PortableLinks(t)
  {
    hide Portable;
    forall q | q in t ensures ".." !in q {
      assert forall i :: 0 <= i < |q| ==> q[i] in p || q[i] in w;
    }
  }

  lemma RetraceWalk(t: Tree, folder: Path, x: Path, k: nat, m: nat, g: string)
    requires k <= |folder| && m >= 1 && k + m < |x| && x[..k] == Ups(k) && x[k + m] == ".."
    requires ".." !in x[k..k + m] && Rooted(t)
    requires var w := folder[..|folder| - k] + x[k..k + m]; w in t && t[w] == Link(UpTarget(|w| - 1))
    ensures Walk(t, folder, x, MAX_LINKS) == Beyond
  {
    hide Parts, Rooted, UpTarget, Absolute, Walk;
    var at, names, rest := folder[..|folder| - k], x[k..k + m], x[k + m..];
    var w := at + names;
    var init, last := names[..m - 1], names[m - 1];
    assert x == Ups(k) + (init + ([last] + rest));
    WalkUps(t, folder, k, init + ([last] + rest), MAX_LINKS);
    forall i | 1 <= i <= |init| ensures at + init[..i] in t && t[at + init[..i]] == Dir {
      AncestorsAreDirs(t, w, |at| + i);
      assert w[..|at| + i] == at + init[..i];
    }
    assert ".." !in init;
    WalkDirs(t, at, init, [last] + rest, MAX_LINKS);
    assert at + init + [last] == w && last in names;
    LinkWalk(t, at + init, last, rest);
  }

  lemma LinkWalk(t: Tree, at: Path, name: string, rest: Path)
    requires name != ".." && at + [name] in t && t[at + [name]] == Link(UpTarget(|at|)) && rest != [] && rest[0] == ".."
    ensures Walk(t, at, [name] + rest, MAX_LINKS) == Beyond
  {
    hide Parts, UpTarget, Absolute;
    UpTargetText(|at|);
    assert ([name] + rest)[1..] == rest;
    WalkUps(t, at, |at|, rest, MAX_LINKS - 1);
  }

  /** Among the targets that pass the depth count at some depth, exactly those that climb
      first lead inside in every tree around them whose other links climb first. */
  lemma TargetIsSafeIff(p0: Path, target: string)
    requires p0 != [] && ".." !in p0 && Portable(p0, target)
    ensures (forall t, p :: |p| == |p0| && Around(t, p, target) ==> !LeadsOutside(t, p)) <==> ClimbsFirst(Parts(target))
  {
    hide Parts, ClimbsFirst, Rooted, PortableLinks, LeadsOutside;
    if ClimbsFirst(Parts(target)) {
      forall t, p | |p| == |p0| && Around(t, p, target) ensures !LeadsOutside(t, p) {
        ClimbingLinksStayInside(t, p);
      }
    } else {
      var t, p := RetraceEscapes(p0, target);
    }
  }
}
