/** What restoring an archive makes of it: exactly, through a link, or not at all. */
module StateBackupRestore {
  import opened ArchivePaths
  import opened StateBackup
  import opened StateBackupLayout
  import opened Wrappers

  // ----- the decrypted archive as one more member -----

  const PAYLOAD_FILE := Member(PAYLOAD, IsFile, 0, "", 0, Unreadable)

  function Staged(ms: seq<Member>): seq<Member> {
    [PAYLOAD_FILE] + ms
  }

  lemma PayloadPath()
    ensures Parts(PAYLOAD) == [PAYLOAD] && PAYLOAD != MANIFEST
  {
    hide PAYLOAD, MANIFEST, Parts;
    PayloadName();
    OnePart(PAYLOAD);
  }

  lemma PayloadName()
    ensures PAYLOAD !in {"", "."} && '/' !in PAYLOAD && PAYLOAD != MANIFEST
  {
    assert PAYLOAD[0] != MANIFEST[0];
  }

  lemma {:induction false} StagedPlain(ms: seq<Member>)
    ensures PlainPhase(FRESH, Staged(ms)) == PlainPhase(STAGED, ms)
  {
    hide PlacePlain, Parts;
    if ms == [] {
      assert Staged(ms) == [PAYLOAD_FILE] && Staged(ms)[..0] == [];
      PayloadPlaced();
    } else {
      var n := |ms| - 1;
      assert Staged(ms)[..|ms|] == Staged(ms[..n]);
      StagedPlain(ms[..n]);
    }
  }

  lemma PayloadPlaced()
    ensures PlacePlain(FRESH, PAYLOAD_FILE) == Some(STAGED)
  {
    PayloadPath();
    hide Parts;
    assert [PAYLOAD][..0] == [];
    assert FRESH[[PAYLOAD] := File(0)] == STAGED;
  }

  lemma {:induction false} StagedLinks(t: Tree, ms: seq<Member>)
    ensures LayLinks(t, Staged(ms)) == LayLinks(t, ms)
  {
    hide LayLink;
    if ms == [] {
      assert Staged(ms) == [PAYLOAD_FILE] && Staged(ms)[..0] == [];
      SkippedLink(t, PAYLOAD_FILE);
    } else {
      var n := |ms| - 1;
      assert Staged(ms)[..|ms|] == Staged(ms[..n]);
      StagedLinks(t, ms[..n]);
    }
  }

  // ----- which archives can be restored as they are -----

  /** Nothing of the archive lies at or below the decrypted archive. */
  ghost predicate PayloadFree(ms: seq<Member>) {
    forall i :: 0 <= i < |ms| && Made(ms[i]) ==> !Prefix([PAYLOAD], Parts(ms[i].name))
  }

  /** The archive can be laid out as its names say, beside the decrypted archive. */
  ghost predicate Restorable(ms: seq<Member>) {
    Layable(ms) && PayloadFree(ms)
  }

  lemma RestorableStaged(ms: seq<Member>)
    ensures Restorable(ms) <==> Layable(Staged(ms))
  {
    hide Restorable, Layable;
    if Restorable(ms) {
      StagedLayable(ms);
    }
    if Layable(Staged(ms)) {
      TailLayable(ms);
    }
  }

  lemma StagedLayable(ms: seq<Member>)
    requires Restorable(ms)
    ensures Layable(Staged(ms))
  {
    hide Parts, PAYLOAD, Made, Prefix, Restorable, Layable, Staged;
    var all := Staged(ms);
    StagedParts(ms);
    forall i, j | 0 <= i < |all| && 0 <= j < |all| && i != j && Made(all[i]) && Made(all[j]) && !all[i].kind.IsDir?
      ensures !Prefix(Parts(all[i].name), Parts(all[j].name))
    {
      if j == 0 {
        NotAbovePayload(ms, i - 1);
      } else if i == 0 {
        NotBelowPayload(ms, j - 1);
      } else {
        LayableApart(ms, i - 1, j - 1);
      }
    }
    forall i | 0 <= i < |all| && Made(all[i]) && !all[i].kind.IsDir?
      ensures Parts(all[i].name) != [] && (all[i].kind.IsLink? ==> all[i].link != "")
    {
      if i > 0 {
        LayableApart(ms, i - 1, i - 1);
      }
    }
    LayableWhen(all);
  }

  lemma LayableWhen(ms: seq<Member>)
    requires forall i, j :: 0 <= i < |ms| && 0 <= j < |ms| && i != j && Made(ms[i]) && Made(ms[j]) && !ms[i].kind.IsDir? ==>
               !Prefix(Parts(ms[i].name), Parts(ms[j].name))
    requires forall i :: 0 <= i < |ms| && Made(ms[i]) && !ms[i].kind.IsDir? ==>
               Parts(ms[i].name) != [] && (ms[i].kind.IsLink? ==> ms[i].link != "")
    ensures Layable(ms)
  {
    hide Parts, Made, Prefix;
  }

  lemma LayableApart(ms: seq<Member>, i: nat, j: nat)
    requires Restorable(ms) && i < |ms| && j < |ms| && Made(ms[i]) && Made(ms[j]) && !ms[i].kind.IsDir?
    ensures i != j ==> !Prefix(Parts(ms[i].name), Parts(ms[j].name))
    ensures Parts(ms[i].name) != [] && (ms[i].kind.IsLink? ==> ms[i].link != "")
  {
    hide Parts, Made, Prefix, PAYLOAD;
  }

  lemma NotBelowPayload(ms: seq<Member>, j: nat)
    requires Restorable(ms) && j < |ms| && Made(ms[j])
    ensures !Prefix([PAYLOAD], Parts(ms[j].name))
  {
    hide Parts, Made, Prefix, PAYLOAD;
  }

  lemma StagedParts(ms: seq<Member>)
    ensures var all := Staged(ms);
            && |all| == |ms| + 1 && (forall i :: 0 < i < |all| ==> all[i] == ms[i - 1])
            && (forall i :: 0 <= i < |ms| ==> all[i + 1] == ms[i])
            && Parts(all[0].name) == [PAYLOAD] && Plain(all[0]) && Made(all[0]) && all[0].kind.IsFile?
  {
    hide Parts;
    PayloadPath();
  }

  lemma NotAbovePayload(ms: seq<Member>, i: nat)
    requires Restorable(ms) && i < |ms| && Made(ms[i]) && !ms[i].kind.IsDir?
    ensures !Prefix(Parts(ms[i].name), [PAYLOAD])
  {
    hide Parts;
    var p := Parts(ms[i].name);
    assert Prefix(p, [PAYLOAD]) && p != [] ==> p == [PAYLOAD];
  }

  lemma TailLayable(ms: seq<Member>)
    requires Layable(Staged(ms))
    ensures Restorable(ms)
  {
    hide Parts, Made, PAYLOAD;
    StagedParts(ms);
    var all := Staged(ms);
    forall i | 0 <= i < |ms| && Made(ms[i]) ensures !Prefix([PAYLOAD], Parts(ms[i].name)) {
      assert all[i + 1] == ms[i];
    }
    forall i, j | 0 <= i < |ms| && 0 <= j < |ms| && i != j && Made(ms[i]) && Made(ms[j]) && !ms[i].kind.IsDir?
      ensures !Prefix(Parts(ms[i].name), Parts(ms[j].name))
    {
      assert all[i + 1] == ms[i] && all[j + 1] == ms[j];
    }
    forall i | 0 <= i < |ms| && Made(ms[i]) && !ms[i].kind.IsDir?
      ensures Parts(ms[i].name) != [] && (ms[i].kind.IsLink? ==> ms[i].link != "")
    {
      assert all[i + 1] == ms[i];
    }
  }

  // ----- a layout is what the extraction makes, up to the first link above a link -----

  lemma {:induction false} EnterDirect(t: Tree, p: Path)
    requires Rooted(t) && forall k :: 0 <= k <= |p| && p[..k] in t ==> !t[p[..k]].Link?
    ensures Enter(t, p) == if Mkdirs(t, p).Some? then Inside(Mkdirs(t, p).value, p, MAX_LINKS) else Refused
    decreases |p|
  {
    hide Rooted, Walk;
    if p != [] {
      var q, name := p[..|p| - 1], p[|p| - 1];
      forall k | 0 <= k <= |q| && q[..k] in t ensures !t[q[..k]].Link? {
        assert q[..k] == p[..k];
      }
      EnterDirect(t, q);
      assert q + [name] == p && p[..|p|] == p;
      if Mkdirs(t, q).Some? {
        MkdirsShape(t, q);
      }
    }
  }

  lemma PlaceDirect(t: Tree, m: Member)
    requires Rooted(t) && !Through(t, Parts(m.name))
    ensures match LayLink(t, m)
            case Laid(u) => Land(t, m) == Here(u)
            case Blocked => Land(t, m) == Unplaced
            case MetLink => false
  {
    hide Parts, Mkdirs, Enter;
    var p := Parts(m.name);
    if p != [] {
      var up := p[..|p| - 1];
      forall k | 0 <= k <= |up| && up[..k] in t ensures !t[up[..k]].Link? {
        assert up[..k] == p[..k];
      }
      EnterDirect(t, up);
      assert up + [p[|p| - 1]] == p;
    }
  }

  lemma {:induction false} LayoutIsExtracted(t: Tree, ms: seq<Member>, host: Host)
    requires Rooted(t) && NoLinks(t)
    ensures LayLinks(t, ms).Laid? ==> LinkPhase(t, ms, host) == Done(LayLinks(t, ms).tree)
    ensures LayLinks(t, ms).Blocked? ==> LinkPhase(t, ms, host) == Failed
  {
    hide LayLink, Land, Through, Rooted, Below, AllIn, LinkAt;
    if ms != [] {
      var n := |ms| - 1;
      LayoutIsExtracted(t, ms[..n], host);
      if LayLinks(t, ms[..n]).Laid? {
        LayLinksShape(t, ms[..n]);
        var u := LayLinks(t, ms[..n]).tree;
        if ms[n].kind.IsLink? && Through(u, Parts(ms[n].name)) {
          MeetsLink(u, ms[n]);
        } else {
          OneLink(u, ms[n]);
        }
      }
    }
  }

  lemma MeetsLink(t: Tree, m: Member)
    requires m.kind.IsLink? && Through(t, Parts(m.name))
    ensures LayLink(t, m) == MetLink
  {
  }

  lemma OneLink(t: Tree, m: Member)
    requires Rooted(t) && (m.kind.IsLink? ==> !Through(t, Parts(m.name)))
    ensures LayLink(t, m).Laid? ==> Land(t, m) == Here(LayLink(t, m).tree)
    ensures LayLink(t, m).Blocked? ==> Land(t, m) == Unplaced
    ensures !LayLink(t, m).MetLink?
  {
    hide Parts, Enter, Mkdirs, Through;
    if m.kind.IsLink? {
      PlaceDirect(t, m);
    }
  }

  // ----- restored exactly -----

  /** Every file, directory and link of the archive is at its own path below real
      directories, and nothing else is there. */
  ghost predicate Exactly(ms: seq<Member>, t: Tree) {
    && Rooted(t) && AllIn(ms, t, Plain) && AllIn(ms, t, IsLinkMember)
    && forall q :: q in t <==> q == [] || Below(ms, q, Plain) || Below(ms, q, IsLinkMember)
  }

  lemma StagedBelow(ms: seq<Member>, q: Path)
    ensures Below(Staged(ms), q, Plain) <==> Prefix(q, [PAYLOAD]) || Below(ms, q, Plain)
    ensures Below(Staged(ms), q, IsLinkMember) <==> Below(ms, q, IsLinkMember)
  {
    hide Parts;
    var all := Staged(ms);
    StagedParts(ms);
    if i :| 0 <= i < |all| && Plain(all[i]) && Prefix(q, Parts(all[i].name)) {
      assert i > 0 ==> all[i] == ms[i - 1];
    }
    if i :| 0 <= i < |all| && IsLinkMember(all[i]) && Prefix(q, Parts(all[i].name)) {
      assert all[i] == ms[i - 1];
    }
    if i :| 0 <= i < |ms| && Plain(ms[i]) && Prefix(q, Parts(ms[i].name)) {
      assert all[i + 1] == ms[i];
    }
    if i :| 0 <= i < |ms| && IsLinkMember(ms[i]) && Prefix(q, Parts(ms[i].name)) {
      assert all[i + 1] == ms[i];
    }
  }

  /** Removing the decrypted archive from a layout of everything leaves the archive. */
  lemma PayloadRemoved(ms: seq<Member>, t: Tree)
    requires PayloadFree(ms) && Exactly(Staged(ms), t)
    ensures Exactly(ms, t - {[PAYLOAD]})
  {
    hide Parts, NodeOf, Plain, Below, PAYLOAD, Rooted, AllIn;
    var u := t - {[PAYLOAD]};
    forall q ensures q in u <==> q == [] || Below(ms, q, Plain) || Below(ms, q, IsLinkMember) {
      StagedBelow(ms, q);
      PayloadPrefix(q);
      NothingBelowPayload(ms, q);
    }
    RemovedRooted(ms, t);
    RemovedAllIn(ms, t, Plain);
    RemovedAllIn(ms, t, IsLinkMember);
  }

  lemma PayloadPrefix(q: Path)
    ensures Prefix(q, [PAYLOAD]) <==> q == [] || q == [PAYLOAD]
  {
  }

  lemma NothingBelowPayload(ms: seq<Member>, p: Path)
    requires PayloadFree(ms)
    ensures Prefix([PAYLOAD], p) ==> !Below(ms, p, Plain) && !Below(ms, p, IsLinkMember)
  {
    hide Parts, Plain, PAYLOAD;
    forall i | 0 <= i < |ms| && (Plain(ms[i]) || IsLinkMember(ms[i]))
      ensures !(Prefix([PAYLOAD], p) && Prefix(p, Parts(ms[i].name)))
    {
      assert Made(ms[i]);
    }
  }

  lemma RemovedRooted(ms: seq<Member>, t: Tree)
    requires PayloadFree(ms) && Exactly(Staged(ms), t)
    ensures Rooted(t - {[PAYLOAD]})
  {
    hide Parts, Plain, Below, PAYLOAD, AllIn;
    var u := t - {[PAYLOAD]};
    forall p | p in u && p != [] ensures p[..|p| - 1] in u && u[p[..|p| - 1]] == Dir {
      StagedBelow(ms, p);
      PayloadPrefix(p);
      NothingBelowPayload(ms, p);
      PrefixStep([PAYLOAD], p);
    }
  }

  lemma RemovedAllIn(ms: seq<Member>, t: Tree, sel: Member -> bool)
    requires PayloadFree(ms) && AllIn(Staged(ms), t, sel)
    requires forall m: Member :: sel(m) ==> Made(m)
    ensures AllIn(ms, t - {[PAYLOAD]}, sel)
  {
    hide Parts, NodeOf, Plain, PAYLOAD, Made;
    StagedParts(ms);
    forall i | 0 <= i < |ms| && sel(ms[i])
      ensures Parts(ms[i].name) in t - {[PAYLOAD]} && t[Parts(ms[i].name)] == NodeOf(ms[i])
    {
      assert Staged(ms)[i + 1] == ms[i] && Made(ms[i]);
    }
  }

  /** The layout of an archive that can be restored, as the extraction leaves it. */
  lemma LaidExtracted(ms: seq<Member>, host: Host)
    requires AllValid(ms)
    ensures Restorable(ms) <==> Lay(Staged(ms)).Laid?
    ensures Restorable(ms) ==> Extract(ms, host) == Done(Lay(Staged(ms)).tree) && Exactly(Staged(ms), Lay(Staged(ms)).tree)
    ensures Lay(Staged(ms)).Blocked? ==> Extract(ms, host) == Failed
  {
    hide PlainPhase, LayLinks, LinkPhase, Layable, Restorable, Rooted, AllIn, Below, AllValid, NoLinks;
    RestorableStaged(ms);
    LaysIff(Staged(ms));
    StagedPlain(ms);
    if PlainPhase(STAGED, ms).Some? {
      var t := PlainPhase(STAGED, ms).value;
      PlainPhaseShape(Staged(ms));
      StagedLinks(t, ms);
      LayoutIsExtracted(t, ms, host);
    }
    if Restorable(ms) {
      LaidExactly(Staged(ms));
    }
  }

  /** `restore_backup` leaves exactly the archive in the new directory if and only if the
      archive is accepted, nothing lies at or below a file or a link but itself, files and
      links have a name and links a target, and nothing lies at or below the place of the
      decrypted archive; the order of entries does not matter. */
  lemma RestoredExactlyIff(ms: seq<Member>, host: Host)
    ensures Restore(ms, host).Done? && Exactly(ms, Restore(ms, host).tree) <==> Inspected(ms) && Restorable(ms)
  {
    hide Extract, Restorable, PayloadFree, Exactly, Lay, Inspected, PAYLOAD, Leaves;
    if Inspected(ms) {
      InspectedValid(ms);
      LaidExtracted(ms, host);
      if Restorable(ms) {
        RestorableStays(ms, host);
        RestorableIsFree(ms);
        PayloadRemoved(ms, Lay(Staged(ms)).tree);
      } else if Restore(ms, host).Done? {
        NestedNotExact(ms, Restore(ms, host).tree);
      }
    }
  }

  /** What can be laid out as its names say never leaves the destination. */
  lemma RestorableStays(ms: seq<Member>, host: Host)
    requires AllValid(ms) && Restorable(ms)
    ensures !Leaves(ms, host)
  {
    hide PlainPhase, LayLinks, LinkPhase, Restorable, Rooted, NoLinks, AllValid, Land, Through, Parts;
    LaidExtracted(ms, host);
    StagedPlain(ms);
    var t := PlainPhase(STAGED, ms).value;
    StagedLinks(t, ms);
    PlainPhaseShape(Staged(ms));
    forall j | 0 <= j < |ms| ensures !AwayAt(t, ms, j, host) {
      LaidPrefix(t, ms, j + 1);
      LayoutIsExtracted(t, ms[..j], host);
      LaidLands(t, ms, j);
    }
  }

  lemma {:induction false} LaidPrefix(t: Tree, ms: seq<Member>, k: nat)
    requires k <= |ms| && LayLinks(t, ms).Laid?
    ensures LayLinks(t, ms[..k]).Laid?
  {
    if !LayLinks(t, ms[..k]).Laid? {
      LayLinksStays(t, ms, k);
    }
  }

  /** The next link of a layout is made in a directory of the destination. */
  lemma LaidLands(t: Tree, ms: seq<Member>, j: nat)
    requires Rooted(t) && NoLinks(t) && j < |ms| && LayLinks(t, ms[..j + 1]).Laid?
    ensures LayLinks(t, ms[..j]).Laid? && Land(LayLinks(t, ms[..j]).tree, ms[j]).Here?
  {
    hide Parts, Place, Through, Rooted, Land, LayLink, Below, AllIn;
    assert ms[..j + 1][..j] == ms[..j];
    LayLinksShape(t, ms[..j]);
    var u := LayLinks(t, ms[..j]).tree;
    if ms[j].kind.IsLink? && Through(u, Parts(ms[j].name)) {
      MeetsLink(u, ms[j]);
    } else {
      OneLink(u, ms[j]);
    }
  }

  lemma InspectedValid(ms: seq<Member>)
    requires Inspected(ms)
    ensures AllValid(ms)
  {
    hide ValidMember, Size, UnderLink, Parts;
  }

  lemma RestorableIsFree(ms: seq<Member>)
    requires Restorable(ms)
    ensures PayloadFree(ms)
  {
  }

  /** With a link above another one, no tree holds the archive exactly. */
  lemma NestedNotExact(ms: seq<Member>, u: Tree)
    requires Lay(Staged(ms)).MetLink?
    ensures !Exactly(ms, u)
  {
    hide Parts, PlainPhase, LayLinks, Below, NodeOf, Exactly;
    MeetsLinkOnlyNested(Staged(ms));
    var i: nat, j: nat :| Nested(Staged(ms), i, j);
    assert Staged(ms)[i] == ms[i - 1] && Staged(ms)[j] == ms[j - 1];
    if Exactly(ms, u) {
      ExactLinksApart(ms, u, i - 1, j - 1);
    }
  }

  lemma ExactLinksApart(ms: seq<Member>, u: Tree, i: nat, j: nat)
    requires Exactly(ms, u) && i < |ms| && j < |ms| && ms[i].kind.IsLink? && ms[j].kind.IsLink?
    ensures !(Parts(ms[i].name) < Parts(ms[j].name))
  {
    hide Parts, Below;
    assert IsLinkMember(ms[i]) && IsLinkMember(ms[j]);
    var p, q := Parts(ms[i].name), Parts(ms[j].name);
    if |p| < |q| {
      AncestorsAreDirs(u, q, |p|);
      assert u[p] != Dir && u[q[..|p|]] == Dir;
      assert q[..|p|] != p;
    }
  }

  // ----- written through a link -----

  /** The folder of the entry leads, links followed, out of the destination. */
  predicate GoesAway(t: Tree, m: Member) {
    var p := Parts(m.name);
    p != [] && Enter(t, p[..|p| - 1]).Escaped?
  }

  /** It leads to a directory of the destination in which the name of the entry is free. */
  predicate HasRoom(t: Tree, m: Member) {
    var p := Parts(m.name);
    && p != [] && m.link != ""
    && var folder := Enter(t, p[..|p| - 1]);
    folder.Inside? && folder.place + [p[|p| - 1]] !in folder.tree
  }

  predicate Lands(t: Tree, m: Member, host: Host) {
    HasRoom(t, m) || (GoesAway(t, m) && m.link != "" && host.makes(m))
  }

  lemma LandsIsPlaced(t: Tree, m: Member, host: Host)
    requires m.kind.IsLink?
    ensures Land(t, m).Away? <==> GoesAway(t, m)
    ensures Land(t, m).Here? <==> HasRoom(t, m)
    ensures PlaceLink(t, m, host).Done? <==> Lands(t, m, host)
  {
    hide Parts, Enter;
  }

  /** The `j`-th entry is a link that is made although one of its parents is a link. */
  ghost predicate ThroughAt(ms: seq<Member>, j: nat, host: Host) {
    && j < |ms| && ms[j].kind.IsLink? && PlainPhase(STAGED, ms).Some?
    && var before := LinkPhase(PlainPhase(STAGED, ms).value, ms[..j], host);
    before.Done? && Through(before.tree, Parts(ms[j].name)) && PlaceLink(before.tree, ms[j], host).Done?
  }

  ghost predicate WritesThrough(ms: seq<Member>, host: Host) {
    AllValid(ms) && exists j :: ThroughAt(ms, j, host)
  }

  const NOBODY := Host(m => false, false)

  /** The tree that stands when the `j`-th entry is reached, if everything in place by
      then can be restored. */
  function Before(ms: seq<Member>, j: nat): Tree
    requires j <= |ms|
  {
    var r := Extract(InPlace(ms, j), NOBODY);
    if r.Done? then r.tree else STAGED
  }

  lemma {:induction false} PlainsValid(ms: seq<Member>)
    requires AllValid(ms)
    ensures AllValid(Plains(ms))
  {
    hide ValidMember;
    if ms != [] {
      PlainsValid(ms[..|ms| - 1]);
    }
  }

  /** What is in place before a link, and the tree it makes. */
  lemma BeforeLink(ms: seq<Member>, j: nat, host: Host)
    requires AllValid(ms) && j <= |ms|
    ensures Restorable(InPlace(ms, j)) <==>
            PlainPhase(STAGED, ms).Some? && LayLinks(PlainPhase(STAGED, ms).value, ms[..j]).Laid?
    ensures Restorable(InPlace(ms, j)) ==>
            && LayLinks(PlainPhase(STAGED, ms).value, ms[..j]) == Laid(Before(ms, j))
            && LinkPhase(PlainPhase(STAGED, ms).value, ms[..j], host) == Done(Before(ms, j))
  {
    hide PlainPhase, LayLinks, LinkPhase, Restorable, ValidMember, Rooted, NoLinks, Exactly, Plains;
    var ps := InPlace(ms, j);
    assert AllValid(ps) by {
      PlainsValid(ms[j..]);
    }
    LaidExtracted(ps, NOBODY);
    StagedPlain(ms);
    StagedPlain(ps);
    assert ms[..j] + ms[j..] == ms;
    PlainsDecide(STAGED, ms[..j], ms[j..]);
    if PlainPhase(STAGED, ms).Some? {
      var t := PlainPhase(STAGED, ms).value;
      PlainsDecide(t, ms[..j], ms[j..]);
      StagedLinks(t, ps);
      PlainPhaseShape(Staged(ms));
      LayoutIsExtracted(t, ms[..j], host);
    }
  }

  lemma {:induction false} LinkPhasePrefix(t: Tree, ms: seq<Member>, k: nat, host: Host)
    requires k <= |ms| && !LinkPhase(t, ms[..k], host).Done?
    ensures LinkPhase(t, ms, host) == LinkPhase(t, ms[..k], host)
  {
    hide PlaceLink;
    if k < |ms| {
      assert ms[..|ms| - 1][..k] == ms[..k];
      LinkPhasePrefix(t, ms[..|ms| - 1], k, host);
    } else {
      assert ms[..k] == ms;
    }
  }

  lemma {:induction false} LinkPhaseConcat(t: Tree, a: seq<Member>, b: seq<Member>, host: Host)
    ensures LinkPhase(t, a + b, host) ==
            if LinkPhase(t, a, host).Done? then LinkPhase(LinkPhase(t, a, host).tree, b, host) else LinkPhase(t, a, host)
    decreases |b|
  {
    hide PlaceLink;
    if b == [] {
      assert a + b == a;
    } else {
      assert (a + b)[..|a + b| - 1] == a + b[..|b| - 1];
      LinkPhaseConcat(t, a, b[..|b| - 1], host);
    }
  }

  lemma NextPlaced(t: Tree, ms: seq<Member>, j: nat, host: Host)
    requires j < |ms| && LinkPhase(t, ms[..j], host).Done?
    ensures LinkPhase(t, ms[..j + 1], host) == PlaceLink(LinkPhase(t, ms[..j], host).tree, ms[j], host)
  {
    hide PlaceLink;
    assert ms[..j + 1][..j] == ms[..j];
  }

  /** A link below an earlier one, with everything in place before it, has a link among
      its parents. */
  lemma NestedIsThrough(ms: seq<Member>, i: nat, j: nat)
    requires AllValid(ms) && Nested(ms, i, j) && Restorable(InPlace(ms, j))
    ensures Through(Before(ms, j), Parts(ms[j].name))
  {
    hide Parts, PlainPhase, LayLinks, LinkPhase, Extract, Restorable, InPlace, ValidMember, Rooted, NoLinks, AllIn, Below;
    BeforeLink(ms, j, NOBODY);
    StagedPlain(ms);
    var t := PlainPhase(STAGED, ms).value;
    PlainPhaseShape(Staged(ms));
    LayLinksShape(t, ms[..j]);
    var p := Parts(ms[i].name);
    assert LinkAt(ms[..j], p) by {
      assert ms[..j][i] == ms[i] && IsLinkMember(ms[..j][i]);
    }
    ThroughLink(Before(ms, j), p, Parts(ms[j].name));
  }

  /** The extraction of an archive with a link below an earlier one, all in place before
      it: the link is made where its folder leads, and the rest follows. */
  lemma NestedDecides(ms: seq<Member>, i: nat, j: nat, host: Host)
    requires AllValid(ms) && Nested(ms, i, j) && Restorable(InPlace(ms, j))
    ensures var placed := PlaceLink(Before(ms, j), ms[j], host);
            Extract(ms, host) == if placed.Done? then LinkPhase(placed.tree, ms[j + 1..], host) else placed
    ensures ThroughAt(ms, j, host) <==> Lands(Before(ms, j), ms[j], host)
    ensures GoesAway(Before(ms, j), ms[j]) ==> Leaves(ms, host)
  {
    hide Parts, PlainPhase, LinkPhase, PlaceLink, Restorable, InPlace, Through, Before, Lands, AllValid, GoesAway, HasRoom, Land;
    NestedIsThrough(ms, i, j);
    BeforeLink(ms, j, host);
    var t := PlainPhase(STAGED, ms).value;
    NextPlaced(t, ms, j, host);
    assert ms[..j + 1] + ms[j + 1..] == ms;
    LinkPhaseConcat(t, ms[..j + 1], ms[j + 1..], host);
    LandsIsPlaced(Before(ms, j), ms[j], host);
    assert GoesAway(Before(ms, j), ms[j]) ==> AwayAt(t, ms, j, host);
  }

  /** A first link above another one, if the layout of the archive meets any. */
  lemma FirstNested(ms: seq<Member>) returns (i: nat, j: nat)
    requires AllValid(ms) && PlainPhase(STAGED, ms).Some? && LayLinks(PlainPhase(STAGED, ms).value, ms).MetLink?
    ensures Nested(ms, i, j) && Restorable(InPlace(ms, j))
  {
    hide Parts, PlainPhase, LayLinks, Restorable, InPlace, ValidMember, Rooted, NoLinks;
    var t := PlainPhase(STAGED, ms).value;
    StagedPlain(ms);
    PlainPhaseShape(Staged(ms));
    i, j := LayLinksEscapes(t, ms);
    BeforeLink(ms, j, NOBODY);
  }

  /** Some link is made through another one, inside the destination or outside, if and only
      if the archive is valid and there is a link below an earlier one such that everything
      in front of it can be restored (all files and directories, and the links before it)
      and its folder then leads to a directory of the destination in which its name is
      free, or to one outside in which the host lets it be made. */
  lemma WritesThroughIff(ms: seq<Member>, host: Host)
    ensures WritesThrough(ms, host) <==>
            AllValid(ms) && exists i: nat, j: nat ::
              Nested(ms, i, j) && j < |ms| && Restorable(InPlace(ms, j)) && Lands(Before(ms, j), ms[j], host)
  {
    hide Nested, Restorable, InPlace, Lands, Before, ThroughAt, AllValid;
    if AllValid(ms) {
      if j: nat :| ThroughAt(ms, j, host) {
        var i, k := ThroughIsNested(ms, j, host);
        NestedInside(ms, i, k);
      }
      forall i: nat, j: nat | Nested(ms, i, j) ensures j < |ms| {
        NestedInside(ms, i, j);
      }
      if i: nat, j: nat :| Nested(ms, i, j) && j < |ms| && Restorable(InPlace(ms, j)) && Lands(Before(ms, j), ms[j], host) {
        NestedDecides(ms, i, j, host);
      }
    }
  }

  lemma NestedInside(ms: seq<Member>, i: nat, j: nat)
    requires Nested(ms, i, j)
    ensures i < j < |ms|
  {
  }

  /** The first link above another one that an extraction has met when it meets one. */
  lemma FirstMet(ms: seq<Member>, j: nat, host: Host) returns (i: nat, k: nat)
    requires AllValid(ms) && j < |ms| && ms[j].kind.IsLink? && PlainPhase(STAGED, ms).Some?
    requires var before := LinkPhase(PlainPhase(STAGED, ms).value, ms[..j], host);
             before.Done? && Through(before.tree, Parts(ms[j].name))
    ensures Nested(ms, i, k) && k <= j && Restorable(InPlace(ms, k))
    ensures LinkPhase(PlainPhase(STAGED, ms).value, ms[..k], host) == Done(Before(ms, k))
    ensures k < j ==> PlaceLink(Before(ms, k), ms[k], host).Done?
  {
    hide Parts, PlainPhase, LinkPhase, PlaceLink, Restorable, Through, ValidMember, Rooted, NoLinks;
    hide Before, InPlace, Nested, LayLink;
    var t := PlainPhase(STAGED, ms).value;
    var upTo := ms[..j + 1];
    StagedPlain(ms);
    PlainPhaseShape(Staged(ms));
    LayoutIsExtracted(t, ms[..j], host);
    assert upTo[..j] == ms[..j] && upTo[j] == ms[j];
    MeetsLink(LinkPhase(t, ms[..j], host).tree, ms[j]);
    assert LayLinks(t, upTo).MetLink?;
    i, k := LayLinksEscapes(t, upTo);
    NestedInside(upTo, i, k);
    NestedLonger2(ms, j + 1, i, k);
    assert upTo[..k] == ms[..k];
    BeforeLink(ms, k, host);
    if k < j {
      NextPlaced(t, ms, k, host);
      assert ms[..j][..k + 1] == ms[..k + 1];
      if !LinkPhase(t, ms[..k + 1], host).Done? {
        LinkPhasePrefix(t, ms[..j], k + 1, host);
      }
    }
  }

  lemma ThroughIsNested(ms: seq<Member>, j: nat, host: Host) returns (i: nat, k: nat)
    requires AllValid(ms) && ThroughAt(ms, j, host)
    ensures Nested(ms, i, k) && k <= j && Restorable(InPlace(ms, k)) && Lands(Before(ms, k), ms[k], host)
  {
    hide Parts, PlainPhase, LinkPhase, PlaceLink, Restorable, Through, Lands, AllValid, Before, InPlace, Nested;
    i, k := FirstMet(ms, j, host);
    NestedLinks(ms, i, k);
    LandsIsPlaced(Before(ms, k), ms[k], host);
  }

  /** The same for an entry that goes away. */
  lemma AwayIsNested(ms: seq<Member>, j: nat, host: Host) returns (i: nat, k: nat)
    requires AllValid(ms) && PlainPhase(STAGED, ms).Some? && AwayAt(PlainPhase(STAGED, ms).value, ms, j, host)
    ensures Nested(ms, i, k) && k <= j && Restorable(InPlace(ms, k))
    ensures HasRoom(Before(ms, k), ms[k]) || GoesAway(Before(ms, k), ms[k])
  {
    hide Parts, PlainPhase, LinkPhase, PlaceLink, Restorable, Through, AllValid, Before, InPlace, Nested, Land;
    hide HasRoom, GoesAway;
    var t := PlainPhase(STAGED, ms).value;
    var u := LinkPhase(t, ms[..j], host).tree;
    LinkPhaseRooted(ms, j, host);
    AwayIsThrough(u, ms[j]);
    i, k := FirstMet(ms, j, host);
    NestedLinks(ms, i, k);
    LandsIsPlaced(Before(ms, k), ms[k], host);
    LandsEither(Before(ms, k), ms[k], host);
  }

  lemma LandsEither(t: Tree, m: Member, host: Host)
    ensures Lands(t, m, host) ==> HasRoom(t, m) || GoesAway(t, m)
  {
  }

  lemma AwayIsThrough(t: Tree, m: Member)
    requires Rooted(t) && Land(t, m).Away?
    ensures m.kind.IsLink? && Through(t, Parts(m.name))
  {
    hide Parts, Enter, LayLink, Rooted;
    if m.kind.IsLink? && !Through(t, Parts(m.name)) {
      PlaceDirect(t, m);
    }
  }

  lemma LinkPhaseRooted(ms: seq<Member>, j: nat, host: Host)
    requires PlainPhase(STAGED, ms).Some? && j <= |ms|
    requires LinkPhase(PlainPhase(STAGED, ms).value, ms[..j], host).Done?
    ensures Rooted(LinkPhase(PlainPhase(STAGED, ms).value, ms[..j], host).tree)
  {
    hide PlainPhase, LinkPhase, Rooted;
    StagedPlain(ms);
    PlainPhaseShape(Staged(ms));
    LinkPhaseExtends(PlainPhase(STAGED, ms).value, ms[..j], host);
  }

  /** Some link is made through another one, or some entry leaves the destination, if and
      only if the archive is valid and there is a link below an earlier one such that
      everything in front of it can be restored and its folder then leads out of the
      destination, or to a directory of it in which its name is free.  This does not depend
      on the host. */
  lemma ThroughOrAwayIff(ms: seq<Member>, host: Host)
    ensures WritesThrough(ms, host) || Leaves(ms, host) <==>
            AllValid(ms) && exists i: nat, j: nat ::
              && Nested(ms, i, j) && j < |ms| && Restorable(InPlace(ms, j))
              && (HasRoom(Before(ms, j), ms[j]) || GoesAway(Before(ms, j), ms[j]))
  {
    hide Nested, Restorable, InPlace, Lands, Before, ThroughAt, AllValid, PlainPhase, AwayAt, HasRoom, GoesAway;
    if AllValid(ms) {
      forall i: nat, j: nat | Nested(ms, i, j) ensures j < |ms| {
        NestedInside(ms, i, j);
      }
      if j: nat :| ThroughAt(ms, j, host) {
        var i, k := ThroughIsNested(ms, j, host);
        LandsEither(Before(ms, k), ms[k], host);
      }
      if Leaves(ms, host) {
        var j :| 0 <= j < |ms| && AwayAt(PlainPhase(STAGED, ms).value, ms, j, host);
        var i, k := AwayIsNested(ms, j, host);
      }
      if i: nat, j: nat :| && Nested(ms, i, j) && j < |ms| && Restorable(InPlace(ms, j))
                           && (HasRoom(Before(ms, j), ms[j]) || GoesAway(Before(ms, j), ms[j])) {
        NestedDecides(ms, i, j, host);
        RoomLands(Before(ms, j), ms[j], host);
      }
    }
  }

  lemma RoomLands(t: Tree, m: Member, host: Host)
    ensures HasRoom(t, m) ==> Lands(t, m, host)
  {
  }

  /** No entry leaves the destination without a link below an earlier one. */
  lemma LeavesOnlyNested(ms: seq<Member>, host: Host)
    requires Leaves(ms, host)
    ensures exists i: nat, j: nat :: Nested(ms, i, j)
  {
    hide Nested, Restorable, InPlace, Before, ThroughAt, AllValid, HasRoom, GoesAway;
    ThroughOrAwayIff(ms, host);
  }

  lemma NestedLinks(ms: seq<Member>, i: nat, j: nat)
    requires Nested(ms, i, j)
    ensures i < j < |ms| && ms[i].kind.IsLink? && ms[j].kind.IsLink?
  {
  }

  lemma NestedLonger2(ms: seq<Member>, n: nat, i: nat, j: nat)
    requires n <= |ms| && Nested(ms[..n], i, j)
    ensures Nested(ms, i, j)
  {
    hide Parts;
  }

  lemma LaidNotThrough(t: Tree, ms: seq<Member>, j: nat)
    requires j < |ms| && LayLinks(t, ms[..j + 1]).Laid? && ms[j].kind.IsLink?
    ensures LayLinks(t, ms[..j]).Laid? && !Through(LayLinks(t, ms[..j]).tree, Parts(ms[j].name))
  {
    hide Parts, Place, Through;
    assert ms[..j + 1][..j] == ms[..j];
  }

  /** What is laid out neither completely nor stopped by a file has a first link above
      another one. */
  lemma MeetsFirst(ms: seq<Member>) returns (i: nat, j: nat)
    requires AllValid(ms) && Lay(Staged(ms)).MetLink?
    ensures Nested(ms, i, j) && j < |ms| && Restorable(InPlace(ms, j))
  {
    hide PlainPhase, LayLinks, Restorable, InPlace, AllValid, Nested;
    StagedPlain(ms);
    StagedLinks(PlainPhase(STAGED, ms).value, ms);
    i, j := FirstNested(ms);
    NestedInside(ms, i, j);
  }

  /** A restore that ends well has left exactly the archive, or has made some link through
      another one. */
  lemma ExactOrThrough(ms: seq<Member>, host: Host)
    requires Restore(ms, host).Done?
    ensures Exactly(ms, Restore(ms, host).tree) <==> !WritesThrough(ms, host)
  {
    hide Extract, Restorable, PayloadFree, Exactly, Lay, Inspected, Before, InPlace, Nested, Lands, PlaceLink, ThroughAt;
    hide PAYLOAD, LinkPhase, Leaves;
    InspectedValid(ms);
    RestoredExactlyIff(ms, host);
    WritesThroughIff(ms, host);
    LaidExtracted(ms, host);
    forall i: nat, j: nat | Nested(ms, i, j) ensures !Exactly(ms, Restore(ms, host).tree) {
      NestedIsApart(ms, i, j, Restore(ms, host).tree);
    }
    if !Exactly(ms, Restore(ms, host).tree) {
      var i, j := MeetsFirst(ms);
      NestedDecides(ms, i, j, host);
      assert ThroughAt(ms, j, host) by {
        NestedLinks(ms, i, j);
        LandsIsPlaced(Before(ms, j), ms[j], host);
      }
    }
  }

  lemma NestedIsApart(ms: seq<Member>, i: nat, j: nat, u: Tree)
    requires Nested(ms, i, j)
    ensures !Exactly(ms, u)
  {
    hide Parts, Exactly;
    if Exactly(ms, u) {
      ExactLinksApart(ms, u, i, j);
    }
  }

  /** Without a link below an earlier one, a valid archive is restored exactly or not at
      all. */
  lemma UnnestedIsDirect(ms: seq<Member>, host: Host)
    requires AllValid(ms) && forall i: nat, j: nat :: !Nested(ms, i, j)
    ensures Restorable(ms) <==> Lay(Staged(ms)).Laid?
    ensures Extract(ms, host) == if Lay(Staged(ms)).Laid? then Done(Lay(Staged(ms)).tree) else Failed
  {
    hide Extract, Restorable, Lay, Exactly, Nested, AllValid, InPlace;
    LaidExtracted(ms, host);
    if Lay(Staged(ms)).MetLink? {
      var i, j := MeetsFirst(ms);
    }
  }

  predicate CanonicalLinks(ms: seq<Member>) {
    forall k :: 0 <= k < |ms| && ms[k].kind.IsLink? ==> Canonical(ms[k].name)
  }

  /** In an accepted archive whose links have canonical names, no link lies below another. */
  lemma CanonicalLinksAreApart(ms: seq<Member>, i: nat, j: nat)
    requires Inspected(ms) && CanonicalLinks(ms)
    ensures !Nested(ms, i, j)
  {
    hide Parts, Joined, ValidMember, Size;
    if i < j < |ms| && ms[i].kind.IsLink? && Parts(ms[i].name) != [] {
      var p, q := Parts(ms[i].name), Parts(ms[j].name);
      var k := |p|;
      assert Canonical(ms[i].name) && ms[i].name == Joined(p);
      assert LinkNamed(ms, Joined(p));
      assert !UnderLink(ms, q);
      assert k < |q| && q[..k] == p ==> UnderLink(ms, q);
    }
  }

  /** Restoring an accepted archive whose links have canonical names never follows a link:
      the result is exactly the archive, or there is none. */
  lemma RestoreNeverWritesThroughLinks(ms: seq<Member>, host: Host)
    requires Inspected(ms) && CanonicalLinks(ms)
    ensures !WritesThrough(ms, host) && !Leaves(ms, host)
    ensures Restore(ms, host).Done? <==> Restorable(ms)
    ensures Restore(ms, host).Done? ==> Exactly(ms, Restore(ms, host).tree)
  {
    hide Extract, Inspected, CanonicalLinks, Nested, Restorable, Exactly, Lay, InPlace, Before, PAYLOAD, HasRoom, GoesAway;
    hide WritesThrough, Leaves;
    InspectedValid(ms);
    forall i: nat, j: nat ensures !Nested(ms, i, j) {
      CanonicalLinksAreApart(ms, i, j);
    }
    UnnestedIsDirect(ms, host);
    ThroughOrAwayIff(ms, host);
    RestoredExactlyIff(ms, host);
  }

  // ----- whatever it goes through, it replaces nothing -----

  lemma {:induction false} WalkLands(t: Tree, at: Path, parts: Path, left: nat)
    requires Rooted(t) && at in t && t[at] == Dir && Walk(t, at, parts, left).At?
    ensures var w := Walk(t, at, parts, left); w.place in t && t[w.place] == Dir && w.left <= left
    decreases left, |parts|
  {
    hide Parts;
    if parts != [] {
      if parts[0] == ".." {
        AncestorsAreDirs(t, at, |at| - 1);
        WalkLands(t, at[..|at| - 1], parts[1..], left);
      } else {
        var q := at + [parts[0]];
        if t[q].Link? {
          WalkLands(t, at, Parts(t[q].target) + parts[1..], left - 1);
        } else {
          WalkLands(t, q, parts[1..], left);
        }
      }
    }
  }

  /** A tree with the same entries, and with directories or nothing beside them. */
  ghost predicate Extends(t: Tree, u: Tree) {
    Rooted(u) && forall q :: q in t ==> q in u && u[q] == t[q]
  }

  lemma IntoExtends(t: Tree, at: Path, name: string, left: nat)
    requires Rooted(t) && at in t && t[at] == Dir && Into(t, at, name, left).Inside?
    ensures var e := Into(t, at, name, left); Extends(t, e.tree) && e.place in e.tree && e.tree[e.place] == Dir
  {
    hide Walk;
    var q := at + [name];
    assert q[..|q| - 1] == at;
    if q in t && t[q].Link? {
      WalkLands(t, at, [name], left);
    } else if q !in t {
      RootedAdd(t, q, Dir);
    }
  }

  lemma {:induction false} EnterExtends(t: Tree, p: Path)
    requires Rooted(t) && Enter(t, p).Inside?
    ensures var e := Enter(t, p); Extends(t, e.tree) && e.place in e.tree && e.tree[e.place] == Dir
    decreases |p|
  {
    hide Into, Rooted;
    if p == [] {
      RootIsDir(t);
    } else {
      EnterExtends(t, p[..|p| - 1]);
      var up := Enter(t, p[..|p| - 1]);
      IntoExtends(up.tree, up.place, p[|p| - 1], up.left);
    }
  }

  lemma RootIsDir(t: Tree)
    requires Rooted(t)
    ensures [] in t && t[[]] == Dir
  {
  }

  lemma LandExtends(t: Tree, m: Member)
    requires Rooted(t) && Land(t, m).Here?
    ensures Extends(t, Land(t, m).tree)
  {
    hide Parts, Enter, Rooted;
    var p := Parts(m.name);
    if m.kind.IsLink? {
      EnterExtends(t, p[..|p| - 1]);
      var e := Enter(t, p[..|p| - 1]);
      var q := e.place + [p[|p| - 1]];
      assert q[..|q| - 1] == e.place;
      RootedAdd(e.tree, q, Link(m.link));
    }
  }

  lemma {:induction false} LinkPhaseExtends(t: Tree, ms: seq<Member>, host: Host)
    requires Rooted(t) && LinkPhase(t, ms, host).Done?
    ensures Extends(t, LinkPhase(t, ms, host).tree)
  {
    hide Land, Rooted;
    if ms != [] {
      LinkPhaseExtends(t, ms[..|ms| - 1], host);
      var before := LinkPhase(t, ms[..|ms| - 1], host).tree;
      if Land(before, ms[|ms| - 1]).Here? {
        LandExtends(before, ms[|ms| - 1]);
      }
    }
  }

  /** Through links or not, and even if some entry leaves the destination, an extraction
      that ends well has every file and directory at its own path, and replaces nothing:
      every link is made at a free name in a directory. */
  lemma FilesAreAlwaysExact(ms: seq<Member>, host: Host)
    requires Extract(ms, host).Done?
    ensures Rooted(Extract(ms, host).tree) && AllIn(ms, Extract(ms, host).tree, Plain)
  {
    hide Parts, PlainPhase, LinkPhase, Inspected, NodeOf, Below, Plain;
    var t := PlainPhase(STAGED, ms).value;
    StagedPlain(ms);
    PlainPhaseShape(Staged(ms));
    LinkPhaseExtends(t, ms, host);
    StagedParts(ms);
    forall i | 0 <= i < |ms| && Plain(ms[i])
      ensures Parts(ms[i].name) in Extract(ms, host).tree && Extract(ms, host).tree[Parts(ms[i].name)] == NodeOf(ms[i])
    {
      assert Staged(ms)[i + 1] == ms[i];
    }
  }
}
