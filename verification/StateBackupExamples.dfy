/** Accepted archives that are not restored as their names say. */
module StateBackupExamples {
  import opened ArchivePaths
  import opened StateBackup
  import opened StateBackupLayout
  import opened StateBackupLinks
  import opened StateBackupRestore
  import opened Wrappers

  // ----- a name that is not canonical -----

  lemma DotDropped(s: string)
    ensures Parts("./" + s) == Parts(s)
  {
    HeadOf(".", "/" + s);
    assert "." + ("/" + s) == "./" + s;
    assert Rest("./" + s) == s;
  }

  lemma DotSlashName()
    ensures Parts("./a") == ["a"] && Parts("a/c") == ["a", "c"] && !Canonical("./a")
  {
    hide Parts, Head, Rest;
    DotDropped("a");
    assert "./" + "a" == "./a";
    OnePart("a");
    PartsJoined(["a", "c"]);
    assert Joined(["a", "c"]) == "a" + "/" + Joined(["c"]) && Joined(["a"]) == "a";
    assert Joined(["c"]) == "c" && "a" + "/" + "c" == "a/c";
  }

  const MANIFEST_FILE := Member(MANIFEST, IsFile, 1, "", 0, Compatible)
  const FOLDER := Member("b", IsDir, 0, "", 0, Unreadable)
  const DOTTED := Member("./a", IsLink, 0, "b", 0, Unreadable)
  const INNER := Member("a/c", IsLink, 0, "x", 0, Unreadable)

  function DotSlashArchive(): seq<Member> {
    [MANIFEST_FILE, FOLDER, DOTTED, INNER]
  }

  lemma PortableWithin()
    ensures Portable(["a"], "b") && Portable(["a", "c"], "x")
  {
    OnePart("b");
    OnePart("x");
    hide Parts;
    assert ["a"][..0] + Parts("b") == ["b"];
    assert Normalized([], ["b"]) == Normalized(["b"], []);
    assert ["a", "c"][..1] + Parts("x") == ["a", "x"];
    assert ["a", "x"][1..] == ["x"] && [] + ["a"] == ["a"] && ["a"] + ["x"] == ["a", "x"];
    assert Normalized(["a"], ["x"]) == Normalized(["a", "x"], []);
  }

  lemma OnePartMember(m: Member)
    requires '/' !in m.name && '\\' !in m.name && m.name !in {"", ".", ".."} && (m.kind.IsFile? || m.kind.IsDir?)
    ensures ValidMember(m) && Parts(m.name) == [m.name]
  {
    OnePart(m.name);
    hide Parts;
  }

  lemma LinkMember(m: Member, p: Path)
    requires m.kind.IsLink? && Parts(m.name) == p && p != [] && ".." !in p && Portable(p, m.link)
    requires m.name != "" && !Absolute(m.name) && '\\' !in m.name
    ensures ValidMember(m)
  {
    hide Parts, Portable;
  }

  lemma ManifestName()
    ensures '/' !in MANIFEST && |MANIFEST| > 10
  {
  }

  lemma ManifestMember()
    ensures ValidMember(MANIFEST_FILE)
  {
    hide Parts, Portable, ValidMember;
    ManifestName();
    assert '\\' !in MANIFEST;
    OnePartMember(MANIFEST_FILE);
  }

  lemma FolderMember()
    ensures ValidMember(FOLDER)
  {
    hide Parts, Portable, ValidMember;
    OnePartMember(FOLDER);
  }

  lemma LinkMembers()
    ensures ValidMember(DOTTED) && ValidMember(INNER)
  {
    hide Parts, Portable, ValidMember;
    DotSlashName();
    PortableWithin();
    LinkMember(DOTTED, ["a"]);
    LinkMember(INNER, ["a", "c"]);
  }

  lemma {:induction false} SmallSize(ms: seq<Member>)
    requires forall m :: m in ms ==> m.bytes <= 1
    ensures Size(ms) <= |ms|
  {
    if ms != [] {
      SmallSize(ms[..|ms| - 1]);
    }
  }

  lemma ShallowIsNotUnderLink(ms: seq<Member>, p: Path)
    requires |p| <= 1
    ensures !UnderLink(ms, p)
  {
  }

  lemma DotSlashUnseen()
    ensures !UnderLink(DotSlashArchive(), Parts(INNER.name))
  {
    DotSlashName();
    hide Parts;
    assert !LinkNamed(DotSlashArchive(), "a");
    assert ["a", "c"][..1] == ["a"] && Joined(["a"]) == "a";
  }

  /** A small archive that begins with its manifest. */
  lemma InspectedSmall(ms: seq<Member>)
    requires 1 <= |ms| <= 10 && AllValid(ms) && ms[0].name == MANIFEST && ms[0].manifest.Compatible?
    requires forall m :: m in ms ==> m.bytes <= 1
    requires forall i, j :: 0 <= i < j < |ms| ==> ms[i].name != ms[j].name
    requires forall i :: 0 <= i < |ms| ==> !UnderLink(ms, Parts(ms[i].name))
    ensures Inspected(ms)
  {
    hide ValidMember, Size, UnderLink, Parts;
    SmallSize(ms);
  }

  lemma ManifestShallow(ms: seq<Member>)
    ensures !UnderLink(ms, Parts(MANIFEST))
  {
    hide Parts, MANIFEST;
    ManifestName();
    OnePart(MANIFEST);
    ShallowIsNotUnderLink(ms, Parts(MANIFEST));
  }

  lemma DotSlashShallow(ms: seq<Member>)
    ensures !UnderLink(ms, Parts(FOLDER.name)) && !UnderLink(ms, Parts(DOTTED.name))
  {
    DotSlashName();
    OnePart("b");
    hide Parts;
    ShallowIsNotUnderLink(ms, Parts(FOLDER.name));
    ShallowIsNotUnderLink(ms, Parts(DOTTED.name));
  }

  lemma DotSlashInspected()
    ensures Inspected(DotSlashArchive())
  {
    hide Parts, ValidMember, UnderLink, Inspected, MANIFEST;
    ManifestMember();
    FolderMember();
    LinkMembers();
    DotSlashUnseen();
    ManifestName();
    ManifestShallow(DotSlashArchive());
    DotSlashShallow(DotSlashArchive());
    InspectedSmall(DotSlashArchive());
  }

  // ----- where it goes -----

  const SHARED: Tree := STAGED[["b"] := Dir]
  const LINKED: Tree := SHARED[["a"] := Link("b")]
  const WRITTEN: Tree := LINKED[["b", "c"] := Link("x")]

  lemma PayloadIsApart()
    ensures PAYLOAD !in {"a", "b", "c", "d", "l", "x"}
  {
  }

  lemma DotSlashPlain()
    ensures PlainPhase(STAGED, DotSlashArchive()) == Some(SHARED)
  {
    OnePart("b");
    PayloadIsApart();
    hide Parts, PAYLOAD, MANIFEST;
    var ms := DotSlashArchive();
    ManifestName();
    assert ms[..1][..0] == [] && ms[..2][..1] == ms[..1] && ms[..3][..2] == ms[..2] && ms[..4] == ms;
    assert PlainPhase(STAGED, ms[..1]) == Some(STAGED);
    assert Mkdirs(STAGED, ["b"]) == Some(SHARED) by {
      assert ["b"][..0] == [];
    }
    assert PlainPhase(STAGED, ms[..2]) == PlacePlain(STAGED, ms[1]);
    assert PlainPhase(STAGED, ms[..3]) == PlacePlain(SHARED, ms[2]);
  }

  /** The first link leads to the folder. */
  lemma LinkLeadsToFolder(t: Tree)
    requires t == LINKED
    ensures Enter(t, ["a"]) == Inside(t, ["b"], MAX_LINKS - 1)
  {
    OnePart("b");
    PayloadIsApart();
    hide Parts, PAYLOAD;
    assert ["a"][..0] == [] && [] + ["a"] == ["a"] && [] + ["b"] == ["b"] && ["b"] + ["a"][1..] == ["b"] && ["b"][1..] == [];
    assert Walk(t, [], ["b"], MAX_LINKS - 1) == Walk(t, ["b"], [], MAX_LINKS - 1);
    assert Walk(t, [], ["a"], MAX_LINKS) == Walk(t, [], ["b"], MAX_LINKS - 1);
  }

  lemma DotSlashLinks(host: Host)
    ensures LinkPhase(SHARED, DotSlashArchive(), host) == Done(WRITTEN)
    ensures forall j :: 0 <= j < 4 ==> !AwayAt(SHARED, DotSlashArchive(), j, host)
  {
    DotSlashName();
    PayloadIsApart();
    hide Parts, PAYLOAD;
    var ms := DotSlashArchive();
    assert ms[..1][..0] == [] && ms[..2][..1] == ms[..1] && ms[..3][..2] == ms[..2] && ms[..4] == ms && ms[..4][..3] == ms[..3];
    assert LinkPhase(SHARED, ms[..1], host) == Done(SHARED);
    assert LinkPhase(SHARED, ms[..2], host) == Done(SHARED);
    assert Land(SHARED, DOTTED) == Here(LINKED) by {
      assert ["a"][..0] == [] && [] + ["a"] == ["a"];
    }
    assert LinkPhase(SHARED, ms[..3], host) == Done(LINKED);
    LinkLeadsToFolder(LINKED);
    assert ["a", "c"][..1] == ["a"] && ["b"] + ["c"] == ["b", "c"];
  }

  /** The spelling "./a" slips past the comparison of names: the archive is accepted, and
      its last link, "a/c", is made through the first one, at "b/c". */
  lemma DotSlashWritesThroughLink(host: Host)
    ensures var ms := DotSlashArchive();
            && Inspected(ms) && WritesThrough(ms, host) && !Leaves(ms, host)
            && Restore(ms, host) == Done(WRITTEN - {[PAYLOAD]}) && ["a", "c"] !in WRITTEN && WRITTEN[["b", "c"]] == Link(INNER.link)
  {
    hide Inspected, LinkPhase, PlainPhase, PAYLOAD, Exactly, WritesThrough, AllValid, WRITTEN, AwayAt;
    DotSlashInspected();
    DotSlashPlain();
    DotSlashLinks(host);
    InspectedValid(DotSlashArchive());
    WrittenShape();
    ExactOrThrough(DotSlashArchive(), host);
    DotSlashInexact(WRITTEN - {[PAYLOAD]});
  }

  lemma WrittenShape()
    ensures ["a", "c"] !in WRITTEN && ["b", "c"] in WRITTEN && WRITTEN[["b", "c"]] == Link(INNER.link)
  {
    PayloadIsApart();
  }

  lemma DotSlashInexact(t: Tree)
    requires ["a", "c"] !in t
    ensures !Exactly(DotSlashArchive(), t)
  {
    DotSlashName();
    hide Parts, Below, Rooted;
    var ms := DotSlashArchive();
    assert ms[3] == INNER && IsLinkMember(ms[3]);
  }

  // ----- a first link that leads nowhere -----

  /** The same archive without the folder. */
  function DanglingArchive(): seq<Member> {
    [MANIFEST_FILE, DOTTED, INNER]
  }

  lemma DanglingUnseen()
    ensures !UnderLink(DanglingArchive(), Parts(INNER.name))
  {
    DotSlashName();
    hide Parts;
    assert !LinkNamed(DanglingArchive(), "a");
    assert ["a", "c"][..1] == ["a"] && Joined(["a"]) == "a";
  }

  lemma DanglingInspected()
    ensures Inspected(DanglingArchive())
  {
    hide Parts, ValidMember, UnderLink, Inspected, MANIFEST;
    ManifestMember();
    LinkMembers();
    DanglingUnseen();
    ManifestName();
    ManifestShallow(DanglingArchive());
    DotSlashShallow(DanglingArchive());
    InspectedSmall(DanglingArchive());
  }

  lemma DanglingLinks(host: Host)
    ensures LinkPhase(STAGED, DanglingArchive(), host) == Failed
  {
    DotSlashName();
    PayloadIsApart();
    hide Parts, PAYLOAD, Enter;
    var ms := DanglingArchive();
    var t := STAGED[["a"] := Link("b")];
    assert ms[..1][..0] == [] && ms[..2][..1] == ms[..1] && ms[..3][..2] == ms[..2] && ms[..3] == ms;
    assert LinkPhase(STAGED, ms[..1], host) == Done(STAGED);
    assert Land(STAGED, DOTTED) == Here(t) by {
      assert ["a"][..0] == [] && [] + ["a"] == ["a"];
      RootEntered(STAGED);
    }
    assert LinkPhase(STAGED, ms[..2], host) == PlaceLink(STAGED, DOTTED, host);
    LinkLeadsNowhere(t);
    assert ["a", "c"][..1] == ["a"];
  }

  lemma RootEntered(t: Tree)
    ensures Enter(t, []) == Inside(t, [], MAX_LINKS)
  {
  }

  lemma LinkLeadsNowhere(t: Tree)
    requires "b" != PAYLOAD && "a" != PAYLOAD && t == STAGED[["a"] := Link("b")]
    ensures Enter(t, ["a"]) == Refused
  {
    OnePart("b");
    hide Parts, PAYLOAD;
    assert ["a"][..0] == [] && [] + ["a"] == ["a"] && [] + ["b"] == ["b"] && ["b"] + ["a"][1..] == ["b"];
    assert Walk(t, [], ["b"], MAX_LINKS - 1) == Nowhere;
    assert Walk(t, [], ["a"], MAX_LINKS) == Walk(t, [], ["b"], MAX_LINKS - 1);
  }

  /** It is accepted as well, and refused when it is unpacked: nothing is written. */
  lemma DanglingIsRefused(host: Host)
    ensures Inspected(DanglingArchive()) && Nested(DanglingArchive(), 1, 2) && Restore(DanglingArchive(), host) == Failed
  {
    DotSlashName();
    hide Parts, Inspected, LinkPhase, PlainPhase;
    DanglingInspected();
    DanglingLinks(host);
    assert ["a"] < ["a", "c"];
    DanglingPlain();
  }

  lemma DanglingPlain()
    ensures PlainPhase(STAGED, DanglingArchive()) == Some(STAGED)
  {
    hide Parts, PAYLOAD, MANIFEST;
    var ms := DanglingArchive();
    assert ms[..1][..0] == [] && ms[..2][..1] == ms[..1] && ms[..3][..2] == ms[..2] && ms[..3] == ms;
    assert PlainPhase(STAGED, ms[..1]) == Some(STAGED);
    assert PlainPhase(STAGED, ms[..2]) == Some(STAGED);
  }

  // ----- the place of the decrypted archive -----

  function PayloadArchive(): seq<Member> {
    [MANIFEST_FILE, PAYLOAD_FILE]
  }

  lemma PayloadValid()
    ensures ValidMember(PAYLOAD_FILE)
  {
    hide Parts, Portable, ValidMember, PAYLOAD;
    PayloadText();
    OnePartMember(PAYLOAD_FILE);
  }

  lemma PayloadText()
    ensures '/' !in PAYLOAD && '\\' !in PAYLOAD && PAYLOAD !in {"", ".", ".."}
  {
  }

  /** An accepted archive with a file of that name cannot be restored. */
  lemma PayloadNameIsRefused(host: Host)
    ensures Inspected(PayloadArchive()) && Restore(PayloadArchive(), host) == Failed
  {
    hide Parts, ValidMember, UnderLink, Inspected, MANIFEST, PAYLOAD, Extract, Exactly;
    var ms := PayloadArchive();
    ManifestMember();
    PayloadValid();
    PayloadPath();
    ManifestName();
    ManifestShallow(ms);
    ShallowIsNotUnderLink(ms, Parts(PAYLOAD));
    InspectedSmall(ms);
    assert Made(ms[1]) && !Restorable(ms);
    InspectedValid(ms);
    UnnestedIsDirect(ms, host);
  }

  // ----- a link that leads outside -----

  const DEEP := Member("d", IsDir, 0, "", 0, Unreadable)
  const BACK := Member("d/a", IsLink, 0, "..", 0, Unreadable)
  const OUT := Member("l", IsLink, 0, "d/a/..", 0, Unreadable)

  function ClimbingArchive(): seq<Member> {
    [MANIFEST_FILE, DEEP, BACK, OUT]
  }

  lemma ClimbingNames()
    ensures Parts("d") == ["d"] && Parts("d/a") == ["d", "a"] && Parts("l") == ["l"]
    ensures Joined(["d"]) == "d" && Joined(["d", "a"]) == "d/a" && Joined(["l"]) == "l"
    ensures Parts("..") == [".."] && Parts("d/a/..") == ["d", "a", ".."]
  {
    OnePart("d");
    OnePart("l");
    OnePart("..");
    hide Parts;
    assert ["d", "a"][1..] == ["a"] && ["d", "a", ".."][1..] == ["a", ".."] && ["a", ".."][1..] == [".."];
    assert Joined(["a"]) == "a" && Joined([".."]) == "..";
    assert Joined(["d", "a"]) == "d" + "/" + "a" == "d/a";
    assert Joined(["a", ".."]) == "a" + "/" + ".." == "a/..";
    assert Joined(["d", "a", ".."]) == "d" + "/" + "a/.." == "d/a/..";
    PartsJoined(["d", "a"]);
    PartsJoined(["d", "a", ".."]);
  }

  lemma ClimbCounted()
    ensures Normalized([], ["d", "a", ".."]).Some?
  {
    assert ["d", "a", ".."][1..] == ["a", ".."] && ["a", ".."][1..] == [".."] && [".."][1..] == [];
    assert [] + ["d"] == ["d"] && ["d"] + ["a"] == ["d", "a"];
  }

  lemma ClimbingValid()
    ensures ValidMember(DEEP) && ValidMember(BACK) && ValidMember(OUT)
  {
    ClimbingNames();
    hide Parts, ValidMember;
    OnePartMember(DEEP);
    assert ["d", "a"][..1] == ["d"] && ["l"][..0] == [];
    assert Normalized(["d"], [".."]) == Some([]) by {
      assert [".."][1..] == [] && ["d"][..0] == [];
    }
    PortableFrom(["d", "a"], "..");
    LinkMember(BACK, ["d", "a"]);
    ClimbCounted();
    PortableFrom(["l"], "d/a/..");
    LinkMember(OUT, ["l"]);
  }

  lemma ClimbingUnseen(ms: seq<Member>)
    requires ms == ClimbingArchive()
    ensures !UnderLink(ms, Parts(DEEP.name)) && !UnderLink(ms, Parts(BACK.name)) && !UnderLink(ms, Parts(OUT.name))
  {
    ClimbingNames();
    hide Parts, Joined;
    ShallowIsNotUnderLink(ms, ["d"]);
    ShallowIsNotUnderLink(ms, ["l"]);
    assert !LinkNamed(ms, "d");
    assert ["d", "a"][..1] == ["d"];
  }

  lemma ClimbingInspected()
    ensures Inspected(ClimbingArchive()) && CanonicalLinks(ClimbingArchive())
  {
    ClimbingNames();
    hide Parts, ValidMember, UnderLink, Inspected, MANIFEST, Joined;
    ManifestMember();
    ClimbingValid();
    ClimbingUnseen(ClimbingArchive());
    ManifestName();
    ManifestShallow(ClimbingArchive());
    InspectedSmall(ClimbingArchive());
  }

  lemma ClimbingRestorable()
    ensures Restorable(ClimbingArchive())
  {
    ClimbingNames();
    hide Parts, PAYLOAD, MANIFEST;
    ClimbingPayload();
    assert !(["d", "a"] <= ["d"]) && !(["d", "a"] <= ["l"]) && !(["l"] <= ["d"]) && !(["l"] <= ["d", "a"]);
  }

  lemma ClimbingPayload()
    ensures !([PAYLOAD] <= ["d"]) && !([PAYLOAD] <= ["d", "a"]) && !([PAYLOAD] <= ["l"])
  {
    PayloadIsApart();
    hide PAYLOAD;
    FirstPart(PAYLOAD, ["d"]);
    FirstPart(PAYLOAD, ["d", "a"]);
    FirstPart(PAYLOAD, ["l"]);
  }

  lemma FirstPart(s: string, p: Path)
    requires p != []
    ensures [s] <= p ==> p[0] == s
  {
  }

  /** Canonical names and a passed depth count do not keep a link inside: the count takes
      "d/a/.." for "d", but "d/a" leads to the top. */
  lemma ClimbingLeadsOutside(host: Host)
    ensures var ms := ClimbingArchive();
            && Inspected(ms) && CanonicalLinks(ms) && Restore(ms, host).Done? && Exactly(ms, Restore(ms, host).tree)
            && ["l"] in Restore(ms, host).tree && Restore(ms, host).tree[["l"]] == Link(OUT.link)
            && LeadsOutside(Restore(ms, host).tree, ["l"])
  {
    hide Parts, Inspected, Restorable, Restore, Below, CanonicalLinks, Rooted, LeadsOutside, MANIFEST;
    ClimbingInspected();
    ClimbingRestorable();
    RestoredExactlyIff(ClimbingArchive(), host);
    ClimbingNames();
    var ms, t := ClimbingArchive(), Restore(ClimbingArchive(), host).tree;
    ManifestName();
    assert Plain(ms[1]) && IsLinkMember(ms[2]) && IsLinkMember(ms[3]);
    ClimbingWalk(t);
  }

  lemma ClimbingWalk(t: Tree)
    requires ["d"] in t && ["d", "a"] in t && ["l"] in t
    requires t[["d"]] == Dir && t[["d", "a"]] == Link(BACK.link) && t[["l"]] == Link(OUT.link)
    ensures LeadsOutside(t, ["l"])
  {
    ClimbingNames();
    hide Parts;
    assert ["l"][..0] == [] && [] + ["d"] == ["d"] && ["d"] + ["a"] == ["d", "a"] && ["d"][..0] == [];
    assert ["d", "a", ".."][1..] == ["a", ".."] && ["a", ".."][1..] == [".."];
    assert [".."] + [".."] == ["..", ".."] && ["..", ".."][1..] == [".."];
    assert Walk(t, ["d"], ["..", ".."], MAX_LINKS - 1) == Walk(t, [], [".."], MAX_LINKS - 1) == Beyond;
    assert Walk(t, ["d"], ["a", ".."], MAX_LINKS) == Walk(t, ["d"], ["..", ".."], MAX_LINKS - 1);
    assert Walk(t, [], ["d", "a", ".."], MAX_LINKS) == Walk(t, ["d"], ["a", ".."], MAX_LINKS);
  }

  // ----- an entry that leaves the destination -----

  const DOTTED_OUT := Member("./l", IsLink, 0, "d/a/..", 0, Unreadable)
  const BEYOND := Member("l/c", IsLink, 0, "x", 0, Unreadable)

  /** The same link under a name that is not canonical, and an entry below it. */
  function LeavingArchive(): seq<Member> {
    [MANIFEST_FILE, DEEP, BACK, DOTTED_OUT, BEYOND]
  }

  lemma LeavingNames()
    ensures Parts("./l") == ["l"] && Parts("l/c") == ["l", "c"] && Joined(["l"]) == "l"
  {
    hide Parts;
    DotDropped("l");
    assert "./" + "l" == "./l";
    OnePart("l");
    assert ["l", "c"][1..] == ["c"] && Joined(["c"]) == "c";
    assert Joined(["l", "c"]) == "l" + "/" + "c" == "l/c";
    PartsJoined(["l", "c"]);
  }

  lemma LeavingValid()
    ensures ValidMember(DOTTED_OUT) && ValidMember(BEYOND)
  {
    hide Parts, ValidMember;
    DottedOutValid();
    BeyondValid();
  }

  lemma DottedOutValid()
    ensures ValidMember(DOTTED_OUT)
  {
    ClimbingNames();
    LeavingNames();
    hide Parts, ValidMember, Normalized, Portable;
    assert ["l"][..0] == [];
    ClimbCounted();
    PortableFrom(["l"], "d/a/..");
    LinkMember(DOTTED_OUT, ["l"]);
  }

  lemma BeyondValid()
    ensures ValidMember(BEYOND)
  {
    LeavingNames();
    OnePart("x");
    hide Parts, ValidMember, Normalized, Portable;
    assert ["l", "c"][..1] == ["l"];
    NormalizedNames(["l"], ["x"]);
    PortableFrom(["l", "c"], "x");
    LinkMember(BEYOND, ["l", "c"]);
  }

  lemma LeavingUnseen(ms: seq<Member>)
    requires ms == LeavingArchive()
    ensures !UnderLink(ms, Parts(DEEP.name)) && !UnderLink(ms, Parts(BACK.name))
    ensures !UnderLink(ms, Parts(DOTTED_OUT.name)) && !UnderLink(ms, Parts(BEYOND.name))
  {
    ClimbingNames();
    LeavingNames();
    hide Parts, Joined;
    ShallowIsNotUnderLink(ms, ["d"]);
    ShallowIsNotUnderLink(ms, ["l"]);
    assert !LinkNamed(ms, "d") && !LinkNamed(ms, "l");
    assert ["d", "a"][..1] == ["d"] && ["l", "c"][..1] == ["l"];
  }

  lemma LeavingInspected()
    ensures Inspected(LeavingArchive())
  {
    hide Parts, ValidMember, UnderLink, Inspected, MANIFEST, Joined;
    ManifestMember();
    ClimbingValid();
    LeavingValid();
    LeavingUnseen(LeavingArchive());
    ManifestName();
    ManifestShallow(LeavingArchive());
    InspectedSmall(LeavingArchive());
  }

  lemma LeavingFront()
    ensures InPlace(LeavingArchive(), 4) == [MANIFEST_FILE, DEEP, BACK, DOTTED_OUT]
    ensures Restorable(InPlace(LeavingArchive(), 4))
  {
    hide Parts, PAYLOAD, MANIFEST, Restorable;
    var ms := LeavingArchive();
    assert ms[4..] == [BEYOND] && [BEYOND][..0] == [];
    assert InPlace(ms, 4) == [MANIFEST_FILE, DEEP, BACK, DOTTED_OUT];
    FrontRestorable();
  }

  lemma FrontRestorable()
    ensures Restorable([MANIFEST_FILE, DEEP, BACK, DOTTED_OUT])
  {
    ClimbingNames();
    LeavingNames();
    hide Parts, PAYLOAD, MANIFEST, Joined;
    ClimbingPayload();
    assert !(["d", "a"] <= ["d"]) && !(["d", "a"] <= ["l"]) && !(["l"] <= ["d"]) && !(["l"] <= ["d", "a"]);
  }

  lemma LeavingFolder(t: Tree)
    requires ["d"] in t && ["d", "a"] in t && ["l"] in t
    requires t[["d"]] == Dir && t[["d", "a"]] == Link(BACK.link) && t[["l"]] == Link(DOTTED_OUT.link)
    ensures GoesAway(t, BEYOND)
  {
    LeavingNames();
    ClimbingNames();
    hide Parts;
    assert ["l"][..0] == [] && [] + ["l"] == ["l"] && ["l", "c"][..1] == ["l"] && ["l"][1..] == [];
    assert ["d", "a", ".."] + [] == ["d", "a", ".."];
    UpAndOut(t);
    RootEntered(t);
    assert Enter(t, ["l"]) == Into(t, [], "l", MAX_LINKS);
    assert Walk(t, [], ["l"], MAX_LINKS) == Walk(t, [], ["d", "a", ".."], MAX_LINKS - 1);
  }

  lemma UpAndOut(t: Tree)
    requires ["d"] in t && ["d", "a"] in t && t[["d"]] == Dir && t[["d", "a"]] == Link(BACK.link)
    ensures Walk(t, [], ["d", "a", ".."], MAX_LINKS - 1) == Beyond
  {
    ClimbingNames();
    hide Parts;
    assert [] + ["d"] == ["d"] && ["d"] + ["a"] == ["d", "a"] && ["d"][..0] == [];
    assert ["d", "a", ".."][1..] == ["a", ".."] && ["a", ".."][1..] == [".."];
    assert [".."] + [".."] == ["..", ".."] && ["..", ".."][1..] == [".."];
    assert Walk(t, ["d"], ["..", ".."], MAX_LINKS - 2) == Walk(t, [], [".."], MAX_LINKS - 2) == Beyond;
    assert Walk(t, ["d"], ["a", ".."], MAX_LINKS - 1) == Walk(t, ["d"], ["..", ".."], MAX_LINKS - 2);
    assert Walk(t, [], ["d", "a", ".."], MAX_LINKS - 1) == Walk(t, ["d"], ["a", ".."], MAX_LINKS - 1);
  }

  lemma LeavingBefore()
    ensures var t := Before(LeavingArchive(), 4);
            && ["d"] in t && ["d", "a"] in t && ["l"] in t
            && t[["d"]] == Dir && t[["d", "a"]] == Link(BACK.link) && t[["l"]] == Link(DOTTED_OUT.link)
  {
    LeavingNames();
    ClimbingNames();
    hide Parts, Extract, Restorable, Lay, Rooted, Below, ValidMember, MANIFEST, InPlace, PAYLOAD;
    var ps := [MANIFEST_FILE, DEEP, BACK, DOTTED_OUT];
    LeavingFront();
    ManifestMember();
    ClimbingValid();
    LeavingValid();
    LaidExtracted(ps, NOBODY);
    ManifestName();
    var all := Staged(ps);
    assert all[2] == DEEP && all[3] == BACK && all[4] == DOTTED_OUT;
    assert Plain(all[2]) && IsLinkMember(all[3]) && IsLinkMember(all[4]);
  }

  /** That archive is accepted, and its last link belongs into a directory outside the
      destination.  If the host lets it be made there, the restore can end well, and then
      the entry is missing from the restored directory. */
  lemma LeavesTheDestination(host: Host)
    ensures var ms := LeavingArchive();
            && Inspected(ms) && Nested(ms, 3, 4) && Leaves(ms, host)
            && (host.makes(BEYOND) ==> WritesThrough(ms, host))
            && (Restore(ms, host).Done? <==> host.makes(BEYOND) && host.renames)
            && (Restore(ms, host).Done? ==> !Exactly(ms, Restore(ms, host).tree))
  {
    hide Parts, Inspected, Restorable, InPlace, Before, Leaves, HasRoom, Enter, Land, PlainPhase, Exactly, Extract;
    var ms := LeavingArchive();
    LeavingInspected();
    InspectedValid(ms);
    LeavingFront();
    LeavingBefore();
    LeavingFolder(Before(ms, 4));
    assert Nested(ms, 3, 4) by {
      LeavingNames();
      assert ["l"] < ["l", "c"];
    }
    NestedDecides(ms, 3, 4, host);
    LandsIsPlaced(Before(ms, 4), BEYOND, host);
    assert ms[5..] == [];
    if Restore(ms, host).Done? {
      NestedIsApart(ms, 3, 4, Restore(ms, host).tree);
    }
  }
}
