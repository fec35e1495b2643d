/** Checking a backup archive and restoring it. */
module StateBackup {
  import opened ArchivePaths
  import opened Wrappers

  const MANIFEST := "echo-backup-manifest.json"
  const MAX_MEMBERS: nat := 1_000_000
  const MAX_BYTES: int := 107_374_182_400

  datatype Kind = IsFile | IsDir | IsLink | Other

  /** An archive entry; `manifest` is what its content is as a backup manifest. */
  datatype Member = Member(name: string, kind: Kind, bytes: int, link: string, data: int, manifest: Manifest)

  datatype Manifest = Unreadable | Incompatible | Compatible

  /** `_validate_member`. */
  predicate ValidMember(m: Member) {
    && m.name != "" && !Absolute(m.name) && '\\' !in m.name && ".." !in Parts(m.name)
    && !m.kind.Other?
    && (m.kind.IsLink? ==> PortableMember(m))
  }

  /** A link named "." has no parent to leave, so only its target is counted. */
  predicate PortableMember(m: Member) {
    Portable(if Parts(m.name) == [] then ["."] else Parts(m.name), m.link)
  }

  function Size(ms: seq<Member>): int {
    if ms == [] then 0 else Size(ms[..|ms| - 1]) + if ms[|ms| - 1].bytes < 0 then 0 else ms[|ms| - 1].bytes
  }

  predicate LinkNamed(ms: seq<Member>, name: string) {
    exists i :: 0 <= i < |ms| && ms[i].name == name && ms[i].kind.IsLink?
  }

  predicate Named(ms: seq<Member>, name: string) {
    exists i :: 0 <= i < |ms| && ms[i].name == name
  }

  /** One of the parents of the name, as text, is the name of a link. */
  predicate UnderLink(ms: seq<Member>, p: Path) {
    exists k :: 0 < k < |p| && LinkNamed(ms, Joined(p[..k]))
  }

  /** `_inspect_archive` accepts the archive. */
  predicate Inspected(ms: seq<Member>) {
    && |ms| <= MAX_MEMBERS && Size(ms) <= MAX_BYTES
    && (forall i :: 0 <= i < |ms| ==> ValidMember(ms[i]))
    && (forall i, j :: 0 <= i < j < |ms| ==> ms[i].name != ms[j].name)
    && (exists i :: 0 <= i < |ms| && ms[i].name == MANIFEST && ms[i].manifest.Compatible?)
    && forall i :: 0 <= i < |ms| ==> !UnderLink(ms, Parts(ms[i].name))
  }

  // ----- the file tree -----

  datatype Node = Dir | File(data: int) | Link(target: string)

  type Tree = map<Path, Node>

  const FRESH: Tree := map[[] := Dir]

  /** Make a directory and its parents; fails on a parent that is not a directory. */
  function Mkdirs(t: Tree, p: Path): Option<Tree>
    decreases |p|
  {
    if p == [] then Some(t)
    else
      var up := Mkdirs(t, p[..|p| - 1]);
      if up.None? then None
      else if p !in up.value then Some(up.value[p := Dir])
      else if up.value[p] == Dir then up else None
  }

  function Place(t: Tree, p: Path, n: Node): Option<Tree> {
    if p == [] then None
    else
      var up := Mkdirs(t, p[..|p| - 1]);
      if up.None? || p in up.value then None else Some(up.value[p := n])
  }

  function PlacePlain(t: Tree, m: Member): Option<Tree> {
    var p := Parts(m.name);
    if m.name == MANIFEST || m.kind.IsLink? then Some(t)
    else if m.kind.IsDir? then Mkdirs(t, p)
    else Place(t, p, File(m.data))
  }

  /** First every file and directory. */
  function PlainPhase(t: Tree, ms: seq<Member>): Option<Tree> {
    if ms == [] then Some(t)
    else
      var before := PlainPhase(t, ms[..|ms| - 1]);
      if before.None? then None else PlacePlain(before.value, ms[|ms| - 1])
  }

  // ----- paths with links in them -----

  /** Links that Linux follows on one path. */
  const MAX_LINKS: nat := 40

  /** Where a path leads: to a directory, with so many links still to follow, to nothing
      that is a directory, or out of the destination. */
  datatype Where = At(place: Path, left: nat) | Nowhere | Beyond

  /** Following a path from the directory `at` on. */
  function Walk(t: Tree, at: Path, parts: Path, left: nat): Where
    decreases left, |parts|
  {
    if parts == [] then At(at, left)
    else if parts[0] == ".." then
      if at == [] then Beyond else Walk(t, at[..|at| - 1], parts[1..], left)
    else
      var q := at + [parts[0]];
      if q !in t then Nowhere
      else match t[q]
        case Dir => Walk(t, q, parts[1..], left)
        case File(_) => Nowhere
        case Link(target) =>
          if left == 0 then Nowhere
          else if Absolute(target) then Beyond
          else Walk(t, at, Parts(target) + parts[1..], left - 1)
  }

  datatype Entered = Inside(tree: Tree, place: Path, left: nat) | Refused | Escaped

  /** One step of `mkdir` with parents: a missing directory is made, a link is followed
      and has to lead to a directory. */
  function Into(t: Tree, at: Path, name: string, left: nat): Entered {
    var q := at + [name];
    if q !in t then Inside(t[q := Dir], q, left)
    else match t[q]
      case Dir => Inside(t, q, left)
      case File(_) => Refused
      case Link(_) =>
        match Walk(t, at, [name], left)
        case At(place, rest) => Inside(t, place, rest)
        case Nowhere => Refused
        case Beyond => Escaped
  }

  /** `mkdir` with parents, from the destination on. */
  function Enter(t: Tree, p: Path): Entered {
    if p == [] then Inside(t, [], MAX_LINKS)
    else
      var up := Enter(t, p[..|p| - 1]);
      if up.Inside? then Into(up.tree, up.place, p[|p| - 1], up.left) else up
  }

  // ----- restoring -----

  /** Where a link entry comes to lie: in a directory of the destination, nowhere, or in a
      directory outside the destination. */
  datatype Landing = Here(tree: Tree) | Unplaced | Away

  /** A link belongs into whatever directory its parents lead to. */
  function Land(t: Tree, m: Member): Landing {
    var p := Parts(m.name);
    if !m.kind.IsLink? then Here(t)
    else if p == [] then Unplaced
    else match Enter(t, p[..|p| - 1])
      case Refused => Unplaced
      case Escaped => Away
      case Inside(u, at, _) =>
        var q := at + [p[|p| - 1]];
        if q in u || m.link == "" then Unplaced else Here(u[q := Link(m.link)])
  }

  /** What the host answers outside the destination: whether it lets the link of an entry
      be made there, and whether, after an entry has gone there, the finished directory can
      still be renamed. */
  datatype Host = Host(makes: Member -> bool, renames: bool)

  datatype Restored = Done(tree: Tree) | Failed

  function PlaceLink(t: Tree, m: Member, host: Host): Restored {
    match Land(t, m)
    case Here(u) => Done(u)
    case Unplaced => Failed
    case Away => if m.link != "" && host.makes(m) then Done(t) else Failed
  }

  /** After every file and directory, every link. */
  function LinkPhase(t: Tree, ms: seq<Member>, host: Host): Restored {
    if ms == [] then Done(t)
    else
      var before := LinkPhase(t, ms[..|ms| - 1], host);
      if before.Done? then PlaceLink(before.tree, ms[|ms| - 1], host) else before
  }

  /** The decrypted archive, which lies in the destination while it is unpacked there. */
  const PAYLOAD := ".echo-restore-payload.tar.gz"
  const STAGED: Tree := map[[] := Dir, [PAYLOAD] := File(0)]

  predicate AllValid(ms: seq<Member>) {
    forall i :: 0 <= i < |ms| ==> ValidMember(ms[i])
  }

  /** `_extract_archive`, up to permissions. */
  function Extract(ms: seq<Member>, host: Host): Restored {
    var plain := PlainPhase(STAGED, ms);
    if !AllValid(ms) || plain.None? then Failed else LinkPhase(plain.value, ms, host)
  }

  /** The `j`-th entry belongs into a directory outside the destination. */
  predicate AwayAt(t: Tree, ms: seq<Member>, j: nat, host: Host) {
    && j < |ms|
    && var before := LinkPhase(t, ms[..j], host);
    before.Done? && Land(before.tree, ms[j]).Away?
  }

  /** The extraction leaves the destination. */
  predicate Leaves(ms: seq<Member>, host: Host) {
    && AllValid(ms) && PlainPhase(STAGED, ms).Some?
    && exists j :: 0 <= j < |ms| && AwayAt(PlainPhase(STAGED, ms).value, ms, j, host)
  }

  /** `restore_backup`: check, unpack, remove the decrypted archive and rename. */
  function Restore(ms: seq<Member>, host: Host): Restored {
    if !Inspected(ms) then Failed
    else
      var r := Extract(ms, host);
      if r.Failed? || (Leaves(ms, host) && !host.renames) then Failed else Done(r.tree - {[PAYLOAD]})
  }
}
