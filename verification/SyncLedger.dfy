/** The device sync ledger as a state machine: grants, asset rows, the append-only
    event log, and the file manager they drive. */
module SyncLedger {
  import opened Wrappers
  import opened ByteStrings
  import opened SyncPaths
  import opened Texts
  import opened FileStore

  datatype Scope = Photos | Files

  datatype Key = Key(device: string, scope: Scope, asset: string)

  datatype RowState = Uploading | Committed | Cancelled

  datatype Row = Row(
    source: Path, target: Path, sha: string, size: nat, state: RowState,
    session: Option<SessionId>, revision: nat, conflict: bool, previous: Option<Path>)

  /** One row of the events table; its cursor is its 1-based position. */
  datatype Event = Event(key: Key, target: Path, sha: string, size: nat, conflict: bool)

  datatype Ledger = Ledger(
    grants: set<(string, Scope)>, rows: map<Key, Row>, events: seq<Event>, fs: FileState)

  /** What is fixed for one appliance: the digest function and the folder chosen for
      each device. */
  datatype Site = Site(hash: Hash, folder: string -> string)

  datatype SyncError =
    | NotManaged | Forbidden | UploadNotFound | UploadExpired | TargetChanged
    | TooManyConflicts | DatabaseBusy | Storage(error: FileError)

  datatype Decision =
    | Resume(target: Path, conflict: bool)
    | Skip(target: Path, conflict: bool)
    | Upload(target: Path, conflict: bool, session: SessionId)

  /** A verified manifest: the digest is normalised and the source path has no empty
      or dot part. */
  datatype Manifest = Manifest(key: Key, source: Path, sha: string, size: nat)

  const SYNC_ROOT := "Mobile Uploads"

  function TargetFor(site: Site, m: Manifest): (target: Path)
    ensures target != []
  {
    [SYNC_ROOT, site.folder(m.key.device), if m.key.scope == Photos then "Photos" else "Files"] + m.source
  }

  function Revision(rows: map<Key, Row>, key: Key): nat {
    if key in rows then rows[key].revision + 1 else 1
  }

  function Holding(rows: map<Key, Row>, key: Key): Option<SessionId> {
    if key in rows && rows[key].state == Uploading then rows[key].session else None
  }

  predicate SameContent(row: Row, m: Manifest) {
    row.sha == m.sha && row.size == m.size
  }

  /** The first attempt at or after `attempt` whose name is free. */
  function FirstFree(fs: FileState, name: nat -> Path, attempt: nat): (r: Option<nat>)
    ensures match r
            case Some(i) =>
              attempt <= i < MAX_ATTEMPTS && !Exists(fs, name(i)) && forall j :: attempt <= j < i ==> Exists(fs, name(j))
            case None => forall j :: attempt <= j < MAX_ATTEMPTS ==> Exists(fs, name(j))
    decreases MAX_ATTEMPTS - attempt
  {
    if attempt >= MAX_ATTEMPTS then None
    else if Exists(fs, name(attempt)) then FirstFree(fs, name, attempt + 1)
    else Some(attempt)
  }

  function ConflictTarget(fs: FileState, desired: Path, sha: string): (r: Option<Path>)
    requires desired != []
    ensures r.Some? ==> r.value != [] && !Exists(fs, r.value)
  {
    match FirstFree(fs, (i: nat) => ConflictName(desired, sha, i), 1)
    case Some(i) => Some(ConflictName(desired, sha, i))
    case None => None
  }

  /** What a preflight decides once the session to resume has been ruled out. */
  datatype Plan =
    | Known(row: Row)
    | Adopt(target: Path, conflict: bool)
    | Begin(target: Path, conflict: bool)
    | GiveUp

  function PlanUpload(site: Site, rows: map<Key, Row>, fs: FileState, m: Manifest): (p: Plan)
    ensures p.Known? ==> m.key in rows && p.row == rows[m.key] && SameContent(p.row, m)
    ensures p.Adopt? ==> Matches(fs, site.hash, p.target, m.sha, m.size)
    ensures p.Begin? ==> p.target != [] && !Exists(fs, p.target)
  {
    var desired := TargetFor(site, m);
    var committed := m.key in rows && rows[m.key].state == Committed;
    var changed := committed && !SameContent(rows[m.key], m);
    if committed && !changed && Matches(fs, site.hash, rows[m.key].target, m.sha, m.size) then
      Known(rows[m.key])
    else if !changed && !Exists(fs, desired) then Begin(desired, false)
    else if Matches(fs, site.hash, desired, m.sha, m.size) then Adopt(desired, changed)
    else match ConflictTarget(fs, desired, m.sha)
      case None => GiveUp
      case Some(target) => Begin(target, true)
  }

  function Previous(rows: map<Key, Row>, key: Key): Option<Path> {
    if key in rows && rows[key].state == Committed then Some(rows[key].target) else None
  }

  function NewRow(rows: map<Key, Row>, m: Manifest, target: Path, conflict: bool, session: Option<SessionId>): Row {
    Row(m.source, target, m.sha, m.size, if session.Some? then Uploading else Committed, session,
        Revision(rows, m.key), conflict, Previous(rows, m.key))
  }

  /** Preflight, from the point where it holds the lock.  `sid` is the fresh session
      id, `busy` an insert the database refuses. */
  function Preflight(site: Site, s: Ledger, m: Manifest, sid: SessionId, fault: Fault, busy: bool)
    : (Ledger, Result<Decision, SyncError>)
  {
    var held := Holding(s.rows, m.key);
    if held.Some? && SameContent(s.rows[m.key], m) && held.value in s.fs.sessions then
      (s, Ok(Resume(s.rows[m.key].target, s.rows[m.key].conflict)))
    else
      var fs := if held.Some? then Drop(s.fs, {held.value}) else s.fs;
      var s1 := s.(fs := fs);
      match PlanUpload(site, s.rows, fs, m)
      case Known(row) => (s1, Ok(Skip(row.target, row.conflict)))
      case GiveUp => (s1, Err(TooManyConflicts))
      case Adopt(target, conflict) =>
        if busy then (s1, Err(DatabaseBusy))
        else
          (s1.(rows := s.rows[m.key := NewRow(s.rows, m, target, conflict, None)],
               events := s.events + [Event(m.key, target, m.sha, m.size, conflict)]),
           Ok(Skip(target, conflict)))
      case Begin(target, conflict) => BeginUpload(s1, m, target, conflict, sid, fault, busy)
  }

  function BeginUpload(s: Ledger, m: Manifest, target: Path, conflict: bool, sid: SessionId, fault: Fault, busy: bool)
    : (Ledger, Result<Decision, SyncError>)
    requires target != []
  {
    if Blocked(s.fs.entries, Resolved(target[..|target| - 1])) then (s, Err(Storage(NotADirectory)))
    else
      var fs := s.fs.(entries := WithFolders(s.fs.entries, Resolved(target[..|target| - 1])));
      match CreateSession(fs, target, m.size, m.sha, sid, fault)
      case Err(e) => (s.(fs := fs), Err(Storage(e)))
      case Ok(open) =>
        // the unique index on session ids, or a busy database, undoes the session
        if busy || exists k :: k in s.rows && k != m.key && s.rows[k].session == Some(sid)
        then (s.(fs := Drop(open, {sid})), Err(DatabaseBusy))
        else
          (s.(rows := s.rows[m.key := NewRow(s.rows, m, target, conflict, Some(sid))], fs := open),
           Ok(Upload(target, conflict, sid)))
  }

  /** The row a device may act on through a session id. */
  predicate Owns(rows: map<Key, Row>, device: string, sid: SessionId, k: Key) {
    k in rows && k.device == device && rows[k].session == Some(sid) && rows[k].state == Uploading
  }

  ghost function Owned(s: Ledger, device: string, sid: SessionId): Result<Key, SyncError> {
    if exists k :: Owns(s.rows, device, sid, k) then
      var k :| Owns(s.rows, device, sid, k);
      if (device, k.scope) in s.grants then Ok(k) else Err(Forbidden)
    else Err(UploadNotFound)
  }

  ghost function AppendChunk(s: Ledger, device: string, sid: SessionId, offset: nat, data: Bytes, fault: Fault)
    : (Ledger, Result<nat, SyncError>)
  {
    match Owned(s, device, sid)
    case Err(e) => (s, Err(e))
    case Ok(k) =>
      var (fs, r) := Append(s.fs, sid, offset, data, fault);
      (s.(fs := fs), if r.Ok? then Ok(r.value) else Err(Storage(r.error)))
  }

  function Commit(s: Ledger, k: Key): (Ledger, Result<nat, SyncError>)
    requires k in s.rows
  {
    var row := s.rows[k];
    (s.(rows := s.rows[k := row.(state := Committed, session := None)],
        events := s.events + [Event(k, row.target, row.sha, row.size, row.conflict)]),
     Ok(|s.events| + 1))
  }

  ghost function Complete(site: Site, s: Ledger, device: string, sid: SessionId, fault: Fault, busy: bool)
    : (Ledger, Result<nat, SyncError>)
  {
    match Owned(s, device, sid)
    case Err(e) => (s, Err(e))
    case Ok(k) =>
      var row := s.rows[k];
      match Finish(s.fs, site.hash, sid, fault)
      case Ok(fs) =>
        var s1 := s.(fs := fs);
        if s.fs.sessions[sid].target != row.target || s.fs.sessions[sid].sha != row.sha
        then (s1, Err(TargetChanged))
        else if busy then (s1, Err(DatabaseBusy))
        else Commit(s1, k)
      case Err(e) =>
        if e != SessionMissing then (s, Err(Storage(e)))
        else if !Matches(s.fs, site.hash, row.target, row.sha, row.size) then (s, Err(UploadExpired))
        else if busy then (s, Err(DatabaseBusy))
        else Commit(s, k)
  }

  ghost function Cancel(s: Ledger, device: string, sid: SessionId): (Ledger, Result<(), SyncError>) {
    match Owned(s, device, sid)
    case Err(e) => (s, Err(e))
    case Ok(k) =>
      (s.(rows := s.rows[k := s.rows[k].(state := Cancelled, session := None)], fs := Drop(s.fs, {sid})), Ok(()))
  }

  predicate Stops(k: Key, row: Row, device: string, scope: Scope) {
    k.device == device && k.scope == scope && row.state == Uploading
  }

  function StopRow(k: Key, row: Row, device: string, scope: Scope): Row {
    if Stops(k, row, device, scope) then row.(state := Cancelled, session := None) else row
  }

  ghost function SetScope(s: Ledger, device: string, scope: Scope, enabled: bool): Ledger {
    if enabled then s.(grants := s.grants + {(device, scope)})
    else
      Ledger(s.grants - {(device, scope)},
             map k | k in s.rows :: StopRow(k, s.rows[k], device, scope),
             s.events,
             Drop(s.fs, set k | k in s.rows && Stops(k, s.rows[k], device, scope) && s.rows[k].session.Some?
                          :: s.rows[k].session.value))
  }

  // ----- runs -----

  /** Every atomic step: the calls above in any order, sessions that expire, and
      other writers that create new files but never touch existing ones. */
  datatype Op =
    | OpSetScope(device: string, scope: Scope, enabled: bool)
    | OpPreflight(m: Manifest, sid: SessionId, fault: Fault, busy: bool)
    | OpAppend(device: string, sid: SessionId, offset: nat, data: Bytes, fault: Fault)
    | OpComplete(device: string, sid: SessionId, fault: Fault, busy: bool)
    | OpCancel(device: string, sid: SessionId)
    | OpExpire(sids: set<SessionId>)
    | OpOtherFile(path: Path, entry: Entry)

  ghost function Step(site: Site, s: Ledger, op: Op): Ledger {
    match op
    case OpSetScope(d, scope, enabled) => SetScope(s, d, scope, enabled)
    case OpPreflight(m, sid, fault, busy) => Preflight(site, s, m, sid, fault, busy).0
    case OpAppend(d, sid, offset, data, fault) => AppendChunk(s, d, sid, offset, data, fault).0
    case OpComplete(d, sid, fault, busy) => Complete(site, s, d, sid, fault, busy).0
    case OpCancel(d, sid) => Cancel(s, d, sid).0
    case OpExpire(sids) => s.(fs := Drop(s.fs, sids))
    case OpOtherFile(path, entry) =>
      if path in s.fs.entries then s else s.(fs := s.fs.(entries := s.fs.entries[path := entry]))
  }

  ghost function Run(site: Site, s: Ledger, ops: seq<Op>): Ledger
    decreases |ops|
  {
    if ops == [] then s else Run(site, Step(site, s, ops[0]), ops[1..])
  }

  const EMPTY := Ledger({}, map[], [], FileState(map[], map[]))

  // ----- what every reachable state satisfies -----

  /** The latest event of one asset. */
  function LastEvent(events: seq<Event>, key: Key): Option<Event> {
    if events == [] then None
    else if events[|events| - 1].key == key then Some(events[|events| - 1])
    else LastEvent(events[..|events| - 1], key)
  }

  ghost predicate RowInv(s: Ledger, k: Key)
    requires k in s.rows
  {
    var row := s.rows[k];
    && (row.state == Uploading <==> row.session.Some?)
    && (row.state == Committed ==>
          LastEvent(s.events, k) == Some(Event(k, row.target, row.sha, row.size, row.conflict)))
    && (row.session.Some? && row.session.value in s.fs.sessions ==>
          Serves(s.fs.sessions[row.session.value], row))
  }

  /** The session uploads exactly the bytes and the place the row describes. */
  ghost predicate Serves(x: Session, row: Row) {
    && row.target != []
    && x.target == UploadPath(row.target) && x.sha == row.sha && x.size == row.size
    && GoodName(Strip(row.target[|row.target| - 1]))
  }

  ghost predicate UniqueSessions(rows: map<Key, Row>) {
    forall a, b :: a in rows && b in rows && rows[a].session.Some? && rows[a].session == rows[b].session ==> a == b
  }

  ghost predicate EventsHold(site: Site, events: seq<Event>, fs: FileState) {
    forall e :: e in events ==> Matches(fs, site.hash, e.target, e.sha, e.size)
  }

  ghost predicate Inv(site: Site, s: Ledger) {
    && (forall k :: k in s.rows ==> RowInv(s, k))
    && UniqueSessions(s.rows)
    && EventsHold(site, s.events, s.fs)
  }

  /** The log only grows and no stored entry ever changes. */
  ghost predicate Grows(s: Ledger, t: Ledger) {
    s.events <= t.events && Preserves(s.fs.entries, t.fs.entries)
  }

  /** Either no event was logged, or exactly one was, for the row the step committed. */
  ghost predicate CommitsOne(s: Ledger, t: Ledger) {
    || (&& t.events == s.events
        && forall k :: k in t.rows && t.rows[k].state == Committed ==> k in s.rows && s.rows[k] == t.rows[k])
    || (exists k :: CommitsRow(s, t, k))
  }

  ghost predicate CommitsRow(s: Ledger, t: Ledger, k: Key) {
    && k in t.rows
    && t.rows[k].state == Committed
    && t.events == s.events + [Event(k, t.rows[k].target, t.rows[k].sha, t.rows[k].size, t.rows[k].conflict)]
    && (forall j :: j in t.rows && j != k ==> j in s.rows && t.rows[j] == s.rows[j])
  }
}
