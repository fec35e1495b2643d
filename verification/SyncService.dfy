/** The sync service as the object the appliance runs: three tables and a file manager. */
module SyncService {
  import opened Wrappers
  import opened ByteStrings
  import opened SyncPaths
  import opened Texts
  import opened FileStore
  import opened SyncLedger
  import opened SyncLedgerProofs
  import opened SyncChanges

  class DeviceSyncService {
    const site: Site
    const files: FileManager
    var grants: set<(string, Scope)>
    var rows: map<Key, Row>
    var events: seq<Event>

    ghost function State(): Ledger
      reads this, files
    {
      Ledger(grants, rows, events, files.State())
    }

    ghost predicate Valid()
      reads this, files
    {
      files.hash == site.hash && Inv(site, State())
    }

    constructor (site: Site)
      ensures Valid() && fresh(files) && this.site == site && State() == EMPTY
    {
      this.site := site;
      files := new FileManager(site.hash);
      grants, rows, events := {}, map[], [];
    }

    method SetScope(device: string, scope: Scope, enabled: bool, managed: bool) returns (r: Result<(), SyncError>)
      requires Valid()
      modifies this, files
      ensures Valid()
      ensures !managed ==> r == Err(NotManaged) && State() == old(State())
      ensures managed ==> r == Ok(()) && State() == SyncLedger.SetScope(old(State()), device, scope, enabled)
    {
      if !managed {
        return Err(NotManaged);
      }
      SetScopeKeeps(site, State(), device, scope, enabled);
      if enabled {
        grants := grants + {(device, scope)};
      } else {
        DisableScope(device, scope);
      }
      r := Ok(());
    }

    /** Withdraw the grant, stop the uploads that used it, then free their sessions. */
    method DisableScope(device: string, scope: Scope)
      modifies this, files
      ensures State() == SyncLedger.SetScope(old(State()), device, scope, false)
    {
      grants := grants - {(device, scope)};
      var sessions := set k | k in rows && Stops(k, rows[k], device, scope) && rows[k].session.Some?
                        :: rows[k].session.value;
      rows := map k | k in rows :: StopRow(k, rows[k], device, scope);
      ghost var stopped := State();
      var left := sessions;
      while left != {}
        invariant left <= sessions
        invariant State() == stopped.(fs := Drop(stopped.fs, sessions - left))
        decreases left
      {
        var sid :| sid in left;
        files.CancelUpload(sid);
        left := left - {sid};
      }
    }

    method FindConflictTarget(desired: Path, sha: string) returns (r: Option<Path>)
      requires desired != []
      ensures r == ConflictTarget(files.State(), desired, sha)
    {
      for attempt := 1 to MAX_ATTEMPTS
        invariant FirstFree(files.State(), (i: nat) => ConflictName(desired, sha, i), 1)
                  == FirstFree(files.State(), (i: nat) => ConflictName(desired, sha, i), attempt)
      {
        var candidate := ConflictName(desired, sha, attempt);
        if Resolved(candidate) !in files.entries {
          return Some(candidate);
        }
      }
      r := None;
    }

    method MatchingFile(target: Path, sha: string, size: nat) returns (same: bool)
      requires files.hash == site.hash
      ensures same == Matches(files.State(), site.hash, target, sha, size)
    {
      var p := Resolved(target);
      if p !in files.entries || files.entries[p].Folder? {
        return false;
      }
      same := |files.entries[p].content| == size && files.hash(files.entries[p].content) == sha;
    }

    method Preflight(m: Manifest, sid: SessionId, fault: Fault, busy: bool) returns (r: Result<Decision, SyncError>)
      requires Valid()
      modifies this, files
      ensures Valid()
      ensures (m.key.device, m.key.scope) !in old(grants) ==> r == Err(Forbidden) && State() == old(State())
      ensures (m.key.device, m.key.scope) in old(grants) ==>
                (State(), r) == SyncLedger.Preflight(site, old(State()), m, sid, fault, busy)
    {
      if (m.key.device, m.key.scope) !in grants {
        return Err(Forbidden);
      }
      PreflightKeeps(site, State(), m, sid, fault, busy);
      r := PreflightLocked(m, sid, fault, busy);
    }

    method PreflightLocked(m: Manifest, sid: SessionId, fault: Fault, busy: bool)
      returns (r: Result<Decision, SyncError>)
      requires files.hash == site.hash
      modifies this, files
      ensures (State(), r) == SyncLedger.Preflight(site, old(State()), m, sid, fault, busy)
    {
      hide PlanUpload, SyncLedger.BeginUpload, NewRow, Matches, Resolved;
      if m.key in rows && rows[m.key].state == Uploading && rows[m.key].session.Some? {
        var row := rows[m.key];
        if SameContent(row, m) && row.session.value in files.sessions {
          return Ok(Resume(row.target, row.conflict));
        }
        files.CancelUpload(row.session.value);
      }
      var plan := DecideTarget(m);
      match plan
      case Known(row) => r := Ok(Skip(row.target, row.conflict));
      case GiveUp => r := Err(TooManyConflicts);
      case Adopt(target, conflict) =>
        if busy {
          return Err(DatabaseBusy);
        }
        rows := rows[m.key := NewRow(rows, m, target, conflict, None)];
        events := events + [Event(m.key, target, m.sha, m.size, conflict)];
        r := Ok(Skip(target, conflict));
      case Begin(target, conflict) =>
        r := BeginUpload(m, target, conflict, sid, fault, busy);
    }

    /** Compare the stored and the wanted file, and pick where the bytes may go. */
    method DecideTarget(m: Manifest) returns (plan: Plan)
      requires files.hash == site.hash
      ensures plan == PlanUpload(site, rows, files.State(), m)
    {
      hide Matches, ConflictTarget, Resolved, TargetFor;
      var target := TargetFor(site, m);
      var conflict := false;
      if m.key in rows && rows[m.key].state == Committed {
        if SameContent(rows[m.key], m) {
          var same := MatchingFile(rows[m.key].target, m.sha, m.size);
          if same {
            return Known(rows[m.key]);
          }
        } else {
          conflict := true;
        }
      }
      if conflict || Resolved(target) in files.entries {
        var same := MatchingFile(target, m.sha, m.size);
        if same {
          return Adopt(target, conflict);
        }
        conflict := true;
        var free := FindConflictTarget(target, m.sha);
        if free.None? {
          return GiveUp;
        }
        target := free.value;
      }
      plan := Begin(target, conflict);
    }

    method BeginUpload(m: Manifest, target: Path, conflict: bool, sid: SessionId, fault: Fault, busy: bool)
      returns (r: Result<Decision, SyncError>)
      requires target != []
      modifies this, files
      ensures (State(), r) == SyncLedger.BeginUpload(old(State()), m, target, conflict, sid, fault, busy)
    {
      var folder := files.EnsureFolder(Resolved(target[..|target| - 1]));
      if folder.Err? {
        return Err(Storage(folder.error));
      }
      var created := files.CreateUpload(target, m.size, m.sha, sid, fault);
      if created.Err? {
        return Err(Storage(created.error));
      }
      var taken := exists k :: k in rows && k != m.key && rows[k].session == Some(sid);
      if busy || taken {
        files.CancelUpload(sid);
        return Err(DatabaseBusy);
      }
      rows := rows[m.key := NewRow(rows, m, target, conflict, Some(sid))];
      r := Ok(Upload(target, conflict, sid));
    }

    method OwnedUpload(device: string, sid: SessionId) returns (r: Result<Key, SyncError>)
      requires UniqueSessions(rows)
      ensures r == Owned(State(), device, sid)
    {
      if k :| k in rows && Owns(rows, device, sid, k) {
        OwnedIs(State(), device, sid, k);
        r := if (device, k.scope) in grants then Ok(k) else Err(Forbidden);
      } else {
        r := Err(UploadNotFound);
      }
    }

    method AppendChunk(device: string, sid: SessionId, offset: nat, data: Bytes, fault: Fault)
      returns (r: Result<nat, SyncError>)
      requires Valid()
      modifies files
      ensures Valid()
      ensures (State(), r) == SyncLedger.AppendChunk(old(State()), device, sid, offset, data, fault)
    {
      OtherStepsKeep(site, State(), OpAppend(device, sid, offset, data, fault));
      var owned := OwnedUpload(device, sid);
      if owned.Err? {
        return Err(owned.error);
      }
      var stored := files.AppendChunk(sid, offset, data, fault);
      r := if stored.Ok? then Ok(stored.value) else Err(Storage(stored.error));
    }

    method Complete(device: string, sid: SessionId, fault: Fault, busy: bool) returns (r: Result<nat, SyncError>)
      requires Valid()
      modifies this, files
      ensures Valid()
      ensures (State(), r) == SyncLedger.Complete(site, old(State()), device, sid, fault, busy)
    {
      CompleteKeeps(site, State(), device, sid, fault, busy);
      r := CompleteLocked(device, sid, fault, busy);
    }

    method CompleteLocked(device: string, sid: SessionId, fault: Fault, busy: bool)
      returns (r: Result<nat, SyncError>)
      requires files.hash == site.hash && UniqueSessions(rows)
      modifies this, files
      ensures (State(), r) == SyncLedger.Complete(site, old(State()), device, sid, fault, busy)
    {
      var owned := OwnedUpload(device, sid);
      if owned.Err? {
        return Err(owned.error);
      }
      var k := owned.value;
      OwnedSound(State(), device, sid);
      var row := rows[k];
      var done := files.CompleteUpload(sid, fault);
      if done.Ok? {
        var (path, digest) := done.value;
        if path != row.target || digest != row.sha {
          return Err(TargetChanged);
        }
      } else if done.error == SessionMissing {
        var same := MatchingFile(row.target, row.sha, row.size);
        if !same {
          return Err(UploadExpired);
        }
      } else {
        return Err(Storage(done.error));
      }
      if busy {
        return Err(DatabaseBusy);
      }
      rows := rows[k := row.(state := Committed, session := None)];
      events := events + [Event(k, row.target, row.sha, row.size, row.conflict)];
      r := Ok(|events|);
    }

    method Cancel(device: string, sid: SessionId) returns (r: Result<(), SyncError>)
      requires Valid()
      modifies this, files
      ensures Valid()
      ensures (State(), r) == SyncLedger.Cancel(old(State()), device, sid)
    {
      CancelKeeps(site, State(), device, sid);
      var owned := OwnedUpload(device, sid);
      if owned.Err? {
        return Err(owned.error);
      }
      var k := owned.value;
      files.CancelUpload(sid);
      rows := rows[k := rows[k].(state := Cancelled, session := None)];
      r := Ok(());
    }

    /** One page: the visible cursors, the cursor to follow and whether to ask again. */
    method Changes(device: string, cursor: int, limit: int) returns (r: Result<(seq<nat>, nat, bool), SyncError>)
      ensures var scopes := set scope | scope in {Photos, Files} && (device, scope) in grants;
              var from: nat := if cursor < 0 then 0 else cursor;
              r == if scopes == {} then Err(Forbidden)
                   else
                     var page := Page(events, device, scopes, from, limit);
                     Ok((page, NextCursor(page, from), |page| == PageSize(limit)))
    {
      var scopes := set scope | scope in {Photos, Files} && (device, scope) in grants;
      if scopes == {} {
        return Err(Forbidden);
      }
      var from: nat := if cursor < 0 then 0 else cursor;
      var size := PageSize(limit);
      var page: seq<nat> := [];
      var i := from;
      ghost var all := Matching(events, device, scopes, from);
      while i < |events| && |page| < size
        invariant from <= i && |page| <= size
        invariant all == page + Matching(events, device, scopes, i)
        decreases |events| - i
      {
        if Visible(events[i], device, scopes) {
          page := page + [i + 1];
        }
        i := i + 1;
      }
      assert page == Take(all, size);
      r := Ok((page, NextCursor(page, from), |page| == size));
    }
  }
}
