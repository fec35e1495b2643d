/** What a preflight answers: where an upload goes, under which flag, and when it begins. */
module SyncPreflight {
  import opened Wrappers
  import opened ByteStrings
  import opened SyncPaths
  import opened Texts
  import opened FileStore
  import opened SyncLedger
  import opened SyncLedgerProofs

  // ----- the situations -----

  /** An upload of just this content is under way and its session is alive. */
  predicate UnderWay(s: Ledger, m: Manifest) {
    && m.key in s.rows && s.rows[m.key].state == Uploading && SameContent(s.rows[m.key], m)
    && s.rows[m.key].session.Some? && s.rows[m.key].session.value in s.fs.sessions
  }

  predicate CommittedBefore(s: Ledger, m: Manifest) {
    m.key in s.rows && s.rows[m.key].state == Committed
  }

  /** The asset is committed with just this content, and the file is still there. */
  predicate InPlaceAlready(site: Site, s: Ledger, m: Manifest) {
    && CommittedBefore(s, m) && SameContent(s.rows[m.key], m)
    && Matches(s.fs, site.hash, s.rows[m.key].target, m.sha, m.size)
  }

  /** The asset is committed with other content. */
  predicate Changed(s: Ledger, m: Manifest) {
    CommittedBefore(s, m) && !SameContent(s.rows[m.key], m)
  }

  /** Its own place is free to be taken. */
  predicate PlaceIsFree(site: Site, s: Ledger, m: Manifest) {
    !Changed(s, m) && !Exists(s.fs, TargetFor(site, m))
  }

  /** The wanted file is at its own place. */
  predicate FileIsThere(site: Site, s: Ledger, m: Manifest) {
    Matches(s.fs, site.hash, TargetFor(site, m), m.sha, m.size)
  }

  /** The first keep-both name that is free is the `i`-th. */
  predicate FirstFreeName(site: Site, s: Ledger, m: Manifest, i: nat) {
    && 1 <= i < MAX_ATTEMPTS
    && !Exists(s.fs, ConflictName(TargetFor(site, m), m.sha, i))
    && forall j :: 1 <= j < i ==> Exists(s.fs, ConflictName(TargetFor(site, m), m.sha, j))
  }

  predicate AllNamesTaken(site: Site, s: Ledger, m: Manifest) {
    forall j :: 1 <= j < MAX_ATTEMPTS ==> Exists(s.fs, ConflictName(TargetFor(site, m), m.sha, j))
  }

  /** Nothing stands in the way of an upload to this target: its folder can be made, its
      name is usable, what it creates is not there, and the session id is new. */
  ghost predicate CanBegin(s: Ledger, m: Manifest, target: Path, sid: SessionId) {
    && target != []
    && var folder := Resolved(target[..|target| - 1]);
    && !Blocked(s.fs.entries, folder) && GoodName(Strip(target[|target| - 1]))
    && UploadPath(target) !in s.fs.entries
    && (sid in s.fs.sessions ==> Holding(s.rows, m.key) == Some(sid))
    && forall k :: k in s.rows && k != m.key ==> s.rows[k].session != Some(sid)
  }

  /** Assets have one place exactly if their devices share a folder and they agree in scope
      and source path; it lies in the folder of the device, below the one for all uploads. */
  lemma OwnPlaces(site: Site, m: Manifest, n: Manifest)
    ensures TargetFor(site, m) == TargetFor(site, n) <==>
            site.folder(m.key.device) == site.folder(n.key.device) && m.key.scope == n.key.scope && m.source == n.source
    ensures ["Mobile Uploads", site.folder(m.key.device)] <= TargetFor(site, m)
    ensures ["Mobile Uploads", site.folder(m.key.device), "Photos"] <= TargetFor(site, m) <==> m.key.scope == Photos
  {
    var s, t := TargetFor(site, m), TargetFor(site, n);
    assert s[3..] == m.source && t[3..] == n.source;
    assert s[1] == site.folder(m.key.device) && t[1] == site.folder(n.key.device);
    assert s[2] == (if m.key.scope == Photos then "Photos" else "Files");
    assert t[2] == (if n.key.scope == Photos then "Photos" else "Files");
    assert "Photos"[0] != "Files"[0];
  }

  // ----- the answers -----

  lemma DroppedEntries(site: Site, s: Ledger, m: Manifest, p: Path, sids: set<SessionId>)
    ensures Exists(Drop(s.fs, sids), p) <==> Exists(s.fs, p)
    ensures Matches(Drop(s.fs, sids), site.hash, p, m.sha, m.size) <==> Matches(s.fs, site.hash, p, m.sha, m.size)
  {
  }

  /** The file state once a stale session of the asset has been dropped. */
  function Freed(s: Ledger, m: Manifest): FileState {
    var held := Holding(s.rows, m.key);
    if held.Some? then Drop(s.fs, {held.value}) else s.fs
  }

  lemma FreedEntries(site: Site, s: Ledger, m: Manifest, p: Path)
    ensures Freed(s, m).entries == s.fs.entries
    ensures Exists(Freed(s, m), p) <==> Exists(s.fs, p)
    ensures Matches(Freed(s, m), site.hash, p, m.sha, m.size) <==> Matches(s.fs, site.hash, p, m.sha, m.size)
  {
  }

  /** An upload of the same content that is under way is resumed; a committed asset whose
      file is there is skipped with its own target and flag. */
  lemma KnownAssets(site: Site, s: Ledger, m: Manifest, sid: SessionId, fault: Fault, busy: bool)
    ensures UnderWay(s, m) ==>
              Preflight(site, s, m, sid, fault, busy) == (s, Ok(Resume(s.rows[m.key].target, s.rows[m.key].conflict)))
    ensures InPlaceAlready(site, s, m) && !UnderWay(s, m) ==>
              Preflight(site, s, m, sid, fault, busy)
              == (s.(fs := Freed(s, m)), Ok(Skip(s.rows[m.key].target, s.rows[m.key].conflict)))
  {
    hide Resolved;
  }

  /** A first upload goes to the asset's own place and is no conflict, and so does one of
      an asset that was cancelled or lost: exactly if nothing is at that place and the asset
      is not committed with other content. */
  lemma GoesToOwnPlace(site: Site, s: Ledger, m: Manifest, sid: SessionId, fault: Fault, busy: bool)
    requires !UnderWay(s, m) && !InPlaceAlready(site, s, m)
    ensures var r := Preflight(site, s, m, sid, fault, busy).1;
            && (PlaceIsFree(site, s, m) && r.Ok? ==> r == Ok(Upload(TargetFor(site, m), false, sid)))
            && (r.Ok? && r.value.Upload? ==>
                  && (PlaceIsFree(site, s, m) <==> !r.value.conflict)
                  && (!r.value.conflict ==> r.value.target == TargetFor(site, m)))
  {
    hide Resolved, TargetFor, ConflictTarget, BeginUpload;
    FreedEntries(site, s, m, TargetFor(site, m));
    if m.key in s.rows {
      FreedEntries(site, s, m, s.rows[m.key].target);
    }
    BeginAnswers(s.(fs := Freed(s, m)), m, TargetFor(site, m), false, sid, fault, busy);
    var kept := ConflictTarget(Freed(s, m), TargetFor(site, m), m.sha);
    if kept.Some? {
      BeginAnswers(s.(fs := Freed(s, m)), m, kept.value, true, sid, fault, busy);
    }
  }

  lemma BeginAnswers(s: Ledger, m: Manifest, target: Path, conflict: bool, sid: SessionId, fault: Fault, busy: bool)
    requires target != []
    ensures var (t, r) := BeginUpload(s, m, target, conflict, sid, fault, busy);
            && (r.Ok? ==> r == Ok(Upload(target, conflict, sid)))
            && t.events == s.events && t.grants == s.grants
  {
    hide Resolved, Blocked, WithFolders, CreateSession;
  }

  /** Otherwise, if the wanted file is at the asset's own place already, it is adopted: the
      answer is skip, flagged as a conflict exactly if the asset is committed with other
      content, and the row and one event say so. */
  lemma AdoptsOwnPlace(site: Site, s: Ledger, m: Manifest, sid: SessionId, fault: Fault, busy: bool)
    requires !UnderWay(s, m) && !InPlaceAlready(site, s, m) && !PlaceIsFree(site, s, m) && FileIsThere(site, s, m)
    ensures var (t, r) := Preflight(site, s, m, sid, fault, busy);
            var target, conflict := TargetFor(site, m), Changed(s, m);
            if busy then r == Err(DatabaseBusy) && t == s.(fs := Freed(s, m))
            else
              && r == Ok(Skip(target, conflict)) && t.fs == Freed(s, m)
              && t.events == s.events + [Event(m.key, target, m.sha, m.size, conflict)]
              && t.rows.Keys == s.rows.Keys + {m.key} && t.rows[m.key].state == Committed
              && t.rows[m.key].target == target && t.rows[m.key].conflict == conflict
  {
    hide Resolved, TargetFor, ConflictTarget, BeginUpload;
    FreedEntries(site, s, m, TargetFor(site, m));
    if m.key in s.rows {
      FreedEntries(site, s, m, s.rows[m.key].target);
    }
  }

  /** In all other cases the upload goes to the first keep-both name that is free, flagged
      as a conflict, or is refused because none is. */
  lemma GoesToConflictName(site: Site, s: Ledger, m: Manifest, sid: SessionId, fault: Fault, busy: bool)
    requires !UnderWay(s, m) && !InPlaceAlready(site, s, m) && !PlaceIsFree(site, s, m) && !FileIsThere(site, s, m)
    ensures var r := Preflight(site, s, m, sid, fault, busy).1;
            && (AllNamesTaken(site, s, m) ==> r == Err(TooManyConflicts))
            && forall i :: FirstFreeName(site, s, m, i) && r.Ok? ==>
                 r == Ok(Upload(ConflictName(TargetFor(site, m), m.sha, i), true, sid))
    ensures AllNamesTaken(site, s, m) || exists i :: FirstFreeName(site, s, m, i)
  {
    hide Resolved, TargetFor, BeginUpload, ConflictName;
    var desired := TargetFor(site, m);
    FreedEntries(site, s, m, desired);
    if m.key in s.rows {
      FreedEntries(site, s, m, s.rows[m.key].target);
    }
    forall i: nat ensures Exists(Freed(s, m), ConflictName(desired, m.sha, i)) <==> Exists(s.fs, ConflictName(desired, m.sha, i)) {
      FreedEntries(site, s, m, ConflictName(desired, m.sha, i));
    }
    ConflictIsFirst(Freed(s, m), desired, m.sha);
    var kept := ConflictTarget(Freed(s, m), desired, m.sha);
    if kept.Some? {
      BeginAnswers(s.(fs := Freed(s, m)), m, kept.value, true, sid, fault, busy);
      var i: nat :| FirstName(Freed(s, m), desired, m.sha, i) && kept.value == ConflictName(desired, m.sha, i);
      assert FirstFreeName(site, s, m, i);
      forall k | FirstFreeName(site, s, m, k) ensures k == i {
      }
    }
  }

  predicate FirstName(fs: FileState, desired: Path, sha: string, i: nat)
    requires desired != []
  {
    && 1 <= i < MAX_ATTEMPTS && !Exists(fs, ConflictName(desired, sha, i))
    && forall j :: 1 <= j < i ==> Exists(fs, ConflictName(desired, sha, j))
  }

  lemma ConflictIsFirst(fs: FileState, desired: Path, sha: string)
    requires desired != []
    ensures var kept := ConflictTarget(fs, desired, sha);
            && (kept.Some? ==> exists i: nat :: FirstName(fs, desired, sha, i) && kept.value == ConflictName(desired, sha, i))
            && (kept.None? ==> forall j :: 1 <= j < MAX_ATTEMPTS ==> Exists(fs, ConflictName(desired, sha, j)))
  {
    hide Exists, ConflictName;
    var name := (i: nat) => ConflictName(desired, sha, i);
    var found := FirstFree(fs, name, 1);
    if found.Some? {
      forall j | 1 <= j < found.value ensures Exists(fs, ConflictName(desired, sha, j)) {
        assert Exists(fs, name(j));
      }
      assert FirstName(fs, desired, sha, found.value);
    } else {
      forall j: nat | 1 <= j < MAX_ATTEMPTS ensures Exists(fs, ConflictName(desired, sha, j)) {
        assert Exists(fs, name(j));
      }
    }
  }

  // ----- when an upload begins -----

  /** Where an upload that is called for goes to, and its flag. */
  ghost predicate CalledFor(site: Site, s: Ledger, m: Manifest, target: Path, conflict: bool) {
    && !UnderWay(s, m) && !InPlaceAlready(site, s, m)
    && if PlaceIsFree(site, s, m) then target == TargetFor(site, m) && !conflict
       else
         && !FileIsThere(site, s, m) && conflict
         && exists i :: FirstFreeName(site, s, m, i) && target == ConflictName(TargetFor(site, m), m.sha, i)
  }

  lemma BeginsExactly(s: Ledger, m: Manifest, target: Path, conflict: bool, sid: SessionId, fault: Fault, busy: bool)
    requires target != []
    ensures BeginUpload(s, m, target, conflict, sid, fault, busy).1.Ok? <==>
            var folder := Resolved(target[..|target| - 1]);
            && !Blocked(s.fs.entries, folder) && GoodName(Strip(target[|target| - 1]))
            && UploadPath(target) !in s.fs.entries
            && fault == NoFault && !busy && sid !in s.fs.sessions
            && forall k :: k in s.rows && k != m.key ==> s.rows[k].session != Some(sid)
  {
    hide Resolved, Blocked, Strip, GoodName, WithFolders;
    var folder := Resolved(target[..|target| - 1]);
    WithFoldersPreserves(s.fs.entries, folder);
    FoldersAreOthers(s.fs.entries, target);
  }

  /** Making the folder of a target does not make the target. */
  lemma FoldersAreOthers(entries: map<Path, Entry>, target: Path)
    requires target != []
    ensures UploadPath(target) in WithFolders(entries, Resolved(target[..|target| - 1])) <==> UploadPath(target) in entries
  {
    hide Resolved, Strip;
    var folder, p := Resolved(target[..|target| - 1]), UploadPath(target);
    WithFoldersPreserves(entries, folder);
    if p in WithFolders(entries, folder) {
      WithFoldersOnlyPrefixes(entries, folder, p);
    }
  }

  /** An upload that is called for begins exactly if nothing stands in its way and neither
      the disk nor the database refuses; then the session is there, empty, and the row holds
      it, with the revision counted up and the last committed target remembered. */
  lemma BeginsIff(site: Site, s: Ledger, m: Manifest, target: Path, conflict: bool, sid: SessionId, fault: Fault, busy: bool)
    requires CalledFor(site, s, m, target, conflict)
    ensures var (t, r) := Preflight(site, s, m, sid, fault, busy);
            && (r == Ok(Upload(target, conflict, sid)) <==> CanBegin(s, m, target, sid) && fault == NoFault && !busy)
            && (r.Ok? ==> r == Ok(Upload(target, conflict, sid)))
            && (r.Ok? ==>
                  && t.events == s.events && t.rows.Keys == s.rows.Keys + {m.key}
                  && (forall k :: k in s.rows && k != m.key ==> t.rows[k] == s.rows[k])
                  && sid in t.fs.sessions && t.fs.sessions[sid] == Session(UploadPath(target), m.size, m.sha, [])
                  && t.rows[m.key] == Row(m.source, target, m.sha, m.size, Uploading, Some(sid),
                                          (if m.key in s.rows then s.rows[m.key].revision else 0) + 1, conflict,
                                          if CommittedBefore(s, m) then Some(s.rows[m.key].target) else None))
  {
    hide Resolved, TargetFor, ConflictName, ConflictTarget, BeginUpload, Blocked, WithFolders, CreateSession, Strip, GoodName;
    var freed := s.(fs := Freed(s, m));
    PlannedFor(site, s, m, target, conflict);
    BeginsExactly(freed, m, target, conflict, sid, fault, busy);
    BeginAnswers(freed, m, target, conflict, sid, fault, busy);
    if BeginUpload(freed, m, target, conflict, sid, fault, busy).1.Ok? {
      BeginLeaves(freed, m, target, conflict, sid, fault, busy);
    }
  }

  lemma BeginLeaves(s: Ledger, m: Manifest, target: Path, conflict: bool, sid: SessionId, fault: Fault, busy: bool)
    requires target != [] && BeginUpload(s, m, target, conflict, sid, fault, busy).1.Ok?
    ensures var t := BeginUpload(s, m, target, conflict, sid, fault, busy).0;
            && t.rows == s.rows[m.key := NewRow(s.rows, m, target, conflict, Some(sid))]
            && sid in t.fs.sessions && t.fs.sessions[sid] == Session(UploadPath(target), m.size, m.sha, [])
  {
    hide Resolved, Blocked, Strip, GoodName, WithFolders;
  }

  /** The plan behind a call for an upload. */
  lemma PlannedFor(site: Site, s: Ledger, m: Manifest, target: Path, conflict: bool)
    requires CalledFor(site, s, m, target, conflict)
    ensures target != [] && PlanUpload(site, s.rows, Freed(s, m), m) == Begin(target, conflict)
  {
    hide Resolved, TargetFor, ConflictName;
    var desired := TargetFor(site, m);
    FreedEntries(site, s, m, desired);
    if m.key in s.rows {
      FreedEntries(site, s, m, s.rows[m.key].target);
    }
    if !PlaceIsFree(site, s, m) {
      forall i: nat ensures Exists(Freed(s, m), ConflictName(desired, m.sha, i)) <==> Exists(s.fs, ConflictName(desired, m.sha, i)) {
        FreedEntries(site, s, m, ConflictName(desired, m.sha, i));
      }
      ConflictIsFirst(Freed(s, m), desired, m.sha);
      var k :| FirstFreeName(site, s, m, k) && target == ConflictName(desired, m.sha, k);
      var kept := ConflictTarget(Freed(s, m), desired, m.sha);
      var i: nat :| FirstName(Freed(s, m), desired, m.sha, i) && kept.value == ConflictName(desired, m.sha, i);
      assert i == k;
    }
  }

  /** On an empty appliance every asset with a usable name begins at its own place, without
      a conflict. */
  lemma FirstUpload(site: Site, m: Manifest, sid: SessionId)
    ensures var target := TargetFor(site, m);
            Preflight(site, EMPTY, m, sid, NoFault, false).1 == Ok(Upload(target, false, sid))
            <==> GoodName(Strip(target[|target| - 1]))
  {
    hide Resolved, Strip, GoodName, WithFolders, TargetFor;
    BeginsIff(site, EMPTY, m, TargetFor(site, m), false, sid, NoFault, false);
  }
}
