/** Whole-run theorems about the sync ledger. */
module SyncLedgerProofs {
  import opened Wrappers
  import opened ByteStrings
  import opened SyncPaths
  import opened Texts
  import opened FileStore
  import opened SyncLedger

  lemma MatchesKept(site: Site, events: seq<Event>, fs: FileState, after: FileState)
    requires EventsHold(site, events, fs)
    requires Preserves(fs.entries, after.entries)
    ensures EventsHold(site, events, after)
  {
  }

  lemma LastEventAppend(events: seq<Event>, e: Event, k: Key)
    ensures LastEvent(events + [e], k) == if e.key == k then Some(e) else LastEvent(events, k)
  {
    assert (events + [e])[..|events|] == events;
  }

  /** Logging the event that describes a committed row keeps the invariant. */
  lemma LogKeepsInv(site: Site, s: Ledger, t: Ledger, k: Key)
    requires Inv(site, s)
    requires k in t.rows && t.rows == s.rows[k := t.rows[k]]
    requires t.rows[k].state == Committed && t.rows[k].session == None
    requires t.events == s.events + [Event(k, t.rows[k].target, t.rows[k].sha, t.rows[k].size, t.rows[k].conflict)]
    requires Preserves(s.fs.entries, t.fs.entries)
    requires forall sid :: sid in t.fs.sessions ==> sid in s.fs.sessions && t.fs.sessions[sid] == s.fs.sessions[sid]
    requires Matches(t.fs, site.hash, t.rows[k].target, t.rows[k].sha, t.rows[k].size)
    ensures Inv(site, t) && CommitsRow(s, t, k)
  {
    MatchesKept(site, s.events, s.fs, t.fs);
    var e := t.events[|s.events|];
    forall j | j in t.rows
      ensures RowInv(t, j)
    {
      LastEventAppend(s.events, e, j);
      if j != k {
        assert RowInv(s, j);
      }
    }
  }

  /** Dropping sessions, or adding files beside the existing ones, keeps the invariant. */
  lemma FilesKeepInv(site: Site, s: Ledger, fs: FileState)
    requires Inv(site, s)
    requires Preserves(s.fs.entries, fs.entries)
    requires forall sid :: sid in fs.sessions ==>
               sid in s.fs.sessions && fs.sessions[sid].(data := []) == s.fs.sessions[sid].(data := [])
    ensures Inv(site, s.(fs := fs))
  {
    var t := s.(fs := fs);
    MatchesKept(site, s.events, s.fs, fs);
    forall k | k in t.rows
      ensures RowInv(t, k)
    {
      assert RowInv(s, k);
    }
  }

  /** A fresh session and the row that will hold it. */
  lemma StartKeeps(site: Site, s: Ledger, m: Manifest, target: Path, conflict: bool, sid: SessionId, open: FileState)
    requires Inv(site, s) && target != []
    requires CreateSession(s.fs, target, m.size, m.sha, sid, NoFault) == Ok(open)
    requires !exists k :: k in s.rows && k != m.key && s.rows[k].session == Some(sid)
    ensures var t := s.(rows := s.rows[m.key := NewRow(s.rows, m, target, conflict, Some(sid))], fs := open);
            Inv(site, t) && Grows(s, t) && CommitsOne(s, t)
  {
    var t := s.(rows := s.rows[m.key := NewRow(s.rows, m, target, conflict, Some(sid))], fs := open);
    assert open.entries == s.fs.entries;
    MatchesKept(site, s.events, s.fs, t.fs);
    var x := open.sessions[sid];
    assert Serves(x, t.rows[m.key]);
    forall k | k in t.rows
      ensures RowInv(t, k)
    {
      if k != m.key {
        assert RowInv(s, k);
      }
    }
  }

  lemma CreateSessionAdds(fs: FileState, p: Path, size: nat, sha: string, sid: SessionId, fault: Fault)
    requires p != [] && CreateSession(fs, p, size, sha, sid, fault).Ok?
    ensures var open := CreateSession(fs, p, size, sha, sid, fault).value;
            && open.entries == fs.entries && Drop(open, {sid}) == fs
            && CreateSession(fs, p, size, sha, sid, NoFault) == Ok(open)
  {
    var open := CreateSession(fs, p, size, sha, sid, fault).value;
    assert Drop(open, {sid}).sessions == fs.sessions;
  }

  lemma BeginUploadKeeps(site: Site, s: Ledger, m: Manifest, target: Path, conflict: bool, sid: SessionId, fault: Fault, busy: bool)
    requires Inv(site, s) && target != []
    ensures var t := BeginUpload(s, m, target, conflict, sid, fault, busy).0;
            Inv(site, t) && Grows(s, t) && CommitsOne(s, t)
  {
    hide RowInv, UniqueSessions, EventsHold, Blocked, Resolved, CreateSession, WithFolders, CommitsRow, Matches;
    var folder := Resolved(target[..|target| - 1]);
    if !Blocked(s.fs.entries, folder) {
      WithFoldersPreserves(s.fs.entries, folder);
      var fs := s.fs.(entries := WithFolders(s.fs.entries, folder));
      FilesKeepInv(site, s, fs);
      var s1 := s.(fs := fs);
      var created := CreateSession(fs, target, m.size, m.sha, sid, fault);
      if created.Ok? {
        CreateSessionAdds(fs, target, m.size, m.sha, sid, fault);
        if !busy && !exists k :: k in s.rows && k != m.key && s.rows[k].session == Some(sid) {
          StartKeeps(site, s1, m, target, conflict, sid, created.value);
        }
      }
    }
  }

  lemma PreflightKeeps(site: Site, s: Ledger, m: Manifest, sid: SessionId, fault: Fault, busy: bool)
    requires Inv(site, s)
    ensures var t := Preflight(site, s, m, sid, fault, busy).0;
            Inv(site, t) && Grows(s, t) && CommitsOne(s, t)
  {
    hide PlanUpload, Matches, RowInv, UniqueSessions, EventsHold, Resolved, Blocked, WithFolders, CreateSession;
    var held := Holding(s.rows, m.key);
    if !(held.Some? && SameContent(s.rows[m.key], m) && held.value in s.fs.sessions) {
      var fs := if held.Some? then Drop(s.fs, {held.value}) else s.fs;
      FilesKeepInv(site, s, fs);
      var s1 := s.(fs := fs);
      match PlanUpload(site, s.rows, fs, m)
      case Known(row) =>
      case GiveUp =>
      case Adopt(target, conflict) =>
        if !busy {
          var t := Preflight(site, s, m, sid, fault, busy).0;
          LogKeepsInv(site, s1, t, m.key);
          assert CommitsRow(s, t, m.key);
        }
      case Begin(target, conflict) =>
        BeginUploadKeeps(site, s1, m, target, conflict, sid, fault, busy);
        var t := BeginUpload(s1, m, target, conflict, sid, fault, busy).0;
        assert t.events == s1.events;
    }
  }

  lemma OwnedSound(s: Ledger, device: string, sid: SessionId)
    ensures Owned(s, device, sid).Ok? ==> Owns(s.rows, device, sid, Owned(s, device, sid).value)
  {
  }

  lemma CompleteKeeps(site: Site, s: Ledger, device: string, sid: SessionId, fault: Fault, busy: bool)
    requires Inv(site, s)
    ensures var t := Complete(site, s, device, sid, fault, busy).0;
            Inv(site, t) && Grows(s, t) && CommitsOne(s, t)
  {
    OwnedSound(s, device, sid);
    var owned := Owned(s, device, sid);
    if owned.Ok? {
      var k := owned.value;
      var row := s.rows[k];
      assert RowInv(s, k);
      var done := Finish(s.fs, site.hash, sid, fault);
      if done.Ok? {
        FilesKeepInv(site, s, done.value);
        var s1 := s.(fs := done.value);
        var x := s.fs.sessions[sid];
        if x.target == row.target && !busy {
          UploadPathFixed(row.target);
          StripFixed(row.target[|row.target| - 1]);
          LogKeepsInv(site, s1, Commit(s1, k).0, k);
          assert CommitsRow(s, Commit(s1, k).0, k);
        }
      } else if done.error == SessionMissing && Matches(s.fs, site.hash, row.target, row.sha, row.size) && !busy {
        LogKeepsInv(site, s, Commit(s, k).0, k);
      }
    }
  }

  lemma CancelKeeps(site: Site, s: Ledger, device: string, sid: SessionId)
    requires Inv(site, s)
    ensures var t := Cancel(s, device, sid).0;
            Inv(site, t) && Grows(s, t) && CommitsOne(s, t)
  {
    OwnedSound(s, device, sid);
    var t := Cancel(s, device, sid).0;
    if Owned(s, device, sid).Ok? {
      MatchesKept(site, s.events, s.fs, t.fs);
      forall j | j in t.rows
        ensures RowInv(t, j)
      {
        assert RowInv(s, j);
      }
    }
  }

  lemma SetScopeKeeps(site: Site, s: Ledger, device: string, scope: Scope, enabled: bool)
    requires Inv(site, s)
    ensures var t := SetScope(s, device, scope, enabled);
            Inv(site, t) && Grows(s, t) && CommitsOne(s, t)
  {
    hide Matches, EventsHold, RowInv;
    var t := SetScope(s, device, scope, enabled);
    MatchesKept(site, s.events, s.fs, t.fs);
    forall j | j in t.rows ensures RowInv(t, j) {
      ScopeKeepsRow(s, device, scope, enabled, j);
    }
  }

  lemma ScopeKeepsRow(s: Ledger, device: string, scope: Scope, enabled: bool, j: Key)
    requires j in s.rows && RowInv(s, j)
    ensures RowInv(SetScope(s, device, scope, enabled), j)
  {
    hide Serves, LastEvent;
  }

  lemma OtherStepsKeep(site: Site, s: Ledger, op: Op)
    requires Inv(site, s)
    requires op.OpAppend? || op.OpExpire? || op.OpOtherFile?
    ensures Inv(site, Step(site, s, op)) && Grows(s, Step(site, s, op)) && CommitsOne(s, Step(site, s, op))
  {
    hide RowInv, UniqueSessions, EventsHold, Owned;
    var t := Step(site, s, op);
    assert t == s.(fs := t.fs);
    FilesKeepInv(site, s, t.fs);
  }

  /** Every step keeps the ledger invariant, never alters a stored file, and logs
      exactly one event when it commits a row and none otherwise. */
  lemma StepKeeps(site: Site, s: Ledger, op: Op)
    requires Inv(site, s)
    ensures Inv(site, Step(site, s, op)) && Grows(s, Step(site, s, op)) && CommitsOne(s, Step(site, s, op))
  {
    match op
    case OpSetScope(d, scope, enabled) => SetScopeKeeps(site, s, d, scope, enabled);
    case OpPreflight(m, sid, fault, busy) => PreflightKeeps(site, s, m, sid, fault, busy);
    case OpComplete(d, sid, fault, busy) => CompleteKeeps(site, s, d, sid, fault, busy);
    case OpCancel(d, sid) => CancelKeeps(site, s, d, sid);
    case _ => OtherStepsKeep(site, s, op);
  }

  lemma {:induction false} RunKeeps(site: Site, s: Ledger, ops: seq<Op>)
    requires Inv(site, s)
    ensures Inv(site, Run(site, s, ops)) && Grows(s, Run(site, s, ops))
    decreases |ops|
  {
    if ops != [] {
      StepKeeps(site, s, ops[0]);
      RunKeeps(site, Step(site, s, ops[0]), ops[1..]);
    }
  }

  /** The ledger invariant holds in every state reachable from an empty appliance. */
  lemma ReachableInv(site: Site, ops: seq<Op>)
    ensures Inv(site, Run(site, EMPTY, ops))
  {
    RunKeeps(site, EMPTY, ops);
  }

  /** Keep-both: once an event is logged, in every later state of any run the file at
      its target still has that event's digest and size, and the event is still at the
      same position of the log. */
  lemma KeepBoth(site: Site, first: seq<Op>, later: seq<Op>, cursor: nat)
    requires cursor < |Run(site, EMPTY, first).events|
    ensures var s, t := Run(site, EMPTY, first), Run(site, Run(site, EMPTY, first), later);
            var e := s.events[cursor];
            && cursor < |t.events| && t.events[cursor] == e
            && Matches(t.fs, site.hash, e.target, e.sha, e.size)
            && Matches(s.fs, site.hash, e.target, e.sha, e.size)
            && t.fs.entries[Resolved(e.target)] == s.fs.entries[Resolved(e.target)]
  {
    ReachableInv(site, first);
    var s := Run(site, EMPTY, first);
    RunKeeps(site, s, later);
    assert s.events[cursor] in s.events;
  }

  // ----- what a device can rely on -----

  /** Sending a committed asset again is a no-op: it is answered with the stored target
      and neither the rows nor the log change. */
  lemma RepeatIsSkipped(site: Site, s: Ledger, m: Manifest, sid: SessionId, fault: Fault, busy: bool)
    requires Inv(site, s)
    requires m.key in s.rows && s.rows[m.key].state == Committed && SameContent(s.rows[m.key], m)
    ensures var row := s.rows[m.key];
            Preflight(site, s, m, sid, fault, busy) == (s, Ok(Skip(row.target, row.conflict)))
  {
    assert RowInv(s, m.key);
    LastEventLogged(s.events, m.key);
  }

  lemma {:induction false} LastEventLogged(events: seq<Event>, k: Key)
    requires LastEvent(events, k).Some?
    ensures LastEvent(events, k).value in events
  {
    if events[|events| - 1].key != k {
      LastEventLogged(events[..|events| - 1], k);
    }
  }

  /** An upload is never directed at a file that any event already names: neither the
      path it answers with nor the path it will create is one. */
  lemma UploadAvoidsLoggedFiles(site: Site, s: Ledger, m: Manifest, sid: SessionId, fault: Fault, busy: bool, e: Event)
    requires Inv(site, s) && e in s.events
    requires Preflight(site, s, m, sid, fault, busy).1.Ok?
    requires Preflight(site, s, m, sid, fault, busy).1.value.Upload?
    ensures var target := Preflight(site, s, m, sid, fault, busy).1.value.target;
            && Resolved(target) != Resolved(e.target)
            && target != [] && UploadPath(target) != Resolved(e.target)
  {
    hide RowInv, UniqueSessions, Resolved, UploadPath, Preflight;
    assert Matches(s.fs, site.hash, e.target, e.sha, e.size);
    UploadAnswer(site, s, m, sid, fault, busy);
    UploadIsNew(site, s, m, sid, fault, busy);
    PreflightKeeps(site, s, m, sid, fault, busy);
    assert Resolved(e.target) in Preflight(site, s, m, sid, fault, busy).0.fs.entries;
  }

  /** A session belongs to one device: nobody else can read, extend, finish or cancel it. */
  lemma ForeignDeviceRefused(site: Site, s: Ledger, owner: string, other: string, sid: SessionId,
                             offset: nat, data: Bytes, fault: Fault, busy: bool)
    requires Inv(site, s)
    requires Owned(s, owner, sid) != Err(UploadNotFound) && other != owner
    ensures AppendChunk(s, other, sid, offset, data, fault) == (s, Err(UploadNotFound))
    ensures Complete(site, s, other, sid, fault, busy) == (s, Err(UploadNotFound))
    ensures Cancel(s, other, sid) == (s, Err(UploadNotFound))
  {
    var k :| Owns(s.rows, owner, sid, k);
    assert forall j :: !Owns(s.rows, other, sid, j);
  }

  lemma OwnedIs(s: Ledger, device: string, sid: SessionId, k: Key)
    requires UniqueSessions(s.rows) && Owns(s.rows, device, sid, k)
    ensures Owned(s, device, sid) == if (device, k.scope) in s.grants then Ok(k) else Err(Forbidden)
  {
  }

  /** When the bytes have arrived and verify and nothing fails, the first `complete`
      commits the row exactly when its target is trimmed: the upload is created under a
      stripped name, and a row whose name is not its own stripped form is refused. */
  lemma CompletesIffTrimmed(site: Site, s: Ledger, device: string, sid: SessionId, k: Key)
    requires Inv(site, s)
    requires Owned(s, device, sid) == Ok(k)
    requires Finish(s.fs, site.hash, sid, NoFault).Ok?
    ensures Complete(site, s, device, sid, NoFault, false).1
            == if Trimmed(s.rows[k].target) then Ok(|s.events| + 1) else Err(TargetChanged)
  {
    OwnedSound(s, device, sid);
    assert RowInv(s, k);
    UploadPathFixed(s.rows[k].target);
  }

  /** Once a session is gone, `complete` commits its row exactly when the wanted file is
      at the place the row's target resolves to. */
  lemma LostSessionCompletesIff(site: Site, s: Ledger, device: string, sid: SessionId, k: Key, fault: Fault)
    requires Owned(s, device, sid) == Ok(k) && sid !in s.fs.sessions
    ensures k in s.rows
    ensures Complete(site, s, device, sid, fault, false).1
            == if Matches(s.fs, site.hash, s.rows[k].target, s.rows[k].sha, s.rows[k].size)
               then Ok(|s.events| + 1) else Err(UploadExpired)
  {
    OwnedSound(s, device, sid);
  }

  /** Both ways of reading a target agree. */
  predicate ReadsBack(target: Path) {
    target != [] && UploadPath(target) == Resolved(target)
  }

  /** That is so for a usable name exactly when the name does not begin with whitespace
      and the folder neither ends with it nor is a dot part. */
  lemma ReadsBackIff(p: Path)
    requires p != [] && GoodName(Strip(p[|p| - 1]))
    ensures ReadsBack(p) <==>
            && !IsSpace(p[|p| - 1][0])
            && (|p| >= 2 ==> p[|p| - 2] !in {"", ".", ".."} && !IsSpace(p[|p| - 2][|p[|p| - 2]| - 1]))
    ensures Trimmed(p) ==> ReadsBack(p)
  {
    hide RStrip, LStrip, Resolved;
    var init, name := p[..|p| - 1], p[|p| - 1];
    var last := RStrip(name);
    ResolvedUsable(p);
    var folder := Resolved(init);
    assert (folder + [Strip(name)])[..|folder|] == folder && (folder + [Strip(name)])[|folder|] == Strip(name);
    assert (init + [last])[..|init|] == init && (init + [last])[|init|] == last;
    assert ReadsBack(p) <==> folder == init && Strip(name) == last;
    if init == [] {
      assert folder == [] by {
        RootResolved();
      }
    } else {
      ResolvedFixed(init);
    }
  }

  lemma RootResolved()
    ensures Resolved([]) == []
  {
  }

  /** A usable name survives the stripping on the right. */
  lemma ResolvedUsable(p: Path)
    requires p != [] && GoodName(Strip(p[|p| - 1]))
    ensures var name := p[|p| - 1];
            Resolved(p) == p[..|p| - 1] + [RStrip(name)]
            && name != "" && RStrip(name) != "" && name[0] == RStrip(name)[0]
            && (Strip(name) == RStrip(name) <==> !IsSpace(name[0]))
  {
    var last := RStrip(p[|p| - 1]);
    assert last == "." || last == ".." ==> LStrip(last) == last;
  }

  /** A first `complete` that was refused for its target can be repeated.  At any later
      moment, as long as the row still holds the session, the repeated call commits the
      row exactly when the wanted file is where the target resolves to.  The stored bytes
      themselves stay there if both readings of the target agree. */
  lemma RefusedUploadRetries(site: Site, s: Ledger, device: string, sid: SessionId, k: Key, later: seq<Op>, fault: Fault)
    requires Inv(site, s) && Owned(s, device, sid) == Ok(k)
    requires Finish(s.fs, site.hash, sid, NoFault).Ok? && !Trimmed(s.rows[k].target)
    ensures var row := s.rows[k];
            var t := Complete(site, s, device, sid, NoFault, false).0;
            var u := Run(site, t, later);
            && (ReadsBack(row.target) ==> Matches(u.fs, site.hash, row.target, row.sha, row.size))
            && (Owned(u, device, sid) == Ok(k) && u.rows[k] == row && sid !in u.fs.sessions ==>
                  Complete(site, u, device, sid, fault, false).1
                  == if Matches(u.fs, site.hash, row.target, row.sha, row.size)
                     then Ok(|u.events| + 1) else Err(UploadExpired))
  {
    hide Complete, Run, Resolved, Strip, Trimmed, Matches;
    var row := s.rows[k];
    RefusedUploadStores(site, s, device, sid, k);
    var t := Complete(site, s, device, sid, NoFault, false).0;
    CompleteKeeps(site, s, device, sid, NoFault, false);
    RunKeeps(site, t, later);
    var u := Run(site, t, later);
    if ReadsBack(row.target) {
      MatchesGrows(t.fs, u.fs, site.hash, row.target, row.sha, row.size);
    }
    if Owned(u, device, sid) == Ok(k) && sid !in u.fs.sessions {
      LostSessionCompletesIff(site, u, device, sid, k, fault);
    }
  }

  lemma MatchesGrows(fs: FileState, after: FileState, hash: Hash, p: Path, sha: string, size: nat)
    requires Matches(fs, hash, p, sha, size) && Preserves(fs.entries, after.entries)
    ensures Matches(after, hash, p, sha, size)
  {
  }

  /** What a refused first `complete` leaves: the file, no session, and the row. */
  lemma RefusedUploadStores(site: Site, s: Ledger, device: string, sid: SessionId, k: Key)
    requires Inv(site, s) && Owned(s, device, sid) == Ok(k)
    requires Finish(s.fs, site.hash, sid, NoFault).Ok? && !Trimmed(s.rows[k].target)
    ensures var row := s.rows[k];
            var t := Complete(site, s, device, sid, NoFault, false).0;
            && row.target != [] && sid in s.fs.sessions
            && t == s.(fs := FileState(s.fs.entries[UploadPath(row.target) := File(s.fs.sessions[sid].data)],
                                       s.fs.sessions - {sid}))
            && Owned(t, device, sid) == Ok(k)
            && (Matches(t.fs, site.hash, row.target, row.sha, row.size) <==>
                  ReadsBack(row.target) || Matches(s.fs, site.hash, row.target, row.sha, row.size))
  {
    hide Resolved, Strip, Trimmed, LastEvent, UniqueSessions, EventsHold;
    OwnedSound(s, device, sid);
    assert RowInv(s, k);
    UploadPathFixed(s.rows[k].target);
    var t := Complete(site, s, device, sid, NoFault, false).0;
    assert t.rows == s.rows && t.grants == s.grants;
    SameOwner(s, t, device, sid);
  }

  lemma SameOwner(s: Ledger, t: Ledger, device: string, sid: SessionId)
    requires t.rows == s.rows && t.grants == s.grants && UniqueSessions(s.rows)
    ensures Owned(t, device, sid) == Owned(s, device, sid)
  {
    if k :| Owns(s.rows, device, sid, k) {
      OwnedIs(s, device, sid, k);
      OwnedIs(t, device, sid, k);
    }
  }

  /** Right after the refusal, asking again (by another `complete` or by another
      preflight of the asset, if the row has its first target) commits the upload exactly
      when both readings of the target agree, or the wanted file happens to be at the
      resolved place already. */
  lemma RefusedUploadCompletableIff(site: Site, s: Ledger, m: Manifest, sid: SessionId, unused: SessionId, fault: Fault)
    requires Inv(site, s) && Owned(s, m.key.device, sid) == Ok(m.key)
    requires Finish(s.fs, site.hash, sid, NoFault).Ok? && !Trimmed(s.rows[m.key].target)
    ensures var row := s.rows[m.key];
            var t := Complete(site, s, m.key.device, sid, NoFault, false).0;
            var there := ReadsBack(row.target) || Matches(s.fs, site.hash, row.target, row.sha, row.size);
            && Complete(site, t, m.key.device, sid, fault, false).1
               == (if there then Ok(|s.events| + 1) else Err(UploadExpired))
            && (SameContent(row, m) && row.target == TargetFor(site, m) ==>
                  var (u, r) := Preflight(site, t, m, unused, fault, false);
                  if there
                  then r == Ok(Skip(row.target, false))
                       && u.events == s.events + [Event(m.key, row.target, row.sha, row.size, false)]
                  else u.events == s.events && !(r.Ok? && r.value.Skip?))
  {
    hide Complete, Preflight, TargetFor, Resolved, Strip, Trimmed, LastEvent, RowInv, UniqueSessions, EventsHold;
    RefusedUploadStores(site, s, m.key.device, sid, m.key);
    OwnedSound(s, m.key.device, sid);
    var t := Complete(site, s, m.key.device, sid, NoFault, false).0;
    LostSessionCompletesIff(site, t, m.key.device, sid, m.key, fault);
    if SameContent(s.rows[m.key], m) && s.rows[m.key].target == TargetFor(site, m) {
      PreflightAgain(site, t, m, sid, unused, fault);
    }
  }

  /** A preflight of an asset whose upload has lost its session. */
  lemma PreflightAgain(site: Site, s: Ledger, m: Manifest, sid: SessionId, unused: SessionId, fault: Fault)
    requires Owns(s.rows, m.key.device, sid, m.key) && sid !in s.fs.sessions
    requires SameContent(s.rows[m.key], m) && s.rows[m.key].target == TargetFor(site, m)
    ensures var (u, r) := Preflight(site, s, m, unused, fault, false);
            var target := s.rows[m.key].target;
            if Matches(s.fs, site.hash, target, m.sha, m.size)
            then r == Ok(Skip(target, false)) && u.events == s.events + [Event(m.key, target, m.sha, m.size, false)]
            else u.events == s.events && !(r.Ok? && r.value.Skip?)
  {
    hide Resolved, TargetFor, ConflictTarget, BeginUpload;
    var fs := Drop(s.fs, {sid});
    var target := TargetFor(site, m);
    assert Matches(fs, site.hash, target, m.sha, m.size) <==> Matches(s.fs, site.hash, target, m.sha, m.size);
    var plan := PlanUpload(site, s.rows, fs, m);
    if plan.Begin? {
      BeginsOrFails(s.(fs := fs), m, plan.target, plan.conflict, unused, fault, false);
    }
  }

  lemma BeginsOrFails(s: Ledger, m: Manifest, target: Path, conflict: bool, sid: SessionId, fault: Fault, busy: bool)
    requires target != []
    ensures var (u, r) := BeginUpload(s, m, target, conflict, sid, fault, busy);
            u.events == s.events && !(r.Ok? && r.value.Skip?)
  {
    hide Resolved, Blocked, WithFolders, CreateSession;
  }

  /** The first target of an asset is trimmed exactly when its source path is. */
  lemma TargetTrimmedIffSource(site: Site, m: Manifest)
    requires m.source != []
    ensures Trimmed(TargetFor(site, m)) <==> Trimmed(m.source)
  {
    var t, n := TargetFor(site, m), |m.source|;
    assert t[|t| - 1] == m.source[n - 1];
    if n >= 2 {
      assert t[|t| - 2] == m.source[n - 2];
    } else {
      assert t[|t| - 2] == "Photos" || t[|t| - 2] == "Files";
    }
  }

  /** What an "upload" answer leaves behind. */
  lemma UploadAnswer(site: Site, s: Ledger, m: Manifest, sid: SessionId, fault: Fault, busy: bool)
    requires Inv(site, s)
    requires Preflight(site, s, m, sid, fault, busy).1.Ok?
    requires Preflight(site, s, m, sid, fault, busy).1.value.Upload?
    ensures var (s1, r) := Preflight(site, s, m, sid, fault, busy);
            var target := r.value.target;
            && target != [] && r.value.session == sid
            && s1.grants == s.grants && s1.events == s.events
            && m.key in s1.rows && s1.rows[m.key] == NewRow(s.rows, m, target, r.value.conflict, Some(sid))
            && sid in s1.fs.sessions && s1.fs.sessions[sid] == Session(UploadPath(target), m.size, m.sha, [])
            && UploadPath(target) !in s1.fs.entries
  {
    hide Inv, Matches, Resolved, Blocked, Strip, GoodName;
  }

  /** Sending chunk after chunk, each at the end of what has arrived. */
  ghost function SendAll(s: Ledger, device: string, sid: SessionId, offset: nat, chunks: seq<Bytes>): Ledger
    decreases |chunks|
  {
    if chunks == [] then s
    else
      SendAll(AppendChunk(s, device, sid, offset, chunks[0], NoFault).0, device, sid, offset + |chunks[0]|, chunks[1..])
  }

  function Joined(chunks: seq<Bytes>): Bytes {
    if chunks == [] then [] else chunks[0] + Joined(chunks[1..])
  }

  /** An upload in any number of chunks leaves the session with their concatenation. */
  lemma {:induction false} ChunksConcatenate(s: Ledger, k: Key, sid: SessionId, x: Session, chunks: seq<Bytes>)
    requires UniqueSessions(s.rows) && Owns(s.rows, k.device, sid, k) && (k.device, k.scope) in s.grants
    requires sid in s.fs.sessions && s.fs.sessions[sid] == x && |x.data| + |Joined(chunks)| <= x.size
    requires forall c :: c in chunks ==> 0 < |c| <= MAX_CHUNK
    ensures SendAll(s, k.device, sid, |x.data|, chunks)
            == s.(fs := s.fs.(sessions := s.fs.sessions[sid := x.(data := x.data + Joined(chunks))]))
    decreases |chunks|
  {
    hide Owned, Owns;
    if chunks == [] {
      assert x.data + [] == x.data;
      assert s.fs.sessions[sid := x] == s.fs.sessions;
    } else {
      OwnedIs(s, k.device, sid, k);
      assert chunks[0] in chunks && forall c :: c in chunks[1..] ==> c in chunks;
      var y := x.(data := x.data + chunks[0]);
      var t := AppendChunk(s, k.device, sid, |x.data|, chunks[0], NoFault).0;
      assert t == s.(fs := s.fs.(sessions := s.fs.sessions[sid := y]));
      ChunksConcatenate(t, k, sid, y, chunks[1..]);
      assert y.data + Joined(chunks[1..]) == x.data + Joined(chunks);
      assert t.fs.sessions[sid := y.(data := y.data + Joined(chunks[1..]))]
             == s.fs.sessions[sid := x.(data := x.data + Joined(chunks))];
    }
  }

  /** All chunks arrive and the session is finished. */
  lemma SendAndFinish(site: Site, s: Ledger, k: Key, sid: SessionId, chunks: seq<Bytes>)
    requires Inv(site, s) && (k.device, k.scope) in s.grants && Owns(s.rows, k.device, sid, k)
    requires forall c :: c in chunks ==> 0 < |c| <= MAX_CHUNK
    requires s.rows[k].target != [] && sid in s.fs.sessions
    requires s.fs.sessions[sid] == Session(UploadPath(s.rows[k].target), |Joined(chunks)|, site.hash(Joined(chunks)), [])
    requires UploadPath(s.rows[k].target) !in s.fs.entries
    ensures var row := s.rows[k];
            var s2 := SendAll(s, k.device, sid, 0, chunks);
            var (s3, done) := Complete(site, s2, k.device, sid, NoFault, false);
            if Trimmed(row.target)
            then done == Ok(|s.events| + 1)
                 && s3.events == s.events + [Event(k, row.target, row.sha, row.size, row.conflict)]
                 && row.target in s3.fs.entries && s3.fs.entries[row.target] == File(Joined(chunks))
            else done == Err(TargetChanged)
  {
    hide Resolved, RStrip, Strip, Matches, RowInv, UniqueSessions, EventsHold, SendAll, Trimmed, GoodName;
    var row, x, data := s.rows[k], s.fs.sessions[sid], Joined(chunks);
    assert UniqueSessions(s.rows) by {
      assert Inv(site, s);
    }
    OwnedIs(s, k.device, sid, k);
    ChunksConcatenate(s, k, sid, x, chunks);
    assert [] + data == data;
    var s2 := SendAll(s, k.device, sid, 0, chunks);
    FilesKeepInv(site, s, s2.fs);
    OwnedIs(s2, k.device, sid, k);
    CompletesIffTrimmed(site, s2, k.device, sid, k);
    UploadPathFixed(row.target);
  }

  /** Round trip of one asset: preflight, any number of chunks, complete.  It ends with
      exactly the sent bytes stored at the answered target and one new event, precisely
      when that target is trimmed. */
  lemma UploadRoundTrip(site: Site, s: Ledger, m: Manifest, sid: SessionId, chunks: seq<Bytes>)
    requires Inv(site, s) && (m.key.device, m.key.scope) in s.grants
    requires forall c :: c in chunks ==> 0 < |c| <= MAX_CHUNK
    requires |Joined(chunks)| == m.size && site.hash(Joined(chunks)) == m.sha
    requires Preflight(site, s, m, sid, NoFault, false).1.Ok?
    requires Preflight(site, s, m, sid, NoFault, false).1.value.Upload?
    ensures var (s1, r) := Preflight(site, s, m, sid, NoFault, false);
            var target := r.value.target;
            var s2 := SendAll(s1, m.key.device, sid, 0, chunks);
            var (s3, done) := Complete(site, s2, m.key.device, sid, NoFault, false);
            && target != []
            && (done.Ok? <==> Trimmed(target))
            && (done.Ok? ==>
                  && target in s3.fs.entries && s3.fs.entries[target] == File(Joined(chunks))
                  && s3.events == s.events + [Event(m.key, target, m.sha, m.size, r.value.conflict)]
                  && done.value == |s3.events|)
  {
    hide Preflight, Complete, Inv, SendAll;
    PreflightKeeps(site, s, m, sid, NoFault, false);
    UploadAnswer(site, s, m, sid, NoFault, false);
    SendAndFinish(site, Preflight(site, s, m, sid, NoFault, false).0, m.key, sid, chunks);
  }

  /** An upload starts where no file is, under a usable name. */
  lemma UploadIsNew(site: Site, s: Ledger, m: Manifest, sid: SessionId, fault: Fault, busy: bool)
    requires Inv(site, s)
    requires Preflight(site, s, m, sid, fault, busy).1.Ok?
    requires Preflight(site, s, m, sid, fault, busy).1.value.Upload?
    ensures var (s1, r) := Preflight(site, s, m, sid, fault, busy);
            var target := r.value.target;
            && target != [] && GoodName(Strip(target[|target| - 1])) && Resolved(target) !in s.fs.entries
            && !Matches(s1.fs, site.hash, target, m.sha, m.size)
  {
    hide Inv, Resolved, Blocked, Strip, GoodName, ConflictTarget, TargetFor;
    var (s1, r) := Preflight(site, s, m, sid, fault, busy);
    var folder, place := Resolved(r.value.target[..|r.value.target| - 1]), Resolved(r.value.target);
    assert s1.fs.entries == WithFolders(s.fs.entries, folder) && place !in s.fs.entries;
    if place in s1.fs.entries {
      FoldersOnly(s.fs.entries, folder, place);
    }
  }

  lemma {:induction false} FoldersOnly(entries: map<Path, Entry>, folder: Path, p: Path)
    requires p in WithFolders(entries, folder) && p !in entries
    ensures WithFolders(entries, folder)[p].Folder?
  {
    if folder != [] && p in WithFolders(entries, folder[..|folder| - 1]) {
      FoldersOnly(entries, folder[..|folder| - 1], p);
    }
  }

  /** Round trip with a second `complete` where the first is refused: the upload ends
      committed, with exactly the sent bytes where its target resolves to and one new
      event, precisely when both readings of the answered target agree. */
  lemma UploadRetried(site: Site, s: Ledger, m: Manifest, sid: SessionId, chunks: seq<Bytes>, fault: Fault)
    requires Inv(site, s) && (m.key.device, m.key.scope) in s.grants
    requires forall c :: c in chunks ==> 0 < |c| <= MAX_CHUNK
    requires |Joined(chunks)| == m.size && site.hash(Joined(chunks)) == m.sha
    requires Preflight(site, s, m, sid, NoFault, false).1.Ok?
    requires Preflight(site, s, m, sid, NoFault, false).1.value.Upload?
    ensures var (s1, r) := Preflight(site, s, m, sid, NoFault, false);
            var target := r.value.target;
            var s2 := SendAll(s1, m.key.device, sid, 0, chunks);
            var (s3, done) := Complete(site, s2, m.key.device, sid, NoFault, false);
            var (s4, again) := if done.Ok? then (s3, done) else Complete(site, s3, m.key.device, sid, fault, false);
            && (again.Ok? <==> ReadsBack(target))
            && (again.Ok? ==>
                  && Resolved(target) in s4.fs.entries && s4.fs.entries[Resolved(target)] == File(Joined(chunks))
                  && s4.events == s.events + [Event(m.key, target, m.sha, m.size, r.value.conflict)])
  {
    hide Preflight, Complete, Inv, SendAll, Trimmed, Resolved, Strip, GoodName, Matches, ReadsBack;
    UploadRoundTrip(site, s, m, sid, chunks);
    UploadIsNew(site, s, m, sid, NoFault, false);
    UploadAnswer(site, s, m, sid, NoFault, false);
    PreflightKeeps(site, s, m, sid, NoFault, false);
    var (s1, r) := Preflight(site, s, m, sid, NoFault, false);
    var target := r.value.target;
    ReadsBackIff(target);
    var s2 := SendAll(s1, m.key.device, sid, 0, chunks);
    var (s3, done) := Complete(site, s2, m.key.device, sid, NoFault, false);
    if done.Ok? {
      TrimmedReads(target);
    } else {
      RetryAfterSend(site, s1, m.key, sid, chunks, fault);
    }
  }

  lemma TrimmedReads(p: Path)
    requires Trimmed(p) && ReadsBack(p)
    ensures Resolved(p) == p
  {
    UploadPathFixed(p);
  }

  /** Both calls after all chunks of an untrimmed upload. */
  lemma RetryAfterSend(site: Site, s: Ledger, k: Key, sid: SessionId, chunks: seq<Bytes>, fault: Fault)
    requires Inv(site, s) && (k.device, k.scope) in s.grants && k in s.rows && Owns(s.rows, k.device, sid, k)
    requires forall c :: c in chunks ==> 0 < |c| <= MAX_CHUNK
    requires s.rows[k].target != [] && sid in s.fs.sessions && !Trimmed(s.rows[k].target)
    requires s.rows[k].size == |Joined(chunks)| && s.rows[k].sha == site.hash(Joined(chunks))
    requires s.fs.sessions[sid] == Session(UploadPath(s.rows[k].target), |Joined(chunks)|, site.hash(Joined(chunks)), [])
    requires UploadPath(s.rows[k].target) !in s.fs.entries
    requires !Matches(s.fs, site.hash, s.rows[k].target, s.rows[k].sha, s.rows[k].size)
    ensures var row := s.rows[k];
            var s2 := SendAll(s, k.device, sid, 0, chunks);
            var s3 := Complete(site, s2, k.device, sid, NoFault, false).0;
            var (s4, again) := Complete(site, s3, k.device, sid, fault, false);
            if ReadsBack(row.target)
            then again == Ok(|s.events| + 1)
                 && s4.events == s.events + [Event(k, row.target, row.sha, row.size, row.conflict)]
                 && Resolved(row.target) in s4.fs.entries && s4.fs.entries[Resolved(row.target)] == File(Joined(chunks))
            else again == Err(UploadExpired)
  {
    hide Resolved, Strip, RowInv, UniqueSessions, EventsHold, SendAll, Trimmed, GoodName, Owns;
    var row, x, data := s.rows[k], s.fs.sessions[sid], Joined(chunks);
    assert UniqueSessions(s.rows) by {
      assert Inv(site, s);
    }
    ChunksConcatenate(s, k, sid, x, chunks);
    assert [] + data == data;
    var s2 := SendAll(s, k.device, sid, 0, chunks);
    FilesKeepInv(site, s, s2.fs);
    OwnedIs(s2, k.device, sid, k);
    RefusedUploadStores(site, s2, k.device, sid, k);
    var s3 := Complete(site, s2, k.device, sid, NoFault, false).0;
    LostSessionCompletesIff(site, s3, k.device, sid, k, fault);
  }

  // ----- uploads in parts, stopped uploads -----

  /** An interrupted upload is resumed: asking again for the same asset changes nothing
      and answers with the same target, however much has arrived. */
  lemma PreflightResumes(site: Site, s: Ledger, m: Manifest, sid: SessionId, unused: SessionId, fault: Fault, busy: bool)
    requires Owns(s.rows, m.key.device, sid, m.key) && SameContent(s.rows[m.key], m) && sid in s.fs.sessions
    ensures Preflight(site, s, m, unused, fault, busy) == (s, Ok(Resume(s.rows[m.key].target, s.rows[m.key].conflict)))
  {
  }

  /** A chunk that is only partly stored can be continued: the refused offset tells how
      much has arrived, and sending the rest from there gives the whole chunk. */
  lemma TornChunkContinues(fs: FileState, sid: SessionId, data: Bytes, stored: nat)
    requires sid in fs.sessions && 0 < stored < |data| <= MAX_CHUNK
    requires |fs.sessions[sid].data| + |data| <= fs.sessions[sid].size
    ensures var offset := |fs.sessions[sid].data|;
            var torn := Append(fs, sid, offset, data, Torn(stored)).0;
            && Append(torn, sid, offset, data, NoFault) == (torn, Err(BadOffset(offset + stored)))
            && Append(torn, sid, offset + stored, data[stored..], NoFault) == Append(fs, sid, offset, data, NoFault)
  {
    var x := fs.sessions[sid];
    assert x.data + data[..stored] + data[stored..] == x.data + data;
    var half, whole := x.(data := x.data + data[..stored]), x.(data := x.data + data);
    assert fs.sessions[sid := half][sid := whole] == fs.sessions[sid := whole];
  }

  /** Withdrawing a scope stops exactly the uploads that used it: none is left, their
      sessions are gone and refused, and every other row and session is as before. */
  lemma ScopeOffStopsUploads(site: Site, s: Ledger, device: string, scope: Scope, k: Key, sid: SessionId,
                             offset: nat, data: Bytes, fault: Fault)
    requires Inv(site, s) && Owns(s.rows, device, sid, k) && k.scope == scope
    ensures var t := SetScope(s, device, scope, false);
            && (forall j :: j in t.rows && j.device == device && j.scope == scope ==> t.rows[j].state != Uploading)
            && (forall j :: j in s.rows && !(j.device == device && j.scope == scope) ==> j in t.rows && t.rows[j] == s.rows[j])
            && sid !in t.fs.sessions && (device, scope) !in t.grants
            && AppendChunk(t, device, sid, offset, data, fault) == (t, Err(UploadNotFound))
  {
    var t := SetScope(s, device, scope, false);
    assert forall j :: j in t.rows && t.rows[j].session == Some(sid) ==> j == k;
    assert forall j :: !Owns(t.rows, device, sid, j);
  }

  /** After a cancel the session is gone: it can be neither continued, finished nor
      cancelled again, and the next preflight of the asset starts anew. */
  lemma CancelledIsGone(site: Site, s: Ledger, device: string, sid: SessionId, k: Key,
                        offset: nat, data: Bytes, fault: Fault, busy: bool)
    requires Inv(site, s) && Owned(s, device, sid) == Ok(k)
    ensures var t := Cancel(s, device, sid).0;
            && t.rows[k].state == Cancelled && sid !in t.fs.sessions && t.events == s.events
            && AppendChunk(t, device, sid, offset, data, fault) == (t, Err(UploadNotFound))
            && Complete(site, t, device, sid, fault, busy) == (t, Err(UploadNotFound))
            && Cancel(t, device, sid) == (t, Err(UploadNotFound))
  {
    OwnedSound(s, device, sid);
    var t := Cancel(s, device, sid).0;
    assert forall j :: j in t.rows && t.rows[j].session == Some(sid) ==> j == k;
    assert forall j :: !Owns(t.rows, device, sid, j);
  }
}
