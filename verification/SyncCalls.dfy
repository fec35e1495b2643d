/** What the calls of an upload answer, and what a grant allows. */
module SyncCalls {
  import opened Wrappers
  import opened ByteStrings
  import opened SyncPaths
  import opened Texts
  import opened FileStore
  import opened SyncChanges
  import opened SyncLedger
  import opened SyncLedgerProofs

  /** Nobody but the device that holds an upload under way can act on its session, and only
      while its scope is granted. */
  lemma OwnerAnswers(s: Ledger, device: string, sid: SessionId)
    requires UniqueSessions(s.rows)
    ensures (forall k :: !Owns(s.rows, device, sid, k)) ==> Owned(s, device, sid) == Err(UploadNotFound)
    ensures forall k :: Owns(s.rows, device, sid, k) ==>
              Owned(s, device, sid) == if (device, k.scope) in s.grants then Ok(k) else Err(Forbidden)
  {
    forall k | Owns(s.rows, device, sid, k)
      ensures Owned(s, device, sid) == if (device, k.scope) in s.grants then Ok(k) else Err(Forbidden)
    {
      OwnedIs(s, device, sid, k);
    }
  }

  /** A chunk is taken exactly if it is not empty and at most 8 MiB, begins where the stored
      bytes end, and stays within the declared size, and the disk does not refuse; then the
      answer is how much is stored.  A chunk at any other place is answered with the right
      one and changes nothing. */
  lemma ChunkTaken(s: Ledger, device: string, sid: SessionId, k: Key, offset: nat, data: Bytes, fault: Fault)
    requires UniqueSessions(s.rows) && Owns(s.rows, device, sid, k) && (device, k.scope) in s.grants
    ensures var (t, r) := AppendChunk(s, device, sid, offset, data, fault);
            && (r.Ok? <==>
                  && 0 < |data| <= 8388608 && sid in s.fs.sessions && offset == |s.fs.sessions[sid].data|
                  && offset + |data| <= s.fs.sessions[sid].size && fault == NoFault)
            && (r.Ok? ==>
                  && r.value == offset + |data|
                  && t == s.(fs := s.fs.(sessions :=
                       s.fs.sessions[sid := s.fs.sessions[sid].(data := s.fs.sessions[sid].data + data)])))
            && (0 < |data| <= 8388608 && sid in s.fs.sessions && offset != |s.fs.sessions[sid].data| ==>
                  r == Err(Storage(BadOffset(|s.fs.sessions[sid].data|))) && t == s)
            && (0 < |data| <= 8388608 && sid !in s.fs.sessions ==> r == Err(Storage(SessionMissing)) && t == s)
  {
    hide Owned;
    OwnedIs(s, device, sid, k);
  }

  /** A session is finished exactly if all bytes are there, their digest is the declared one,
      nothing has taken the place meanwhile, and the disk does not refuse; the file then holds
      just those bytes and the session is gone. */
  lemma FinishedIff(fs: FileState, hash: Hash, sid: SessionId, fault: Fault)
    ensures Finish(fs, hash, sid, fault).Ok? <==>
            && sid in fs.sessions && |fs.sessions[sid].data| == fs.sessions[sid].size
            && hash(fs.sessions[sid].data) == fs.sessions[sid].sha
            && fs.sessions[sid].target !in fs.entries && fault == NoFault
    ensures Finish(fs, hash, sid, fault).Ok? ==>
              Finish(fs, hash, sid, fault).value
              == FileState(fs.entries[fs.sessions[sid].target := File(fs.sessions[sid].data)], fs.sessions - {sid})
  {
  }

  /** A grant gives the device its uploads of that scope, and changes nothing else. */
  lemma GrantAllows(s: Ledger, device: string, scope: Scope, sid: SessionId, k: Key)
    requires UniqueSessions(s.rows) && Owns(s.rows, device, sid, k) && k.scope == scope
    ensures var t := SetScope(s, device, scope, true);
            && Owned(t, device, sid) == Ok(k)
            && t.rows == s.rows && t.fs == s.fs && t.events == s.events
            && forall x :: x in t.grants <==> x in s.grants || x == (device, scope)
  {
    OwnedIs(SetScope(s, device, scope, true), device, sid, k);
  }

  /** A cancel is taken from the owner of an upload whose scope is granted, and ends it. */
  lemma CancelTaken(s: Ledger, device: string, sid: SessionId, k: Key)
    requires UniqueSessions(s.rows) && Owns(s.rows, device, sid, k) && (device, k.scope) in s.grants
    ensures var (t, r) := Cancel(s, device, sid);
            && r == Ok(()) && t.rows.Keys == s.rows.Keys
            && t.rows[k] == s.rows[k].(state := Cancelled, session := None)
            && (forall j :: j in s.rows && j != k ==> t.rows[j] == s.rows[j])
            && t.events == s.events && t.grants == s.grants
            && t.fs.entries == s.fs.entries && sid !in t.fs.sessions
            && forall x :: x != sid ==> (x in t.fs.sessions <==> x in s.fs.sessions)
                                        && (x in s.fs.sessions ==> t.fs.sessions[x] == s.fs.sessions[x])
  {
    hide Owned;
    OwnedIs(s, device, sid, k);
  }

  // ----- the event feed -----

  /** A page shows exactly the first events after the cursor that are of the device and of a
      granted scope, by their positions in the log counted from one; at least one and at most
      500 at a time, however many are asked for. */
  lemma PageShows(events: seq<Event>, device: string, scopes: set<Scope>, cursor: nat, limit: int)
    ensures var page := Page(events, device, scopes, cursor, limit);
            && (forall i, j :: 0 <= i < j < |page| ==> page[i] < page[j])
            && forall c: nat :: c in page ==> cursor < c <= |events| && Seen(events[c - 1], device, scopes)
    ensures var page := Page(events, device, scopes, cursor, limit);
            var most := if limit < 1 then 1 else if limit > 500 then 500 else limit;
            && |page| <= most
            && forall c: nat :: cursor < c <= |events| && Seen(events[c - 1], device, scopes) && c !in page ==>
                 |page| == most && forall x :: x in page ==> x < c
  {
    hide Matching;
    MatchingExact(events, device, scopes, cursor);
    var all := Matching(events, device, scopes, cursor);
    var page := Page(events, device, scopes, cursor, limit);
    assert page == all[..|page|];
    forall c: nat | c in page ensures c in all {
      var k :| 0 <= k < |page| && page[k] == c;
      assert all[k] == c;
    }
    forall c: nat | cursor < c <= |events| && Seen(events[c - 1], device, scopes) && c !in page
      ensures |page| == PageSize(limit) && forall x :: x in page ==> x < c
    {
      assert c in all;
      var k :| 0 <= k < |all| && all[k] == c;
      assert k < |page| ==> page[k] == c;
      forall x | x in page ensures x < c {
        var i :| 0 <= i < |page| && page[i] == x;
        assert all[i] == x;
      }
    }
  }

  /** An event of the device and of one of the scopes. */
  predicate Seen(e: Event, device: string, scopes: set<Scope>) {
    e.key.device == device && e.key.scope in scopes
  }
}
