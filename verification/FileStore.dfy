/** The part of the file manager that device sync relies on: a tree of files, and
    resumable upload sessions that never overwrite. */
module FileStore {
  import opened Wrappers
  import opened SyncPaths
  import opened Texts
  import opened ByteStrings

  type SessionId = string

  const MAX_CHUNK: nat := 8 * 1024 * 1024

  datatype Entry = File(content: Bytes) | Folder

  /** An upload in progress; `data` is what its temporary file holds. */
  datatype Session = Session(target: Path, size: nat, sha: string, data: Bytes)

  datatype FileState = FileState(entries: map<Path, Entry>, sessions: map<SessionId, Session>)

  /** What the disk does during one call: nothing special, a refusal for space, quota
      or session limits, or an append that stores only a prefix of the chunk. */
  datatype Fault = NoFault | StorageFault | Torn(stored: nat)

  datatype FileError =
    | InvalidName | NotADirectory | TargetTaken | NoSpace | SessionMissing
    | EmptyChunk | ChunkTooLarge | BadOffset(expected: nat) | Overflow | Incomplete | HashMismatch

  /** SHA-256 is any function of the content. */
  type Hash = Bytes -> string

  predicate Exists(fs: FileState, p: Path) {
    Resolved(p) in fs.entries
  }

  /** `_matching_file`: the path names a regular file with this digest and size. */
  predicate Matches(fs: FileState, hash: Hash, p: Path, sha: string, size: nat) {
    && Resolved(p) in fs.entries
    && fs.entries[Resolved(p)].File?
    && hash(fs.entries[Resolved(p)].content) == sha
    && |fs.entries[Resolved(p)].content| == size
  }

  /** Some part of the folder path is a regular file. */
  predicate Blocked(entries: map<Path, Entry>, folder: Path) {
    exists i :: 0 < i <= |folder| && folder[..i] in entries && entries[folder[..i]].File?
  }

  /** `mkdir -p`: every missing folder on the way is added, nothing is replaced. */
  function WithFolders(entries: map<Path, Entry>, folder: Path): map<Path, Entry> {
    if folder == [] then entries
    else
      var rest := WithFolders(entries, folder[..|folder| - 1]);
      if folder in rest then rest else rest[folder := Folder]
  }

  function Drop(fs: FileState, sids: set<SessionId>): FileState {
    fs.(sessions := fs.sessions - sids)
  }

  function CreateSession(fs: FileState, p: Path, size: nat, sha: string, sid: SessionId, fault: Fault)
    : Result<FileState, FileError>
    requires p != []
  {
    var folder, name := Resolved(p[..|p| - 1]), Strip(p[|p| - 1]);
    if !GoodName(name) then Err(InvalidName)
    else if folder != [] && (folder !in fs.entries || fs.entries[folder].File?) then Err(NotADirectory)
    else if UploadPath(p) in fs.entries then Err(TargetTaken)
    else if fault != NoFault || sid in fs.sessions then Err(NoSpace)
    else Ok(fs.(sessions := fs.sessions[sid := Session(UploadPath(p), size, sha, [])]))
  }

  function Append(fs: FileState, sid: SessionId, offset: nat, data: Bytes, fault: Fault)
    : (FileState, Result<nat, FileError>)
  {
    if data == [] then (fs, Err(EmptyChunk))
    else if |data| > MAX_CHUNK then (fs, Err(ChunkTooLarge))
    else if sid !in fs.sessions then (fs, Err(SessionMissing))
    else
      var x := fs.sessions[sid];
      if offset != |x.data| then (fs, Err(BadOffset(|x.data|)))
      else if offset + |data| > x.size then (fs, Err(Overflow))
      else match fault
        case StorageFault => (fs, Err(NoSpace))
        case Torn(n) =>
          var part := if n <= |data| then data[..n] else data;
          (fs.(sessions := fs.sessions[sid := x.(data := x.data + part)]), Err(NoSpace))
        case NoFault =>
          (fs.(sessions := fs.sessions[sid := x.(data := x.data + data)]), Ok(|x.data| + |data|))
  }

  /** Verified commit of a finished session.  The target is created, never replaced. */
  function Finish(fs: FileState, hash: Hash, sid: SessionId, fault: Fault): Result<FileState, FileError> {
    if sid !in fs.sessions then Err(SessionMissing)
    else
      var x := fs.sessions[sid];
      if |x.data| != x.size then Err(Incomplete)
      else if hash(x.data) != x.sha then Err(HashMismatch)
      else if x.target in fs.entries then Err(TargetTaken)
      else if fault != NoFault then Err(NoSpace)
      else Ok(FileState(fs.entries[x.target := File(x.data)], fs.sessions - {sid}))
  }

  /** Nothing that exists is altered or removed. */
  ghost predicate Preserves(before: map<Path, Entry>, after: map<Path, Entry>) {
    forall p :: p in before ==> p in after && after[p] == before[p]
  }

  lemma {:induction false} WithFoldersPreserves(entries: map<Path, Entry>, folder: Path)
    ensures Preserves(entries, WithFolders(entries, folder))
    ensures folder != [] ==> folder in WithFolders(entries, folder)
    ensures !Blocked(entries, folder) && folder != [] ==> WithFolders(entries, folder)[folder].Folder?
  {
    if folder != [] {
      var init := folder[..|folder| - 1];
      WithFoldersPreserves(entries, init);
      assert folder[..|folder|] == folder;
      if folder in WithFolders(entries, init) {
        WithFoldersOnlyPrefixes(entries, init, folder);
      }
    }
  }

  lemma {:induction false} WithFoldersOnlyPrefixes(entries: map<Path, Entry>, folder: Path, p: Path)
    requires p in WithFolders(entries, folder) && |p| > |folder|
    ensures p in entries && WithFolders(entries, folder)[p] == entries[p]
  {
    if folder != [] {
      WithFoldersOnlyPrefixes(entries, folder[..|folder| - 1], p);
    }
  }

  /** The file manager as an object; `State()` is the value the functions above act on. */
  class FileManager {
    const hash: Hash
    var entries: map<Path, Entry>
    var sessions: map<SessionId, Session>

    ghost function State(): FileState
      reads this
    {
      FileState(entries, sessions)
    }

    constructor (hash: Hash)
      ensures this.hash == hash && State() == FileState(map[], map[])
    {
      this.hash := hash;
      entries, sessions := map[], map[];
    }

    /** `mkdir` of the parent folder; an existing folder is not an error. */
    method EnsureFolder(folder: Path) returns (r: Result<(), FileError>)
      modifies this`entries
      ensures sessions == old(sessions)
      ensures r == if Blocked(old(entries), folder) then Err(NotADirectory) else Ok(())
      ensures entries == if Blocked(old(entries), folder) then old(entries) else WithFolders(old(entries), folder)
    {
      for i := 1 to |folder| + 1
        invariant forall j :: 0 < j < i ==> !(folder[..j] in entries && entries[folder[..j]].File?)
      {
        if folder[..i] in entries && entries[folder[..i]].File? {
          return Err(NotADirectory);
        }
      }
      ghost var before := entries;
      for i := 0 to |folder|
        invariant entries == WithFolders(before, folder[..i])
      {
        assert folder[..i + 1][..i] == folder[..i];
        if folder[..i + 1] !in entries {
          entries := entries[folder[..i + 1] := Folder];
        }
      }
      assert folder[..|folder|] == folder;
      r := Ok(());
    }

    method CreateUpload(p: Path, size: nat, sha: string, sid: SessionId, fault: Fault)
      returns (r: Result<(), FileError>)
      requires p != []
      modifies this`sessions
      ensures match CreateSession(old(State()), p, size, sha, sid, fault)
              case Ok(after) => r == Ok(()) && State() == after
              case Err(e) => r == Err(e) && State() == old(State())
    {
      var folder, name := Resolved(p[..|p| - 1]), Strip(p[|p| - 1]);
      if !GoodName(name) {
        return Err(InvalidName);
      }
      if folder != [] && (folder !in entries || entries[folder].File?) {
        return Err(NotADirectory);
      }
      if UploadPath(p) in entries {
        return Err(TargetTaken);
      }
      if fault != NoFault || sid in sessions {
        return Err(NoSpace);
      }
      sessions := sessions[sid := Session(UploadPath(p), size, sha, [])];
      r := Ok(());
    }

    method AppendChunk(sid: SessionId, offset: nat, data: Bytes, fault: Fault) returns (r: Result<nat, FileError>)
      modifies this`sessions
      ensures (State(), r) == Append(old(State()), sid, offset, data, fault)
    {
      if data == [] {
        return Err(EmptyChunk);
      }
      if |data| > MAX_CHUNK {
        return Err(ChunkTooLarge);
      }
      if sid !in sessions {
        return Err(SessionMissing);
      }
      var x := sessions[sid];
      var current := |x.data|;
      if offset != current {
        return Err(BadOffset(current));
      }
      if offset + |data| > x.size {
        return Err(Overflow);
      }
      if fault == StorageFault {
        return Err(NoSpace);
      }
      var stored := if fault.Torn? && fault.stored <= |data| then fault.stored else |data|;
      assert stored == |data| ==> data[..stored] == data;
      sessions := sessions[sid := x.(data := x.data + data[..stored])];
      r := if fault == NoFault then Ok(current + |data|) else Err(NoSpace);
    }

    method CompleteUpload(sid: SessionId, fault: Fault) returns (r: Result<(Path, string), FileError>)
      modifies this
      ensures match Finish(old(State()), hash, sid, fault)
              case Ok(after) =>
                && State() == after && sid in old(sessions)
                && r == Ok((old(sessions)[sid].target, old(sessions)[sid].sha))
              case Err(e) => r == Err(e) && State() == old(State())
    {
      if sid !in sessions {
        return Err(SessionMissing);
      }
      var x := sessions[sid];
      if |x.data| != x.size {
        return Err(Incomplete);
      }
      var digest := hash(x.data);
      if digest != x.sha {
        return Err(HashMismatch);
      }
      if x.target in entries {
        return Err(TargetTaken);
      }
      if fault != NoFault {
        return Err(NoSpace);
      }
      entries := entries[x.target := File(x.data)];
      sessions := sessions - {sid};
      r := Ok((x.target, digest));
    }

    method CancelUpload(sid: SessionId)
      modifies this`sessions
      ensures State() == Drop(old(State()), {sid})
    {
      sessions := sessions - {sid};
    }
  }
}
