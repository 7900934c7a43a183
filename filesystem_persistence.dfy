/**
 * The filesystem persistence manager: the background pass that reconciles the
 * session storages with the session files, and the loading of session files
 * into the storages at startup.
 */
module FilesystemPersistence {
  import opened Wrappers
  import opened Sessions
  import opened Storage

  // ---------------------------------------------------------------------------
  // The persistence pass

  /** The branch `persist` takes for one session. */
  datatype Action =
    | Skip    // live, unchanged, recently active: nothing to do
    | Evict   // live, unchanged, inactive too long: write the file, drop from memory
    | Write   // live and changed (or never written): write the file, record the checksum
    | Delete  // destroyed and changed: delete the file, drop from memory
    | Keep    // no branch applies: nothing to do

  /**
   * The decision table of `persist` for a session `s` whose stored checksum is
   * `stored` (None when there is none), whose current checksum is `current` and
   * whose last activity lies `ago` seconds back. Exactly one row applies.
   */
  function Decide(s: Session, stored: Option<Checksum>, current: Checksum, ago: int, timeout: int): (a: Action)
    ensures a == Skip <==> IsLive(s.id) && stored == Some(current) && ago < timeout
    ensures a == Evict <==> IsLive(s.id) && stored == Some(current) && ago > timeout
    ensures a == Write <==> IsLive(s.id) && stored != Some(current)
    ensures a == Delete <==> !IsLive(s.id) && stored != Some(current)
    ensures a == Keep <==> stored == Some(current) && (!IsLive(s.id) || ago == timeout)
  {
    if IsLive(s.id) && stored == Some(current) && ago < timeout then Skip
    else if IsLive(s.id) && stored == Some(current) && ago > timeout then Evict
    else if IsLive(s.id) && stored != Some(current) then Write
    else if !IsLive(s.id) && stored != Some(current) then Delete
    else Keep
  }

  /** The branch taken for the session stored under `id`. */
  function ActionAt(st: Snapshot, id: string, now: int, settings: Settings, codec: Codec): Action
    requires id in st.sessions
  {
    var s := st.sessions[id];
    Decide(s, Lookup(st.checksums, id), codec.checksum(s), now - s.lastActivity, settings.inactivityTimeout)
  }

  /** The branch for an id depends only on that id's session and checksum entries. */
  lemma ActionAtSameEntries(st: Snapshot, st': Snapshot, id: string, now: int, settings: Settings, codec: Codec)
    requires Lookup(st.sessions, id) == Lookup(st'.sessions, id) && Lookup(st.checksums, id) == Lookup(st'.checksums, id)
    requires id in st'.sessions
    ensures id in st.sessions && st.sessions[id] == st'.sessions[id]
    ensures ActionAt(st, id, now, settings, codec) == ActionAt(st', id, now, settings, codec)
  {
  }

  /** What a branch does to the storages and to the session's file. */
  function PersistEffect(a: Action, s: Session, codec: Codec): Effect {
    match a
    case Skip => NoEffect
    case Evict => Effect(true, DropSum, WriteFile(codec.marshall(s)))
    case Write => Effect(false, SetSum(codec.checksum(s)), WriteFile(codec.marshall(s)))
    case Delete => Effect(true, DropSum, DeleteFile)
    case Keep => NoEffect
  }

  ghost function PersistEffects(st: Snapshot, now: int, settings: Settings, codec: Codec): map<string, Effect> {
    map id | id in st.sessions :: PersistEffect(ActionAt(st, id, now, settings, codec), st.sessions[id], codec)
  }

  /** The state after `persist` has visited every stored session at time `now`. */
  ghost function PersistPass(st: Snapshot, now: int, settings: Settings, codec: Codec): Snapshot {
    Reconciled(st, st.sessions.Keys, PersistEffects(st, now, settings, codec), settings.savePath, settings.filePrefix)
  }

  /** A live, unchanged session active within the timeout is skipped: nothing about it changes. */
  lemma PersistSkipsUnchanged(st: Snapshot, now: int, settings: Settings, codec: Codec, id: string)
    requires id in st.sessions
    requires var s := st.sessions[id];
      IsLive(s.id) && Lookup(st.checksums, id) == Some(codec.checksum(s)) && now - s.lastActivity < settings.inactivityTimeout
    ensures var r, path := PersistPass(st, now, settings, codec), SessionFile(settings.savePath, settings.filePrefix, id);
      && Lookup(r.sessions, id) == Some(st.sessions[id])
      && Lookup(r.checksums, id) == Lookup(st.checksums, id)
      && Lookup(r.files, path) == Lookup(st.files, path)
  {
    ReconciledAt(st, st.sessions.Keys, PersistEffects(st, now, settings, codec), settings.savePath, settings.filePrefix, id);
  }

  /**
   * A live, unchanged session inactive for longer than the timeout has its
   * marshalled form written to its file and leaves both storages.
   */
  lemma PersistEvictsInactive(st: Snapshot, now: int, settings: Settings, codec: Codec, id: string)
    requires id in st.sessions
    requires var s := st.sessions[id];
      IsLive(s.id) && Lookup(st.checksums, id) == Some(codec.checksum(s)) && now - s.lastActivity > settings.inactivityTimeout
    ensures var r, path := PersistPass(st, now, settings, codec), SessionFile(settings.savePath, settings.filePrefix, id);
      && id !in r.sessions && id !in r.checksums
      && Lookup(r.files, path) == Some(codec.marshall(st.sessions[id]))
  {
    ReconciledAt(st, st.sessions.Keys, PersistEffects(st, now, settings, codec), settings.savePath, settings.filePrefix, id);
  }

  /**
   * A live session whose stored checksum is missing or differs is written to its
   * file, its current checksum is recorded, and it stays in memory.
   */
  lemma PersistWritesChanged(st: Snapshot, now: int, settings: Settings, codec: Codec, id: string)
    requires id in st.sessions
    requires var s := st.sessions[id]; IsLive(s.id) && Lookup(st.checksums, id) != Some(codec.checksum(s))
    ensures var r, s, path := PersistPass(st, now, settings, codec), st.sessions[id], SessionFile(settings.savePath, settings.filePrefix, id);
      && Lookup(r.sessions, id) == Some(s)
      && Lookup(r.checksums, id) == Some(codec.checksum(s))
      && Lookup(r.files, path) == Some(codec.marshall(s))
  {
    ReconciledAt(st, st.sessions.Keys, PersistEffects(st, now, settings, codec), settings.savePath, settings.filePrefix, id);
  }

  /** A destroyed session whose checksum differs loses its file and leaves both storages. */
  lemma PersistDeletesDestroyed(st: Snapshot, now: int, settings: Settings, codec: Codec, id: string)
    requires id in st.sessions
    requires var s := st.sessions[id]; !IsLive(s.id) && Lookup(st.checksums, id) != Some(codec.checksum(s))
    ensures var r, path := PersistPass(st, now, settings, codec), SessionFile(settings.savePath, settings.filePrefix, id);
      id !in r.sessions && id !in r.checksums && path !in r.files
  {
    ReconciledAt(st, st.sessions.Keys, PersistEffects(st, now, settings, codec), settings.savePath, settings.filePrefix, id);
  }

  /**
   * No branch applies to a destroyed session whose checksum matches, nor to a
   * live unchanged one inactive for exactly the timeout: nothing about it changes.
   */
  lemma PersistLeavesUnmatched(st: Snapshot, now: int, settings: Settings, codec: Codec, id: string)
    requires id in st.sessions
    requires var s := st.sessions[id];
      Lookup(st.checksums, id) == Some(codec.checksum(s)) && (!IsLive(s.id) || now - s.lastActivity == settings.inactivityTimeout)
    ensures var r, path := PersistPass(st, now, settings, codec), SessionFile(settings.savePath, settings.filePrefix, id);
      && Lookup(r.sessions, id) == Some(st.sessions[id])
      && Lookup(r.checksums, id) == Lookup(st.checksums, id)
      && Lookup(r.files, path) == Lookup(st.files, path)
  {
    ReconciledAt(st, st.sessions.Keys, PersistEffects(st, now, settings, codec), settings.savePath, settings.filePrefix, id);
  }

  /**
   * Checksums of ids that have no session, and files that belong to no stored
   * session, are left as they were; no id enters the session storage.
   */
  lemma PersistTouchesOnlyVisited(st: Snapshot, now: int, settings: Settings, codec: Codec)
    ensures var r := PersistPass(st, now, settings, codec);
      && r.sessions.Keys <= st.sessions.Keys
      && (forall id :: id !in st.sessions ==> Lookup(r.checksums, id) == Lookup(st.checksums, id))
      && (forall p :: (forall id :: id in st.sessions ==> p != SessionFile(settings.savePath, settings.filePrefix, id)) ==>
            Lookup(r.files, p) == Lookup(st.files, p))
  {
    var effects := PersistEffects(st, now, settings, codec);
    ReconciledElsewhere(st, st.sessions.Keys, effects, settings.savePath, settings.filePrefix);
    var r := PersistPass(st, now, settings, codec);
    forall id | id in r.sessions ensures id in st.sessions {
      assert Lookup(r.sessions, id).Some?;
    }
  }

  /** After a pass no session left in memory is dirty. */
  lemma PersistPassCleans(st: Snapshot, now: int, settings: Settings, codec: Codec)
    ensures Clean(PersistPass(st, now, settings, codec), codec)
  {
    var r := PersistPass(st, now, settings, codec);
    var effects := PersistEffects(st, now, settings, codec);
    forall id | id in r.sessions
      ensures id in r.checksums && r.checksums[id] == codec.checksum(r.sessions[id])
    {
      PersistTouchesOnlyVisited(st, now, settings, codec);
      ReconciledAt(st, st.sessions.Keys, effects, settings.savePath, settings.filePrefix, id);
    }
  }

  /** The entries and the file of a stored session after the pass, by the branch it takes. */
  lemma PersistPassAt(st: Snapshot, now: int, settings: Settings, codec: Codec, id: string)
    requires id in st.sessions
    ensures var r, s, a := PersistPass(st, now, settings, codec), st.sessions[id], ActionAt(st, id, now, settings, codec);
            var path := SessionFile(settings.savePath, settings.filePrefix, id);
      && Lookup(r.sessions, id) == (if a == Evict || a == Delete then None else Some(s))
      && Lookup(r.checksums, id) == (if a == Evict || a == Delete then None
                                     else if a == Write then Some(codec.checksum(s))
                                     else Lookup(st.checksums, id))
      && Lookup(r.files, path) == (if a == Evict || a == Write then Some(codec.marshall(s))
                                   else if a == Delete then None
                                   else Lookup(st.files, path))
  {
    ReconciledAt(st, st.sessions.Keys, PersistEffects(st, now, settings, codec), settings.savePath, settings.filePrefix, id);
  }

  /**
   * A second pass at the same instant leaves the files as the first left them
   * (it may evict a session the first pass wrote, rewriting the same bytes), and
   * a third pass changes nothing at all.
   */
  lemma PersistPassSettles(st: Snapshot, now: int, settings: Settings, codec: Codec)
    ensures var r1 := PersistPass(st, now, settings, codec);
            var r2 := PersistPass(r1, now, settings, codec);
      r2.files == r1.files && PersistPass(r2, now, settings, codec) == r2
  {
    var r1 := PersistPass(st, now, settings, codec);
    FirstPassPreparesEviction(st, now, settings, codec);
    CleanPassRewritesOnly(r1, now, settings, codec);
    var r2 := PersistPass(r1, now, settings, codec);
    SecondPassLeavesNoEviction(r1, now, settings, codec);
    CleanPassRewritesOnly(r2, now, settings, codec);
    NoEvictionPassChangesNothing(r2, now, settings, codec);
  }

  /** A session the pass keeps but that a pass would now evict has just been written. */
  lemma FirstPassPreparesEviction(st: Snapshot, now: int, settings: Settings, codec: Codec)
    ensures var r := PersistPass(st, now, settings, codec);
      && Clean(r, codec)
      && forall id :: id in r.sessions && ActionAt(r, id, now, settings, codec) == Evict ==>
           Lookup(r.files, SessionFile(settings.savePath, settings.filePrefix, id)) == Some(codec.marshall(r.sessions[id]))
  {
    var r := PersistPass(st, now, settings, codec);
    PersistPassCleans(st, now, settings, codec);
    forall id | id in r.sessions && ActionAt(r, id, now, settings, codec) == Evict
      ensures Lookup(r.files, SessionFile(settings.savePath, settings.filePrefix, id)) == Some(codec.marshall(r.sessions[id]))
    {
      PersistTouchesOnlyVisited(st, now, settings, codec);
      PersistPassAt(st, now, settings, codec, id);
    }
  }

  /** After a pass over a store without dirty sessions, no session is due for eviction. */
  lemma SecondPassLeavesNoEviction(st: Snapshot, now: int, settings: Settings, codec: Codec)
    requires Clean(st, codec)
    ensures var r := PersistPass(st, now, settings, codec);
      && Clean(r, codec)
      && forall id :: id in r.sessions ==> ActionAt(r, id, now, settings, codec) != Evict
  {
    var r := PersistPass(st, now, settings, codec);
    PersistPassCleans(st, now, settings, codec);
    forall id | id in r.sessions ensures ActionAt(r, id, now, settings, codec) != Evict {
      PersistTouchesOnlyVisited(st, now, settings, codec);
      PersistPassAt(st, now, settings, codec, id);
    }
  }

  /**
   * On a store without dirty sessions a pass only evicts; when each session due
   * for eviction already has its marshalled form on file, the files stay as they are.
   */
  lemma CleanPassRewritesOnly(st: Snapshot, now: int, settings: Settings, codec: Codec)
    requires Clean(st, codec)
    requires forall id :: id in st.sessions && ActionAt(st, id, now, settings, codec) == Evict ==>
               Lookup(st.files, SessionFile(settings.savePath, settings.filePrefix, id)) == Some(codec.marshall(st.sessions[id]))
    ensures PersistPass(st, now, settings, codec).files == st.files
  {
    var r := PersistPass(st, now, settings, codec);
    forall p ensures Lookup(r.files, p) == Lookup(st.files, p) {
      if id :| id in st.sessions && p == SessionFile(settings.savePath, settings.filePrefix, id) {
        PersistPassAt(st, now, settings, codec, id);
      } else {
        PersistTouchesOnlyVisited(st, now, settings, codec);
      }
    }
    LookupExtensional(r.files, st.files);
  }

  /** A pass over a store without dirty sessions and with none due for eviction changes nothing. */
  lemma NoEvictionPassChangesNothing(st: Snapshot, now: int, settings: Settings, codec: Codec)
    requires Clean(st, codec)
    requires forall id :: id in st.sessions ==> ActionAt(st, id, now, settings, codec) != Evict
    ensures PersistPass(st, now, settings, codec) == st
  {
    CleanPassRewritesOnly(st, now, settings, codec);
    var r := PersistPass(st, now, settings, codec);
    forall id ensures Lookup(r.sessions, id) == Lookup(st.sessions, id) && Lookup(r.checksums, id) == Lookup(st.checksums, id) {
      if id in st.sessions {
        PersistPassAt(st, now, settings, codec, id);
      } else {
        PersistTouchesOnlyVisited(st, now, settings, codec);
        assert Lookup(r.sessions, id) == None;
      }
    }
    LookupExtensional(r.sessions, st.sessions);
    LookupExtensional(r.checksums, st.checksums);
  }

  // ---------------------------------------------------------------------------
  // Loading session files

  /** The outcome of `loadSessionFromFile`: done, or SessionDataNotReadableException. */
  datatype LoadOutcome = Done | SessionDataNotReadable(pathname: string)

  /** The file exists but reading it fails. */
  predicate ReadFails(st: Snapshot, pathname: string, unreadable: set<string>) {
    pathname in st.files && pathname in unreadable
  }

  /**
   * The state after `loadSessionFromFile`: unchanged when the file is missing or
   * unreadable, otherwise the unmarshalled session attached under its own id.
   */
  function LoadedFrom(st: Snapshot, pathname: string, unreadable: set<string>, codec: Codec): Snapshot {
    if pathname !in st.files || pathname in unreadable then st
    else Attached(st, codec.unmarshall(st.files[pathname]), codec)
  }

  /**
   * Loading with recovery, as `initialize` and `unpersist` do: a file whose read
   * fails is deleted, any other file is loaded.
   */
  function LoadedOrRemoved(st: Snapshot, pathname: string, unreadable: set<string>, codec: Codec): (r: Snapshot)
    ensures ReadFails(st, pathname, unreadable) ==>
              r == st.(files := st.files - {pathname})
    ensures !ReadFails(st, pathname, unreadable) ==> r == LoadedFrom(st, pathname, unreadable, codec)
    ensures r.files.Keys <= st.files.Keys && forall p :: p in r.files ==> r.files[p] == st.files[p]
  {
    if ReadFails(st, pathname, unreadable) then st.(files := st.files - {pathname})
    else LoadedFrom(st, pathname, unreadable, codec)
  }

  /**
   * Eviction loses nothing: when unmarshalling undoes marshalling, a live session
   * stored under its own id that `persist` evicts comes back, with the checksum
   * it had, when its file is loaded again and the read does not fail.
   */
  lemma EvictedSessionReloads(st: Snapshot, now: int, settings: Settings, codec: Codec, id: string, unreadable: set<string>)
    requires forall s: Session :: codec.unmarshall(codec.marshall(s)) == s
    requires id in st.sessions && st.sessions[id].id == Some(id) && id != ""
    requires Lookup(st.checksums, id) == Some(codec.checksum(st.sessions[id]))
    requires now - st.sessions[id].lastActivity > settings.inactivityTimeout
    requires SessionFile(settings.savePath, settings.filePrefix, id) !in unreadable
    ensures var r := PersistPass(st, now, settings, codec);
      var back := LoadedOrRemoved(r, SessionFile(settings.savePath, settings.filePrefix, id), unreadable, codec);
      && id !in r.sessions
      && Lookup(back.sessions, id) == Some(st.sessions[id])
      && Lookup(back.checksums, id) == Lookup(st.checksums, id)
  {
    PersistEvictsInactive(st, now, settings, codec, id);
  }

  /**
   * The recovery step of `initialize` as written: the handler passes an undefined
   * variable, i.e. null, to `removeSessionFile`, and `file_exists(null)` is false,
   * so a file whose read fails stays where it is.
   */
  function LoadedOrRemovedAsWritten(st: Snapshot, pathname: string, unreadable: set<string>, codec: Codec): Snapshot {
    if ReadFails(st, pathname, unreadable) then st
    else LoadedFrom(st, pathname, unreadable, codec)
  }

  /** An unreadable session file survives the recovery step as written, and not the intended one. */
  lemma InitializeAsWrittenKeepsUnreadableFile()
    ensures var st := Snapshot(map[], map[], map["/sessions/sess_abc" := [1, 2]]);
      && "/sessions/sess_abc" in LoadedOrRemovedAsWritten(st, "/sessions/sess_abc", {"/sessions/sess_abc"}, Codec((s: Session) => "", (s: Session) => [], (b: Bytes) => Blank, (s: Session) => [], (s: Session, t: int) => true)).files
      && "/sessions/sess_abc" !in LoadedOrRemoved(st, "/sessions/sess_abc", {"/sessions/sess_abc"}, Codec((s: Session) => "", (s: Session) => [], (b: Bytes) => Blank, (s: Session) => [], (s: Session, t: int) => true)).files
  {
  }

  /** The state after `initialize` has tried every pathname of `pathnames`, in order. */
  function Initialized(st: Snapshot, pathnames: seq<string>, unreadable: set<string>, codec: Codec): Snapshot
    decreases |pathnames|
  {
    if pathnames == [] then st
    else LoadedOrRemoved(Initialized(st, pathnames[..|pathnames| - 1], unreadable, codec), pathnames[|pathnames| - 1], unreadable, codec)
  }

  /** Startup creates no file and changes no file's contents. */
  lemma {:induction false} InitializeCreatesNoFiles(st: Snapshot, pathnames: seq<string>, unreadable: set<string>, codec: Codec)
    ensures var r := Initialized(st, pathnames, unreadable, codec);
      r.files.Keys <= st.files.Keys && forall p :: p in r.files ==> r.files[p] == st.files[p]
    decreases |pathnames|
  {
    if pathnames != [] {
      InitializeCreatesNoFiles(st, pathnames[..|pathnames| - 1], unreadable, codec);
    }
  }

  /** No listed file whose read fails is left after startup. */
  lemma {:induction false} InitializeRemovesUnreadable(st: Snapshot, pathnames: seq<string>, unreadable: set<string>, codec: Codec)
    ensures forall i :: 0 <= i < |pathnames| && pathnames[i] in unreadable ==>
              pathnames[i] !in Initialized(st, pathnames, unreadable, codec).files
    decreases |pathnames|
  {
    if pathnames != [] {
      var n := |pathnames| - 1;
      var front := pathnames[..n];
      InitializeRemovesUnreadable(st, front, unreadable, codec);
      forall i | 0 <= i < |pathnames| && pathnames[i] in unreadable
        ensures pathnames[i] !in Initialized(st, pathnames, unreadable, codec).files
      {
        if i < n {
          assert front[i] == pathnames[i];
        }
      }
    }
  }

  /** Startup never makes a session dirty: a clean store stays clean. */
  lemma {:induction false} InitializeKeepsClean(st: Snapshot, pathnames: seq<string>, unreadable: set<string>, codec: Codec)
    requires Clean(st, codec)
    ensures Clean(Initialized(st, pathnames, unreadable, codec), codec)
    decreases |pathnames|
  {
    if pathnames != [] {
      var before := Initialized(st, pathnames[..|pathnames| - 1], unreadable, codec);
      InitializeKeepsClean(st, pathnames[..|pathnames| - 1], unreadable, codec);
      var p := pathnames[|pathnames| - 1];
      if !ReadFails(before, p, unreadable) && p in before.files && p !in unreadable {
        AttachKeepsClean(before, codec.unmarshall(before.files[p]), codec);
      }
    }
  }

  /** When every listed file is missing or unreadable, startup creates no storage entry. */
  lemma {:induction false} InitializeFromUnreadableOnly(st: Snapshot, pathnames: seq<string>, unreadable: set<string>, codec: Codec)
    requires forall i :: 0 <= i < |pathnames| ==> pathnames[i] !in st.files || pathnames[i] in unreadable
    ensures var r := Initialized(st, pathnames, unreadable, codec);
      r.sessions == st.sessions && r.checksums == st.checksums
    decreases |pathnames|
  {
    if pathnames != [] {
      var front := pathnames[..|pathnames| - 1];
      InitializeFromUnreadableOnly(st, front, unreadable, codec);
      InitializeCreatesNoFiles(st, front, unreadable, codec);
    }
  }

  // ---------------------------------------------------------------------------
  // The manager

  /**
   * The persistence manager wired with the shared storages, the session
   * directory, the settings and the marshaller.
   */
  class FilesystemPersistenceManager {
    const store: SessionStore
    const fs: FileSystem
    const settings: Settings
    const codec: Codec

    /** The manager with its storages injected, as `injectSessions` and `injectChecksums` do. */
    constructor (store: SessionStore, fs: FileSystem, settings: Settings, codec: Codec)
      ensures this.store == store && this.fs == fs && this.settings == settings && this.codec == codec
    {
      this.store, this.fs, this.settings, this.codec := store, fs, settings, codec;
    }

    /** The file that holds the session stored under `id`. */
    function SessionFileOf(id: string): string {
      SessionFile(settings.savePath, settings.filePrefix, id)
    }

    /**
     * `persist`: visits every stored session once and applies the decision
     * table; the new state is PersistPass of the old one.
     */
    method Persist(now: int)
      modifies store, fs
      ensures SnapshotOf(store, fs) == PersistPass(old(SnapshotOf(store, fs)), now, settings, codec)
    {
      ghost var st0 := SnapshotOf(store, fs);
      ghost var effects := PersistEffects(st0, now, settings, codec);
      ghost var done: set<string> := {};
      var pending := store.sessions.Keys;
      PassLoopStart(st0, pending, effects, settings.savePath, settings.filePrefix);
      while pending != {}
        invariant PassLoop(st0, st0.sessions.Keys, pending, done, effects, settings.savePath, settings.filePrefix, SnapshotOf(store, fs))
        decreases pending
      {
        var id :| id in pending;
        PassLoopStep(st0, st0.sessions.Keys, pending, done, effects, settings.savePath, settings.filePrefix, SnapshotOf(store, fs), id);
        ActionAtSameEntries(SnapshotOf(store, fs), st0, id, now, settings, codec);
        PersistSession(id, now);
        pending, done := pending - {id}, done + {id};
      }
      PassLoopEnd(st0, st0.sessions.Keys, done, effects, settings.savePath, settings.filePrefix, SnapshotOf(store, fs));
    }

    /** The body of the `persist` loop for the session stored under `id`. */
    method PersistSession(id: string, now: int)
      requires id in store.sessions
      modifies store, fs
      ensures SnapshotOf(store, fs)
           == Applied(old(SnapshotOf(store, fs)), id, SessionFileOf(id),
                      PersistEffect(ActionAt(old(SnapshotOf(store, fs)), id, now, settings, codec), old(store.sessions[id]), codec))
    {
      var timeout := settings.inactivityTimeout;
      var session := store.sessions[id];
      var checksum := if id in store.checksums then Some(store.checksums[id]) else None;
      var lastActivitySecondsAgo := now - session.lastActivity;
      var current := codec.checksum(session);
      var sessionFilename := SessionFileOf(id);
      if IsLive(session.id) && checksum == Some(current) && lastActivitySecondsAgo < timeout {
        // unchanged and recently active
      } else if IsLive(session.id) && checksum == Some(current) && lastActivitySecondsAgo > timeout {
        fs.files := fs.files[sessionFilename := codec.marshall(session)];
        store.checksums := store.checksums - {id};
        store.sessions := store.sessions - {id};
      } else if IsLive(session.id) && checksum != Some(current) {
        fs.files := fs.files[sessionFilename := codec.marshall(session)];
        store.checksums := store.checksums[id := current];
      } else if !IsLive(session.id) && checksum != Some(current) {
        var _ := RemoveSessionFile(sessionFilename);
        store.checksums := store.checksums - {id};
        store.sessions := store.sessions - {id};
      }
    }

    /** `removeSessionFile`: deletes the file if it exists and says whether it did. */
    method RemoveSessionFile(pathname: string) returns (removed: bool)
      modifies fs
      ensures removed <==> pathname in old(fs.files)
      ensures fs.files == old(fs.files) - {pathname}
    {
      if pathname in fs.files {
        fs.files := fs.files - {pathname};
        removed := true;
      } else {
        removed := false;
      }
    }

    /**
     * `loadSessionFromFile`: a missing file is ignored, a failing read raises
     * SessionDataNotReadable and changes nothing, any other file is unmarshalled
     * and the session attached under its own id.
     */
    method LoadSessionFromFile(pathname: string) returns (outcome: LoadOutcome)
      modifies store
      ensures outcome == (if ReadFails(old(SnapshotOf(store, fs)), pathname, fs.unreadable)
                          then SessionDataNotReadable(pathname) else Done)
      ensures SnapshotOf(store, fs) == LoadedFrom(old(SnapshotOf(store, fs)), pathname, fs.unreadable, codec)
    {
      if pathname !in fs.files {
        return Done;
      }
      if pathname in fs.unreadable {
        return SessionDataNotReadable(pathname);
      }
      var session := codec.unmarshall(fs.files[pathname]);
      var id := Key(session.id);
      var checksum := codec.checksum(session);
      store.checksums := store.checksums[id := checksum];
      store.sessions := store.sessions[id := session];
      outcome := Done;
    }

    /**
     * `unpersist`: reloads the session filed under `id` unless it is already in
     * memory; a file whose read fails is deleted.
     */
    method Unpersist(id: string)
      modifies store, fs
      ensures id in old(store.sessions) ==> SnapshotOf(store, fs) == old(SnapshotOf(store, fs))
      ensures id !in old(store.sessions) ==>
                SnapshotOf(store, fs) == LoadedOrRemoved(old(SnapshotOf(store, fs)), SessionFileOf(id), fs.unreadable, codec)
    {
      if id !in store.sessions {
        var pathname := SessionFileOf(id);
        var outcome := LoadSessionFromFile(pathname);
        if outcome.SessionDataNotReadable? {
          var _ := RemoveSessionFile(pathname);
        }
      }
    }

    /**
     * The file loop of `initialize` over the pathnames the startup filter lets
     * through: each is loaded, and a file whose read fails is deleted.
     */
    method Initialize(pathnames: seq<string>)
      modifies store, fs
      ensures SnapshotOf(store, fs) == Initialized(old(SnapshotOf(store, fs)), pathnames, fs.unreadable, codec)
    {
      ghost var st0 := SnapshotOf(store, fs);
      for i := 0 to |pathnames|
        invariant SnapshotOf(store, fs) == Initialized(st0, pathnames[..i], fs.unreadable, codec)
      {
        var outcome := LoadSessionFromFile(pathnames[i]);
        if outcome.SessionDataNotReadable? {
          var _ := RemoveSessionFile(pathnames[i]);
        }
        assert pathnames[..i + 1][..i] == pathnames[..i];
      }
      assert pathnames[..|pathnames|] == pathnames;
    }
  }
}
