/**
 * The state both session managers share: the session and checksum storages,
 * and the directory of session files. Also the common shape of a pass that
 * visits a set of session ids and, for each, updates the two storages and the
 * session's file.
 */
module Storage {
  import opened Wrappers
  import opened Sessions

  /** The two parallel storages: id -> session and id -> checksum of the last write. */
  class SessionStore {
    var sessions: map<string, Session>
    var checksums: map<string, Checksum>

    constructor ()
      ensures sessions == map[] && checksums == map[]
    {
      sessions, checksums := map[], map[];
    }
  }

  /**
   * The session directory: pathname -> contents. `unreadable` names the files
   * whose read fails (an I/O error the model takes as given).
   */
  class FileSystem {
    var files: map<string, Bytes>
    const unreadable: set<string>

    constructor (files: map<string, Bytes>, unreadable: set<string>)
      ensures this.files == files && this.unreadable == unreadable
    {
      this.files, this.unreadable := files, unreadable;
    }
  }

  /** The value of the shared state at one instant. */
  datatype Snapshot = Snapshot(
    sessions: map<string, Session>,
    checksums: map<string, Checksum>,
    files: map<string, Bytes>)

  ghost function SnapshotOf(store: SessionStore, fs: FileSystem): Snapshot
    reads store, fs
  {
    Snapshot(store.sessions, store.checksums, fs.files)
  }

  /**
   * The effect of `attach`: the session and its current checksum are filed
   * under the session's own id, replacing whatever was there.
   */
  function Attached(st: Snapshot, s: Session, codec: Codec): (r: Snapshot)
    ensures Lookup(r.sessions, Key(s.id)) == Some(s)
    ensures Lookup(r.checksums, Key(s.id)) == Some(codec.checksum(s))
    ensures forall k :: k != Key(s.id) ==>
              Lookup(r.sessions, k) == Lookup(st.sessions, k) && Lookup(r.checksums, k) == Lookup(st.checksums, k)
    ensures r.files == st.files
  {
    Snapshot(st.sessions[Key(s.id) := s], st.checksums[Key(s.id) := codec.checksum(s)], st.files)
  }

  /** No stored session is dirty: each has the checksum of its current state recorded. */
  ghost predicate Clean(st: Snapshot, codec: Codec) {
    forall id :: id in st.sessions ==> id in st.checksums && st.checksums[id] == codec.checksum(st.sessions[id])
  }

  /** Attaching a session to a store without dirty sessions leaves none dirty. */
  lemma AttachKeepsClean(st: Snapshot, s: Session, codec: Codec)
    requires Clean(st, codec)
    ensures Clean(Attached(st, s, codec), codec)
  {
    var r := Attached(st, s, codec);
    forall id | id in r.sessions
      ensures id in r.checksums && r.checksums[id] == codec.checksum(r.sessions[id])
    {
      if id != Key(s.id) {
        assert Lookup(r.sessions, id) == Lookup(st.sessions, id);
        assert Lookup(r.checksums, id) == Lookup(st.checksums, id);
      }
    }
  }

  // ---------------------------------------------------------------------------
  // One pass over a set of ids

  /** What a pass does to a checksum entry. */
  datatype SumOp = KeepSum | SetSum(c: Checksum) | DropSum

  /** What a pass does to a session file. */
  datatype FileOp = KeepFile | WriteFile(contents: Bytes) | DeleteFile

  /** What a pass does for one id: drop the session?, the checksum op, the file op. */
  datatype Effect = Effect(dropSession: bool, sum: SumOp, file: FileOp)

  const NoEffect := Effect(false, KeepSum, KeepFile)

  /** One visit: apply `e` to the entries of `id` and to the file at `path`. */
  function Applied(st: Snapshot, id: string, path: string, e: Effect): Snapshot {
    Snapshot(
      if e.dropSession then st.sessions - {id} else st.sessions,
      match e.sum
      case KeepSum => st.checksums
      case SetSum(c) => st.checksums[id := c]
      case DropSum => st.checksums - {id},
      match e.file
      case KeepFile => st.files
      case WriteFile(b) => st.files[path := b]
      case DeleteFile => st.files - {path})
  }

  /** The session entries left after visiting `ids`. */
  ghost function PassSessions(sessions: map<string, Session>, ids: set<string>, effects: map<string, Effect>): map<string, Session>
    requires ids <= effects.Keys
  {
    map id | id in sessions && !(id in ids && effects[id].dropSession) :: sessions[id]
  }

  /** The checksum entries left after visiting `ids`. */
  ghost function PassChecksums(checksums: map<string, Checksum>, ids: set<string>, effects: map<string, Effect>): map<string, Checksum>
    requires ids <= effects.Keys
  {
    map id | id in checksums.Keys + ids
              && ((id in checksums && !(id in ids && effects[id].sum.DropSum?)) || (id in ids && effects[id].sum.SetSum?))
      :: if id in ids && effects[id].sum.SetSum? then effects[id].sum.c else checksums[id]
  }

  /** The session files a pass over `ids` deletes. */
  ghost function DeletedFiles(ids: set<string>, effects: map<string, Effect>, savePath: string, prefix: string): set<string>
    requires ids <= effects.Keys
  {
    set id | id in ids && effects[id].file.DeleteFile? :: SessionFile(savePath, prefix, id)
  }

  /** The session files a pass over `ids` writes, with what it writes. */
  ghost function WrittenFiles(ids: set<string>, effects: map<string, Effect>, savePath: string, prefix: string): map<string, Bytes>
    requires ids <= effects.Keys
  {
    SessionFilesDistinct(savePath, prefix);
    map id | id in ids && effects[id].file.WriteFile? :: SessionFile(savePath, prefix, id) := effects[id].file.contents
  }

  /** A written file holds what its own id's effect writes. */
  lemma WrittenFilesAt(ids: set<string>, effects: map<string, Effect>, savePath: string, prefix: string, id: string)
    requires ids <= effects.Keys && id in ids && effects[id].file.WriteFile?
    ensures var w := WrittenFiles(ids, effects, savePath, prefix);
      SessionFile(savePath, prefix, id) in w && w[SessionFile(savePath, prefix, id)] == effects[id].file.contents
  {
    SessionFilesDistinct(savePath, prefix);
  }

  /** The directory after visiting `ids`. */
  ghost function PassFiles(files: map<string, Bytes>, ids: set<string>, effects: map<string, Effect>, savePath: string, prefix: string): map<string, Bytes>
    requires ids <= effects.Keys
  {
    (map p | p in files && p !in DeletedFiles(ids, effects, savePath, prefix) :: files[p])
      + WrittenFiles(ids, effects, savePath, prefix)
  }

  /**
   * The state after every id of `ids` has been visited with its effect, in any
   * order: visits touch disjoint entries, because distinct ids have distinct files.
   */
  ghost function Reconciled(st: Snapshot, ids: set<string>, effects: map<string, Effect>, savePath: string, prefix: string): Snapshot
    requires ids <= effects.Keys
  {
    Snapshot(
      PassSessions(st.sessions, ids, effects),
      PassChecksums(st.checksums, ids, effects),
      PassFiles(st.files, ids, effects, savePath, prefix))
  }

  /** The file of a visited id after the pass, by the id's file operation. */
  lemma PassFilesAt(files: map<string, Bytes>, ids: set<string>, effects: map<string, Effect>, savePath: string, prefix: string, id: string)
    requires ids <= effects.Keys && id in ids
    ensures var path := SessionFile(savePath, prefix, id);
      Lookup(PassFiles(files, ids, effects, savePath, prefix), path)
        == match effects[id].file
           case KeepFile => Lookup(files, path)
           case WriteFile(b) => Some(b)
           case DeleteFile => None
  {
    var path := SessionFile(savePath, prefix, id);
    SessionFilesDistinct(savePath, prefix);
    var w := WrittenFiles(ids, effects, savePath, prefix);
    var d := DeletedFiles(ids, effects, savePath, prefix);
    match effects[id].file
    case KeepFile =>
      assert path !in d;
      assert path !in w;
    case WriteFile(b) =>
      assert path in w && w[path] == b;
    case DeleteFile =>
      assert path in d;
      assert path !in w;
  }

  /** A file no visited id owns is left as it was. */
  lemma PassFilesElsewhere(files: map<string, Bytes>, ids: set<string>, effects: map<string, Effect>, savePath: string, prefix: string, p: string)
    requires ids <= effects.Keys
    requires forall id :: id in ids ==> p != SessionFile(savePath, prefix, id)
    ensures Lookup(PassFiles(files, ids, effects, savePath, prefix), p) == Lookup(files, p)
  {
    assert p !in DeletedFiles(ids, effects, savePath, prefix);
    assert p !in WrittenFiles(ids, effects, savePath, prefix);
  }

  /** Visiting nothing changes nothing. */
  lemma ReconciledNone(st: Snapshot, effects: map<string, Effect>, savePath: string, prefix: string)
    ensures Reconciled(st, {}, effects, savePath, prefix) == st
  {
    assert PassSessions(st.sessions, {}, effects) == st.sessions;
    assert PassChecksums(st.checksums, {}, effects) == st.checksums;
    var files := PassFiles(st.files, {}, effects, savePath, prefix);
    forall p ensures Lookup(files, p) == Lookup(st.files, p) {
      PassFilesElsewhere(st.files, {}, effects, savePath, prefix, p);
    }
    LookupExtensional(files, st.files);
  }

  /** Moving one id from the pending ids to the visited ones keeps them a partition of the same set. */
  lemma MoveToDone<T>(pending: set<T>, done: set<T>, id: T)
    requires id in pending && pending !! done
    ensures (pending - {id}) !! (done + {id})
    ensures (pending - {id}) + (done + {id}) == pending + done
  {
  }

  /**
   * The state of a loop that visits `ids` one at a time: `pending` and `done`
   * split `ids`, and `current` is the pass over `done`.
   */
  ghost predicate PassLoop(st0: Snapshot, ids: set<string>, pending: set<string>, done: set<string>,
                           effects: map<string, Effect>, savePath: string, prefix: string, current: Snapshot) {
    && ids <= effects.Keys
    && pending !! done && pending + done == ids
    && current == Reconciled(st0, done, effects, savePath, prefix)
  }

  /** Before the first visit nothing has changed. */
  lemma PassLoopStart(st0: Snapshot, ids: set<string>, effects: map<string, Effect>, savePath: string, prefix: string)
    requires ids <= effects.Keys
    ensures PassLoop(st0, ids, ids, {}, effects, savePath, prefix, st0)
  {
    ReconciledNone(st0, effects, savePath, prefix);
  }

  /**
   * Visiting a pending id: its entries are still the original ones, and applying
   * its effect gives the pass over one more id.
   */
  lemma PassLoopStep(st0: Snapshot, ids: set<string>, pending: set<string>, done: set<string>,
                     effects: map<string, Effect>, savePath: string, prefix: string, current: Snapshot, id: string)
    requires PassLoop(st0, ids, pending, done, effects, savePath, prefix, current)
    requires id in pending
    ensures Lookup(current.sessions, id) == Lookup(st0.sessions, id)
    ensures Lookup(current.checksums, id) == Lookup(st0.checksums, id)
    ensures PassLoop(st0, ids, pending - {id}, done + {id}, effects, savePath, prefix,
                     Applied(current, id, SessionFile(savePath, prefix, id), effects[id]))
  {
    ReconciledElsewhere(st0, done, effects, savePath, prefix);
    ReconciledStep(st0, done, effects, savePath, prefix, id);
    MoveToDone(pending, done, id);
  }

  /** When nothing is pending, the loop has made the whole pass. */
  lemma PassLoopEnd(st0: Snapshot, ids: set<string>, done: set<string>,
                    effects: map<string, Effect>, savePath: string, prefix: string, current: Snapshot)
    requires PassLoop(st0, ids, {}, done, effects, savePath, prefix, current)
    ensures current == Reconciled(st0, ids, effects, savePath, prefix)
  {
    assert done == ids;
  }

  /** Maps that agree on every lookup are equal. */
  lemma LookupExtensional<K, V>(m: map<K, V>, m': map<K, V>)
    requires forall k :: Lookup(m, k) == Lookup(m', k)
    ensures m == m'
  {
    forall k ensures k in m <==> k in m' {
      assert Lookup(m, k).Some? <==> Lookup(m', k).Some?;
    }
    forall k | k in m ensures m[k] == m'[k] {
      assert Lookup(m, k) == Lookup(m', k);
    }
  }

  /** The entries of a visited id, and its file, after the pass. */
  lemma ReconciledAt(st: Snapshot, ids: set<string>, effects: map<string, Effect>, savePath: string, prefix: string, id: string)
    requires ids <= effects.Keys && id in ids
    ensures var r, e, path := Reconciled(st, ids, effects, savePath, prefix), effects[id], SessionFile(savePath, prefix, id);
      && Lookup(r.sessions, id) == (if e.dropSession then None else Lookup(st.sessions, id))
      && Lookup(r.checksums, id) == (match e.sum
                                     case KeepSum => Lookup(st.checksums, id)
                                     case SetSum(c) => Some(c)
                                     case DropSum => None)
      && Lookup(r.files, path) == (match e.file
                                   case KeepFile => Lookup(st.files, path)
                                   case WriteFile(b) => Some(b)
                                   case DeleteFile => None)
  {
    PassFilesAt(st.files, ids, effects, savePath, prefix, id);
  }

  /** Ids outside the pass keep their entries; files no visited id owns keep their contents. */
  lemma ReconciledElsewhere(st: Snapshot, ids: set<string>, effects: map<string, Effect>, savePath: string, prefix: string)
    requires ids <= effects.Keys
    ensures var r := Reconciled(st, ids, effects, savePath, prefix);
      && (forall id :: id !in ids ==> Lookup(r.sessions, id) == Lookup(st.sessions, id))
      && (forall id :: id !in ids ==> Lookup(r.checksums, id) == Lookup(st.checksums, id))
      && (forall p :: (forall id :: id in ids ==> p != SessionFile(savePath, prefix, id)) ==>
            Lookup(r.files, p) == Lookup(st.files, p))
  {
    forall p | forall id :: id in ids ==> p != SessionFile(savePath, prefix, id)
      ensures Lookup(PassFiles(st.files, ids, effects, savePath, prefix), p) == Lookup(st.files, p)
    {
      PassFilesElsewhere(st.files, ids, effects, savePath, prefix, p);
    }
  }

  /** Visiting one more id extends the pass by exactly that id's visit. */
  lemma ReconciledStep(st: Snapshot, ids: set<string>, effects: map<string, Effect>, savePath: string, prefix: string, id: string)
    requires ids <= effects.Keys && id in effects && id !in ids
    ensures Reconciled(st, ids + {id}, effects, savePath, prefix)
         == Applied(Reconciled(st, ids, effects, savePath, prefix), id, SessionFile(savePath, prefix, id), effects[id])
  {
    PassSessionsStep(st.sessions, ids, effects, id);
    PassChecksumsStep(st.checksums, ids, effects, id);
    PassFilesStep(st.files, ids, effects, savePath, prefix, id);
  }

  lemma PassFilesStep(files: map<string, Bytes>, ids: set<string>, effects: map<string, Effect>, savePath: string, prefix: string, id: string)
    requires ids <= effects.Keys && id in effects && id !in ids
    ensures PassFiles(files, ids + {id}, effects, savePath, prefix)
         == (var m, path := PassFiles(files, ids, effects, savePath, prefix), SessionFile(savePath, prefix, id);
             match effects[id].file
             case KeepFile => m
             case WriteFile(b) => m[path := b]
             case DeleteFile => m - {path})
  {
    var ids' := ids + {id};
    var before := PassFiles(files, ids, effects, savePath, prefix);
    var after := PassFiles(files, ids', effects, savePath, prefix);
    var path := SessionFile(savePath, prefix, id);
    var next := match effects[id].file
                case KeepFile => before
                case WriteFile(b) => before[path := b]
                case DeleteFile => before - {path};
    forall p ensures Lookup(after, p) == Lookup(next, p) {
      if p == path {
        PassFilesAt(files, ids', effects, savePath, prefix, id);
        SessionFilesDistinct(savePath, prefix);
        PassFilesElsewhere(files, ids, effects, savePath, prefix, p);
      } else {
        PassFilesStepElsewhere(files, ids, effects, savePath, prefix, id, p);
      }
    }
    LookupExtensional(after, next);
  }

  lemma PassSessionsStep(sessions: map<string, Session>, ids: set<string>, effects: map<string, Effect>, id: string)
    requires ids <= effects.Keys && id in effects && id !in ids
    ensures PassSessions(sessions, ids + {id}, effects)
         == (var m := PassSessions(sessions, ids, effects); if effects[id].dropSession then m - {id} else m)
  {
  }

  lemma PassChecksumsStep(checksums: map<string, Checksum>, ids: set<string>, effects: map<string, Effect>, id: string)
    requires ids <= effects.Keys && id in effects && id !in ids
    ensures PassChecksums(checksums, ids + {id}, effects)
         == (var m := PassChecksums(checksums, ids, effects);
             match effects[id].sum
             case KeepSum => m
             case SetSum(c) => m[id := c]
             case DropSum => m - {id})
  {
  }

  /** Adding `id` to the pass leaves every file other than id's own as it was. */
  lemma PassFilesStepElsewhere(files: map<string, Bytes>, ids: set<string>, effects: map<string, Effect>, savePath: string, prefix: string, id: string, p: string)
    requires ids <= effects.Keys && id in effects && id !in ids
    requires p != SessionFile(savePath, prefix, id)
    ensures Lookup(PassFiles(files, ids + {id}, effects, savePath, prefix), p)
         == Lookup(PassFiles(files, ids, effects, savePath, prefix), p)
  {
    var ids' := ids + {id};
    var d, d' := DeletedFiles(ids, effects, savePath, prefix), DeletedFiles(ids', effects, savePath, prefix);
    var w, w' := WrittenFiles(ids, effects, savePath, prefix), WrittenFiles(ids', effects, savePath, prefix);
    assert p in d' <==> p in d;
    assert p in w' <==> p in w;
    if p in w {
      var q :| q in ids && effects[q].file.WriteFile? && SessionFile(savePath, prefix, q) == p;
      WrittenFilesAt(ids, effects, savePath, prefix, q);
      WrittenFilesAt(ids', effects, savePath, prefix, q);
    }
  }
}
