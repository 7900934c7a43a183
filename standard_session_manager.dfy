/**
 * The standard session manager: creates sessions from the pool, attaches and
 * finds them, collects the ones inactive too long, and writes changed ones to
 * their files.
 */
module StandardSessions {
  import opened Wrappers
  import opened Sessions
  import opened Storage

  /** SESSION_POOL_SIZE: the number of sessions one refill of the pool provides. */
  const SessionPoolSize: nat := 10

  /** SESSION_PREFIX: the file name prefix this manager uses for session files. */
  const SessionPrefix: string := "sess_"

  // ---------------------------------------------------------------------------
  // The pool cursor

  /** One `nextFromPool` call: the pool slot it reads, whether it refilled first, the new counter. */
  datatype PoolDraw = PoolDraw(index: nat, refill: bool, next: nat)

  /**
   * The cursor arithmetic of `nextFromPool`: once the counter has run past the
   * last slot the pool is refilled and reading restarts at slot 0.
   */
  function PoolStep(counter: nat): (d: PoolDraw)
    ensures d.index < SessionPoolSize
    ensures 1 <= d.next <= SessionPoolSize && d.next == d.index + 1
    ensures d.refill <==> counter > SessionPoolSize - 1
    ensures !d.refill ==> d.index == counter
  {
    if counter > SessionPoolSize - 1 then PoolDraw(0, true, 1) else PoolDraw(counter, false, counter + 1)
  }

  /** The counter after `calls` calls on a fresh manager. */
  function CounterAfter(calls: nat): nat {
    if calls == 0 then 0 else PoolStep(CounterAfter(calls - 1)).next
  }

  /**
   * The `calls`-th call (counting from 1) reads slot (calls - 1) mod the pool
   * size and leaves the counter one further; it refills exactly when it is the
   * first call of a new round of SessionPoolSize calls, other than the very first.
   */
  lemma {:induction false} PoolCycle(calls: nat)
    requires calls >= 1
    ensures CounterAfter(calls) == (calls - 1) % SessionPoolSize + 1
    ensures PoolStep(CounterAfter(calls - 1)).index == (calls - 1) % SessionPoolSize
    ensures PoolStep(CounterAfter(calls - 1)).refill <==> calls > SessionPoolSize && (calls - 1) % SessionPoolSize == 0
  {
    if calls > 1 {
      PoolCycle(calls - 1);
    }
  }

  /** The first ten calls on a fresh manager drain the pool without a refill; the eleventh refills and wraps to slot 0. */
  lemma EleventhCallRefills()
    ensures forall done :: 0 <= done < SessionPoolSize ==> !PoolStep(CounterAfter(done)).refill
    ensures PoolStep(CounterAfter(SessionPoolSize)).refill
    ensures PoolStep(CounterAfter(SessionPoolSize)).index == 0
  {
    forall done | 0 <= done < SessionPoolSize ensures !PoolStep(CounterAfter(done)).refill {
      PoolCycle(done + 1);
    }
    PoolCycle(SessionPoolSize + 1);
  }

  // ---------------------------------------------------------------------------
  // Defaults of `create`

  /** PHP's `$v == null` for an integer argument: null and 0. */
  predicate LooselyNullInt(v: Option<int>) { v == None || v == Some(0) }

  /** PHP's `$v == null` for a string argument: null and "". */
  predicate LooselyNullString(v: Option<string>) { v == None || v == Some("") }

  /** PHP's `$v == null` for a boolean argument: null and false. */
  predicate LooselyNullBool(v: Option<bool>) { v == None || v == Some(false) }

  /**
   * The cookie attributes `create` initialises a session with: lifetime,
   * maximum age, domain, path and secure flag fall back to the settings when
   * loosely null; the http-only flag is replaced by the setting only when it is
   * true, and otherwise kept as given.
   */
  function WithDefaults(p: CookieParams, settings: Settings): CookieParams {
    var lifetime := if LooselyNullInt(p.lifetime) then Some(settings.cookieLifetime) else p.lifetime;
    var maximumAge := if LooselyNullInt(p.maximumAge) then Some(settings.maximumAge) else p.maximumAge;
    var domain := if LooselyNullString(p.domain) then Some(settings.cookieDomain) else p.domain;
    var path := if LooselyNullString(p.path) then Some(settings.cookiePath) else p.path;
    var secure := if LooselyNullBool(p.secure) then Some(settings.cookieSecure) else p.secure;
    var httpOnly := if p.httpOnly == Some(true) then Some(settings.cookieHttpOnly) else p.httpOnly;
    CookieParams(lifetime, maximumAge, domain, path, secure, httpOnly)
  }

  /**
   * After the defaults every attribute but the http-only flag is set; a null
   * http-only flag stays null, because only a true one is replaced.
   */
  lemma WithDefaultsSetsAll(p: CookieParams, settings: Settings)
    ensures var r := WithDefaults(p, settings);
      && r.lifetime.Some? && r.maximumAge.Some? && r.domain.Some? && r.path.Some? && r.secure.Some?
      && (p.httpOnly == None ==> r.httpOnly == None)
      && (p.httpOnly == Some(false) ==> r.httpOnly == Some(false))
  {
  }

  /** Arguments that are all given, and an http-only flag that is not true, are kept as they are. */
  lemma WithDefaultsKeepsGiven(p: CookieParams, settings: Settings)
    requires !LooselyNullInt(p.lifetime) && !LooselyNullInt(p.maximumAge)
    requires !LooselyNullString(p.domain) && !LooselyNullString(p.path) && !LooselyNullBool(p.secure)
    requires p.httpOnly != Some(true)
    ensures WithDefaults(p, settings) == p
  {
  }

  /** Applying the defaults a second time changes nothing more. */
  lemma WithDefaultsIdempotent(p: CookieParams, settings: Settings)
    ensures WithDefaults(WithDefaults(p, settings), settings) == WithDefaults(p, settings)
  {
  }

  // ---------------------------------------------------------------------------
  // find

  /**
   * What `find` returns: the session stored under `id`, resumed, when there is
   * one and it can be resumed at `now`; nothing otherwise.
   */
  function Found(st: Snapshot, id: string, now: int, codec: Codec): (r: Option<Session>)
    ensures r.Some? <==> id in st.sessions && codec.canBeResumed(st.sessions[id], now)
    ensures r.Some? ==> r.value.lastActivity == now && r.value == Resume(st.sessions[id], now)
  {
    if id in st.sessions && codec.canBeResumed(st.sessions[id], now) then Some(Resume(st.sessions[id], now)) else None
  }

  /** The state `find` leaves behind: the resumed session written back in place of the stored one. */
  function Resumed(st: Snapshot, id: string, now: int, codec: Codec): Snapshot {
    var r := Found(st, id, now, codec);
    if r.Some? then st.(sessions := st.sessions[id := r.value]) else st
  }

  /**
   * Activity alone never makes a session dirty: when the checksum ignores the
   * activity time, a store without dirty sessions has none after `find`.
   */
  lemma FindKeepsClean(st: Snapshot, id: string, now: int, codec: Codec)
    requires forall s: Session, t: int :: codec.checksum(Resume(s, t)) == codec.checksum(s)
    requires Clean(st, codec)
    ensures Clean(Resumed(st, id, now, codec), codec)
  {
    var r := Resumed(st, id, now, codec);
    forall k | k in r.sessions ensures k in r.checksums && r.checksums[k] == codec.checksum(r.sessions[k]) {
      if k == id && Found(st, id, now, codec).Some? {
        assert r.sessions[k] == Resume(st.sessions[id], now);
      }
    }
  }

  /** Attach, then find by the session's own id: the attached session comes back, resumed, when it can be. */
  lemma FindsAttached(st: Snapshot, s: Session, now: int, codec: Codec)
    ensures Found(Attached(st, s, codec), Key(s.id), now, codec)
         == if codec.canBeResumed(s, now) then Some(Resume(s, now)) else None
  {
    assert Lookup(Attached(st, s, codec).sessions, Key(s.id)) == Some(s);
  }

  // ---------------------------------------------------------------------------
  // collectGarbage

  /** A session is expired when it has been inactive for longer than the timeout. */
  predicate Expired(s: Session, now: int, timeout: int) {
    now - s.lastActivity > timeout
  }

  /** The ids under which expired sessions are stored. */
  function ExpiredIds(sessions: map<string, Session>, now: int, timeout: int): (r: set<string>)
    ensures r <= sessions.Keys
    ensures forall id :: id in sessions ==> (id in r <==> Expired(sessions[id], now, timeout))
  {
    set id | id in sessions && Expired(sessions[id], now, timeout)
  }

  /** What collection does for one session: an expired one loses its entries and its file. */
  function GarbageEffect(s: Session, now: int, timeout: int): Effect {
    if Expired(s, now, timeout) then Effect(true, DropSum, DeleteFile) else NoEffect
  }

  ghost function GarbageEffects(st: Snapshot, now: int, timeout: int): map<string, Effect> {
    map id | id in st.sessions :: GarbageEffect(st.sessions[id], now, timeout)
  }

  /** The ids a collection run removes: none when the gate is closed or the timeout is 0. */
  function Garbage(st: Snapshot, collect: bool, now: int, timeout: int): (r: set<string>)
    ensures r <= st.sessions.Keys
    ensures !collect || timeout == 0 ==> r == {}
  {
    if !collect || timeout == 0 then {} else ExpiredIds(st.sessions, now, timeout)
  }

  /**
   * The state after `collectGarbage`, the probability gate given as `collect`:
   * every expired session is removed from both storages and its `sess_` file
   * deleted.
   */
  ghost function GarbageCollected(st: Snapshot, collect: bool, now: int, timeout: int, savePath: string): Snapshot {
    if !collect || timeout == 0 then st
    else Reconciled(st, st.sessions.Keys, GarbageEffects(st, now, timeout), savePath, SessionPrefix)
  }

  /**
   * Collection removes exactly the garbage: its sessions, checksums and files go,
   * every other entry and every other file stays as it was.
   */
  lemma GarbageCollectedRemovesExactly(st: Snapshot, collect: bool, now: int, timeout: int, savePath: string)
    ensures var r, g := GarbageCollected(st, collect, now, timeout, savePath), Garbage(st, collect, now, timeout);
      && (forall id :: Lookup(r.sessions, id) == if id in g then None else Lookup(st.sessions, id))
      && (forall id :: Lookup(r.checksums, id) == if id in g then None else Lookup(st.checksums, id))
      && (forall id :: id in g ==> SessionFile(savePath, SessionPrefix, id) !in r.files)
      && (forall p :: (forall id :: id in g ==> p != SessionFile(savePath, SessionPrefix, id)) ==>
            Lookup(r.files, p) == Lookup(st.files, p))
  {
    if collect && timeout != 0 {
      var effects := GarbageEffects(st, now, timeout);
      var r := Reconciled(st, st.sessions.Keys, effects, savePath, SessionPrefix);
      var g := Garbage(st, collect, now, timeout);
      ReconciledElsewhere(st, st.sessions.Keys, effects, savePath, SessionPrefix);
      forall id | id in st.sessions
        ensures Lookup(r.sessions, id) == (if id in g then None else Lookup(st.sessions, id))
        ensures Lookup(r.checksums, id) == (if id in g then None else Lookup(st.checksums, id))
        ensures Lookup(r.files, SessionFile(savePath, SessionPrefix, id))
             == if id in g then None else Lookup(st.files, SessionFile(savePath, SessionPrefix, id))
      {
        ReconciledAt(st, st.sessions.Keys, effects, savePath, SessionPrefix, id);
      }
      forall p | forall id :: id in g ==> p != SessionFile(savePath, SessionPrefix, id)
        ensures Lookup(r.files, p) == Lookup(st.files, p)
      {
        if exists id :: id in st.sessions && p == SessionFile(savePath, SessionPrefix, id) {
          var id :| id in st.sessions && p == SessionFile(savePath, SessionPrefix, id);
          assert id !in g;
        }
      }
    }
  }

  /** After an open-gated collection with a non-zero timeout, no stored session is expired. */
  lemma GarbageCollectedLeavesNoExpired(st: Snapshot, now: int, timeout: int, savePath: string)
    requires timeout != 0
    ensures var r := GarbageCollected(st, true, now, timeout, savePath);
      forall id :: id in r.sessions ==> !Expired(r.sessions[id], now, timeout)
  {
    var r := GarbageCollected(st, true, now, timeout, savePath);
    GarbageCollectedRemovesExactly(st, true, now, timeout, savePath);
    forall id | id in r.sessions ensures !Expired(r.sessions[id], now, timeout) {
      assert Lookup(r.sessions, id) == Lookup(st.sessions, id);
    }
  }

  /** Collection leaves no dirty session behind in a store that had none. */
  lemma GarbageCollectedKeepsClean(st: Snapshot, collect: bool, now: int, timeout: int, savePath: string, codec: Codec)
    requires Clean(st, codec)
    ensures Clean(GarbageCollected(st, collect, now, timeout, savePath), codec)
  {
    var r := GarbageCollected(st, collect, now, timeout, savePath);
    GarbageCollectedRemovesExactly(st, collect, now, timeout, savePath);
    forall id | id in r.sessions ensures id in r.checksums && r.checksums[id] == codec.checksum(r.sessions[id]) {
      assert Lookup(r.sessions, id) == Lookup(st.sessions, id);
      assert Lookup(r.checksums, id) == Lookup(st.checksums, id);
    }
  }

  /**
   * The removal counter after visiting `done`: it counts `removedIds`, which are
   * exactly the visited ids whose session is expired.
   */
  ghost predicate Tallied(sessions: map<string, Session>, done: set<string>, removedIds: set<string>, count: nat, now: int, timeout: int) {
    && done <= sessions.Keys
    && removedIds <= done
    && (forall k :: k in done ==> (k in removedIds <==> Expired(sessions[k], now, timeout)))
    && count == |removedIds|
  }

  /** Visiting one more id: the counter grows by one exactly when that id's session is expired. */
  lemma TalliedStep(sessions: map<string, Session>, done: set<string>, removedIds: set<string>, count: nat, now: int, timeout: int, id: string)
    requires Tallied(sessions, done, removedIds, count, now, timeout)
    requires id in sessions && id !in done
    ensures Expired(sessions[id], now, timeout) ==> Tallied(sessions, done + {id}, removedIds + {id}, count + 1, now, timeout)
    ensures !Expired(sessions[id], now, timeout) ==> Tallied(sessions, done + {id}, removedIds, count, now, timeout)
  {
  }

  /** Once every stored id is visited, the counter is the number of expired sessions. */
  lemma TalliedAll(sessions: map<string, Session>, done: set<string>, removedIds: set<string>, count: nat, now: int, timeout: int)
    requires done == sessions.Keys
    requires Tallied(sessions, done, removedIds, count, now, timeout)
    ensures count == |ExpiredIds(sessions, now, timeout)|
  {
    assert removedIds == ExpiredIds(sessions, now, timeout);
  }

  /**
   * One expired session as `collectGarbage` handles it as written: the session
   * storage drops the key given by the session's own id, and the checksum
   * storage and the file name use an undefined variable, that is null: the
   * checksum under the empty key is dropped and the file `sess_` itself is
   * deleted.
   */
  function CollectExpiredAsWritten(st: Snapshot, s: Session, savePath: string): Snapshot {
    Snapshot(
      st.sessions - {Key(s.id)},
      st.checksums - {Key(None)},
      st.files - {SessionSavePath(savePath, Some(SessionPrefix + Key(None)))})
  }

  /**
   * A store holding one expired, already destroyed session under "abc": as
   * written the session, its checksum and its file all survive collection
   * though it is counted as removed; the corrected collection removes all three.
   */
  lemma CollectGarbageAsWrittenKeepsExpired()
    ensures var s := Session(None, "PHPSESSID", CookieParams(None, None, None, None, None, None), 0, map[]);
            var file := SessionFile("/sessions", SessionPrefix, "abc");
            var st := Snapshot(map["abc" := s], map["abc" := "c"], map[file := [1]]);
            var asWritten := CollectExpiredAsWritten(st, s, "/sessions");
            var corrected := GarbageCollected(st, true, 100, 10, "/sessions");
      && Expired(s, 100, 10)
      && "abc" in asWritten.sessions && "abc" in asWritten.checksums && file in asWritten.files
      && "abc" !in corrected.sessions && "abc" !in corrected.checksums && file !in corrected.files
  {
    var s := Session(None, "PHPSESSID", CookieParams(None, None, None, None, None, None), 0, map[]);
    var file := SessionFile("/sessions", SessionPrefix, "abc");
    var st := Snapshot(map["abc" := s], map["abc" := "c"], map[file := [1]]);
    assert "abc" in Garbage(st, true, 100, 10);
    GarbageCollectedRemovesExactly(st, true, 100, 10, "/sessions");
    assert |file| == 18;
    assert |SessionSavePath("/sessions", Some(SessionPrefix + Key(None)))| == 15;
  }

  /** A live expired session stored under its own id keeps its checksum when collected as written. */
  lemma CollectGarbageAsWrittenKeepsChecksum()
    ensures var s := Session(Some("abc"), "PHPSESSID", CookieParams(None, None, None, None, None, None), 0, map[]);
            var st := Snapshot(map["abc" := s], map["abc" := "c"], map[]);
      && "abc" !in CollectExpiredAsWritten(st, s, "/sessions").sessions
      && "abc" in CollectExpiredAsWritten(st, s, "/sessions").checksums
  {
  }

  // ---------------------------------------------------------------------------
  // persist

  /**
   * What `persist` does for an id of the checksum storage: a live session whose
   * checksum changed is written as JSON to its `sess_` file and its checksum
   * updated; a destroyed one whose checksum changed has its file deleted; all
   * else, including an id without a session, is left alone. No storage entry is
   * ever removed.
   */
  function ManagerPersistEffect(st: Snapshot, id: string, codec: Codec): Effect
    requires id in st.checksums
  {
    if id !in st.sessions then NoEffect
    else
      var s := st.sessions[id];
      if st.checksums[id] == codec.checksum(s) then NoEffect
      else if IsLive(s.id) then Effect(false, SetSum(codec.checksum(s)), WriteFile(codec.toJson(s)))
      else Effect(false, KeepSum, DeleteFile)
  }

  /** The effect for an id depends only on that id's session and checksum entries. */
  lemma ManagerPersistEffectSameEntries(st: Snapshot, st': Snapshot, id: string, codec: Codec)
    requires Lookup(st.sessions, id) == Lookup(st'.sessions, id) && Lookup(st.checksums, id) == Lookup(st'.checksums, id)
    requires id in st'.checksums
    ensures id in st.checksums
    ensures ManagerPersistEffect(st, id, codec) == ManagerPersistEffect(st', id, codec)
  {
  }

  ghost function ManagerPersistEffects(st: Snapshot, codec: Codec): map<string, Effect> {
    map id | id in st.checksums :: ManagerPersistEffect(st, id, codec)
  }

  /** The state after the manager's `persist` has visited every id of the checksum storage. */
  ghost function ManagerPersistPass(st: Snapshot, savePath: string, codec: Codec): Snapshot {
    Reconciled(st, st.checksums.Keys, ManagerPersistEffects(st, codec), savePath, SessionPrefix)
  }

  /** The manager's `persist` changes no session and neither adds nor removes a checksum entry. */
  lemma ManagerPersistKeepsEntries(st: Snapshot, savePath: string, codec: Codec)
    ensures var r := ManagerPersistPass(st, savePath, codec);
      r.sessions == st.sessions && r.checksums.Keys == st.checksums.Keys
  {
    var effects := ManagerPersistEffects(st, codec);
    var r := ManagerPersistPass(st, savePath, codec);
    assert forall id :: id in st.checksums ==> !effects[id].dropSession && !effects[id].sum.DropSum?;
    assert r.sessions == st.sessions;
  }

  /**
   * The manager's `persist` for one tracked id: a live session whose checksum
   * changed is written as JSON and its checksum brought up to date; a destroyed
   * one whose checksum changed loses its file and keeps its stale checksum;
   * otherwise neither the checksum nor the file changes.
   */
  lemma ManagerPersistPassAt(st: Snapshot, savePath: string, codec: Codec, id: string)
    requires id in st.checksums
    ensures var r, path := ManagerPersistPass(st, savePath, codec), SessionFile(savePath, SessionPrefix, id);
      if id in st.sessions && st.checksums[id] != codec.checksum(st.sessions[id]) then
        if IsLive(st.sessions[id].id) then
          Lookup(r.checksums, id) == Some(codec.checksum(st.sessions[id])) && Lookup(r.files, path) == Some(codec.toJson(st.sessions[id]))
        else
          Lookup(r.checksums, id) == Some(st.checksums[id]) && Lookup(r.files, path) == None
      else
        Lookup(r.checksums, id) == Some(st.checksums[id]) && Lookup(r.files, path) == Lookup(st.files, path)
  {
    ReconciledAt(st, st.checksums.Keys, ManagerPersistEffects(st, codec), savePath, SessionPrefix, id);
  }

  /** A file that belongs to no tracked id is left alone by the manager's `persist`. */
  lemma ManagerPersistElsewhere(st: Snapshot, savePath: string, codec: Codec)
    ensures var r := ManagerPersistPass(st, savePath, codec);
      forall p :: (forall id :: id in st.checksums ==> p != SessionFile(savePath, SessionPrefix, id)) ==>
        Lookup(r.files, p) == Lookup(st.files, p)
  {
    ReconciledElsewhere(st, st.checksums.Keys, ManagerPersistEffects(st, codec), savePath, SessionPrefix);
  }

  /**
   * The manager's `persist` is idempotent: a second pass finds every live session
   * up to date and every destroyed one's file already gone.
   */
  lemma ManagerPersistIdempotent(st: Snapshot, savePath: string, codec: Codec)
    ensures var r := ManagerPersistPass(st, savePath, codec);
      ManagerPersistPass(r, savePath, codec) == r
  {
    var r := ManagerPersistPass(st, savePath, codec);
    var r2 := ManagerPersistPass(r, savePath, codec);
    ManagerPersistKeepsEntries(st, savePath, codec);
    ManagerPersistKeepsEntries(r, savePath, codec);
    forall id | id in r.checksums
      ensures Lookup(r2.checksums, id) == Lookup(r.checksums, id)
      ensures Lookup(r2.files, SessionFile(savePath, SessionPrefix, id)) == Lookup(r.files, SessionFile(savePath, SessionPrefix, id))
    {
      ManagerPersistPassAt(st, savePath, codec, id);
      ManagerPersistPassAt(r, savePath, codec, id);
    }
    forall id ensures Lookup(r2.checksums, id) == Lookup(r.checksums, id) {
    }
    LookupExtensional(r2.checksums, r.checksums);
    ManagerPersistElsewhere(r, savePath, codec);
    forall p ensures Lookup(r2.files, p) == Lookup(r.files, p) {
      if exists id :: id in r.checksums && p == SessionFile(savePath, SessionPrefix, id) {
        var id :| id in r.checksums && p == SessionFile(savePath, SessionPrefix, id);
      }
    }
    LookupExtensional(r2.files, r.files);
  }

  // ---------------------------------------------------------------------------
  // generateRandomString

  /** The alphabet random strings are drawn from. */
  const Letters: string := "0123456789ABCDEFGHIJKLMNOPQRSTUVWXYZabcdefghijklmnopqrstuvwxyz"

  /**
   * PHP's `range(lo, hi)` on integers: from `lo` to `hi` inclusive, in steps of
   * one, counting down when `hi < lo`.
   */
  function PhpRange(lo: int, hi: int): seq<int>
    decreases if lo <= hi then hi - lo else lo - hi
  {
    if lo == hi then [lo]
    else if lo < hi then [lo] + PhpRange(lo + 1, hi)
    else [lo] + PhpRange(lo - 1, hi)
  }

  /** The elements of `range(lo, hi)`: the distance plus one of them, each one step from the previous. */
  lemma {:induction false} PhpRangeShape(lo: int, hi: int)
    ensures |PhpRange(lo, hi)| == if lo <= hi then hi - lo + 1 else lo - hi + 1
    ensures forall i :: 0 <= i < |PhpRange(lo, hi)| ==> PhpRange(lo, hi)[i] == if lo <= hi then lo + i else lo - i
    decreases if lo <= hi then hi - lo else lo - hi
  {
    if lo < hi {
      PhpRangeShape(lo + 1, hi);
    } else if lo > hi {
      PhpRangeShape(lo - 1, hi);
    }
  }

  /** `range(1, length)` has `length` elements for a positive length and `2 - length` otherwise. */
  lemma RandomStringRange(length: int)
    ensures length >= 1 ==> |PhpRange(1, length)| == length
    ensures length < 1 ==> |PhpRange(1, length)| == 2 - length
  {
    PhpRangeShape(1, length);
  }

  // ---------------------------------------------------------------------------
  // The manager

  /**
   * The standard session manager wired with the shared storages, the session
   * directory, the settings and the session marshaller, and owning the pool of
   * sessions ready to be handed out.
   */
  class StandardSessionManager {
    const store: SessionStore
    const fs: FileSystem
    const settings: Settings
    const codec: Codec
    const pool: array<Session>
    var nextSessionCounter: nat

    /** The pool has its ten slots, the counter is within them, and every pooled session is blank. */
    ghost predicate Valid()
      reads this, pool
    {
      && pool.Length == SessionPoolSize
      && nextSessionCounter <= SessionPoolSize
      && forall i :: 0 <= i < pool.Length ==> pool[i] == Blank
    }

    /**
     * `__construct`: empty session and checksum storages of the manager's own,
     * a counter at 0 and a pool of blank sessions.
     */
    constructor (fs: FileSystem, settings: Settings, codec: Codec)
      ensures Valid() && fresh(pool) && nextSessionCounter == 0
      ensures forall i :: 0 <= i < pool.Length ==> pool[i] == Blank
      ensures fresh(store) && store.sessions == map[] && store.checksums == map[]
      ensures this.fs == fs && this.settings == settings && this.codec == codec
    {
      store := new SessionStore();
      this.fs, this.settings, this.codec := fs, settings, codec;
      pool := new Session[SessionPoolSize](_ => Blank);
      nextSessionCounter := 0;
    }

    /**
     * `nextFromPool`: once the counter has passed the last slot the pool is
     * refilled with blank sessions and the counter reset; then the session in
     * the counter's slot is handed out and the counter advanced.
     */
    method NextFromPool() returns (s: Session)
      requires Valid()
      modifies this, pool
      ensures Valid()
      ensures nextSessionCounter == PoolStep(old(nextSessionCounter)).next
      ensures PoolStep(old(nextSessionCounter)).refill ==> forall i :: 0 <= i < pool.Length ==> pool[i] == Blank
      ensures !PoolStep(old(nextSessionCounter)).refill ==> pool[..] == old(pool[..])
      ensures s == pool[PoolStep(old(nextSessionCounter)).index]
      ensures s == Blank
    {
      if nextSessionCounter > SessionPoolSize - 1 {
        forall i | 0 <= i < pool.Length {
          pool[i] := Blank;
        }
        nextSessionCounter := 0;
      }
      s := pool[nextSessionCounter];
      nextSessionCounter := nextSessionCounter + 1;
    }

    /**
     * `create`: the cookie attributes get their defaults, the next pooled session
     * is initialised with the id, the name and those attributes at `now`, and
     * attached.
     */
    method Create(id: string, name: string, params: CookieParams, now: int) returns (s: Session)
      requires Valid()
      modifies this, pool, store
      ensures Valid()
      ensures nextSessionCounter == PoolStep(old(nextSessionCounter)).next
      ensures s.id == Some(id) && s.name == name && s.lastActivity == now
      ensures s.cookie == WithDefaults(params, settings)
      ensures s == Init(Blank, id, name, WithDefaults(params, settings), now)
      ensures SnapshotOf(store, fs) == Attached(old(SnapshotOf(store, fs)), s, codec)
    {
      var cookie := WithDefaults(params, settings);
      var pooled := NextFromPool();
      s := Init(pooled, id, name, cookie, now);
      Attach(s);
    }

    /** `attach`: the session and its checksum are filed under the session's id. */
    method Attach(s: Session)
      modifies store
      ensures SnapshotOf(store, fs) == Attached(old(SnapshotOf(store, fs)), s, codec)
    {
      var id := Key(s.id);
      var checksum := codec.checksum(s);
      store.checksums := store.checksums[id := checksum];
      store.sessions := store.sessions[id := s];
    }

    /**
     * `find`: the session under `id`, resumed and written back, when it exists
     * and can be resumed; nothing otherwise. Checksums are not touched.
     */
    method Find(id: string, now: int) returns (r: Option<Session>)
      modifies store
      ensures r == Found(old(SnapshotOf(store, fs)), id, now, codec)
      ensures SnapshotOf(store, fs) == Resumed(old(SnapshotOf(store, fs)), id, now, codec)
    {
      if id in store.sessions {
        var session := store.sessions[id];
        if codec.canBeResumed(session, now) {
          session := Resume(session, now);
          store.sessions := store.sessions[id := session];
          return Some(session);
        }
      }
      return None;
    }

    /**
     * `collectGarbage`, with the probability gate given as `collect`: every
     * expired session is removed with its checksum and file, and the number of
     * removed sessions returned.
     */
    method CollectGarbage(collect: bool, now: int) returns (count: nat)
      modifies store, fs
      ensures SnapshotOf(store, fs)
           == GarbageCollected(old(SnapshotOf(store, fs)), collect, now, settings.inactivityTimeout, settings.savePath)
      ensures count == |Garbage(old(SnapshotOf(store, fs)), collect, now, settings.inactivityTimeout)|
    {
      count := 0;
      if collect && settings.inactivityTimeout != 0 {
        count := CollectExpired(now);
      }
    }

    /** The loop of `collectGarbage` once the gate is open and the timeout non-zero. */
    method CollectExpired(now: int) returns (count: nat)
      modifies store, fs
      ensures SnapshotOf(store, fs)
           == Reconciled(old(SnapshotOf(store, fs)), old(store.sessions.Keys),
                         GarbageEffects(old(SnapshotOf(store, fs)), now, settings.inactivityTimeout), settings.savePath, SessionPrefix)
      ensures count == |ExpiredIds(old(store.sessions), now, settings.inactivityTimeout)|
    {
      ghost var st0 := SnapshotOf(store, fs);
      ghost var effects := GarbageEffects(st0, now, settings.inactivityTimeout);
      ghost var done: set<string> := {};
      ghost var removedIds: set<string> := {};
      count := 0;
      var pending := store.sessions.Keys;
      PassLoopStart(st0, pending, effects, settings.savePath, SessionPrefix);
      while pending != {}
        invariant PassLoop(st0, st0.sessions.Keys, pending, done, effects, settings.savePath, SessionPrefix, SnapshotOf(store, fs))
        invariant Tallied(st0.sessions, done, removedIds, count, now, settings.inactivityTimeout)
        decreases pending
      {
        var id :| id in pending;
        PassLoopStep(st0, st0.sessions.Keys, pending, done, effects, settings.savePath, SessionPrefix, SnapshotOf(store, fs), id);
        TalliedStep(st0.sessions, done, removedIds, count, now, settings.inactivityTimeout, id);
        var removed := CollectSession(id, now);
        if removed {
          removedIds, count := removedIds + {id}, count + 1;
        }
        pending, done := pending - {id}, done + {id};
      }
      PassLoopEnd(st0, st0.sessions.Keys, done, effects, settings.savePath, SessionPrefix, SnapshotOf(store, fs));
      TalliedAll(st0.sessions, done, removedIds, count, now, settings.inactivityTimeout);
    }

    /**
     * The body of the `collectGarbage` loop for the session stored under `id`:
     * says whether it was expired and so removed.
     */
    method CollectSession(id: string, now: int) returns (removed: bool)
      requires id in store.sessions
      modifies store, fs
      ensures removed == Expired(old(store.sessions[id]), now, settings.inactivityTimeout)
      ensures SnapshotOf(store, fs)
           == Applied(old(SnapshotOf(store, fs)), id, SessionFile(settings.savePath, SessionPrefix, id),
                      GarbageEffect(old(store.sessions[id]), now, settings.inactivityTimeout))
    {
      var session := store.sessions[id];
      var lastActivitySecondsAgo := now - session.lastActivity;
      removed := false;
      if lastActivitySecondsAgo > settings.inactivityTimeout {
        store.sessions := store.sessions - {id};
        store.checksums := store.checksums - {id};
        var sessionFilename := SessionFile(settings.savePath, SessionPrefix, id);
        if sessionFilename in fs.files {
          fs.files := fs.files - {sessionFilename};
        }
        removed := true;
      }
    }

    /** The manager's `persist`: visits every id of the checksum storage once. */
    method Persist()
      modifies store, fs
      ensures SnapshotOf(store, fs) == ManagerPersistPass(old(SnapshotOf(store, fs)), settings.savePath, codec)
    {
      ghost var st0 := SnapshotOf(store, fs);
      ghost var effects := ManagerPersistEffects(st0, codec);
      ghost var done: set<string> := {};
      var pending := store.checksums.Keys;
      PassLoopStart(st0, pending, effects, settings.savePath, SessionPrefix);
      while pending != {}
        invariant PassLoop(st0, st0.checksums.Keys, pending, done, effects, settings.savePath, SessionPrefix, SnapshotOf(store, fs))
        invariant store.sessions == st0.sessions
        decreases pending
      {
        var id :| id in pending;
        PassLoopStep(st0, st0.checksums.Keys, pending, done, effects, settings.savePath, SessionPrefix, SnapshotOf(store, fs), id);
        ManagerPersistEffectSameEntries(SnapshotOf(store, fs), st0, id, codec);
        PersistSession(id);
        pending, done := pending - {id}, done + {id};
      }
      PassLoopEnd(st0, st0.checksums.Keys, done, effects, settings.savePath, SessionPrefix, SnapshotOf(store, fs));
    }

    /** The body of the manager's `persist` loop for the checksum entry of `id`. */
    method PersistSession(id: string)
      requires id in store.checksums
      modifies store, fs
      ensures SnapshotOf(store, fs)
           == Applied(old(SnapshotOf(store, fs)), id, SessionFile(settings.savePath, SessionPrefix, id),
                      ManagerPersistEffect(old(SnapshotOf(store, fs)), id, codec))
    {
      var checksum := store.checksums[id];
      var sessionFilename := SessionFile(settings.savePath, SessionPrefix, id);
      if id in store.sessions {
        var session := store.sessions[id];
        if IsLive(session.id) && checksum != codec.checksum(session) {
          fs.files := fs.files[sessionFilename := codec.toJson(session)];
          store.checksums := store.checksums[id := codec.checksum(session)];
        }
        if !IsLive(session.id) && checksum != codec.checksum(session) {
          if sessionFilename in fs.files {
            fs.files := fs.files - {sessionFilename};
          }
        }
      }
    }

    /** `service`: collects the garbage, then persists. */
    method Service(collect: bool, now: int)
      modifies store, fs
      ensures SnapshotOf(store, fs)
           == ManagerPersistPass(GarbageCollected(old(SnapshotOf(store, fs)), collect, now, settings.inactivityTimeout, settings.savePath),
                                 settings.savePath, codec)
    {
      var _ := CollectGarbage(collect, now);
      Persist();
    }

    /**
     * `generateRandomString`: one letter per element of `range(1, length)`, the
     * i-th random draw given as `draws[i]`; each new letter is put in front.
     */
    method GenerateRandomString(length: int, draws: seq<int>) returns (bytes: string)
      requires |draws| == |PhpRange(1, length)|
      requires forall i :: 0 <= i < |draws| ==> 0 <= draws[i] < |Letters|
      ensures |bytes| == |PhpRange(1, length)|
      ensures length >= 1 ==> |bytes| == length
      ensures forall i :: 0 <= i < |bytes| ==> bytes[i] == Letters[draws[|bytes| - 1 - i]]
      ensures forall i :: 0 <= i < |bytes| ==> bytes[i] in Letters
    {
      RandomStringRange(length);
      var steps := PhpRange(1, length);
      bytes := "";
      for i := 0 to |steps|
        invariant |bytes| == i
        invariant forall k :: 0 <= k < i ==> bytes[k] == Letters[draws[i - 1 - k]]
      {
        bytes := [Letters[draws[i]]] + bytes;
      }
    }
  }
}
