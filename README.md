# Session persistence of the TechDivision servlet engine, in Dafny

This project models the session-handling core of the TechDivision servlet
engine and proves properties of it. The core has three parts:

- **FilesystemPersistenceManager** runs in the background. It writes changed
  sessions to one file each, evicts sessions that have been inactive too long,
  deletes the files of destroyed sessions, and reloads session files at
  startup and on demand.
- **StandardSessionManager** hands out sessions from a pool of ten and
  attaches them to the shared storages. It finds sessions by id and collects
  the expired ones. It also has its own, simpler persist pass, which writes
  JSON to `sess_<id>` files.
- **ServletConfiguration** holds a servlet's name, its context and its init
  parameters.

The standard manager creates two empty storages when it is constructed:
sessions by id, and the checksum of each session as last written. The file
manager creates none; its storages are injected (`injectSessions` and
`injectChecksums`). The model assumes these are the standard manager's
storages, handed over by wiring code that is not part of this model. Both
managers also work on the session directory. In the model these are the
classes `Storage.SessionStore` (two maps) and `Storage.FileSystem` (pathname to
contents, plus the set of files whose read fails). The standard manager's
constructor creates a fresh, empty `SessionStore`, and the file manager's
constructor is given one. Sessions are
values (`Sessions.Session`), and a destroyed session is one whose id is null.
The collaborators are abstract functions in `Sessions.Codec`: the checksum,
the binary and JSON marshallers, and the session's own `canBeResumed`. The
current time is a parameter (`now`). The session class itself is not part of
this model; what `create` and `find` rely on of its `init` and `resume` is
written out in `Sessions.Init` and `Sessions.Resume`, and listed as an
assumption under "## Left out".

Each of the three passes (the file manager's `persist`, the standard
manager's `persist` and `collectGarbage`) visits a set of ids. For each id it
may drop the session, set or drop the checksum, and write or delete the id's
file. `Storage.Reconciled` defines the state after such a pass, id by id. It
is well defined because distinct ids have distinct files
(`Sessions.SessionFilesDistinct`). Each loop is proved against it by the
lemmas `Storage.PassLoopStart`, `Storage.PassLoopStep` and
`Storage.PassLoopEnd`. The properties of each pass are then proved as lemmas
about its `Reconciled` instance.

PHP's loose comparisons are written out:

- `$session->getId() != null` holds only for a non-empty id (`Sessions.IsLive`).
- A null storage key is the empty string (`Sessions.Key`).
- The defaults of `create` replace an argument that is loosely null: 0, "",
  false or null.
- The http-only default replaces the argument only when the argument is
  true, because the code tests `if ($httpOnly)` rather than `== null`.
  The model reproduces this exactly.

`getServerVars` returns the server-admin value under both of its keys,
`SERVER_ADMIN` and `SERVER_SOFTWARE`, and the model does the same.

A second persist pass right after the first can still write. A session that
is dirty and also past the timeout takes the write branch: it is written and
its checksum updated, but it is not evicted. On the next pass it is clean and
past the timeout, so it is evicted and its file is written again with the same
bytes. The file contents end up unchanged
(`FilesystemPersistence.PersistPassSettles`), but that second pass does write.

## Model

| member | source | states |
|---|---|---|
| Sessions.IsLive | src/TechDivision/ServletEngine/FilesystemPersistenceManager.php:442-468 | PHP's loose `getId() != null`: a session is live exactly when its id is set and not empty |
| Sessions.Key | src/TechDivision/ServletEngine/StandardSessionManager.php:364-369 | the storage key of a session: its own id when it is live, and "" exactly when it is not |
| Sessions.Init | src/TechDivision/ServletEngine/StandardSessionManager.php:342 | the session as `init` leaves it: the given id, name and cookie attributes, activity time now, data kept |
| Sessions.Resume | src/TechDivision/ServletEngine/StandardSessionManager.php:392 | the session as `resume` leaves it: active as of now, everything else kept |
| Sessions.SessionSavePath | src/TechDivision/ServletEngine/FilesystemPersistenceManager.php:487-499 | without a non-empty suffix the save path itself; otherwise the save path, the directory separator and the suffix, in that order and nothing else |
| Sessions.SessionFile | src/TechDivision/ServletEngine/FilesystemPersistenceManager.php:449 | the file of the session stored under an id: the save path, the separator, then the prefix followed by the id |
| Sessions.SessionFileInjective | src/TechDivision/ServletEngine/FilesystemPersistenceManager.php:449 | two ids with the same session file name are the same id |
| Sessions.SessionFilesDistinct | src/TechDivision/ServletEngine/StandardSessionManager.php:150-162 | for a fixed save path and prefix, distinct ids have distinct session files |
| Storage.Attached | src/TechDivision/ServletEngine/StandardSessionManager.php:360-370 | attach files the session and its current checksum under the session's id; every other entry and every file is unchanged |
| Storage.AttachKeepsClean | src/TechDivision/ServletEngine/FilesystemPersistenceManager.php:621-629 | attaching keeps every stored session's checksum up to date |
| Storage.ReconciledStep | src/TechDivision/ServletEngine/FilesystemPersistenceManager.php:427-476 | a pass over one more id is the pass over the others followed by that id's visit |
| Storage.PassLoopStep | src/TechDivision/ServletEngine/FilesystemPersistenceManager.php:427-476 | a pending id still has its original entries, and visiting it advances the loop state by that id |
| Storage.ReconciledElsewhere | src/TechDivision/ServletEngine/StandardSessionManager.php:489-521 | a pass leaves the entries of unvisited ids, and the files of no visited id, unchanged |
| FilesystemPersistence.Decide | src/TechDivision/ServletEngine/FilesystemPersistenceManager.php:441-475 | the decision table: skip iff live, unchanged and active within the timeout; evict iff live, unchanged and inactive past it; write iff live and changed; delete iff destroyed and changed; otherwise nothing |
| FilesystemPersistence.PersistEffect | src/TechDivision/ServletEngine/FilesystemPersistenceManager.php:446-475 | what each branch does: evict writes the marshalled session and drops both entries, write writes it and records its checksum, delete removes the file and both entries, skip and no-match do nothing |
| FilesystemPersistence.PersistPass | src/TechDivision/ServletEngine/FilesystemPersistenceManager.php:420-478 | the state after `persist`: every stored session's branch applied to its own entries and its own file |
| FilesystemPersistence.PersistSkipsUnchanged | src/TechDivision/ServletEngine/FilesystemPersistenceManager.php:441-444 | a live unchanged session active within the timeout keeps its entries and its file |
| FilesystemPersistence.PersistEvictsInactive | src/TechDivision/ServletEngine/FilesystemPersistenceManager.php:446-454 | a live unchanged session inactive past the timeout is written to its file and removed from both storages |
| FilesystemPersistence.PersistWritesChanged | src/TechDivision/ServletEngine/FilesystemPersistenceManager.php:457-464 | a live changed session is written to its file, its checksum is updated and it stays stored |
| FilesystemPersistence.PersistDeletesDestroyed | src/TechDivision/ServletEngine/FilesystemPersistenceManager.php:467-475 | a destroyed changed session loses its file and both storage entries |
| FilesystemPersistence.PersistLeavesUnmatched | src/TechDivision/ServletEngine/FilesystemPersistenceManager.php:441-475 | a session no branch matches (unchanged and destroyed, or inactive exactly the timeout) is left as it is |
| FilesystemPersistence.PersistTouchesOnlyVisited | src/TechDivision/ServletEngine/FilesystemPersistenceManager.php:427-476 | persist adds no session, keeps the checksums of ids without a session, and keeps every file no session owns |
| FilesystemPersistence.PersistPassCleans | src/TechDivision/ServletEngine/FilesystemPersistenceManager.php:420-478 | after persist every stored session has its current checksum recorded |
| FilesystemPersistence.PersistPassAt | src/TechDivision/ServletEngine/FilesystemPersistenceManager.php:420-478 | the session, checksum and file of each stored id after persist, by the branch its session takes |
| FilesystemPersistence.PersistPassSettles | src/TechDivision/ServletEngine/FilesystemPersistenceManager.php:420-478 | a second pass at the same time leaves the files as the first left them, and a third pass changes nothing at all |
| FilesystemPersistence.CleanPassRewritesOnly | src/TechDivision/ServletEngine/FilesystemPersistenceManager.php:446-454 | on a clean store whose evictions rewrite identical bytes, persist leaves every file as it is |
| FilesystemPersistence.NoEvictionPassChangesNothing | src/TechDivision/ServletEngine/FilesystemPersistenceManager.php:420-478 | on a clean store with nothing to evict, persist changes nothing |
| FilesystemPersistence.EvictedSessionReloads | src/TechDivision/ServletEngine/FilesystemPersistenceManager.php:446-454 | when unmarshalling undoes marshalling, a live session evicted by `persist` comes back with its checksum when its file is loaded again, as `unpersist` does |
| FilesystemPersistence.FilesystemPersistenceManager.constructor | src/TechDivision/ServletEngine/FilesystemPersistenceManager.php:122-137 | the manager works on exactly the session store, directory, settings and codec it is given |
| FilesystemPersistence.FilesystemPersistenceManager.Persist | src/TechDivision/ServletEngine/FilesystemPersistenceManager.php:420-478 | the loop over the stored sessions produces exactly the persist pass of the old state |
| FilesystemPersistence.FilesystemPersistenceManager.PersistSession | src/TechDivision/ServletEngine/FilesystemPersistenceManager.php:429-476 | one session's visit applies exactly the effect of its branch |
| FilesystemPersistence.FilesystemPersistenceManager.RemoveSessionFile | src/TechDivision/ServletEngine/FilesystemPersistenceManager.php:589-595 | the file is gone afterwards, and the result says whether it existed |
| FilesystemPersistence.FilesystemPersistenceManager.LoadSessionFromFile | src/TechDivision/ServletEngine/FilesystemPersistenceManager.php:605-630 | a missing file changes nothing; a failing read raises SessionDataNotReadable and changes nothing; otherwise the unmarshalled session is attached under its own id |
| FilesystemPersistence.LoadedFrom | src/TechDivision/ServletEngine/FilesystemPersistenceManager.php:605-630 | the state after `loadSessionFromFile`: unchanged for a missing or unreadable file, otherwise the unmarshalled session attached under its own id |
| FilesystemPersistence.LoadedOrRemovedAsWritten | src/TechDivision/ServletEngine/FilesystemPersistenceManager.php:531-535 | the recovery step of `initialize` as written: a file whose read fails is kept, any other is loaded |
| FilesystemPersistence.LoadedOrRemoved | src/TechDivision/ServletEngine/FilesystemPersistenceManager.php:547-568 | loading with recovery deletes a file whose read fails and otherwise loads; it never creates or changes a file |
| FilesystemPersistence.FilesystemPersistenceManager.Unpersist | src/TechDivision/ServletEngine/FilesystemPersistenceManager.php:547-568 | an id already in memory changes nothing; otherwise its file is loaded, or deleted when its read fails |
| FilesystemPersistence.Initialized | src/TechDivision/ServletEngine/FilesystemPersistenceManager.php:524-536 | the state after startup: the listed files loaded in order, each unreadable one deleted |
| FilesystemPersistence.FilesystemPersistenceManager.Initialize | src/TechDivision/ServletEngine/FilesystemPersistenceManager.php:524-536 | the startup loop loads every listed file in order and deletes each whose read fails |
| FilesystemPersistence.InitializeCreatesNoFiles | src/TechDivision/ServletEngine/FilesystemPersistenceManager.php:524-536 | startup creates no file and changes no file's contents |
| FilesystemPersistence.InitializeRemovesUnreadable | src/TechDivision/ServletEngine/FilesystemPersistenceManager.php:531-535 | no listed file whose read fails survives startup |
| FilesystemPersistence.InitializeKeepsClean | src/TechDivision/ServletEngine/FilesystemPersistenceManager.php:524-536 | startup leaves every stored session with its current checksum recorded |
| FilesystemPersistence.InitializeFromUnreadableOnly | src/TechDivision/ServletEngine/FilesystemPersistenceManager.php:524-536 | when every listed file is missing or unreadable, startup leaves both storages unchanged |
| FilesystemPersistence.InitializeAsWrittenKeepsUnreadableFile | src/TechDivision/ServletEngine/FilesystemPersistenceManager.php:531-535 | a file whose read fails survives the recovery as written but not the corrected recovery |
| StandardSessions.StandardSessionManager.constructor | src/TechDivision/ServletEngine/StandardSessionManager.php:66-79 | the session and checksum storages are fresh and empty, the counter starts at 0 and all ten pool slots hold blank sessions |
| StandardSessions.PoolStep | src/TechDivision/ServletEngine/StandardSessionManager.php:271-291 | the slot read is always inside the pool; the counter afterwards is that slot plus one; a refill happens exactly when the counter had passed the last slot |
| StandardSessions.PoolCycle | src/TechDivision/ServletEngine/StandardSessionManager.php:271-291 | the n-th call on a fresh manager reads slot (n - 1) mod 10 and refills exactly at calls 11, 21, 31 and so on |
| StandardSessions.EleventhCallRefills | src/TechDivision/ServletEngine/StandardSessionManager.php:52 | the first ten calls never refill; the eleventh refills and reads slot 0 |
| StandardSessions.WithDefaults | src/TechDivision/ServletEngine/StandardSessionManager.php:310-338 | the cookie attributes `create` passes on: each loosely-null argument but http-only replaced by its setting, http-only replaced only when it is true |
| StandardSessions.WithDefaultsSetsAll | src/TechDivision/ServletEngine/StandardSessionManager.php:310-338 | after the defaults lifetime, maximum age, domain, path and secure flag are all set, while a null or false http-only flag stays as given |
| StandardSessions.WithDefaultsKeepsGiven | src/TechDivision/ServletEngine/StandardSessionManager.php:310-338 | arguments that are all given, with an http-only flag that is not true, are kept unchanged |
| StandardSessions.WithDefaultsIdempotent | src/TechDivision/ServletEngine/StandardSessionManager.php:310-338 | applying the defaults twice gives the same attributes as applying them once |
| StandardSessions.StandardSessionManager.NextFromPool | src/TechDivision/ServletEngine/StandardSessionManager.php:271-291 | the returned session is the pool slot the counter names and is blank; the pool is refilled and the counter reset first exactly when the counter had passed the last slot, and every slot stays blank |
| StandardSessions.StandardSessionManager.Create | src/TechDivision/ServletEngine/StandardSessionManager.php:307-349 | the returned session is a blank pooled session initialised with the id, the name, the defaulted cookie attributes and the activity time now, and it is attached; the pool stays blank |
| StandardSessions.StandardSessionManager.Attach | src/TechDivision/ServletEngine/StandardSessionManager.php:360-370 | the new state is the old one with the session and its checksum filed under its id |
| StandardSessions.Found | src/TechDivision/ServletEngine/StandardSessionManager.php:384-396 | a session comes back iff one is stored under the id and it can be resumed, and then it is that session active as of now |
| StandardSessions.FindsAttached | src/TechDivision/ServletEngine/StandardSessionManager.php:360-396 | finding by the id of a just-attached session returns that session resumed, when it can be resumed |
| StandardSessions.Resumed | src/TechDivision/ServletEngine/StandardSessionManager.php:388-393 | the state `find` leaves: the resumed session written back under its id when one was found |
| StandardSessions.FindKeepsClean | src/TechDivision/ServletEngine/StandardSessionManager.php:384-396 | when the checksum ignores the activity time, `find` leaves no stored session dirty |
| StandardSessions.StandardSessionManager.Find | src/TechDivision/ServletEngine/StandardSessionManager.php:384-396 | returns what Found says, and the new state is Resumed of the old one: the resumed session replaces the stored one, checksums and files are untouched |
| StandardSessions.ExpiredIds | src/TechDivision/ServletEngine/StandardSessionManager.php:437-447 | exactly the stored ids whose session has been inactive longer than the timeout |
| StandardSessions.Garbage | src/TechDivision/ServletEngine/StandardSessionManager.php:428-434 | nothing is collected when the gate is closed or the timeout is 0 |
| StandardSessions.GarbageEffect | src/TechDivision/ServletEngine/StandardSessionManager.php:446-469 | an expired session loses its session entry, its checksum and its `sess_` file; any other is left alone |
| StandardSessions.GarbageCollected | src/TechDivision/ServletEngine/StandardSessionManager.php:414-477 | the corrected collection: nothing when the gate is closed or the timeout is 0, otherwise every stored session's effect applied to its own entries and file |
| StandardSessions.GarbageCollectedRemovesExactly | src/TechDivision/ServletEngine/StandardSessionManager.php:414-477 | collection removes the session, the checksum and the `sess_` file of exactly the expired ids, and leaves every other entry and file unchanged |
| StandardSessions.GarbageCollectedLeavesNoExpired | src/TechDivision/ServletEngine/StandardSessionManager.php:437-471 | after an open-gated collection no stored session is expired |
| StandardSessions.GarbageCollectedKeepsClean | src/TechDivision/ServletEngine/StandardSessionManager.php:437-471 | collection keeps every remaining session's checksum up to date |
| StandardSessions.TalliedStep | src/TechDivision/ServletEngine/StandardSessionManager.php:467-468 | the removal counter grows by one exactly for an expired session |
| StandardSessions.TalliedAll | src/TechDivision/ServletEngine/StandardSessionManager.php:476 | after all sessions are visited the counter equals the number of expired sessions |
| StandardSessions.StandardSessionManager.CollectGarbage | src/TechDivision/ServletEngine/StandardSessionManager.php:414-477 | the new state is the corrected collection of the old one, and the count returned is the number of sessions collected |
| StandardSessions.StandardSessionManager.CollectExpired | src/TechDivision/ServletEngine/StandardSessionManager.php:437-471 | the loop over the stored sessions produces exactly the collection pass of the old state, and counts the expired sessions |
| StandardSessions.StandardSessionManager.CollectSession | src/TechDivision/ServletEngine/StandardSessionManager.php:440-469 | an expired session loses its entries and file and is reported removed; any other is left alone |
| StandardSessions.CollectExpiredAsWritten | src/TechDivision/ServletEngine/StandardSessionManager.php:449-468 | one removal as written: the session under its own id, and the checksum and `sess_` file under a null id |
| StandardSessions.CollectGarbageAsWrittenKeepsExpired | src/TechDivision/ServletEngine/StandardSessionManager.php:449-460 | a destroyed expired session keeps its entry, its checksum and its file under the code as written, and loses all three under the corrected collection |
| StandardSessions.CollectGarbageAsWrittenKeepsChecksum | src/TechDivision/ServletEngine/StandardSessionManager.php:452 | a live expired session loses its session entry but keeps its checksum under the code as written |
| StandardSessions.ManagerPersistEffect | src/TechDivision/ServletEngine/StandardSessionManager.php:492-519 | a tracked id with a live changed session gets its JSON written and its checksum updated; with a destroyed changed one, its file deleted; otherwise nothing |
| StandardSessions.ManagerPersistPass | src/TechDivision/ServletEngine/StandardSessionManager.php:485-522 | the state after the manager's `persist`: every tracked id's effect applied to its own entries and file |
| StandardSessions.ManagerPersistKeepsEntries | src/TechDivision/ServletEngine/StandardSessionManager.php:485-522 | the manager's persist changes no session and neither adds nor removes a checksum entry |
| StandardSessions.ManagerPersistPassAt | src/TechDivision/ServletEngine/StandardSessionManager.php:497-519 | a live changed session is written as JSON and its checksum updated; a destroyed changed one loses its file and keeps its checksum; otherwise nothing changes |
| StandardSessions.ManagerPersistElsewhere | src/TechDivision/ServletEngine/StandardSessionManager.php:489-521 | a file belonging to no tracked id is unchanged by the manager's persist |
| StandardSessions.ManagerPersistIdempotent | src/TechDivision/ServletEngine/StandardSessionManager.php:485-522 | a second persist pass changes nothing |
| StandardSessions.StandardSessionManager.Persist | src/TechDivision/ServletEngine/StandardSessionManager.php:485-522 | the loop over the tracked ids produces exactly the manager's persist pass of the old state |
| StandardSessions.StandardSessionManager.PersistSession | src/TechDivision/ServletEngine/StandardSessionManager.php:492-519 | one tracked id's visit applies exactly its effect |
| StandardSessions.StandardSessionManager.Service | src/TechDivision/ServletEngine/StandardSessionManager.php:403-407 | service is collection followed by the manager's persist pass |
| StandardSessions.PhpRange | src/TechDivision/ServletEngine/StandardSessionManager.php:539 | PHP's `range(lo, hi)` on integers: from lo to hi in steps of one, counting down when hi < lo |
| StandardSessions.PhpRangeShape | src/TechDivision/ServletEngine/StandardSessionManager.php:539 | `range(lo, hi)` has the distance plus one elements, the i-th being lo + i counting up and lo - i counting down |
| StandardSessions.RandomStringRange | src/TechDivision/ServletEngine/StandardSessionManager.php:539 | `range(1, length)` has length elements for a positive length and 2 - length otherwise |
| StandardSessions.StandardSessionManager.GenerateRandomString | src/TechDivision/ServletEngine/StandardSessionManager.php:531-545 | one letter per element of `range(1, length)`, so exactly length letters for a positive length, each from the 62-letter alphabet, the latest draw first |
| ServletConfigurations.ServletConfiguration.constructor | src/TechDivision/ServletEngine/ServletConfiguration.php:67-80 | the configuration returns the context it was created with, and has no name and no init parameters yet |
| ServletConfigurations.ServletConfiguration.SetServletName | src/TechDivision/ServletEngine/ServletConfiguration.php:129-143 | the name returned afterwards is the one last set |
| ServletConfigurations.ServletConfiguration.GetInitParameter | src/TechDivision/ServletEngine/ServletConfiguration.php:165-170 | the registered value for a known name, and null for a name never registered |
| ServletConfigurations.ServletConfiguration.AddInitParameter | src/TechDivision/ServletEngine/ServletConfiguration.php:153-156 | the value is returned for the name afterwards, replacing any earlier one; every other name keeps its value |
| ServletConfigurations.ServerVars | src/TechDivision/ServletEngine/ServletConfiguration.php:177-183 | exactly the keys SERVER_ADMIN and SERVER_SOFTWARE, both holding the server admin value |

## Left out

- Threads: `run`, `sleep`, `stop`, and the pool factory's `notify`/`wait` handshake are not modelled. The pool refill is one step that refills every slot.
- The session directory setup is not modelled: `prepareSessionDirectory`, `initUmask` and `setUserRights`. They set up directories, file modes and owners.
- The startup file filter is not modelled: `GlobIterator` and `SessionFilter`. `Initialize` takes the list of pathnames the filter lets through.
- JSON and serialization are not modelled: `initSessionFromJson`, `transformSessionToJson`, the standard manager's `initialize`, `marshall` and `unmarshall`. They are the abstract `Codec` functions.
- The garbage-collection probability gate is not modelled: it parses the probability as a float and draws with `rand`. It is the boolean `collect`.
- `mt_rand` is not modelled: its draws are the `draws` argument of `GenerateRandomString`.
- `time()` is not modelled: it is the `now` parameter, one value for a whole pass.
- The `inject*` setters and plain getters are not modelled. The managers are built with their collaborators.
- `getApplication`, `getConfiguration`, `getWebappPath` and `getAppBase` only delegate to objects outside this model. `getServerVars` takes the server admin value as a parameter.
- SessionManager.php is an interface with no behaviour of its own.
- Sessions are values, not shared objects. Any effect through another reference to a session object is not captured: a pool slot after `init`, a resumed session, or a session destroyed during collection after it has left both storages.
- FilesystemPersistence.LoadedFrom: `unmarshall` is assumed never to fail. Only a failing `file_get_contents` is an error, as in the code (FilesystemPersistenceManager.php:614-616). A readable file with corrupt bytes is loaded as whatever session `unmarshall` makes of it.
- The wiring that hands the standard manager's storages to the file manager is not part of this model. The file manager's constructor takes the store as a parameter.
- A failing `unlink` or `file_put_contents` is not modelled. Only a failing read is: the `FileSystem.unreadable` set.
- Sessions.Init: `Session::init` is not part of this model. The model assumes it sets the id, the name and the cookie attributes, stamps the activity time with now and keeps the data. If it did not stamp the time, a new session would keep the pool's time of 0 and be expired at once.
- Sessions.Resume: `Session::resume` is not part of this model. The model assumes it only stamps the activity time with now.
- The `$lifetime` argument of `create` may be an integer or a `DateTime`. The model only has integers (`CookieParams.lifetime: Option<int>`).
- StandardSessions.StandardSessionManager.GenerateRandomString: the default `$length = 32` is not modelled. Callers always pass the length.
- Windows paths are not modelled. The directory separator is always `/`.
- StandardSessions.ManagerPersistEffect: compares checksums as plain strings. The code uses PHP's loose `!=`, which treats two numeric-looking strings as equal when their numeric values agree.
- FilesystemPersistence.Decide: compares checksums as plain strings. This matches the code's strict `===`.

## Findings

| source | as written | input that shows it | evidently intended | confidence | as-written member | corrected member |
|---|---|---|---|---|---|---|
| src/TechDivision/ServletEngine/FilesystemPersistenceManager.php:534 | the recovery handler of `initialize` passes `$pathname`, which is undefined there, so `removeSessionFile(null)` deletes nothing | a listed session file `/sessions/sess_abc` whose read fails stays in the directory | delete the file whose read failed, as `unpersist` does at line 566 | high, not executed | FilesystemPersistence.LoadedOrRemovedAsWritten, FilesystemPersistence.InitializeAsWrittenKeepsUnreadableFile | FilesystemPersistence.LoadedOrRemoved, FilesystemPersistence.InitializeRemovesUnreadable |
| src/TechDivision/ServletEngine/StandardSessionManager.php:449-460 | `collectGarbage` removes the session under `$session->getId()` and the checksum and `sess_` file under the undefined `$id`, i.e. null | a destroyed expired session stored under `abc` keeps its session entry, checksum and file, yet is counted as removed; a live one under its own id keeps its checksum | remove the session, the checksum and the file under the storage key being iterated | high, not executed | StandardSessions.CollectExpiredAsWritten, StandardSessions.CollectGarbageAsWrittenKeepsExpired | StandardSessions.GarbageCollected, StandardSessions.GarbageCollectedRemovesExactly |
