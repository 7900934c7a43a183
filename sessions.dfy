/**
 * The session entity, the settings and the collaborators the session managers
 * consume but do not define: the checksum, the marshaller (binary and JSON),
 * and the resumability predicate of a session.
 */
module Sessions {
  import opened Wrappers

  newtype byte = x: int | 0 <= x < 256
  type Bytes = seq<byte>

  /** A checksum as returned by `Session::checksum()`. */
  type Checksum = string

  /** The cookie attributes of a session; PHP `null` is None. */
  datatype CookieParams = CookieParams(
    lifetime: Option<int>,
    maximumAge: Option<int>,
    domain: Option<string>,
    path: Option<string>,
    secure: Option<bool>,
    httpOnly: Option<bool>)

  /** A servlet session; `id == None` once the session has been destroyed. */
  datatype Session = Session(
    id: Option<string>,
    name: string,
    cookie: CookieParams,
    lastActivity: int,
    data: map<string, string>)

  /**
   * The collaborators a session manager is wired with. Each is a deterministic
   * function whose definition lives outside the modelled core.
   */
  datatype Codec = Codec(
    checksum: Session -> Checksum,
    marshall: Session -> Bytes,
    unmarshall: Bytes -> Session,
    toJson: Session -> Bytes,
    canBeResumed: (Session, int) -> bool)

  /** The values a `SessionSettings` instance hands out. */
  datatype Settings = Settings(
    savePath: string,
    filePrefix: string,
    inactivityTimeout: int,
    cookieLifetime: int,
    maximumAge: int,
    cookieDomain: string,
    cookiePath: string,
    cookieSecure: bool,
    cookieHttpOnly: bool)

  /**
   * PHP's `$session->getId() != null`: the loose comparison treats the empty
   * string like null, so only a non-empty id makes a session live.
   */
  predicate IsLive(id: Option<string>) {
    id.Some? && id.value != ""
  }

  /**
   * The storage key a session id is filed under; a null id becomes "". A live
   * session is filed under its own id, and only a dead one under "".
   */
  function Key(id: Option<string>): (k: string)
    ensures k == "" <==> !IsLive(id)
    ensures IsLive(id) ==> k == id.value
  {
    if id.Some? then id.value else ""
  }

  /** A session as the pool hands it out: no id, no data, no attributes. */
  const Blank := Session(None, "", CookieParams(None, None, None, None, None, None), 0, map[])

  /** `Session::init`: sets identity and cookie attributes, stamps the activity time. */
  function Init(s: Session, id: string, name: string, cookie: CookieParams, now: int): Session {
    s.(id := Some(id), name := name, cookie := cookie, lastActivity := now)
  }

  /** `Session::resume`: the session is active again as of `now`. */
  function Resume(s: Session, now: int): Session {
    s.(lastActivity := now)
  }

  /** PHP's DIRECTORY_SEPARATOR on the platforms the directory setup supports. */
  const DirectorySeparator: char := '/'

  /**
   * `getSessionSavePath($toAppend)`: the configured save path, followed by the
   * separator and `toAppend` unless `toAppend` is loosely null (null or "").
   */
  function SessionSavePath(savePath: string, toAppend: Option<string>): (r: string)
    ensures toAppend == None || toAppend == Some("") ==> r == savePath
    ensures toAppend.Some? && toAppend.value != "" ==>
              |r| == |savePath| + 1 + |toAppend.value|
              && r[..|savePath|] == savePath
              && r[|savePath|] == DirectorySeparator
              && r[|savePath| + 1..] == toAppend.value
  {
    if toAppend.Some? && toAppend.value != "" then savePath + [DirectorySeparator] + toAppend.value
    else savePath
  }

  /** The file that holds the session stored under `id`: `<savePath>/<prefix><id>`. */
  function SessionFile(savePath: string, prefix: string, id: string): string {
    SessionSavePath(savePath, Some(prefix + id))
  }

  /** Distinct session ids are filed under distinct paths. */
  lemma SessionFileInjective(savePath: string, prefix: string, a: string, b: string)
    ensures SessionFile(savePath, prefix, a) == SessionFile(savePath, prefix, b) ==> a == b
  {
    var pa, pb := SessionFile(savePath, prefix, a), SessionFile(savePath, prefix, b);
    if pa == pb {
      if prefix + a == "" || prefix + b == "" {
        assert |pa| == |savePath| && |pb| == |savePath|;
        assert |prefix + a| == 0 && |prefix + b| == 0;
      } else {
        assert prefix + a == pa[|savePath| + 1..] == prefix + b;
        assert a == (prefix + a)[|prefix|..];
        assert b == (prefix + b)[|prefix|..];
      }
    }
  }

  /** The quantified form of SessionFileInjective, for one save path and prefix. */
  lemma SessionFilesDistinct(savePath: string, prefix: string)
    ensures forall a, b :: SessionFile(savePath, prefix, a) == SessionFile(savePath, prefix, b) ==> a == b
  {
    forall a, b ensures SessionFile(savePath, prefix, a) == SessionFile(savePath, prefix, b) ==> a == b {
      SessionFileInjective(savePath, prefix, a, b);
    }
  }
}
