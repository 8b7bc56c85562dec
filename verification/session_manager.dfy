/**
 * The per-vendor analytics session of amp-analytics: a session is created on first use,
 * kept alive by every access, and replaced (with its count raised) once it has been idle
 * for more than thirty minutes. The clock and the random source are parameters; storage is
 * a stored value handed in when a read completes, and every write is appended to a log.
 */
module SessionManagement {
  import opened Wrappers

  /** A session: an id, when it was created, how many sessions came before, and the last access. */
  datatype SessionInfo = SessionInfo(
    sessionId: int,
    creationTimestamp: int,
    count: Option<int>,
    lastAccessTimestamp: Option<int>)

  /**
   * What storage holds under a vendor's key: nothing usable (a missing or other falsy value),
   * a value that is not an object, or a session record.
   */
  datatype Stored = Falsy | NotObject | Record(info: SessionInfo)

  /** The fields `getSessionValue` can read. */
  datatype SessionValue = SessionId | CreationTimestamp | LastAccessTimestamp | Count

  /** The answer of `get`: `null`, a session at once, or a session that waits for a storage read. */
  datatype Reply = Null | Ready(session: SessionInfo) | Pending(storageKey: string)

  const SESSION_STORAGE_KEY: string := "amp-session:"

  /** Thirty minutes in milliseconds. */
  const SESSION_MAX_AGE_MILLIS: int := 30 * 60 * 1000

  const NO_VENDOR_ERROR: string := "Sessions can only be accessed with a vendor type."
  const INVALID_STORED_ERROR: string := "Invalid stored session value"

  /**
   * `isSessionExpired(session)` at time `now`. A session with no last access never expires:
   * adding a number to `undefined` gives `NaN`, which is not below anything.
   */
  predicate IsSessionExpired(session: SessionInfo, now: int)
    ensures IsSessionExpired(session, now) <==>
      session.lastAccessTimestamp.Some? && now - session.lastAccessTimestamp.value > SESSION_MAX_AGE_MILLIS
  {
    session.lastAccessTimestamp.Some? && session.lastAccessTimestamp.value + SESSION_MAX_AGE_MILLIS < now
  }

  /** `generateSessionId()` for the value `random` that `Math.random()` returned. */
  function GenerateSessionId(random: real): (id: int)
    requires 0.0 <= random < 1.0
    ensures 0 <= id <= 9999
  {
    (10000.0 * random).Floor
  }

  /** `getStorageKey(type)`. */
  function StorageKey(vendor: string): (key: string)
    ensures |key| == |SESSION_STORAGE_KEY| + |vendor|
    ensures key[..|SESSION_STORAGE_KEY|] == SESSION_STORAGE_KEY && key[|SESSION_STORAGE_KEY|..] == vendor
  {
    SESSION_STORAGE_KEY + vendor
  }

  /** `constructSessionFromStoredValue(stored)` for a truthy stored value, and whether it logs an error. */
  function ConstructSessionFromStoredValue(stored: Stored, now: int, random: real): (r: (SessionInfo, bool))
    requires stored != Falsy && 0.0 <= random < 1.0
    ensures r.1 <==> stored.NotObject?
    ensures stored.Record? ==> r.0 == stored.info
    ensures stored.NotObject? ==> r.0.creationTimestamp == now && r.0.count == Some(1) && r.0.lastAccessTimestamp.None?
  {
    match stored
    case NotObject => (SessionInfo(GenerateSessionId(random), now, Some(1), None), true)
    case Record(info) => (info, false)
  }

  /**
   * `updateSession_(session)` as intended: an expired session is replaced by a new one whose
   * count is one more than the old count (one if there was none); a live session keeps its
   * id and creation time and gets a count of one if it had none. Either way the last access
   * becomes `now`.
   */
  function UpdateSession(session: SessionInfo, now: int, random: real): (r: SessionInfo)
    requires 0.0 <= random < 1.0
    ensures r.lastAccessTimestamp == Some(now)
  {
    if IsSessionExpired(session, now) then
      var newSessionCount := if session.count.None? then 1 else session.count.value + 1;
      SessionInfo(GenerateSessionId(random), now, Some(newSessionCount), Some(now))
    else
      session.(count := if session.count.None? then Some(1) else session.count,
               lastAccessTimestamp := Some(now))
  }

  /**
   * `updateSession_(session)` as written: it calls `this.isSessionExpired_`, which the class
   * does not define, so the call throws a `TypeError` before anything else happens.
   */
  function UpdateSessionAsWritten(session: SessionInfo, now: int, random: real): (r: Result<SessionInfo>)
    requires 0.0 <= random < 1.0
    ensures r.Failure?
  {
    Failure("TypeError: this.isSessionExpired_ is not a function")
  }

  /**
   * The session built when a storage read completes: a fresh session with count one when
   * storage held nothing, otherwise the stored session, updated.
   */
  function SessionFromStorage(stored: Stored, now: int, random: real): (r: SessionInfo)
    requires 0.0 <= random < 1.0
    ensures r.lastAccessTimestamp == Some(now)
  {
    if stored == Falsy then SessionInfo(GenerateSessionId(random), now, Some(1), Some(now))
    else UpdateSession(ConstructSessionFromStoredValue(stored, now, random).0, now, random)
  }

  /** `session?.[value]`. */
  function ReadValue(session: SessionInfo, value: SessionValue): (v: Option<int>)
    ensures value == SessionId ==> v == Some(session.sessionId)
    ensures value == CreationTimestamp ==> v == Some(session.creationTimestamp)
    ensures value == LastAccessTimestamp ==> v == session.lastAccessTimestamp
    ensures value == Count ==> v == session.count
  {
    match value
    case SessionId => Some(session.sessionId)
    case CreationTimestamp => Some(session.creationTimestamp)
    case LastAccessTimestamp => session.lastAccessTimestamp
    case Count => session.count
  }

  /** A vendor type that `get` accepts: present and non-empty. */
  predicate IsVendor(vendor: Option<string>) {
    vendor.Some? && vendor.value != ""
  }

  // ---------------------------------------------------------------------------------------
  // Properties of the pure parts

  /** At exactly the maximum age a session is still live; one millisecond later it has expired. */
  lemma ExpiryBoundary(session: SessionInfo, t: int)
    requires session.lastAccessTimestamp == Some(t)
    ensures !IsSessionExpired(session, t + SESSION_MAX_AGE_MILLIS)
    ensures IsSessionExpired(session, t + SESSION_MAX_AGE_MILLIS + 1)
  {
  }

  /** A session without a last access never expires. */
  lemma NeverExpiresWithoutAccess(session: SessionInfo, now: int)
    requires session.lastAccessTimestamp.None?
    ensures !IsSessionExpired(session, now)
  {
  }

  /** Once expired, a session stays expired as the clock moves on. */
  lemma ExpiryIsMonotone(session: SessionInfo, now: int, later: int)
    requires now <= later && IsSessionExpired(session, now)
    ensures IsSessionExpired(session, later)
  {
  }

  /**
   * Updating an expired session starts a new one: a fresh id in range, created now, and a
   * count one above the old count, or one if the old count was missing.
   */
  lemma UpdateExpired(session: SessionInfo, now: int, random: real)
    requires 0.0 <= random < 1.0 && IsSessionExpired(session, now)
    ensures 0 <= UpdateSession(session, now, random).sessionId <= 9999
    ensures UpdateSession(session, now, random).creationTimestamp == now
    ensures UpdateSession(session, now, random).count ==
      Some(if session.count.None? then 1 else session.count.value + 1)
    ensures UpdateSession(session, now, random).lastAccessTimestamp == Some(now)
  {
  }

  /**
   * Updating a live session keeps its id and creation time, gives a missing count the value
   * one and keeps any other count.
   */
  lemma UpdateLive(session: SessionInfo, now: int, random: real)
    requires 0.0 <= random < 1.0 && !IsSessionExpired(session, now)
    ensures UpdateSession(session, now, random).sessionId == session.sessionId
    ensures UpdateSession(session, now, random).creationTimestamp == session.creationTimestamp
    ensures UpdateSession(session, now, random).count == if session.count.None? then Some(1) else session.count
    ensures UpdateSession(session, now, random).lastAccessTimestamp == Some(now)
  {
  }

  /** An updated session is live for the next thirty minutes, and its count is present. */
  lemma UpdatedIsLive(session: SessionInfo, now: int, random: real, later: int)
    requires 0.0 <= random < 1.0 && later <= now + SESSION_MAX_AGE_MILLIS
    ensures !IsSessionExpired(UpdateSession(session, now, random), later)
    ensures UpdateSession(session, now, random).count.Some?
  {
  }

  /** A positive count stays positive through an update, and a missing one becomes positive. */
  lemma UpdateKeepsCountPositive(session: SessionInfo, now: int, random: real)
    requires 0.0 <= random < 1.0
    requires session.count.None? || session.count.value >= 1
    ensures UpdateSession(session, now, random).count.value >= 1
  {
  }

  /** With nothing usable in storage, the new session has count one and was created and accessed now. */
  lemma FreshFromStorage(stored: Stored, now: int, random: real)
    requires 0.0 <= random < 1.0 && (stored == Falsy || stored == NotObject)
    ensures SessionFromStorage(stored, now, random).count == Some(1)
    ensures SessionFromStorage(stored, now, random).creationTimestamp == now
    ensures SessionFromStorage(stored, now, random).lastAccessTimestamp == Some(now)
    ensures 0 <= SessionFromStorage(stored, now, random).sessionId <= 9999
  {
  }

  /** Different vendors never share a storage key. */
  lemma StorageKeyInjective(a: string, b: string)
    requires StorageKey(a) == StorageKey(b)
    ensures a == b
  {
    assert a == StorageKey(a)[|SESSION_STORAGE_KEY|..];
  }

  /** The written update throws for every session, so no cache hit and no stored session can be served. */
  lemma UpdateAsWrittenAlwaysThrows(session: SessionInfo, now: int, random: real)
    requires 0.0 <= random < 1.0
    ensures UpdateSessionAsWritten(session, now, random).Failure?
    ensures UpdateSessionAsWritten(session, now, random) != Success(UpdateSession(session, now, random))
  {
  }

  // ---------------------------------------------------------------------------------------
  // The service

  /**
   * `SessionManager`: the cache `sessions_` of one session per vendor, with the log of the
   * storage writes (`setSession_`) and of the errors it reports.
   */
  class SessionManager {
    var sessions: map<string, SessionInfo>
    var writes: seq<(string, SessionInfo)>
    var errors: seq<string>

    /** Cached sessions belong to real vendors and have been updated: a count and a last access. */
    predicate Valid()
      reads this
    {
      forall vendor :: vendor in sessions ==>
        vendor != "" && sessions[vendor].count.Some? && sessions[vendor].lastAccessTimestamp.Some?
    }

    constructor()
      ensures Valid()
      ensures sessions == map[] && writes == [] && errors == []
    {
      sessions := map[];
      writes := [];
      errors := [];
    }

    /** `setSession_(type, session)`: write the session under the vendor's key. */
    method SetSession(vendor: string, session: SessionInfo)
      modifies this
      ensures writes == old(writes) + [(StorageKey(vendor), session)]
      ensures sessions == old(sessions) && errors == old(errors)
    {
      writes := writes + [(StorageKey(vendor), session)];
    }

    /**
     * `get(type)`. Without a vendor it reports an error and answers `null`. A cached session
     * that has not expired is updated, cached, written and returned at once. Otherwise the
     * answer waits for the storage read of the vendor's key (`CompleteRead`).
     */
    method Get(vendor: Option<string>, now: int, random: real) returns (r: Reply)
      requires Valid() && 0.0 <= random < 1.0
      modifies this
      ensures Valid()
      ensures !IsVendor(vendor) ==>
        r == Null && errors == old(errors) + [NO_VENDOR_ERROR] &&
        sessions == old(sessions) && writes == old(writes)
      ensures IsVendor(vendor) && vendor.value in old(sessions) && !IsSessionExpired(old(sessions)[vendor.value], now) ==>
        var s := UpdateSession(old(sessions)[vendor.value], now, random);
        r == Ready(s) && sessions == old(sessions)[vendor.value := s] &&
        writes == old(writes) + [(StorageKey(vendor.value), s)] && errors == old(errors)
      ensures IsVendor(vendor) && !(vendor.value in old(sessions) && !IsSessionExpired(old(sessions)[vendor.value], now)) ==>
        r == Pending(StorageKey(vendor.value)) &&
        sessions == old(sessions) && writes == old(writes) && errors == old(errors)
      // Since the cache holds only counted sessions, a live hit keeps the id, the creation
      // time and the count, and moves only the last access.
      ensures r.Ready? ==>
        vendor.Some? && vendor.value in old(sessions) &&
        r.session == old(sessions)[vendor.value].(lastAccessTimestamp := Some(now))
    {
      if vendor.None? || vendor.value == "" {
        errors := errors + [NO_VENDOR_ERROR];
        return Null;
      }
      var t := vendor.value;
      if t in sessions && !IsSessionExpired(sessions[t], now) {
        UpdateLive(sessions[t], now, random);
        var s := UpdateSession(sessions[t], now, random);
        sessions := sessions[t := s];
        SetSession(t, s);
        return Ready(s);
      }
      return Pending(StorageKey(t));
    }

    /**
     * The rest of `getOrCreateSession_(type)`, run when the storage read returns `stored`.
     * The session built from storage is cached and written, unless by now the cache holds a
     * live session for the vendor: that one wins, and the new one is dropped.
     */
    method CompleteRead(vendor: string, stored: Stored, now: int, random: real) returns (s: SessionInfo)
      requires Valid() && vendor != "" && 0.0 <= random < 1.0
      modifies this
      ensures Valid()
      ensures errors == old(errors) + (if stored.NotObject? then [INVALID_STORED_ERROR] else [])
      ensures vendor in old(sessions) && !IsSessionExpired(old(sessions)[vendor], now) ==>
        s == old(sessions)[vendor] && sessions == old(sessions) && writes == old(writes)
      ensures !(vendor in old(sessions) && !IsSessionExpired(old(sessions)[vendor], now)) ==>
        s == SessionFromStorage(stored, now, random) && sessions == old(sessions)[vendor := s] &&
        writes == old(writes) + [(StorageKey(vendor), s)]
    {
      if stored.NotObject? {
        errors := errors + [INVALID_STORED_ERROR];
      }
      var built := SessionFromStorage(stored, now, random);
      if vendor in sessions && !IsSessionExpired(sessions[vendor], now) {
        return sessions[vendor];
      }
      SetSession(vendor, built);
      sessions := sessions[vendor := built];
      s := built;
    }

    /**
     * `getSessionValue(type, value)` when nothing else runs in between: `get`, then the
     * storage read if `get` had to wait for it, then the field of the session.
     */
    method GetSessionValue(vendor: Option<string>, value: SessionValue, stored: Stored, now: int, random: real)
      returns (v: Option<int>)
      requires Valid() && 0.0 <= random < 1.0
      modifies this
      ensures Valid()
      ensures !IsVendor(vendor) ==> v.None?
      ensures IsVendor(vendor) && vendor.value in old(sessions) && !IsSessionExpired(old(sessions)[vendor.value], now) ==>
        v == ReadValue(UpdateSession(old(sessions)[vendor.value], now, random), value)
      ensures IsVendor(vendor) && !(vendor.value in old(sessions) && !IsSessionExpired(old(sessions)[vendor.value], now)) ==>
        v == ReadValue(SessionFromStorage(stored, now, random), value)
      ensures !IsVendor(vendor) ==>
        sessions == old(sessions) && writes == old(writes) && errors == old(errors) + [NO_VENDOR_ERROR]
      ensures IsVendor(vendor) && vendor.value in old(sessions) && !IsSessionExpired(old(sessions)[vendor.value], now) ==>
        var s := UpdateSession(old(sessions)[vendor.value], now, random);
        sessions == old(sessions)[vendor.value := s] &&
        writes == old(writes) + [(StorageKey(vendor.value), s)] && errors == old(errors)
      ensures IsVendor(vendor) && !(vendor.value in old(sessions) && !IsSessionExpired(old(sessions)[vendor.value], now)) ==>
        var s := SessionFromStorage(stored, now, random);
        sessions == old(sessions)[vendor.value := s] &&
        writes == old(writes) + [(StorageKey(vendor.value), s)] &&
        errors == old(errors) + (if stored.NotObject? then [INVALID_STORED_ERROR] else [])
    {
      var r := Get(vendor, now, random);
      match r
      case Null =>
        v := None;
      case Ready(s) =>
        v := ReadValue(s, value);
      case Pending(_) =>
        var s := CompleteRead(vendor.value, stored, now, random);
        v := ReadValue(s, value);
    }
  }
}
