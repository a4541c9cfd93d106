/**
 * The login-state cache kept in the "GameHubSession" shared-preferences file,
 * and the lazily created process-wide SessionManager instance.
 */
module SessionManager {
  import opened Wrappers

  const KEY_IS_LOGGED_IN: string := "isLoggedIn"
  const KEY_USER_ID: string := "userId"
  const KEY_USERNAME: string := "username"
  const KEY_EMAIL: string := "email"

  datatype PrefValue = BoolValue(b: bool) | StringValue(s: string)

  type Prefs = map<string, PrefValue>

  /** getBoolean(key, default). */
  function GetBoolean(prefs: Prefs, key: string, default: bool): bool {
    if key in prefs && prefs[key].BoolValue? then prefs[key].b else default
  }

  /** getString(key, null). */
  function GetString(prefs: Prefs, key: string): Option<string> {
    if key in prefs && prefs[key].StringValue? then Some(prefs[key].s) else None
  }

  /** putString(key, value): a null value removes the key. */
  function PutString(prefs: Prefs, key: string, value: Option<string>): (r: Prefs)
    ensures GetString(r, key) == value
    ensures value.None? ==> key !in r
    ensures value.Some? ==> key in r && r[key] == StringValue(value.value)
    ensures forall k :: k != key ==> (k in r <==> k in prefs) && (k in prefs ==> r[k] == prefs[k])
  {
    if value.Some? then prefs[key := StringValue(value.value)] else prefs - {key}
  }

  /** The preferences after createLoginSession. */
  function LoggedInPrefs(prefs: Prefs, userId: Option<string>, username: Option<string>, email: Option<string>): Prefs {
    var p := prefs[KEY_IS_LOGGED_IN := BoolValue(true)];
    PutString(PutString(PutString(p, KEY_USER_ID, userId), KEY_USERNAME, username), KEY_EMAIL, email)
  }

  /** An empty file, as on first launch or after logout, reads as logged out with every value null. */
  lemma EmptyFileLoggedOut(prefs: Prefs)
    requires prefs == map[]
    ensures !GetBoolean(prefs, KEY_IS_LOGGED_IN, false)
    ensures GetString(prefs, KEY_USER_ID) == None && GetString(prefs, KEY_USERNAME) == None && GetString(prefs, KEY_EMAIL) == None
  {
  }

  /** After a login the getters read back exactly what was stored. */
  lemma LoginReadsBack(prefs: Prefs, userId: Option<string>, username: Option<string>, email: Option<string>)
    ensures var p := LoggedInPrefs(prefs, userId, username, email);
      GetBoolean(p, KEY_IS_LOGGED_IN, false) && GetString(p, KEY_USER_ID) == userId
      && GetString(p, KEY_USERNAME) == username && GetString(p, KEY_EMAIL) == email
  {
  }

  /** A second login overwrites the first: the last one wins. */
  lemma LastLoginWins(prefs: Prefs, u1: Option<string>, n1: Option<string>, e1: Option<string>,
                      u2: Option<string>, n2: Option<string>, e2: Option<string>)
    ensures var p := LoggedInPrefs(LoggedInPrefs(prefs, u1, n1, e1), u2, n2, e2);
      GetString(p, KEY_USER_ID) == u2 && GetString(p, KEY_USERNAME) == n2 && GetString(p, KEY_EMAIL) == e2
  {
    LoginReadsBack(LoggedInPrefs(prefs, u1, n1, e1), u2, n2, e2);
  }

  /** The preferences file; every SessionManager of the process shares the one object. */
  class Preferences {
    var entries: Prefs

    constructor ()
      ensures entries == map[]
    {
      entries := map[];
    }
  }

  class Session {
    const pref: Preferences

    constructor (pref: Preferences)
      ensures this.pref == pref
    {
      this.pref := pref;
    }

    function IsLoggedIn(): bool
      reads pref
    {
      GetBoolean(pref.entries, KEY_IS_LOGGED_IN, false)
    }

    function UserId(): Option<string>
      reads pref
    {
      GetString(pref.entries, KEY_USER_ID)
    }

    function Username(): Option<string>
      reads pref
    {
      GetString(pref.entries, KEY_USERNAME)
    }

    function Email(): Option<string>
      reads pref
    {
      GetString(pref.entries, KEY_EMAIL)
    }

    /** createLoginSession: logged in, with exactly these three values. */
    method CreateLoginSession(userId: Option<string>, username: Option<string>, email: Option<string>)
      modifies pref
      ensures pref.entries == LoggedInPrefs(old(pref.entries), userId, username, email)
      ensures IsLoggedIn() && UserId() == userId && Username() == username && Email() == email
    {
      var e := pref.entries;
      e := e[KEY_IS_LOGGED_IN := BoolValue(true)];
      e := PutString(e, KEY_USER_ID, userId);
      e := PutString(e, KEY_USERNAME, username);
      e := PutString(e, KEY_EMAIL, email);
      pref.entries := e;
      LoginReadsBack(old(pref.entries), userId, username, email);
    }

    /** logout: editor.clear() empties the file, so the session reads as logged out. */
    method Logout()
      modifies pref
      ensures pref.entries == map[]
      ensures !IsLoggedIn() && UserId() == None && Username() == None && Email() == None
    {
      pref.entries := map[];
    }
  }

  /** The static `instance` slot of SessionManager. */
  class InstanceSlot {
    var instance: Session?

    constructor ()
      ensures instance == null
    {
      instance := null;
    }

    /** getInstance: built on first use over the shared preferences, then always the same object. */
    method GetInstance(prefs: Preferences) returns (s: Session)
      modifies this
      ensures old(instance) != null ==> s == old(instance)
      ensures old(instance) == null ==> fresh(s) && s.pref == prefs
      ensures instance == s
    {
      if instance == null {
        instance := new Session(prefs);
      }
      s := instance;
    }
  }
}
