/**
 * The required-parameter check of `connect_to_db`: host, database name, user
 * and password must all be non-empty before any connection is attempted.
 */
module Connection {
  import opened Wrappers

  const MISSING_MESSAGE := "Не вказана обов'язкова змінна середовища: "

  /** Keys whose value is empty, in the order the settings are given. */
  function MissingKeys(settings: seq<(string, string)>): (missing: seq<string>)
    ensures |missing| <= |settings|
    ensures forall k :: k in missing ==> (k, "") in settings
    ensures forall i :: 0 <= i < |settings| && settings[i].1 == "" ==> settings[i].0 in missing
  {
    if settings == [] then []
    else (if settings[0].1 == "" then [settings[0].0] else []) + MissingKeys(settings[1..])
  }

  /** The missing keys of earlier settings are listed before those of later ones. */
  lemma {:induction false} MissingKeysAppend(a: seq<(string, string)>, b: seq<(string, string)>)
    ensures MissingKeys(a + b) == MissingKeys(a) + MissingKeys(b)
  {
    if a == [] {
      assert a + b == b;
    } else {
      assert (a + b)[0] == a[0] && (a + b)[1..] == a[1..] + b;
      MissingKeysAppend(a[1..], b);
    }
  }

  /** `", ".join(parts)`. */
  function Join(parts: seq<string>, separator: string): (joined: string)
    ensures parts == [] ==> joined == []
    ensures |parts| == 1 ==> joined == parts[0]
  {
    if parts == [] then []
    else if |parts| == 1 then parts[0]
    else parts[0] + separator + Join(parts[1..], separator)
  }

  /** The four required settings, keyed as in the environment. */
  function RequiredSettings(host: string, name: string, user: string, password: string): seq<(string, string)>
  {
    [("DB_HOST", host), ("DB_NAME", name), ("DB_USER", user), ("DB_PASSWORD", password)]
  }

  /**
   * `_required_env(host, name, user, password)`: fails exactly when one of
   * them is empty, with a message naming every empty one in key order.
   */
  function RequiredEnv(host: string, name: string, user: string, password: string): (r: Result<(), string>)
    ensures r.Err? <==> host == "" || name == "" || user == "" || password == ""
    ensures r.Err? ==> r.error == MISSING_MESSAGE + Join(MissingKeys(RequiredSettings(host, name, user, password)), ", ")
  {
    RequiredEnvLists(host, name, user, password);
    var missing := MissingKeys(RequiredSettings(host, name, user, password));
    if missing != [] then Err(MISSING_MESSAGE + Join(missing, ", ")) else Ok(())
  }

  /** The listed keys are exactly the empty settings, in the fixed key order. */
  lemma RequiredEnvLists(host: string, name: string, user: string, password: string)
    ensures MissingKeys(RequiredSettings(host, name, user, password)) ==
              (if host == "" then ["DB_HOST"] else []) + ((if name == "" then ["DB_NAME"] else [])
              + ((if user == "" then ["DB_USER"] else []) + (if password == "" then ["DB_PASSWORD"] else [])))
  {
    var s := RequiredSettings(host, name, user, password);
    assert s[1..][1..][1..][1..] == [];
    assert MissingKeys(s[1..][1..][1..]) == (if password == "" then ["DB_PASSWORD"] else []);
    assert MissingKeys(s[1..][1..]) == (if user == "" then ["DB_USER"] else []) + MissingKeys(s[1..][1..][1..]);
    assert MissingKeys(s[1..]) == (if name == "" then ["DB_NAME"] else []) + MissingKeys(s[1..][1..]);
    assert MissingKeys(s) == (if host == "" then ["DB_HOST"] else []) + MissingKeys(s[1..]);
  }

  /** The two cases the tests of `_required_env` exercise: an empty database name is reported, a full set passes. */
  lemma RequiredEnvExamples()
    ensures RequiredEnv("localhost", "", "user", "pass") == Err(MISSING_MESSAGE + "DB_NAME")
    ensures RequiredEnv("localhost", "db", "user", "pass") == Ok(())
  {
    RequiredEnvLists("localhost", "", "user", "pass");
  }
}
