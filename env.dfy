/** Reading a setting from the process environment with a fallback. The
    environment is a map from variable names to values; a name missing
    from the map is an unset variable. */
module Env {

  /** What the operating system reports for a variable: its value, or the
      empty string when it is unset. */
  function Lookup(env: map<string, string>, key: string): (v: string)
    ensures key !in env ==> v == ""
    ensures key in env ==> v == env[key]
  {
    if key in env then env[key] else ""
  }

  /** The variable's value when it is set to something non-empty, and the
      fallback otherwise. */
  function Getenv(env: map<string, string>, key: string, fallback: string): (v: string)
    ensures v == fallback || (key in env && v == env[key])
    ensures |v| > 0 <==> |Lookup(env, key)| > 0 || |fallback| > 0
    ensures |Lookup(env, key)| > 0 ==> v == env[key]
  {
    var value := Lookup(env, key);
    if |value| == 0 then fallback else value
  }

  /** An unset variable and one set to the empty string read the same. */
  lemma UnsetIsEmpty(env: map<string, string>, key: string, fallback: string)
    ensures Getenv(env - {key}, key, fallback) == Getenv(env[key := ""], key, fallback) == fallback
  {
  }

  /** Setting a variable to a non-empty value makes Getenv return it. */
  lemma SetThenGet(env: map<string, string>, key: string, value: string, fallback: string)
    requires value != ""
    ensures Getenv(env[key := value], key, fallback) == value
  {
  }

  /** Other variables do not matter. */
  lemma OtherKeysIgnored(env: map<string, string>, key: string, other: string, value: string, fallback: string)
    requires other != key
    ensures Getenv(env[other := value], key, fallback) == Getenv(env, key, fallback)
  {
  }

  /** Using the result as the fallback of a second read changes nothing. */
  lemma GetenvIdempotent(env: map<string, string>, key: string, fallback: string)
    ensures Getenv(env, key, Getenv(env, key, fallback)) == Getenv(env, key, fallback)
  {
  }
}
