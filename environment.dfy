/** Environment: environment variables with local overrides. The static override map is
    the field of one Environment object, created once by the static initializer and
    shared by every caller; the process environment is a parameter. getEnv is
    HashMap.computeIfAbsent: a key mapped to a non-null value answers from the map;
    otherwise the real environment is asked, and a non-null answer is remembered. */
module Util {
  import opened Wrappers

  /** The value getEnv answers for `key` given the overrides and the real environment. */
  function Lookup(overrides: map<string, Option<string>>, env: string -> Option<string>, key: string): Option<string> {
    if key in overrides && overrides[key].Some? then overrides[key] else env(key)
  }

  /** The override map after getEnv(key): computeIfAbsent records a non-null value it had
      to fetch, and leaves the map alone otherwise. */
  function Memo(overrides: map<string, Option<string>>, env: string -> Option<string>, key: string): (m: map<string, Option<string>>)
    ensures forall k :: k != key ==> (k in m <==> k in overrides) && (k in overrides ==> m[k] == overrides[k])
    ensures Lookup(overrides, env, key).Some? ==> key in m && m[key] == Lookup(overrides, env, key)
    ensures Lookup(overrides, env, key).None? ==> m == overrides
  {
    if key in overrides && overrides[key].Some? then overrides
    else if env(key).Some? then overrides[key := env(key)]
    else overrides
  }

  /** Remembering a fetched value changes no answer, for any key. */
  lemma MemoIsTransparent(overrides: map<string, Option<string>>, env: string -> Option<string>, key: string, other: string)
    ensures Lookup(Memo(overrides, env, key), env, other) == Lookup(overrides, env, other)
  {
  }

  /** After setEnv(key, value) with a non-null value, getEnv(key) answers that value; every
      other key answers as before. */
  lemma GetAfterSet(overrides: map<string, Option<string>>, env: string -> Option<string>, key: string, value: Option<string>, other: string)
    ensures value.Some? ==> Lookup(overrides[key := value], env, key) == value
    ensures other != key ==> Lookup(overrides[key := value], env, other) == Lookup(overrides, env, other)
  {
  }

  /** setEnv(key, null) does not hide the variable: computeIfAbsent treats a null mapping
      as absent, so getEnv(key) falls back to the real environment. */
  lemma SetNullFallsBack(overrides: map<string, Option<string>>, env: string -> Option<string>, key: string)
    ensures Lookup(overrides[key := None], env, key) == env(key)
  {
  }

  class Environment {
    var overrides: map<string, Option<string>>

    /** The static map starts empty. */
    constructor ()
      ensures overrides == map[]
    {
      overrides := map[];
    }

    /** getEnv. */
    method GetEnv(key: string, env: string -> Option<string>) returns (v: Option<string>)
      modifies this
      ensures v == Lookup(old(overrides), env, key)
      ensures overrides == Memo(old(overrides), env, key)
    {
      if key in overrides && overrides[key].Some? {
        return overrides[key];
      }
      v := env(key);
      if v.Some? {
        overrides := overrides[key := v];
      }
    }

    /** setEnv: HashMap.put, which also stores null. */
    method SetEnv(key: string, value: Option<string>)
      modifies this
      ensures overrides == old(overrides)[key := value]
    {
      overrides := overrides[key := value];
    }
  }
}
