/**
 * The ESP32 Preferences store: non-volatile key/value storage in one
 * namespace.  Each key holds one typed entry; a read asks for a type and
 * falls back to the caller's default when the key is absent or holds an
 * entry of another type.
 */
module Nvs {
  datatype Entry = StringEntry(text: string) | BoolEntry(flag: bool)

  type Store = map<string, Entry>

  /** getString over a store: the stored string, or the default. */
  function StringOr(m: Store, key: string, defaultValue: string): string
  {
    if key in m && m[key].StringEntry? then m[key].text else defaultValue
  }

  /** getBool over a store: the stored flag, or the default. */
  function BoolOr(m: Store, key: string, defaultValue: bool): bool
  {
    if key in m && m[key].BoolEntry? then m[key].flag else defaultValue
  }

  /** getString after putString of that key gives the value put; a put of
      another key leaves it as it was. */
  lemma StringOrPut(m: Store, key: string, value: string, k: string, e: Entry, defaultValue: string)
    ensures StringOr(m[key := StringEntry(value)], key, defaultValue) == value
    ensures k != key ==> StringOr(m[k := e], key, defaultValue) == StringOr(m, key, defaultValue)
  {
  }

  /** getBool after putBool of that key gives the flag put; a put of another
      key leaves it as it was. */
  lemma BoolOrPut(m: Store, key: string, flag: bool, k: string, e: Entry, defaultValue: bool)
    ensures BoolOr(m[key := BoolEntry(flag)], key, defaultValue) == flag
    ensures k != key ==> BoolOr(m[k := e], key, defaultValue) == BoolOr(m, key, defaultValue)
  {
  }

  class Preferences {
    var entries: Store

    constructor (initial: Store)
      ensures entries == initial
    {
      entries := initial;
    }

    method PutString(key: string, value: string)
      modifies this
      ensures entries == old(entries)[key := StringEntry(value)]
    {
      entries := entries[key := StringEntry(value)];
    }

    method PutBool(key: string, value: bool)
      modifies this
      ensures entries == old(entries)[key := BoolEntry(value)]
    {
      entries := entries[key := BoolEntry(value)];
    }

    /** getString: the string stored under key, or the default when the key
        is absent or holds a flag. */
    function GetString(key: string, defaultValue: string): (v: string)
      reads this
      ensures (key in entries && entries[key] == StringEntry(v))
              || (v == defaultValue && !(key in entries && entries[key].StringEntry?))
    {
      StringOr(entries, key, defaultValue)
    }

    /** getBool: the flag stored under key, or the default when the key is
        absent or holds a string. */
    function GetBool(key: string, defaultValue: bool): (v: bool)
      reads this
      ensures (key in entries && entries[key] == BoolEntry(v))
              || (v == defaultValue && !(key in entries && entries[key].BoolEntry?))
    {
      BoolOr(entries, key, defaultValue)
    }
  }
}
