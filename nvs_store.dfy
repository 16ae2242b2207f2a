/**
 * The ESP32 `Preferences` namespace the configuration lives in, reduced to what
 * `DeviceConfig` relies on: a map from keys to integer or string values, a namespace
 * that must be opened with `begin` before reads and writes take effect, and a flash
 * that may refuse writes to particular keys.  Whether a `begin` call opens the namespace
 * is the flash's answer to that call, a parameter of `Begin`, so two calls can differ.  Reads on a namespace
 * that is not open return the caller's default, and writes and removals on it fail.
 */
module NvsStore {
  datatype NvsValue = IntValue(i: int) | StrValue(s: string)

  /** `getInt(key, default)` on an open or closed namespace. */
  function ReadInt(e: map<string, NvsValue>, started: bool, key: string, default: int): int
  {
    if started && key in e && e[key].IntValue? then e[key].i else default
  }

  /** `getString(key, default)` on an open or closed namespace. */
  function ReadString(e: map<string, NvsValue>, started: bool, key: string, default: string): string
  {
    if started && key in e && e[key].StrValue? then e[key].s else default
  }

  /** The entries after a `put` on an open namespace: stored unless the flash refuses the key. */
  function Write(e: map<string, NvsValue>, refused: set<string>, key: string, v: NvsValue): map<string, NvsValue>
  {
    if key in refused then e else e[key := v]
  }

  class Preferences {
    /** The namespace's stored entries. */
    var entries: map<string, NvsValue>
    /** Whether `begin` has opened the namespace and `end` has not closed it. */
    var started: bool
    /** Keys whose writes the flash refuses. */
    const refused: set<string>

    constructor (entries: map<string, NvsValue>, refused: set<string>)
      ensures this.entries == entries && this.refused == refused && !started
    {
      this.entries := entries;
      this.refused := refused;
      started := false;
    }

    /** `begin`: `opens` is whether the flash opens the namespace on this call. */
    method Begin(opens: bool) returns (ok: bool)
      modifies this
      ensures ok == opens && started == ok && entries == old(entries)
    {
      ok := opens;
      started := ok;
    }

    function GetInt(key: string, default: int): int
      reads this
    {
      ReadInt(entries, started, key, default)
    }

    function GetString(key: string, default: string): string
      reads this
    {
      ReadString(entries, started, key, default)
    }

    method PutInt(key: string, value: int) returns (ok: bool)
      modifies this
      ensures ok == (started && key !in refused)
      ensures entries == (if started then Write(old(entries), refused, key, IntValue(value)) else old(entries))
      ensures started == old(started)
    {
      ok := started && key !in refused;
      if ok {
        entries := entries[key := IntValue(value)];
      }
    }

    method PutString(key: string, value: string) returns (ok: bool)
      modifies this
      ensures ok == (started && key !in refused)
      ensures entries == (if started then Write(old(entries), refused, key, StrValue(value)) else old(entries))
      ensures started == old(started)
    {
      ok := started && key !in refused;
      if ok {
        entries := entries[key := StrValue(value)];
      }
    }

    method Remove(key: string) returns (ok: bool)
      modifies this
      ensures ok == (started && key in old(entries))
      ensures entries == (if started then old(entries) - {key} else old(entries))
      ensures started == old(started)
    {
      ok := started && key in entries;
      if started {
        entries := entries - {key};
      }
    }

    method End()
      modifies this
      ensures !started && entries == old(entries)
    {
      started := false;
    }
  }
}
