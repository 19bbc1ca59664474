/** The vault (src/vault/mod.rs): named entries kept in a map ordered by name. */
module Vaults {
  import opened Wrappers
  import opened Entries
  import opened Ordering

  /** The contents of a Vault; a BTreeMap, so iteration is by ascending name. */
  type VaultData = map<string, EntryData>

  class Vault {
    var entries: VaultData

    /** `Vault::default()`: no entries. */
    constructor Default()
      ensures entries == map[]
    {
      entries := map[];
    }

    constructor FromData(entries: VaultData)
      ensures this.entries == entries
    {
      this.entries := entries;
    }

    /** Stores `entry` under `key`, returning the entry it replaces. */
    method Insert(key: string, entry: EntryData) returns (prev: Option<EntryData>)
      modifies this
      ensures prev == MapGet(old(entries), key)
      ensures entries == old(entries)[key := entry]
    {
      prev := Get(key);
      entries := entries[key := entry];
    }

    function Get(key: string): (r: Option<EntryData>)
      reads this
      ensures r.Some? <==> key in entries
      ensures r.Some? ==> r.value == entries[key]
    {
      if key in entries then Some(entries[key]) else None
    }

    /** `get_mut` finds the same entry as `get`; writing through the reference is not modelled. */
    method GetMut(key: string) returns (r: Option<EntryData>)
      ensures r == Get(key)
    {
      if key in entries {
        r := Some(entries[key]);
      } else {
        r := None;
      }
    }

    /** Removes the entry under `key`, returning it. */
    method Remove(key: string) returns (prev: Option<EntryData>)
      modifies this
      ensures prev == MapGet(old(entries), key)
      ensures entries == old(entries) - {key}
    {
      prev := Get(key);
      entries := entries - {key};
    }

    function IsEmpty(): (r: bool)
      reads this
      ensures r <==> forall key :: key !in entries
    {
      if |entries| == 0 then true
      else
        var key :| key in entries;
        false
    }

    /** The entry names in ascending order. */
    method Keys() returns (r: seq<string>)
      ensures r == SortedKeys(entries.Keys)
      ensures StrictlySorted(r) && |r| == |entries|
      ensures forall key :: key in r <==> key in entries
    {
      r := SortKeys(entries.Keys);
    }
  }

  /** Removing a key that was just inserted gives back the original entries. */
  lemma InsertThenRemove(m: VaultData, key: string, entry: EntryData)
    requires key !in m
    ensures m[key := entry] - {key} == m
    ensures MapGet(m[key := entry], key) == Some(entry)
  {
    assert (m[key := entry] - {key}).Keys == m.Keys;
  }
}
