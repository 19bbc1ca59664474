/**
 * The schema of a vault (src/vault/schema.rs): the vault with every secret value dropped,
 * keeping field names, descriptions and URLs. It is stored unencrypted.
 */
module VaultSchemas {
  import opened Entries
  import opened Vaults
  import FieldLists

  datatype SchemaEntry = SchemaEntry(values: seq<string>, description: string, urls: seq<string>)

  type Schema = map<string, SchemaEntry>

  /** `From<Entry> for SchemaEntry`. */
  function EntrySchema(e: EntryData): SchemaEntry
  {
    SchemaEntry(FieldLists.Names(e.values), e.description, e.urls)
  }

  /** `From<Vault> for Schema`. */
  function VaultSchema(v: VaultData): Schema
  {
    map key | key in v :: EntrySchema(v[key])
  }

  /** The schema has the vault's entry names, and each entry keeps its field names in order. */
  lemma SchemaShape(v: VaultData)
    ensures VaultSchema(v).Keys == v.Keys
    ensures forall key :: key in v ==>
      |VaultSchema(v)[key].values| == |v[key].values| &&
      (forall i :: 0 <= i < |v[key].values| ==> VaultSchema(v)[key].values[i] == v[key].values[i].0)
  {
  }

  /**
   * No secret reaches the schema: vaults that agree on names, field names, descriptions
   * and URLs have the same schema, whatever their values.
   */
  lemma SchemaHidesValues(v: VaultData, w: VaultData)
    requires v.Keys == w.Keys
    requires forall key :: key in v ==>
      v[key].description == w[key].description && v[key].urls == w[key].urls &&
      |v[key].values| == |w[key].values| &&
      forall i :: 0 <= i < |v[key].values| ==> v[key].values[i].0 == w[key].values[i].0
    ensures VaultSchema(v) == VaultSchema(w)
  {
    forall key | key in v
      ensures EntrySchema(v[key]) == EntrySchema(w[key])
    {
      assert FieldLists.Names(v[key].values) == FieldLists.Names(w[key].values);
    }
  }

  /** Inserting an entry updates the schema at that name only. */
  lemma SchemaInsert(v: VaultData, key: string, e: EntryData)
    ensures VaultSchema(v[key := e]) == VaultSchema(v)[key := EntrySchema(e)]
  {
  }

  /** Removing an entry removes it from the schema. */
  lemma SchemaRemove(v: VaultData, key: string)
    ensures VaultSchema(v - {key}) == VaultSchema(v) - {key}
  {
  }
}
