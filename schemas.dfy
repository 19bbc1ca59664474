/**
 * The plaintext schema kept beside each vault (src/schema.rs): a map from entry name to a
 * description string, stored unencrypted in the schema file.
 */
module Schemas {
  import opened Wrappers

  datatype Schema = Schema(data: map<string, string>)

  /** `Schema::new` and `From<HashMap>`: the map as given. */
  function New(data: map<string, string>): (s: Schema)
    ensures s.data == data
  {
    Schema(data)
  }

  function Get(s: Schema, key: string): (r: Option<string>)
    ensures r.Some? <==> key in s.data
    ensures r.Some? ==> r.value == s.data[key]
  {
    MapGet(s.data, key)
  }

  /** `ks` lists every element of `keys` exactly once. */
  predicate Enumerates(ks: seq<string>, keys: set<string>)
  {
    |ks| == |keys| && (forall i :: 0 <= i < |ks| ==> ks[i] in keys) &&
    (forall k :: k in keys ==> k in ks) &&
    (forall i, j :: 0 <= i < j < |ks| ==> ks[i] != ks[j])
  }

  /** One line of `all_info`. */
  function Line(key: string, value: string): string
  {
    key + ": " + value
  }

  /** The keys, each exactly once, in the map's unspecified iteration order. */
  method Keys(s: Schema) returns (ks: seq<string>)
    ensures Enumerates(ks, s.data.Keys)
  {
    ks := [];
    var rest := s.data.Keys;
    while rest != {}
      invariant rest <= s.data.Keys
      invariant forall i :: 0 <= i < |ks| ==> ks[i] in s.data.Keys && ks[i] !in rest
      invariant forall k :: k in s.data.Keys ==> k in ks || k in rest
      invariant forall i, j :: 0 <= i < j < |ks| ==> ks[i] != ks[j]
      invariant |ks| + |rest| == |s.data.Keys|
      decreases |rest|
    {
      var k :| k in rest;
      ks := ks + [k];
      rest := rest - {k};
    }
  }

  /** One `"key: value"` string per entry, in the map's iteration order. */
  method AllInfo(s: Schema) returns (lines: seq<string>)
    ensures |lines| == |s.data|
    ensures exists ks ::
      Enumerates(ks, s.data.Keys) && forall i :: 0 <= i < |ks| ==> lines[i] == Line(ks[i], s.data[ks[i]])
  {
    var ks := Keys(s);
    lines := [];
    for i := 0 to |ks|
      invariant |lines| == i
      invariant forall j :: 0 <= j < i ==> lines[j] == Line(ks[j], s.data[ks[j]])
    {
      lines := lines + [Line(ks[i], s.data[ks[i]])];
    }
  }

  /**
   * Lines need not be distinct: whenever a value contains `": "`, moving its head into the key
   * gives another entry with the same line, so the display cannot be parsed back.
   */
  lemma LinesMayCollide(key: string, head: string, tail: string)
    ensures key != key + ": " + head
    ensures Line(key, head + ": " + tail) == Line(key + ": " + head, tail)
  {
    assert |key + ": " + head| > |key|;
  }
}
