/** The registry-wide overview (src/info.rs): vault name to schema, ordered by name. */
module Infos {
  import opened Wrappers
  import opened Ordering
  import opened Schemas

  /** `(name, schema)` pairs in the order of `names`. */
  function PairsOf(data: map<string, Schema>, names: seq<string>): seq<(string, Schema)>
    requires forall i :: 0 <= i < |names| ==> names[i] in data
  {
    seq(|names|, i requires 0 <= i < |names| => (names[i], data[names[i]]))
  }

  /** The text `Display` writes for the given pairs: one `"name: schema"` line each. */
  function Render(pairs: seq<(string, Schema)>, show: Schema -> string): string
    decreases |pairs|
  {
    if pairs == [] then ""
    else Render(pairs[..|pairs| - 1], show) + pairs[|pairs| - 1].0 + ": " + show(pairs[|pairs| - 1].1) + "\n"
  }

  class Info {
    var data: map<string, Schema>

    /** `Info::default()`. */
    constructor ()
      ensures data == map[]
    {
      data := map[];
    }

    /** `From<BTreeMap>`: the map as given. */
    constructor FromMap(data: map<string, Schema>)
      ensures this.data == data
    {
      this.data := data;
    }

    function Get(key: string): (r: Option<Schema>)
      reads this
      ensures r.Some? <==> key in data
      ensures r.Some? ==> r.value == data[key]
    {
      MapGet(data, key)
    }

    /** Stores `value` under `key`, overwriting any previous schema. */
    method Insert(key: string, value: Schema)
      modifies this
      ensures data == old(data)[key := value]
      ensures Get(key) == Some(value)
      ensures forall k :: k != key ==> Get(k) == old(Get(k))
    {
      data := data[key := value];
    }

    /** Iteration, in ascending name order. */
    method Pairs() returns (r: seq<(string, Schema)>)
      ensures r == PairsOf(data, SortedKeys(data.Keys))
    {
      var names := SortKeys(data.Keys);
      r := PairsOf(data, names);
    }

    /** `Display`: one `"name: schema"` line per entry, in ascending name order. */
    method Display(show: Schema -> string) returns (text: string)
      ensures text == Render(PairsOf(data, SortedKeys(data.Keys)), show)
    {
      var pairs := Pairs();
      text := RenderLines(pairs, show);
    }
  }

  /** The `Display` loop: one line per pair, appended in order. */
  method RenderLines(pairs: seq<(string, Schema)>, show: Schema -> string) returns (text: string)
    ensures text == Render(pairs, show)
  {
    text := "";
    for i := 0 to |pairs|
      invariant text == Render(pairs[..i], show)
    {
      assert pairs[..i + 1][..i] == pairs[..i];
      text := text + pairs[i].0 + ": " + show(pairs[i].1) + "\n";
    }
    assert pairs[..|pairs|] == pairs;
  }

  /** Iteration yields every entry once, with its schema, names strictly ascending. */
  lemma PairsInNameOrder(data: map<string, Schema>)
    ensures var r := PairsOf(data, SortedKeys(data.Keys));
      |r| == |data| &&
      (forall i :: 0 <= i < |r| ==> r[i].0 in data && r[i].1 == data[r[i].0]) &&
      (forall i, j :: 0 <= i < j < |r| ==> StrLe(r[i].0, r[j].0) && r[i].0 != r[j].0) &&
      (forall k :: k in data ==> exists i :: 0 <= i < |r| && r[i] == (k, data[k]))
  {
    var names := SortedKeys(data.Keys);
    PairsFollowNames(data, names);
  }

  /** The pairs of an ascending listing of every key follow that listing. */
  lemma PairsFollowNames(data: map<string, Schema>, names: seq<string>)
    requires |names| == |data|
    requires forall k :: k in names <==> k in data
    requires StrictlySorted(names)
    ensures var r := PairsOf(data, names);
      |r| == |data| &&
      (forall i :: 0 <= i < |r| ==> r[i].0 in data && r[i].1 == data[r[i].0]) &&
      (forall i, j :: 0 <= i < j < |r| ==> StrLe(r[i].0, r[j].0) && r[i].0 != r[j].0) &&
      (forall k :: k in data ==> exists i :: 0 <= i < |r| && r[i] == (k, data[k]))
  {
    var r := PairsOf(data, names);
    forall i, j | 0 <= i < j < |r|
      ensures StrLe(r[i].0, r[j].0) && r[i].0 != r[j].0
    {
      assert r[i].0 == names[i] && r[j].0 == names[j];
    }
    forall k | k in data
      ensures exists i :: 0 <= i < |r| && r[i] == (k, data[k])
    {
      var i :| 0 <= i < |names| && names[i] == k;
      assert r[i] == (k, data[k]);
    }
  }
}
