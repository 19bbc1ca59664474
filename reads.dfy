/** The values a transaction read (src/reads.rs): a map from key to value. */
module Reads {
  import opened Wrappers

  class Reads<T> {
    var data: map<string, T>

    /** `Reads::new()` and `Reads::default()`. */
    constructor ()
      ensures data == map[]
    {
      data := map[];
    }

    /** Maps `key` to `value`, returning the value it replaces. */
    method Insert(key: string, value: T) returns (prev: Option<T>)
      modifies this
      ensures prev == MapGet(old(data), key)
      ensures data == old(data)[key := value]
      ensures key in data && data[key] == value
      ensures forall k :: k != key ==> MapGet(data, k) == MapGet(old(data), k)
    {
      prev := MapGet(data, key);
      data := data[key := value];
    }

    /** Removes `key`, returning the value it held. */
    method Remove(key: string) returns (prev: Option<T>)
      modifies this
      ensures prev == MapGet(old(data), key)
      ensures data == old(data) - {key}
      ensures key !in data
      ensures forall k :: k != key ==> MapGet(data, k) == MapGet(old(data), k)
    {
      prev := MapGet(data, key);
      data := data - {key};
    }
  }
}
