/**
 * Secret records (src/store.rs): a `Store` is an ordered list of (field name, secret) pairs;
 * `Changes` is the same list with optional values, the edit applied to a Store by
 * `Store::update`.
 */
module Stores {
  import opened Wrappers
  import opened FieldLists

  type SecretValue = string

  /** The contents of a Store, as carried by commands, actions and reads. */
  type StoreData = seq<(string, SecretValue)>

  type ChangesData = seq<(string, Option<SecretValue>)>

  /** `join`: every pair of the extension inserted in turn. */
  function UpsertAll(s: StoreData, extension: StoreData): StoreData
    decreases |extension|
  {
    if extension == [] then s
    else UpsertAll(Upsert(s, extension[0].0, extension[0].1), extension[1..])
  }

  /** The value `update` keeps for one change: the new one, or else the old store's. */
  function Resolved(prior: StoreData, change: (string, Option<SecretValue>)): Option<SecretValue>
  {
    if change.1.Some? then change.1 else Lookup(prior, change.0)
  }

  /** `update` as the source runs it: a left fold of inserts into an initially empty store. */
  function MergeInto(acc: StoreData, prior: StoreData, changes: ChangesData): StoreData
    decreases |changes|
  {
    if changes == [] then acc
    else
      var value := Resolved(prior, changes[0]);
      var acc' := if value.Some? then Upsert(acc, changes[0].0, value.value) else acc;
      MergeInto(acc', prior, changes[1..])
  }

  function Merge(prior: StoreData, changes: ChangesData): StoreData
  {
    MergeInto([], prior, changes)
  }

  /**
   * Reference definition of the result of `update`: walk the changes in order and keep a
   * field exactly when it resolves to a value.
   */
  function Kept(prior: StoreData, changes: ChangesData): StoreData
    decreases |changes|
  {
    if changes == [] then []
    else
      var value := Resolved(prior, changes[0]);
      (if value.Some? then [(changes[0].0, value.value)] else []) + Kept(prior, changes[1..])
  }

  /** A Changes list with the given field names and no new value anywhere. */
  function Blank(fields: seq<string>): (r: ChangesData)
    ensures Names(r) == fields
    ensures forall i :: 0 <= i < |r| ==> r[i].1.None?
  {
    seq(|fields|, i requires 0 <= i < |fields| => (fields[i], None))
  }

  predicate AnyValueSet(changes: ChangesData)
  {
    exists i :: 0 <= i < |changes| && changes[i].1.Some?
  }

  /** What `Changes::unchanged` answers, as written. */
  predicate ReportsUnchanged(changes: ChangesData, fields: seq<string>)
  {
    AnyValueSet(changes) || Names(changes) == fields
  }

  /** What `unchanged` evidently means: no value set and the original field list. */
  predicate IsUnchanged(changes: ChangesData, fields: seq<string>)
  {
    !AnyValueSet(changes) && Names(changes) == fields
  }

  class Store {
    var data: StoreData

    /** `Store::default()`. */
    constructor Default()
      ensures data == []
    {
      data := [];
    }

    /** `Store::new(data)`. */
    constructor (data: StoreData)
      ensures this.data == data
    {
      this.data := data;
    }

    /** `Store::password`: a single field named "Password". */
    constructor Password(pass: SecretValue)
      ensures data == [("Password", pass)]
      ensures Lookup(data, "Password") == Some(pass)
    {
      data := [("Password", pass)];
    }

    /** `Store::username_password`: "Username" then "Password". */
    constructor UsernamePassword(username: SecretValue, pass: SecretValue)
      ensures data == [("Username", username), ("Password", pass)]
      ensures Lookup(data, "Username") == Some(username) && Lookup(data, "Password") == Some(pass)
    {
      data := [("Username", username), ("Password", pass)];
      new;
      FirstIndexIs(data, "Password", 1);
    }

    /** Overwrites the first pair named `key` in place, or appends a new pair. */
    method Insert(key: string, value: SecretValue)
      modifies this
      ensures data == Upsert(old(data), key, value)
    {
      var p := Position(data, key);
      match p {
        case Some(i) => data := data[i := (key, value)];
        case None => data := data + [(key, value)];
      }
    }

    method Get(key: string) returns (r: Option<SecretValue>)
      ensures r == Lookup(data, key)
    {
      r := Find(data, key);
    }

    /** Removes and returns the first pair named `key`. */
    method Remove(key: string) returns (r: Option<(string, SecretValue)>)
      modifies this
      ensures r == FirstPair(old(data), key)
      ensures data == Without(old(data), key)
    {
      var p := Position(data, key);
      match p {
        case Some(i) =>
          r := Some(data[i]);
          data := RemoveAt(data, i);
        case None =>
          r := None;
      }
    }

    /** Inserts every pair of `extension`, in order. */
    method Join(extension: StoreData)
      modifies this
      ensures data == UpsertAll(old(data), extension)
    {
      var i := 0;
      while i < |extension|
        invariant 0 <= i <= |extension|
        invariant UpsertAll(data, extension[i..]) == UpsertAll(old(data), extension)
      {
        assert extension[i..][1..] == extension[i + 1..];
        Insert(extension[i].0, extension[i].1);
        i := i + 1;
      }
    }

    /** Builds a new store from `changes`: a new value wins, None keeps the old one. */
    method Update(changes: ChangesData) returns (updated: Store)
      ensures fresh(updated)
      ensures updated.data == Merge(data, changes)
    {
      updated := new Store.Default();
      var i := 0;
      while i < |changes|
        invariant 0 <= i <= |changes|
        invariant fresh(updated)
        invariant MergeInto(updated.data, data, changes[i..]) == Merge(data, changes)
      {
        assert changes[i..][1..] == changes[i + 1..];
        var (k, v) := changes[i];
        var value := v;
        if value.None? {
          value := Get(k);
        }
        if value.Some? {
          updated.Insert(k, value.value);
        }
        i := i + 1;
      }
    }
  }

  class Changes {
    var data: ChangesData

    /** `Changes::new(fields)`: the given fields, in order, none of them set. */
    constructor (fields: seq<string>)
      ensures data == Blank(fields)
      ensures Fields() == fields
      ensures !AnyValueSet(data)
    {
      data := Blank(fields);
    }

    function Fields(): seq<string>
      reads this
    {
      Names(data)
    }

    /** Sets the first pair named `key` to `Some(value)`, or appends it. */
    method Insert(key: string, value: SecretValue)
      modifies this
      ensures data == Upsert(old(data), key, Some(value))
    {
      var p := Position(data, key);
      match p {
        case Some(i) => data := data[i := (key, Some(value))];
        case None => data := data + [(key, Some(value))];
      }
    }

    method Remove(key: string) returns (r: Option<(string, Option<SecretValue>)>)
      modifies this
      ensures r == FirstPair(old(data), key)
      ensures data == Without(old(data), key)
    {
      var p := Position(data, key);
      match p {
        case Some(i) =>
          r := Some(data[i]);
          data := RemoveAt(data, i);
        case None =>
          r := None;
      }
    }

    /** Exchanges the pairs at the last positions of the two names (index 0 when missing). */
    method Swap(first: string, second: string)
      requires |data| > 0
      modifies this
      ensures data == SwapAt(old(data), LastIndexOr0(old(data), first), LastIndexOr0(old(data), second))
      ensures |data| == |old(data)| && multiset(data) == multiset(old(data))
    {
      var pos1, pos2 := LastPositions(data, first, second);
      SwapPreserves(data, pos1, pos2);
      data := data[pos1 := data[pos2]][pos2 := data[pos1]];
    }

    /** Takes the pair at `first`'s position out and reinserts it at `second`'s position. */
    method MoveTo(first: string, second: string)
      requires |data| > 0
      modifies this
      ensures data == MoveAt(old(data), LastIndexOr0(old(data), first), LastIndexOr0(old(data), second))
      ensures |data| == |old(data)| && multiset(data) == multiset(old(data))
    {
      var pos1, pos2 := LastPositions(data, first, second);
      MovePreserves(data, pos1, pos2);
      var temp := data[pos1];
      data := RemoveAt(data, pos1);
      data := InsertAt(data, pos2, temp);
    }

    /** Answers as the source does: true as soon as a value is set, else whether the names equal `fields`. */
    method Unchanged(fields: seq<string>) returns (r: bool)
      ensures r == ReportsUnchanged(data, fields)
    {
      var curr: seq<string> := [];
      var i := 0;
      while i < |data|
        invariant 0 <= i <= |data|
        invariant curr == Names(data[..i])
        invariant forall j :: 0 <= j < i ==> data[j].1.None?
      {
        if data[i].1.Some? {
          return true;
        }
        curr := curr + [data[i].0];
        i := i + 1;
      }
      assert data[..i] == data;
      return curr == fields;
    }
  }

  // ---------------------------------------------------------------------------
  // What `update` yields.

  /** The position of the first change named `key`, or the length when there is none. */
  function Pos(changes: ChangesData, key: string): nat
  {
    match FirstIndex(changes, key)
    case Some(i) => i
    case None => |changes|
  }

  /** Past a head with another name, positions shift by one. */
  lemma PosTail(changes: ChangesData, key: string)
    requires changes != [] && changes[0].0 != key
    ensures Pos(changes, key) == Pos(changes[1..], key) + 1
  {
  }

  /** Folding into an accumulator that shares no name with unique changes just appends. */
  lemma {:induction false} MergeIntoAppends(acc: StoreData, prior: StoreData, changes: ChangesData)
    requires UniqueNames(changes)
    requires forall i :: 0 <= i < |changes| ==> changes[i].0 !in Names(acc)
    ensures MergeInto(acc, prior, changes) == acc + Kept(prior, changes)
    decreases |changes|
  {
    if changes != [] {
      var c := changes[0];
      var rest := changes[1..];
      var value := Resolved(prior, c);
      UniqueNamesTail(changes);
      if value.Some? {
        UpsertAbsent(acc, c.0, value.value);
        var acc' := acc + [(c.0, value.value)];
        assert Names(acc') == Names(acc) + [c.0];
        forall i | 0 <= i < |rest|
          ensures rest[i].0 !in Names(acc')
        {
          assert rest[i] == changes[i + 1];
        }
        assert MergeInto(acc, prior, changes) == MergeInto(acc', prior, rest);
        MergeIntoAppends(acc', prior, rest);
        assert Kept(prior, changes) == [(c.0, value.value)] + Kept(prior, rest);
        assert acc' + Kept(prior, rest) == acc + Kept(prior, changes);
      } else {
        forall i | 0 <= i < |rest|
          ensures rest[i].0 !in Names(acc)
        {
          assert rest[i] == changes[i + 1];
        }
        assert MergeInto(acc, prior, changes) == MergeInto(acc, prior, rest);
        MergeIntoAppends(acc, prior, rest);
      }
    }
  }

  /** For changes with unique names, `update` equals the in-order reference definition. */
  lemma MergeIsKept(prior: StoreData, changes: ChangesData)
    requires UniqueNames(changes)
    ensures Merge(prior, changes) == Kept(prior, changes)
  {
    MergeIntoAppends([], prior, changes);
  }

  /** Every pair of `k` is a field the changes name, carrying the value that field resolves to. */
  predicate FromChanges(prior: StoreData, changes: ChangesData, k: StoreData)
  {
    forall i :: 0 <= i < |k| ==>
      Pos(changes, k[i].0) < |changes| && Resolved(prior, changes[Pos(changes, k[i].0)]) == Some(k[i].1)
  }

  /** The fields of `k` come in the order the changes name them. */
  predicate InChangesOrder(changes: ChangesData, k: StoreData)
  {
    forall i, j :: 0 <= i < j < |k| ==> Pos(changes, k[i].0) < Pos(changes, k[j].0)
  }

  /** Names taken from the tail of unique changes sit one place further on in the whole list. */
  lemma TailPositions(prior: StoreData, changes: ChangesData, tail: StoreData)
    requires changes != [] && UniqueNames(changes)
    requires FromChanges(prior, changes[1..], tail)
    ensures forall i :: 0 <= i < |tail| ==>
      tail[i].0 != changes[0].0 && Pos(changes, tail[i].0) == Pos(changes[1..], tail[i].0) + 1
    ensures FromChanges(prior, changes, tail)
  {
    var rest := changes[1..];
    UniqueNamesTail(changes);
    forall i | 0 <= i < |tail|
      ensures tail[i].0 != changes[0].0
      ensures Pos(changes, tail[i].0) == Pos(rest, tail[i].0) + 1
    {
      assert rest[Pos(rest, tail[i].0)] == changes[Pos(rest, tail[i].0) + 1];
      PosTail(changes, tail[i].0);
    }
    forall i | 0 <= i < |tail|
      ensures Pos(changes, tail[i].0) < |changes|
      ensures Resolved(prior, changes[Pos(changes, tail[i].0)]) == Some(tail[i].1)
    {
      assert rest[Pos(rest, tail[i].0)] == changes[Pos(rest, tail[i].0) + 1];
    }
  }

  /** Every pair `update` keeps is a field the changes name, with the value it resolves to. */
  lemma {:induction false} KeptFromChanges(prior: StoreData, changes: ChangesData)
    requires UniqueNames(changes)
    ensures FromChanges(prior, changes, Kept(prior, changes))
    decreases |changes|
  {
    if changes != [] {
      var c := changes[0];
      var rest := changes[1..];
      UniqueNamesTail(changes);
      KeptFromChanges(prior, rest);
      var tail := Kept(prior, rest);
      TailPositions(prior, changes, tail);
      if Resolved(prior, c).Some? {
        var k := Kept(prior, changes);
        assert k == [(c.0, Resolved(prior, c).value)] + tail;
        assert Pos(changes, c.0) == 0;
        forall i | 0 <= i < |k|
          ensures Pos(changes, k[i].0) < |changes| && Resolved(prior, changes[Pos(changes, k[i].0)]) == Some(k[i].1)
        {
          if i > 0 {
            assert k[i] == tail[i - 1];
          }
        }
      }
    }
  }

  /** The fields `update` keeps follow the order in which the changes name them. */
  lemma {:induction false} KeptInChangesOrder(prior: StoreData, changes: ChangesData)
    requires UniqueNames(changes)
    ensures InChangesOrder(changes, Kept(prior, changes))
    decreases |changes|
  {
    if changes != [] {
      var c := changes[0];
      var rest := changes[1..];
      UniqueNamesTail(changes);
      KeptInChangesOrder(prior, rest);
      KeptFromChanges(prior, rest);
      var tail := Kept(prior, rest);
      TailPositions(prior, changes, tail);
      if Resolved(prior, c).Some? {
        var k := Kept(prior, changes);
        assert k == [(c.0, Resolved(prior, c).value)] + tail;
        assert Pos(changes, c.0) == 0;
        forall i, j | 0 <= i < j < |k|
          ensures Pos(changes, k[i].0) < Pos(changes, k[j].0)
        {
          assert k[j] == tail[j - 1];
          if i > 0 {
            assert k[i] == tail[i - 1];
          }
        }
      }
    }
  }

  /** Hence the fields `update` keeps are unique. */
  lemma KeptUnique(prior: StoreData, changes: ChangesData)
    requires UniqueNames(changes)
    ensures UniqueNames(Kept(prior, changes))
  {
    KeptInChangesOrder(prior, changes);
    var k := Kept(prior, changes);
    forall i, j | 0 <= i < j < |k|
      ensures k[i].0 != k[j].0
    {
      assert Pos(changes, k[i].0) < Pos(changes, k[j].0);
    }
  }

  /** A field named in the changes that resolves to a value ends up in the result. */
  lemma {:induction false} KeptComplete(prior: StoreData, changes: ChangesData, key: string)
    requires Pos(changes, key) < |changes|
    requires Resolved(prior, changes[Pos(changes, key)]).Some?
    ensures key in Names(Kept(prior, changes))
    decreases |changes|
  {
    var c := changes[0];
    var k := Kept(prior, changes);
    if c.0 == key {
      assert k[0].0 == key;
    } else {
      var rest := changes[1..];
      PosTail(changes, key);
      assert changes[Pos(changes, key)] == rest[Pos(rest, key)];
      KeptComplete(prior, rest, key);
      var tail := Kept(prior, rest);
      var t :| 0 <= t < |tail| && tail[t].0 == key;
      if Resolved(prior, c).Some? {
        assert k[t + 1] == tail[t];
      } else {
        assert k[t] == tail[t];
      }
    }
  }

  /**
   * Reading a field after `update` (unique change names): a field not named in the changes
   * is gone; a set value wins; an unset one keeps the old store's value, if any.
   */
  lemma KeptLookup(prior: StoreData, changes: ChangesData, key: string)
    requires UniqueNames(changes)
    ensures Lookup(Kept(prior, changes), key) ==
      if Pos(changes, key) < |changes| then Resolved(prior, changes[Pos(changes, key)]) else None
  {
    KeptFromChanges(prior, changes);
    var k := Kept(prior, changes);
    var expected := if Pos(changes, key) < |changes| then Resolved(prior, changes[Pos(changes, key)]) else None;
    match Lookup(k, key)
    case Some(v) =>
      var i := FirstIndex(k, key).value;
      assert k[i] == (key, v);
      assert Pos(changes, k[i].0) < |changes| && Resolved(prior, changes[Pos(changes, k[i].0)]) == Some(k[i].1);
    case None =>
      if expected.Some? {
        KeptComplete(prior, changes, key);
      }
  }

  /** What `update` yields, stated on the source's own fold. */
  lemma MergeLookup(prior: StoreData, changes: ChangesData, key: string)
    requires UniqueNames(changes)
    ensures UniqueNames(Merge(prior, changes))
    ensures Lookup(Merge(prior, changes), key) ==
      if Pos(changes, key) < |changes| then Resolved(prior, changes[Pos(changes, key)]) else None
  {
    MergeIsKept(prior, changes);
    KeptUnique(prior, changes);
    KeptLookup(prior, changes, key);
  }

  // ---------------------------------------------------------------------------
  // `Changes::unchanged`.

  /** As written, `unchanged` says "unchanged" about an edit that sets a new password. */
  lemma UnchangedAsWrittenMisreports()
    ensures var prior: StoreData := [("Password", "old")];
      var edit: ChangesData := [("Password", Some("new"))];
      ReportsUnchanged(edit, Names(prior)) && Merge(prior, edit) != prior
  {
    var prior: StoreData := [("Password", "old")];
    var edit: ChangesData := [("Password", Some("new"))];
    assert edit[0].1.Some?;
    assert Merge(prior, edit) == [("Password", "new")];
  }

  /** Corrected reading: an edit that sets nothing and keeps the field list leaves a store as it was. */
  lemma {:induction false} UnchangedMeansNoEdit(prior: StoreData, changes: ChangesData)
    requires UniqueNames(prior)
    requires IsUnchanged(changes, Names(prior))
    ensures Merge(prior, changes) == prior
  {
    assert UniqueNames(changes) by {
      forall i, j | 0 <= i < j < |changes| ensures changes[i].0 != changes[j].0 {
        assert Names(changes)[i] == prior[i].0 && Names(changes)[j] == prior[j].0;
      }
    }
    MergeIsKept(prior, changes);
    KeptKeepsAll(prior, changes, 0);
    assert prior[0..] == prior;
  }

  /** Helper for UnchangedMeansNoEdit: the unset suffix from `from` resolves to the old pairs. */
  lemma {:induction false} KeptKeepsAll(prior: StoreData, changes: ChangesData, from: nat)
    requires UniqueNames(prior)
    requires from <= |changes|
    requires Names(changes) == Names(prior)
    requires forall i :: 0 <= i < |changes| ==> changes[i].1.None?
    ensures Kept(prior, changes[from..]) == prior[from..]
    decreases |changes| - from
  {
    if from < |changes| {
      KeptKeepsAll(prior, changes, from + 1);
      assert changes[from..][1..] == changes[from + 1..];
      assert changes[from].0 == prior[from].0;
      FirstIndexIs(prior, prior[from].0, from);
      assert Resolved(prior, changes[from]) == Some(prior[from].1);
      assert prior[from..] == [prior[from]] + prior[from + 1..];
    }
  }
}
