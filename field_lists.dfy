/**
 * Ordered lists of `(field name, value)` pairs, the shape shared by `Store::data`,
 * `Changes::data` and `Entry::values`. Lookups scan from the front and stop at the first
 * pair with the wanted name; the reorder operations locate names with a full scan that
 * keeps the LAST match and falls back to index 0.
 */
module FieldLists {
  import opened Wrappers

  /** The names of the pairs, in stored order. */
  function Names<V>(s: seq<(string, V)>): (r: seq<string>)
    ensures |r| == |s|
    ensures forall i :: 0 <= i < |s| ==> r[i] == s[i].0
  {
    seq(|s|, i requires 0 <= i < |s| => s[i].0)
  }

  predicate UniqueNames<V>(s: seq<(string, V)>)
  {
    forall i, j :: 0 <= i < j < |s| ==> s[i].0 != s[j].0
  }

  /** The index of the first pair named `key`, if any. */
  function FirstIndex<V>(s: seq<(string, V)>, key: string): (r: Option<nat>)
    ensures r.Some? ==> r.value < |s| && s[r.value].0 == key
    ensures r.Some? ==> forall j :: 0 <= j < r.value ==> s[j].0 != key
    ensures r.None? <==> forall j :: 0 <= j < |s| ==> s[j].0 != key
  {
    if s == [] then None
    else if s[0].0 == key then Some(0)
    else match FirstIndex(s[1..], key)
      case None => None
      case Some(i) => Some(i + 1)
  }

  /** The value of the first pair named `key`, or None. */
  function Lookup<V>(s: seq<(string, V)>, key: string): (r: Option<V>)
    ensures r.None? <==> key !in Names(s)
    ensures r.Some? ==> exists i :: 0 <= i < |s| && s[i] == (key, r.value) && forall j :: 0 <= j < i ==> s[j].0 != key
  {
    match FirstIndex(s, key)
    case None => None
    case Some(i) => Some(s[i].1)
  }

  /** Insert-or-overwrite: a pair named `key` gets `value` in place, otherwise one is appended. */
  function Upsert<V>(s: seq<(string, V)>, key: string, value: V): seq<(string, V)>
  {
    match FirstIndex(s, key)
    case Some(i) => s[i := (key, value)]
    case None => s + [(key, value)]
  }

  function RemoveAt<T>(s: seq<T>, i: nat): seq<T>
    requires i < |s|
  {
    s[..i] + s[i + 1..]
  }

  function InsertAt<T>(s: seq<T>, i: nat, x: T): seq<T>
    requires i <= |s|
  {
    s[..i] + [x] + s[i..]
  }

  /** The list without its first pair named `key` (unchanged when there is none). */
  function Without<V>(s: seq<(string, V)>, key: string): seq<(string, V)>
  {
    match FirstIndex(s, key)
    case Some(i) => RemoveAt(s, i)
    case None => s
  }

  /** The first pair named `key`, which `Without` removes. */
  function FirstPair<V>(s: seq<(string, V)>, key: string): Option<(string, V)>
  {
    match FirstIndex(s, key)
    case Some(i) => Some(s[i])
    case None => None
  }

  /**
   * The index the reorder operations use for a name: the last pair with that name,
   * or 0 when no pair has it.
   */
  function LastIndexOr0<V>(s: seq<(string, V)>, key: string): (r: nat)
    ensures |s| > 0 ==> r < |s|
    ensures key in Names(s) ==> s[r].0 == key && forall j :: r < j < |s| ==> s[j].0 != key
    ensures key !in Names(s) ==> r == 0
  {
    if s == [] then 0
    else if s[|s| - 1].0 == key then |s| - 1
    else
      assert Names(s[..|s| - 1]) == Names(s)[..|s| - 1];
      LastIndexOr0(s[..|s| - 1], key)
  }

  function SwapAt<T>(s: seq<T>, i: nat, j: nat): seq<T>
    requires i < |s| && j < |s|
  {
    s[i := s[j]][j := s[i]]
  }

  /** `Vec::remove(i)` followed by `Vec::insert(j, removed)`. */
  function MoveAt<T>(s: seq<T>, i: nat, j: nat): seq<T>
    requires i < |s| && j < |s|
  {
    InsertAt(RemoveAt(s, i), j, s[i])
  }

  /** The index of the first occurrence of `x`, if any. */
  function IndexOf<T(==)>(s: seq<T>, x: T): (r: Option<nat>)
    ensures r.Some? ==> r.value < |s| && s[r.value] == x && forall j :: 0 <= j < r.value ==> s[j] != x
    ensures r.None? <==> x !in s
  {
    if s == [] then None
    else if s[0] == x then Some(0)
    else match IndexOf(s[1..], x)
      case None => None
      case Some(i) => Some(i + 1)
  }

  lemma IndexOfIs<T>(s: seq<T>, x: T, i: nat)
    requires i < |s| && s[i] == x
    requires forall j :: 0 <= j < i ==> s[j] != x
    ensures IndexOf(s, x) == Some(i)
  {
    if i > 0 {
      IndexOfIs(s[1..], x, i - 1);
    }
  }

  // ---------------------------------------------------------------------------
  // The scans, as the source runs them.

  /** `iter().position(|(k, _)| k == key)`, also the scan inside `get`/`get_mut`. */
  method Position<V>(s: seq<(string, V)>, key: string) returns (r: Option<nat>)
    ensures r == FirstIndex(s, key)
  {
    var i := 0;
    while i < |s|
      invariant 0 <= i <= |s|
      invariant forall j :: 0 <= j < i ==> s[j].0 != key
    {
      if s[i].0 == key {
        return Some(i);
      }
      i := i + 1;
    }
    return None;
  }

  /** The first-match scan of `get`: the value of the first pair named `key`. */
  method Find<V>(s: seq<(string, V)>, key: string) returns (r: Option<V>)
    ensures r == Lookup(s, key)
  {
    var p := Position(s, key);
    match p {
      case Some(i) => r := Some(s[i].1);
      case None => r := None;
    }
  }

  /** The `enumerate` scan of swap/move: every match overwrites, both start at 0. */
  method LastPositions<V>(s: seq<(string, V)>, first: string, second: string) returns (pos1: nat, pos2: nat)
    ensures pos1 == LastIndexOr0(s, first)
    ensures pos2 == LastIndexOr0(s, second)
  {
    pos1, pos2 := 0, 0;
    var i := 0;
    while i < |s|
      invariant 0 <= i <= |s|
      invariant pos1 == LastIndexOr0(s[..i], first)
      invariant pos2 == LastIndexOr0(s[..i], second)
    {
      assert s[..i + 1][..i] == s[..i];
      if s[i].0 == first {
        pos1 := i;
      }
      if s[i].0 == second {
        pos2 := i;
      }
      i := i + 1;
    }
    assert s[..i] == s;
  }

  // ---------------------------------------------------------------------------
  // What the operations promise.

  /** Overwriting an existing name keeps its position and the list's length and names. */
  lemma UpsertExisting<V>(s: seq<(string, V)>, key: string, value: V)
    requires key in Names(s)
    ensures FirstIndex(s, key).Some?
    ensures var i := FirstIndex(s, key).value;
      Upsert(s, key, value) == s[i := (key, value)]
    ensures |Upsert(s, key, value)| == |s|
    ensures Names(Upsert(s, key, value)) == Names(s)
  {
  }

  /** The tail of a list with unique names has unique names, none equal to the head's. */
  lemma UniqueNamesTail<V>(s: seq<(string, V)>)
    requires s != [] && UniqueNames(s)
    ensures UniqueNames(s[1..])
    ensures forall j :: 0 <= j < |s| - 1 ==> s[1..][j].0 != s[0].0
  {
    forall i, j | 0 <= i < j < |s| - 1
      ensures s[1..][i].0 != s[1..][j].0
    {
      assert s[1..][i] == s[i + 1] && s[1..][j] == s[j + 1];
    }
  }

  /** A new name is appended at the end. */
  lemma UpsertAbsent<V>(s: seq<(string, V)>, key: string, value: V)
    requires key !in Names(s)
    ensures Upsert(s, key, value) == s + [(key, value)]
  {
  }

  /** The first index is pinned down by a match with no match before it. */
  lemma FirstIndexIs<V>(s: seq<(string, V)>, key: string, i: nat)
    requires i < |s| && s[i].0 == key
    requires forall j :: 0 <= j < i ==> s[j].0 != key
    ensures FirstIndex(s, key) == Some(i)
  {
  }

  /** Two lists that agree on which positions carry `key` agree on its first index. */
  lemma FirstIndexSameNames<V>(s: seq<(string, V)>, t: seq<(string, V)>, key: string)
    requires |s| == |t|
    requires forall j :: 0 <= j < |s| ==> (s[j].0 == key <==> t[j].0 == key)
    ensures FirstIndex(s, key) == FirstIndex(t, key)
  {
    match FirstIndex(s, key)
    case Some(k) => FirstIndexIs(t, key, k);
    case None =>
  }

  /** After an upsert the name reads back the new value. */
  lemma UpsertLookupSame<V>(s: seq<(string, V)>, key: string, value: V)
    ensures Lookup(Upsert(s, key, value), key) == Some(value)
  {
    var r := Upsert(s, key, value);
    match FirstIndex(s, key)
    case Some(i) => FirstIndexIs(r, key, i);
    case None => FirstIndexIs(r, key, |s|);
  }

  /** An upsert leaves the value read for every other name unchanged. */
  lemma UpsertLookupOther<V>(s: seq<(string, V)>, key: string, value: V, other: string)
    requires other != key
    ensures Lookup(Upsert(s, key, value), other) == Lookup(s, other)
  {
    var r := Upsert(s, key, value);
    match FirstIndex(s, key)
    case Some(i) =>
      FirstIndexSameNames(s, r, other);
    case None =>
      match FirstIndex(s, other)
      case Some(k) => FirstIndexIs(r, other, k);
      case None =>
  }

  /** Upserting keeps the names unique when they were. */
  lemma UpsertUnique<V>(s: seq<(string, V)>, key: string, value: V)
    requires UniqueNames(s)
    ensures UniqueNames(Upsert(s, key, value))
  {
    var r := Upsert(s, key, value);
    match FirstIndex(s, key)
    case Some(i) =>
      assert Names(r) == Names(s);
      assert forall j :: 0 <= j < |r| ==> r[j].0 == s[j].0;
    case None =>
  }

  /** Removing the first match drops exactly that pair and keeps the rest in order. */
  lemma WithoutRemovesFirst<V>(s: seq<(string, V)>, key: string)
    ensures FirstPair(s, key).None? ==> Without(s, key) == s
    ensures FirstPair(s, key).Some? ==>
      FirstPair(s, key).value.0 == key &&
      |Without(s, key)| == |s| - 1 &&
      multiset(Without(s, key)) + multiset{FirstPair(s, key).value} == multiset(s)
  {
    match FirstIndex(s, key)
    case None =>
    case Some(i) =>
      RemoveAtMultiset(s, i);
  }

  lemma RemoveAtMultiset<T>(s: seq<T>, i: nat)
    requires i < |s|
    ensures multiset(RemoveAt(s, i)) + multiset{s[i]} == multiset(s)
  {
    assert s == s[..i] + [s[i]] + s[i + 1..];
  }

  /** In a list with unique names, removing the first match leaves no pair with that name. */
  lemma WithoutUnique<V>(s: seq<(string, V)>, key: string)
    requires UniqueNames(s)
    ensures UniqueNames(Without(s, key))
    ensures key !in Names(Without(s, key))
  {
    match FirstIndex(s, key)
    case None =>
    case Some(i) =>
      var r := Without(s, key);
      assert forall j :: 0 <= j < |r| ==> r[j] == (if j < i then s[j] else s[j + 1]);
  }

  /** Adding a new name and then removing it gives the original list back. */
  lemma UpsertThenWithout<V>(s: seq<(string, V)>, key: string, value: V)
    requires key !in Names(s)
    ensures Without(Upsert(s, key, value), key) == s
  {
    UpsertAbsent(s, key, value);
    var t := s + [(key, value)];
    FirstIndexIs(t, key, |s|);
    assert t[..|s|] == s;
  }

  /** The last position of a name is pinned down by a match with no match after it. */
  lemma LastIndexIs<V>(s: seq<(string, V)>, key: string, i: nat)
    requires i < |s| && s[i].0 == key
    requires forall j :: i < j < |s| ==> s[j].0 != key
    ensures LastIndexOr0(s, key) == i
  {
    assert Names(s)[i] == key;
  }

  /**
   * Swapping two present fields by name twice restores the list when names are unique
   * (with a missing name the first swap uses index 0 and the second does not undo it).
   */
  lemma SwapByNameTwice<V>(s: seq<(string, V)>, a: string, b: string)
    requires UniqueNames(s)
    requires a in Names(s) && b in Names(s)
    ensures var t := SwapAt(s, LastIndexOr0(s, a), LastIndexOr0(s, b));
      SwapAt(t, LastIndexOr0(t, a), LastIndexOr0(t, b)) == s
  {
    var i := LastIndexOr0(s, a);
    var j := LastIndexOr0(s, b);
    var t := SwapAt(s, i, j);
    SwapPreserves(s, i, j);
    if a != b {
      assert i != j;
      forall k | j < k < |t| ensures t[k].0 != a {
        if k != i {
          assert t[k] == s[k];
        }
      }
      LastIndexIs(t, a, j);
      forall k | i < k < |t| ensures t[k].0 != b {
        if k != j {
          assert t[k] == s[k];
        }
      }
      LastIndexIs(t, b, i);
    } else {
      assert t == s;
    }
    assert SwapAt(t, j, i) == s;
  }

  lemma SwapPreserves<T>(s: seq<T>, i: nat, j: nat)
    requires i < |s| && j < |s|
    ensures |SwapAt(s, i, j)| == |s|
    ensures SwapAt(s, i, j)[i] == s[j] && SwapAt(s, i, j)[j] == s[i]
    ensures forall k :: 0 <= k < |s| && k != i && k != j ==> SwapAt(s, i, j)[k] == s[k]
    ensures multiset(SwapAt(s, i, j)) == multiset(s)
  {
    var t := s[i := s[j]];
    UpdateMultiset(s, i, s[j]);
    UpdateMultiset(t, j, s[i]);
    if i != j {
      assert t[j] == s[j];
    }
  }

  /** Overwriting one element trades it for the new value in the multiset. */
  lemma UpdateMultiset<T>(s: seq<T>, i: nat, v: T)
    requires i < |s|
    ensures multiset(s[i := v]) == multiset(s) - multiset{s[i]} + multiset{v}
  {
  }

  lemma MovePreserves<T>(s: seq<T>, i: nat, j: nat)
    requires i < |s| && j < |s|
    ensures |MoveAt(s, i, j)| == |s|
    ensures MoveAt(s, i, j)[j] == s[i]
    ensures multiset(MoveAt(s, i, j)) == multiset(s)
    ensures RemoveAt(MoveAt(s, i, j), j) == RemoveAt(s, i)
  {
    var rest := RemoveAt(s, i);
    assert s == s[..i] + [s[i]] + s[i + 1..];
    assert multiset(s) == multiset(rest) + multiset{s[i]};
    var r := MoveAt(s, i, j);
    assert r == rest[..j] + [s[i]] + rest[j..];
    assert multiset(r) == multiset(rest[..j]) + multiset{s[i]} + multiset(rest[j..]);
    assert rest == rest[..j] + rest[j..];
    assert r[..j] == rest[..j];
    assert r[j + 1..] == rest[j..];
  }
}
