/**
 * One vault entry (src/vault/entry.rs): an ordered list of named secret values,
 * a description and a list of URLs.
 */
module Entries {
  import opened Wrappers
  import opened FieldLists

  type EntryValue = string

  /** The contents of an Entry, as stored inside a Vault. */
  datatype EntryData = EntryData(values: seq<(string, EntryValue)>, description: string, urls: seq<string>)

  /** `Vec::swap_remove(i)`: the last element takes the place of the removed one. */
  function SwapRemove<T>(s: seq<T>, i: nat): seq<T>
    requires i < |s|
  {
    s[i := s[|s| - 1]][..|s| - 1]
  }

  /** `remove_url`: swap-removes the first occurrence of `url`; no occurrence, no change. */
  function DropUrl(urls: seq<string>, url: string): seq<string>
  {
    match IndexOf(urls, url)
    case Some(i) => SwapRemove(urls, i)
    case None => urls
  }

  class Entry {
    var values: seq<(string, EntryValue)>
    var description: string
    var urls: seq<string>

    /** `Entry::default()`. */
    constructor Default()
      ensures values == [] && description == "" && urls == []
    {
      values := [];
      description := "";
      urls := [];
    }

    constructor FromData(d: EntryData)
      ensures Data() == d
    {
      values := d.values;
      description := d.description;
      urls := d.urls;
    }

    function Data(): EntryData
      reads this
    {
      EntryData(values, description, urls)
    }

    /** The field names, in order. */
    function Fields(): seq<string>
      reads this
    {
      Names(values)
    }

    method AddUrl(url: string)
      modifies this
      ensures urls == old(urls) + [url]
      ensures values == old(values) && description == old(description)
    {
      urls := urls + [url];
    }

    method RemoveUrl(url: string)
      modifies this
      ensures urls == DropUrl(old(urls), url)
      ensures values == old(values) && description == old(description)
    {
      var i := 0;
      while i < |urls|
        invariant 0 <= i <= |urls|
        invariant forall j :: 0 <= j < i ==> urls[j] != url
      {
        if urls[i] == url {
          assert IndexOf(urls, url) == Some(i) by {
            IndexOfIs(urls, url, i);
          }
          urls := urls[i := urls[|urls| - 1]][..|urls| - 1];
          return;
        }
        i := i + 1;
      }
    }

    method Get(key: string) returns (r: Option<EntryValue>)
      ensures r == Lookup(values, key)
    {
      r := Find(values, key);
    }

    /** Overwrites the value of the first field named `field`, or appends a new field. */
    method AddValue(field: string, value: EntryValue)
      modifies this
      ensures values == Upsert(old(values), field, value)
      ensures description == old(description) && urls == old(urls)
    {
      var p := Position(values, field);
      match p {
        case Some(i) => values := values[i := (field, value)];
        case None => values := values + [(field, value)];
      }
    }

    /** Removes the first field named `field`, keeping the others in order. */
    method RemoveValue(field: string) returns (r: Option<(string, EntryValue)>)
      modifies this
      ensures r == FirstPair(old(values), field)
      ensures values == Without(old(values), field)
      ensures description == old(description) && urls == old(urls)
    {
      var p := Position(values, field);
      match p {
        case Some(i) =>
          r := Some(values[i]);
          values := RemoveAt(values, i);
        case None =>
          r := None;
      }
    }

    /** Exchanges the fields at the last positions of the two names (0 for a missing name). */
    method SwapValues(first: string, second: string)
      requires |values| > 0
      modifies this
      ensures values == SwapAt(old(values), LastIndexOr0(old(values), first), LastIndexOr0(old(values), second))
      ensures multiset(values) == multiset(old(values))
      ensures description == old(description) && urls == old(urls)
    {
      var pos1, pos2 := LastPositions(values, first, second);
      SwapPreserves(values, pos1, pos2);
      values := values[pos1 := values[pos2]][pos2 := values[pos1]];
    }

    /** Moves the field at `first`'s position to `second`'s position. */
    method MoveValues(first: string, second: string)
      requires |values| > 0
      modifies this
      ensures values == MoveAt(old(values), LastIndexOr0(old(values), first), LastIndexOr0(old(values), second))
      ensures multiset(values) == multiset(old(values))
      ensures description == old(description) && urls == old(urls)
    {
      var pos1, pos2 := LastPositions(values, first, second);
      MovePreserves(values, pos1, pos2);
      var temp := values[pos1];
      values := RemoveAt(values, pos1);
      values := InsertAt(values, pos2, temp);
    }
  }

  /** `swap_remove` keeps the other positions, moves the last element into the gap and drops one copy. */
  lemma SwapRemoveEffect<T>(s: seq<T>, i: nat)
    requires i < |s|
    ensures |SwapRemove(s, i)| == |s| - 1
    ensures forall k :: 0 <= k < |s| - 1 ==> SwapRemove(s, i)[k] == (if k == i then s[|s| - 1] else s[k])
    ensures multiset(SwapRemove(s, i)) == multiset(s) - multiset{s[i]}
  {
    var n := |s|;
    var t := s[i := s[n - 1]];
    assert multiset(t) == multiset(s) - multiset{s[i]} + multiset{s[n - 1]};
    assert t == t[..n - 1] + [s[n - 1]];
    assert multiset(t) == multiset(t[..n - 1]) + multiset{s[n - 1]};
    assert multiset(t[..n - 1]) == multiset(s) - multiset{s[i]} by {
      var a, b := multiset(t[..n - 1]), multiset(s) - multiset{s[i]};
      assert a + multiset{s[n - 1]} == b + multiset{s[n - 1]};
      forall x
        ensures a[x] == b[x]
      {
        assert (a + multiset{s[n - 1]})[x] == (b + multiset{s[n - 1]})[x];
      }
    }
    assert SwapRemove(s, i) == t[..n - 1];
  }

  /**
   * `remove_url` takes out exactly one copy of a present URL, moves the last URL into its
   * place and leaves every other position alone; an absent URL changes nothing.
   */
  lemma DropUrlEffect(urls: seq<string>, url: string)
    ensures url !in urls ==> DropUrl(urls, url) == urls
    ensures url in urls ==>
      |DropUrl(urls, url)| == |urls| - 1 &&
      multiset(DropUrl(urls, url)) == multiset(urls) - multiset{url}
    ensures url in urls ==>
      var i := IndexOf(urls, url).value;
      forall k :: 0 <= k < |urls| - 1 ==> DropUrl(urls, url)[k] == (if k == i then urls[|urls| - 1] else urls[k])
  {
    if url in urls {
      SwapRemoveEffect(urls, IndexOf(urls, url).value);
    }
  }
}
