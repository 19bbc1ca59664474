/**
 * The order of `String` keys in a `BTreeMap`: lexicographic, character by character
 * (for Unicode scalar values this agrees with the byte order of their UTF-8 encodings).
 */
module Ordering {

  predicate StrLe(a: string, b: string)
  {
    a == [] || (b != [] && (a[0] < b[0] || (a[0] == b[0] && StrLe(a[1..], b[1..]))))
  }

  /** A sequence of keys that ascends strictly: sorted and without repetition. */
  predicate StrictlySorted(r: seq<string>)
  {
    forall i, j :: 0 <= i < j < |r| ==> StrLe(r[i], r[j]) && r[i] != r[j]
  }

  lemma {:induction false} StrLeRefl(a: string)
    ensures StrLe(a, a)
  {
    if a != [] {
      StrLeRefl(a[1..]);
    }
  }

  lemma {:induction false} StrLeTotal(a: string, b: string)
    ensures StrLe(a, b) || StrLe(b, a)
  {
    if a != [] && b != [] && a[0] == b[0] {
      StrLeTotal(a[1..], b[1..]);
    }
  }

  lemma {:induction false} StrLeAntisymmetric(a: string, b: string)
    requires StrLe(a, b) && StrLe(b, a)
    ensures a == b
  {
    if a != [] && b != [] {
      StrLeAntisymmetric(a[1..], b[1..]);
      assert a == [a[0]] + a[1..];
      assert b == [b[0]] + b[1..];
    }
  }

  lemma {:induction false} StrLeTransitive(a: string, b: string, c: string)
    requires StrLe(a, b) && StrLe(b, c)
    ensures StrLe(a, c)
  {
    if a != [] && b != [] && c != [] && a[0] == b[0] && b[0] == c[0] {
      StrLeTransitive(a[1..], b[1..], c[1..]);
    }
  }

  lemma MinStep(x: string, m: string, rest: set<string>)
    requires StrLe(x, m)
    requires forall y :: y in rest ==> StrLe(m, y)
    ensures forall y :: y in rest + {x} ==> StrLe(x, y)
  {
    forall y | y in rest + {x}
      ensures StrLe(x, y)
    {
      if y == x {
        StrLeRefl(x);
      } else {
        StrLeTransitive(x, m, y);
      }
    }
  }

  /** The least element of a non-empty set of keys. */
  ghost function MinOf(s: set<string>): (m: string)
    requires s != {}
    ensures m in s
    ensures forall y :: y in s ==> StrLe(m, y)
    decreases |s|
  {
    var x :| x in s;
    if s == {x} then
      StrLeRefl(x);
      x
    else
      var m := MinOf(s - {x});
      StrLeTotal(x, m);
      if StrLe(x, m) then
        MinStep(x, m, s - {x});
        assert s == (s - {x}) + {x};
        x
      else
        StrLeRefl(m);
        m
  }

  /** The keys of a set in ascending order: what a BTreeMap's `keys()`/`into_keys()` yields. */
  ghost function SortedKeys(s: set<string>): (r: seq<string>)
    ensures |r| == |s|
    ensures forall k :: k in r <==> k in s
    ensures StrictlySorted(r)
    decreases |s|
  {
    if s == {} then []
    else
      var m := MinOf(s);
      var rest := SortedKeys(s - {m});
      ConsSorted(m, rest);
      [m] + rest
  }

  /** A key below every key of a strictly ascending sequence can go in front of it. */
  lemma ConsSorted(m: string, rest: seq<string>)
    requires StrictlySorted(rest)
    requires forall k :: k in rest ==> StrLe(m, k) && k != m
    ensures StrictlySorted([m] + rest)
  {
    var r := [m] + rest;
    forall i, j | 0 <= i < j < |r|
      ensures StrLe(r[i], r[j]) && r[i] != r[j]
    {
      assert r[j] == rest[j - 1];
      if i > 0 {
        assert r[i] == rest[i - 1];
      }
    }
  }

  /** Two strictly ascending sequences with the same elements are equal. */
  lemma {:induction false} SortedUnique(a: seq<string>, b: seq<string>)
    requires StrictlySorted(a) && StrictlySorted(b)
    requires forall k :: k in a <==> k in b
    ensures a == b
    decreases |a|
  {
    assert a != [] ==> a[0] in b;
    assert b != [] ==> b[0] in a;
    if a != [] && b != [] {
      var i :| 0 <= i < |b| && b[i] == a[0];
      var j :| 0 <= j < |a| && a[j] == b[0];
      if a[0] != b[0] {
        assert i > 0 && j > 0;
        assert StrLe(b[0], b[i]) && StrLe(a[0], a[j]);
        StrLeAntisymmetric(a[0], b[0]);
      }
      assert a[0] == b[0];
      forall k
        ensures k in a[1..] <==> k in b[1..]
      {
        if k in a[1..] {
          var p :| 0 <= p < |a| - 1 && a[1..][p] == k;
          assert a[p + 1] == k && k != a[0];
          assert k in b;
          var q :| 0 <= q < |b| && b[q] == k;
          assert q != 0;
          assert b[1..][q - 1] == k;
        }
        if k in b[1..] {
          var p :| 0 <= p < |b| - 1 && b[1..][p] == k;
          assert b[p + 1] == k && k != b[0];
          assert k in a;
          var q :| 0 <= q < |a| && a[q] == k;
          assert q != 0;
          assert a[1..][q - 1] == k;
        }
      }
      SortedUnique(a[1..], b[1..]);
      assert a == [a[0]] + a[1..];
      assert b == [b[0]] + b[1..];
    }
  }

  /**
   * Enumerates a finite set of keys in ascending order, by repeatedly taking the least
   * remaining key: the compiled counterpart of SortedKeys.
   */
  method SortKeys(s: set<string>) returns (r: seq<string>)
    ensures r == SortedKeys(s)
  {
    r := [];
    var rest := s;
    while rest != {}
      invariant rest <= s
      invariant forall k :: k in s <==> k in r || k in rest
      invariant forall k :: k in r ==> k !in rest
      invariant StrictlySorted(r)
      invariant forall k, y :: k in r && y in rest ==> StrLe(k, y)
      decreases |rest|
    {
      ghost var least := MinOf(rest);
      var m :| m in rest && forall y :: y in rest ==> StrLe(m, y);
      forall k | k in r
        ensures StrLe(k, m) && k != m
      {
      }
      r := r + [m];
      rest := rest - {m};
    }
    SortedUnique(r, SortedKeys(s));
  }
}
