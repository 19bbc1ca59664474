/**
 * Password generation (src/password.rs): each character class is a `Choice` with a minimum
 * and a maximum count; `check` tests feasibility with saturating sums and `generate` draws the
 * required characters, fills up to the length from classes with room left, then shuffles.
 */
module Passwords {
  import opened Wrappers
  import FieldLists

  /** `usize::MAX` on a 64-bit target. */
  const USIZE_MAX: nat := 0xFFFF_FFFF_FFFF_FFFF

  datatype CharStyle = Upper | Lower | Number | Symbol

  /** `to_charset`: A–Z, a–z, 1–9 (no 0), and 26 symbols without quotes or backslash. */
  function Charset(style: CharStyle): seq<char>
  {
    match style
    case Upper => seq(26, i requires 0 <= i < 26 => (('A' as int) + i) as char)
    case Lower => seq(26, i requires 0 <= i < 26 => (('a' as int) + i) as char)
    case Number => seq(9, i requires 0 <= i < 9 => (('1' as int) + i) as char)
    case Symbol =>
      ['!', '@', '#', '%', '^', '&', '*', '(', ')', '-', '_', '=', '+', '[', '{', ']',
       '}', '|', ':', ';', ',', '.', '?', '<', '>', '~']
  }

  /** Upper case letters are exactly A–Z. */
  lemma UpperCharset()
    ensures |Charset(Upper)| == 26
    ensures forall c :: c in Charset(Upper) <==> 'A' <= c <= 'Z'
  {
    forall c | 'A' <= c <= 'Z' ensures c in Charset(Upper) {
      assert Charset(Upper)[(c as int) - ('A' as int)] == c;
    }
  }

  /** Lower case letters are exactly a–z. */
  lemma LowerCharset()
    ensures |Charset(Lower)| == 26
    ensures forall c :: c in Charset(Lower) <==> 'a' <= c <= 'z'
  {
    forall c | 'a' <= c <= 'z' ensures c in Charset(Lower) {
      assert Charset(Lower)[(c as int) - ('a' as int)] == c;
    }
  }

  /** Digits are exactly 1–9: the zero is left out. */
  lemma NumberCharset()
    ensures |Charset(Number)| == 9
    ensures forall c :: c in Charset(Number) <==> '1' <= c <= '9'
    ensures '0' !in Charset(Number)
  {
    forall c | '1' <= c <= '9' ensures c in Charset(Number) {
      assert Charset(Number)[(c as int) - ('1' as int)] == c;
    }
  }

  /** The 26 symbols hold no letter, digit, quote or backslash. */
  lemma SymbolCharset()
    ensures |Charset(Symbol)| == 26
    ensures '"' !in Charset(Symbol) && '\'' !in Charset(Symbol) && '\\' !in Charset(Symbol)
    ensures forall c :: c in Charset(Symbol) ==> !('A' <= c <= 'Z') && !('a' <= c <= 'z') && !('0' <= c <= '9')
  {
    var s := Charset(Symbol);
    forall i | 0 <= i < |s|
      ensures s[i] != '"' && s[i] != '\'' && s[i] != '\\'
      ensures !('A' <= s[i] <= 'Z') && !('a' <= s[i] <= 'z') && !('0' <= s[i] <= '9')
    {
    }
  }

  /** `checked_add(..).unwrap_or(usize::MAX)`. */
  function SatAdd(a: nat, b: nat): nat
  {
    if a + b > USIZE_MAX then USIZE_MAX else a + b
  }

  function SatSum(xs: seq<nat>): nat
    decreases |xs|
  {
    if xs == [] then 0 else SatAdd(SatSum(xs[..|xs| - 1]), xs[|xs| - 1])
  }

  lemma {:induction false} SumAtMost(xs: seq<nat>, bound: nat)
    requires forall i :: 0 <= i < |xs| ==> xs[i] <= bound
    ensures Sum(xs) <= |xs| * bound
    decreases |xs|
  {
    if xs != [] {
      SumAtMost(xs[..|xs| - 1], bound);
    }
  }

  /** No single summand exceeds the saturating sum. */
  lemma {:induction false} SatSumCovers(xs: seq<nat>, i: nat)
    requires i < |xs| && xs[i] <= USIZE_MAX
    ensures SatSum(xs) >= xs[i]
    decreases |xs|
  {
    if i < |xs| - 1 {
      SatSumCovers(xs[..|xs| - 1], i);
    }
  }

  function Sum(xs: seq<nat>): nat
    decreases |xs|
  {
    if xs == [] then 0 else Sum(xs[..|xs| - 1]) + xs[|xs| - 1]
  }

  /** The saturating fold is the true sum capped at `usize::MAX`. */
  lemma {:induction false} SatSumIsCappedSum(xs: seq<nat>)
    requires forall i :: 0 <= i < |xs| ==> xs[i] <= USIZE_MAX
    ensures SatSum(xs) == if Sum(xs) > USIZE_MAX then USIZE_MAX else Sum(xs)
    decreases |xs|
  {
    if xs != [] {
      SatSumIsCappedSum(xs[..|xs| - 1]);
    }
  }

  class Choice {
    var min: nat
    var max: nat
    const chars: CharStyle

    /** The shape every constructor establishes, as the source's `usize` fields. */
    ghost predicate Valid()
      reads this
    {
      min <= max <= USIZE_MAX
    }

    constructor Raw(min: nat, max: nat, chars: CharStyle)
      ensures this.min == min && this.max == max && this.chars == chars
    {
      this.min := min;
      this.max := max;
      this.chars := chars;
    }

    /** `Choice::exactly`: min == max == count. */
    constructor Exactly(count: nat, chars: CharStyle)
      requires count <= USIZE_MAX
      ensures min == count && max == count && this.chars == chars && Valid()
    {
      min := count;
      max := count;
      this.chars := chars;
    }

    /** `Choice::at_least`: min == count, no upper bound beyond `usize::MAX`. */
    constructor AtLeast(count: nat, chars: CharStyle)
      requires count <= USIZE_MAX
      ensures min == count && max == USIZE_MAX && this.chars == chars && Valid()
    {
      min := count;
      max := USIZE_MAX;
      this.chars := chars;
    }

    /** `Choice::at_most`: min == 0, max == count. */
    constructor AtMost(count: nat, chars: CharStyle)
      requires count <= USIZE_MAX
      ensures min == 0 && max == count && this.chars == chars && Valid()
    {
      min := 0;
      max := count;
      this.chars := chars;
    }

    /** `clone()`. */
    constructor Clone(other: Choice)
      ensures min == other.min && max == other.max && chars == other.chars
    {
      min := other.min;
      max := other.max;
      chars := other.chars;
    }

    predicate Active()
      reads this
    {
      max > 0
    }

    predicate Required()
      reads this
    {
      min > 0
    }

    /** Lowers min and max by one each, never below zero. */
    method Decrement()
      modifies this
      ensures min == if old(min) > 0 then old(min) - 1 else 0
      ensures max == if old(max) > 0 then old(max) - 1 else 0
    {
      if min > 0 {
        min := min - 1;
      }
      if max > 0 {
        max := max - 1;
      }
    }

    /** Draws one character of the class when the choice still has room, decrementing it. */
    method Step() returns (c: Option<char>)
      modifies this
      ensures old(max) == 0 ==> c.None? && min == old(min) && max == 0
      ensures old(max) > 0 ==>
        c.Some? && c.value in Charset(chars) &&
        min == (if old(min) > 0 then old(min) - 1 else 0) && max == old(max) - 1
    {
      if Active() {
        Decrement();
        var charset := Charset(chars);
        assert charset[0] in charset;
        var pick :| pick in charset;
        c := Some(pick);
      } else {
        c := None;
      }
    }

    /** Draws the required characters: exactly `min` of them, leaving min 0 and max reduced by min. */
    method GetRequired() returns (res: seq<char>)
      requires Valid()
      modifies this
      ensures |res| == old(min)
      ensures forall i :: 0 <= i < |res| ==> res[i] in Charset(chars)
      ensures min == 0 && max == old(max) - old(min) && Valid()
    {
      res := [];
      while Required()
        invariant min <= max <= USIZE_MAX
        invariant |res| + min == old(min) && max - min == old(max) - old(min)
        invariant forall i :: 0 <= i < |res| ==> res[i] in Charset(chars)
        decreases min
      {
        var c := Step();
        if c.Some? {
          res := res + [c.value];
        }
      }
    }
  }

  /** `Choice::new`: None exactly when max < min. */
  method NewChoice(min: nat, max: nat, chars: CharStyle) returns (r: Option<Choice>)
    ensures r.None? <==> max < min
    ensures r.Some? ==> fresh(r.value) && r.value.min == min && r.value.max == max && r.value.chars == chars
  {
    if max >= min {
      var c := new Choice.Raw(min, max, chars);
      r := Some(c);
    } else {
      r := None;
    }
  }

  function Mins(cs: seq<Choice>): (r: seq<nat>)
    reads cs
    ensures |r| == |cs| && forall i :: 0 <= i < |cs| ==> r[i] == cs[i].min
  {
    seq(|cs|, i reads cs requires 0 <= i < |cs| => cs[i].min)
  }

  function Maxs(cs: seq<Choice>): (r: seq<nat>)
    reads cs
    ensures |r| == |cs| && forall i :: 0 <= i < |cs| ==> r[i] == cs[i].max
  {
    seq(|cs|, i reads cs requires 0 <= i < |cs| => cs[i].max)
  }

  ghost predicate AllValid(cs: seq<Choice>)
    reads cs
  {
    forall i :: 0 <= i < |cs| ==> cs[i].Valid()
  }

  /** What `check` decides: saturated sum of minimums <= length <= saturated sum of maximums. */
  function Feasible(cs: seq<Choice>, length: nat): bool
    reads cs
  {
    SatSum(Mins(cs)) <= length <= SatSum(Maxs(cs))
  }

  /**
   * With `usize` counts, `check` passes exactly when the minimums fit in the length (or
   * overflow while the length is `usize::MAX`) and the maximums add up to at least the length.
   */
  lemma FeasibleMeans(cs: seq<Choice>, length: nat)
    requires AllValid(cs) && length <= USIZE_MAX
    ensures Feasible(cs, length) <==>
      (Sum(Mins(cs)) <= length || length == USIZE_MAX) && length <= Sum(Maxs(cs))
  {
    SatSumIsCappedSum(Mins(cs));
    SatSumIsCappedSum(Maxs(cs));
  }

  /** Sum facts used by the generator's counting argument. */
  lemma {:induction false} SumDecrement(xs: seq<nat>, k: nat)
    requires k < |xs| && xs[k] > 0
    ensures Sum(xs[k := xs[k] - 1]) == Sum(xs) - 1
    decreases |xs|
  {
    var ys := xs[k := xs[k] - 1];
    if k < |xs| - 1 {
      assert ys[..|ys| - 1] == xs[..|xs| - 1][k := xs[k] - 1];
      SumDecrement(xs[..|xs| - 1], k);
    } else {
      assert ys[..|ys| - 1] == xs[..|xs| - 1];
    }
  }

  lemma {:induction false} SumPositive(xs: seq<nat>) returns (k: nat)
    requires Sum(xs) > 0
    ensures k < |xs| && xs[k] > 0
    decreases |xs|
  {
    if xs[|xs| - 1] > 0 {
      k := |xs| - 1;
    } else {
      k := SumPositive(xs[..|xs| - 1]);
    }
  }

  lemma SumPrefix(xs: seq<nat>, i: nat)
    requires i < |xs|
    ensures Sum(xs[..i + 1]) == Sum(xs[..i]) + xs[i]
  {
    assert xs[..i + 1][..i] == xs[..i];
  }

  lemma {:induction false} SumDifference(a: seq<nat>, b: seq<nat>, c: seq<nat>)
    requires |a| == |b| == |c|
    requires forall k :: 0 <= k < |a| ==> b[k] <= a[k] && c[k] == a[k] - b[k]
    ensures Sum(c) == Sum(a) - Sum(b) && Sum(b) <= Sum(a)
    decreases |a|
  {
    if a != [] {
      SumDifference(a[..|a| - 1], b[..|b| - 1], c[..|c| - 1]);
    }
  }

  /** `n` copies of `x`. */
  function Repeat(x: nat, n: nat): (r: seq<nat>)
    ensures |r| == n && forall i :: 0 <= i < n ==> r[i] == x
  {
    seq(n, _ => x)
  }

  lemma {:induction false} RepeatCount(x: nat, n: nat)
    ensures multiset(Repeat(x, n)) == multiset{}[x := n]
    decreases n
  {
    if n > 0 {
      RepeatCount(x, n - 1);
      assert Repeat(x, n) == Repeat(x, n - 1) + [x];
    }
  }

  /** `self.choices.clone()`: fresh copies, one per choice. */
  method CloneAll(choices: seq<Choice>) returns (clones: seq<Choice>)
    ensures |clones| == |choices|
    ensures forall k :: 0 <= k < |clones| ==>
      fresh(clones[k]) && clones[k].min == choices[k].min && clones[k].max == choices[k].max &&
      clones[k].chars == choices[k].chars
    ensures forall j, k :: 0 <= j < k < |clones| ==> clones[j] != clones[k]
  {
    clones := [];
    for i := 0 to |choices|
      invariant |clones| == i
      invariant forall k :: 0 <= k < i ==>
        fresh(clones[k]) && clones[k].min == choices[k].min && clones[k].max == choices[k].max &&
        clones[k].chars == choices[k].chars
      invariant forall j, k :: 0 <= j < k < i ==> clones[j] != clones[k]
    {
      var c := new Choice.Clone(choices[i]);
      clones := clones + [c];
    }
  }

  /**
   * Characters drawn with their origins: `origin[p]` is the index of the choice that produced
   * `chars[p]`, and the character belongs to that choice's set.
   */
  ghost predicate Drawn(chars: seq<char>, origin: seq<nat>, styles: seq<CharStyle>)
  {
    |chars| == |origin| &&
    forall p :: 0 <= p < |chars| ==> origin[p] < |styles| && chars[p] in Charset(styles[origin[p]])
  }

  function Styles(cs: seq<Choice>): (r: seq<CharStyle>)
    reads cs
    ensures |r| == |cs| && forall i :: 0 <= i < |cs| ==> r[i] == cs[i].chars
  {
    seq(|cs|, i reads cs requires 0 <= i < |cs| => cs[i].chars)
  }

  /** The first loop of `generate`: every clone yields its required characters. */
  method DrawRequired(clones: seq<Choice>, ghost styles: seq<CharStyle>, ghost mins: seq<nat>, ghost maxs: seq<nat>)
    returns (chars: seq<char>, ghost origin: seq<nat>)
    requires AllValid(clones) && styles == Styles(clones) && mins == Mins(clones) && maxs == Maxs(clones)
    requires forall j, k :: 0 <= j < k < |clones| ==> clones[j] != clones[k]
    modifies clones
    ensures |chars| == Sum(mins)
    ensures Drawn(chars, origin, styles)
    ensures forall k :: 0 <= k < |clones| ==> multiset(origin)[k] == mins[k]
    ensures forall k :: 0 <= k < |clones| ==> clones[k].min == 0 && clones[k].max == maxs[k] - mins[k]
  {
    chars := [];
    origin := [];
    for i := 0 to |clones|
      invariant forall k :: 0 <= k < i ==> clones[k].min == 0 && clones[k].max == maxs[k] - mins[k]
      invariant forall k :: i <= k < |clones| ==> clones[k].min == mins[k] && clones[k].max == maxs[k]
      invariant Drawn(chars, origin, styles)
      invariant origin == Blocks(mins[..i])
    {
      label LoopTop:
      chars, origin := ExtendRequired(clones[i], i, styles, chars, origin);
      forall k | 0 <= k < |clones| && k != i
        ensures clones[k].min == old@LoopTop(clones[k].min) && clones[k].max == old@LoopTop(clones[k].max)
      {
        assert clones[k] != clones[i];
      }
      assert mins[..i + 1][..i] == mins[..i];
    }
    assert mins[..|clones|] == mins;
    BlocksCount(mins);
  }

  /** `chars.extend(choice.get_required())`, with the provenance of the new characters. */
  method ExtendRequired(choice: Choice, ghost k: nat, ghost styles: seq<CharStyle>, chars: seq<char>, ghost origin: seq<nat>)
    returns (chars': seq<char>, ghost origin': seq<nat>)
    requires choice.Valid() && k < |styles| && styles[k] == choice.chars && Drawn(chars, origin, styles)
    modifies choice
    ensures |chars'| == |chars| + old(choice.min) && origin' == origin + Repeat(k, old(choice.min))
    ensures Drawn(chars', origin', styles)
    ensures choice.min == 0 && choice.max == old(choice.max) - old(choice.min)
  {
    var req := choice.GetRequired();
    DrawnBlock(chars, origin, styles, req, k);
    chars' := chars + req;
    origin' := origin + Repeat(k, |req|);
  }

  /** Provenance of the required characters: `counts[k]` copies of each index `k`, in order. */
  function Blocks(counts: seq<nat>): seq<nat>
    decreases |counts|
  {
    if counts == [] then [] else Blocks(counts[..|counts| - 1]) + Repeat(|counts| - 1, counts[|counts| - 1])
  }

  lemma {:induction false} BlocksCount(counts: seq<nat>)
    ensures |Blocks(counts)| == Sum(counts)
    ensures forall k :: 0 <= k < |counts| ==> multiset(Blocks(counts))[k] == counts[k]
    ensures forall k :: k >= |counts| ==> multiset(Blocks(counts))[k] == 0
    decreases |counts|
  {
    if counts != [] {
      var n := |counts| - 1;
      var prefix := counts[..n];
      BlocksCount(prefix);
      RepeatCount(n, counts[n]);
      assert Blocks(counts) == Blocks(prefix) + Repeat(n, counts[n]);
      var m := multiset(Blocks(counts));
      assert m == multiset(Blocks(prefix)) + multiset{}[n := counts[n]];
      forall k | 0 <= k < |counts|
        ensures m[k] == counts[k]
      {
        if k < n {
          assert prefix[k] == counts[k];
        }
      }
    }
  }

  lemma RemoveAtKeeps<T>(s: seq<T>, i: nat, x: T)
    requires i < |s| && x in s && x != s[i]
    ensures x in FieldLists.RemoveAt(s, i)
  {
    var p :| 0 <= p < |s| && s[p] == x;
    if p < i {
      assert FieldLists.RemoveAt(s, i)[p] == x;
    } else {
      assert FieldLists.RemoveAt(s, i)[p - 1] == x;
    }
  }

  /** Appending one character of choice `k`'s set keeps the provenance record. */
  lemma DrawnAppend(chars: seq<char>, origin: seq<nat>, styles: seq<CharStyle>, c: char, k: nat)
    requires Drawn(chars, origin, styles) && k < |styles| && c in Charset(styles[k])
    ensures Drawn(chars + [c], origin + [k], styles)
  {
  }

  /** Appending a block drawn from choice `k` keeps the provenance record and counts it for `k`. */
  lemma DrawnBlock(chars: seq<char>, origin: seq<nat>, styles: seq<CharStyle>, block: seq<char>, k: nat)
    requires Drawn(chars, origin, styles) && k < |styles|
    requires forall p :: 0 <= p < |block| ==> block[p] in Charset(styles[k])
    ensures Drawn(chars + block, origin + Repeat(k, |block|), styles)
    ensures multiset(origin + Repeat(k, |block|)) == multiset(origin)[k := multiset(origin)[k] + |block|]
  {
    RepeatCount(k, |block|);
    var c := chars + block;
    var o := origin + Repeat(k, |block|);
    forall p | 0 <= p < |c|
      ensures o[p] < |styles| && c[p] in Charset(styles[o[p]])
    {
      if p >= |chars| {
        assert c[p] == block[p - |chars|] && o[p] == k;
      }
    }
  }

  /** Drawing from choice `k` moves one unit from its room to its count. */
  lemma CountStep(origin: seq<nat>, left: seq<nat>, caps: seq<nat>, k: nat)
    requires |left| == |caps| && k < |left| && left[k] > 0
    requires forall j :: 0 <= j < |caps| ==> multiset(origin)[j] + left[j] == caps[j]
    ensures forall j :: 0 <= j < |caps| ==>
      multiset(origin + [k])[j] + left[k := left[k] - 1][j] == caps[j]
  {
  }

  /** `active.into_iter().filter(|x| x.active())`, with each survivor's index among the clones. */
  method ActiveOnly(clones: seq<Choice>) returns (active: seq<Choice>, ghost orig: seq<nat>)
    ensures |active| == |orig|
    ensures forall p :: 0 <= p < |orig| ==> orig[p] < |clones| && active[p] == clones[orig[p]]
    ensures forall p :: 0 <= p < |orig| ==> clones[orig[p]].max > 0
    ensures forall p, q :: 0 <= p < q < |orig| ==> orig[p] < orig[q]
    ensures forall j :: 0 <= j < |clones| && clones[j].max > 0 ==> j in orig
  {
    active := [];
    orig := [];
    for k := 0 to |clones|
      invariant |active| == |orig|
      invariant forall p :: 0 <= p < |orig| ==> orig[p] < k && active[p] == clones[orig[p]]
      invariant forall p :: 0 <= p < |orig| ==> clones[orig[p]].max > 0
      invariant forall p, q :: 0 <= p < q < |orig| ==> orig[p] < orig[q]
      invariant forall j :: 0 <= j < k && clones[j].max > 0 ==> j in orig
    {
      if clones[k].Active() {
        active := active + [clones[k]];
        orig := orig + [k];
      }
    }
  }

  /**
   * Bookkeeping of the fill loop: `orig` lists, without repeats, the clones still active, and
   * `left[k]` is the room left in clone `k`, positive exactly for the listed ones.
   */
  ghost predicate Tracks(orig: seq<nat>, left: seq<nat>)
  {
    (forall p :: 0 <= p < |orig| ==> 0 <= orig[p] < |left| && left[orig[p]] > 0) &&
    (forall p, q :: 0 <= p < q < |orig| ==> orig[p] != orig[q]) &&
    (forall k :: 0 <= k < |left| && k !in orig ==> left[k] == 0)
  }

  /** One step of the fill loop keeps the bookkeeping, dropping the clone once it is used up. */
  lemma TracksStep(orig: seq<nat>, left: seq<nat>, index: nat)
    requires Tracks(orig, left) && index < |orig|
    ensures var k := orig[index]; var next := left[k := left[k] - 1];
      Tracks(if next[k] > 0 then orig else FieldLists.RemoveAt(orig, index), next)
  {
    var k := orig[index];
    var next := left[k := left[k] - 1];
    if next[k] == 0 {
      var r := FieldLists.RemoveAt(orig, index);
      assert forall p :: 0 <= p < |r| ==> r[p] == if p < index then orig[p] else orig[p + 1];
      forall j | 0 <= j < |next| && next[j] > 0
        ensures j in r
      {
        RemoveAtKeeps(orig, index, j);
      }
    }
  }

  /** `active[p]` is clone number `orig[p]`. */
  ghost predicate Aligned(active: seq<Choice>, orig: seq<nat>, clones: seq<Choice>)
  {
    |active| == |orig| &&
    forall p :: 0 <= p < |orig| ==> 0 <= orig[p] < |clones| && active[p] == clones[orig[p]]
  }

  /** Removing the same position from the active clones and their indices keeps them aligned. */
  lemma RemoveAligned(active: seq<Choice>, orig: seq<nat>, clones: seq<Choice>, index: nat)
    requires Aligned(active, orig, clones) && index < |orig|
    ensures Aligned(FieldLists.RemoveAt(active, index), FieldLists.RemoveAt(orig, index), clones)
  {
    var a := FieldLists.RemoveAt(active, index);
    var o := FieldLists.RemoveAt(orig, index);
    assert forall p :: 0 <= p < |o| ==> o[p] == if p < index then orig[p] else orig[p + 1];
    assert forall p :: 0 <= p < |a| ==> a[p] == if p < index then active[p] else active[p + 1];
  }

  /** While characters are still owed, some clone is active. */
  lemma TracksActive(orig: seq<nat>, left: seq<nat>)
    requires Tracks(orig, left) && Sum(left) > 0
    ensures |orig| > 0
  {
    var k := SumPositive(left);
    assert k in orig;
  }

  /** The fill loop's pure bookkeeping: alignment, rooms, provenance and counts. */
  ghost predicate Books(active: seq<Choice>, orig: seq<nat>, clones: seq<Choice>, left: seq<nat>,
                        caps: seq<nat>, chars: seq<char>, origin: seq<nat>, styles: seq<CharStyle>)
  {
    Aligned(active, orig, clones) && |left| == |clones| == |caps| == |styles| && Tracks(orig, left) &&
    Drawn(chars, origin, styles) &&
    (forall k :: 0 <= k < |caps| ==> multiset(origin)[k] + left[k] == caps[k])
  }

  /** The clones' own fields agree with the bookkeeping. */
  ghost predicate Rooms(clones: seq<Choice>, left: seq<nat>, styles: seq<CharStyle>)
    reads clones
  {
    |left| == |clones| == |styles| &&
    (forall j, k :: 0 <= j < k < |clones| ==> clones[j] != clones[k]) &&
    (forall k :: 0 <= k < |clones| ==> clones[k].max == left[k] && clones[k].min == 0) &&
    (forall k :: 0 <= k < |clones| ==> clones[k].chars == styles[k])
  }

  /** Drawing one character from active position `index` keeps the bookkeeping. */
  lemma BooksStep(active: seq<Choice>, orig: seq<nat>, clones: seq<Choice>, left: seq<nat>,
                  caps: seq<nat>, chars: seq<char>, origin: seq<nat>, styles: seq<CharStyle>,
                  index: nat, c: char)
    requires Books(active, orig, clones, left, caps, chars, origin, styles) && index < |orig|
    requires c in Charset(styles[orig[index]])
    ensures var k := orig[index]; var next := left[k := left[k] - 1];
      Sum(next) == Sum(left) - 1 &&
      Books(if next[k] > 0 then active else FieldLists.RemoveAt(active, index),
            if next[k] > 0 then orig else FieldLists.RemoveAt(orig, index),
            clones, next, caps, chars + [c], origin + [k], styles)
  {
    var k := orig[index];
    DrawnAppend(chars, origin, styles, c, k);
    CountStep(origin, left, caps, k);
    SumDecrement(left, k);
    TracksStep(orig, left, index);
    if left[k] == 1 {
      RemoveAligned(active, orig, clones, index);
    }
  }

  /** `active[index].step()` on clone `k`: one character of its set, one unit of room less. */
  method StepClone(clones: seq<Choice>, ghost left: seq<nat>, ghost styles: seq<CharStyle>,
                   choice: Choice, ghost k: nat)
    returns (c: char, ghost left': seq<nat>)
    requires Rooms(clones, left, styles) && k < |clones| && choice == clones[k] && left[k] > 0
    modifies clones
    ensures Rooms(clones, left', styles) && left' == left[k := left[k] - 1]
    ensures c in Charset(styles[k])
  {
    var drawn := choice.Step();
    c := drawn.value;
    left' := left[k := left[k] - 1];
    forall j | 0 <= j < |clones|
      ensures clones[j].max == left'[j] && clones[j].min == 0
    {
      if j != k {
        assert j < k || k < j;
      }
    }
  }

  /**
   * One iteration of the fill loop: a uniformly chosen clone with room left yields a character
   * and is dropped from `active` once its maximum is used up. (The source's `choose` returns
   * None only on an empty `active`, which the bookkeeping rules out while characters are owed.)
   */
  method FillStep(clones: seq<Choice>, active: seq<Choice>, ghost orig: seq<nat>, ghost left: seq<nat>,
                  ghost caps: seq<nat>, chars: seq<char>, ghost origin: seq<nat>, ghost styles: seq<CharStyle>)
    returns (active': seq<Choice>, ghost orig': seq<nat>, ghost left': seq<nat>, chars': seq<char>,
             ghost origin': seq<nat>)
    requires Books(active, orig, clones, left, caps, chars, origin, styles) && Rooms(clones, left, styles)
    requires Sum(left) > 0
    modifies clones
    ensures Books(active', orig', clones, left', caps, chars', origin', styles) && Rooms(clones, left', styles)
    ensures |chars'| == |chars| + 1 && Sum(left') == Sum(left) - 1
  {
    TracksActive(orig, left);
    var index :| 0 <= index < |active|;
    ghost var k := orig[index];
    var c;
    c, left' := StepClone(clones, left, styles, active[index], k);
    BooksStep(active, orig, clones, left, caps, chars, origin, styles, index, c);
    chars' := chars + [c];
    origin' := origin + [k];
    if !active[index].Active() {
      active' := FieldLists.RemoveAt(active, index);
      orig' := FieldLists.RemoveAt(orig, index);
    } else {
      active' := active;
      orig' := orig;
    }
  }

  /**
   * The second loop of `generate`: `remaining` times, a uniformly chosen clone that still has
   * room yields one character and is dropped once its maximum is used up.
   */
  method FillRemaining(clones: seq<Choice>, remaining: nat, ghost styles: seq<CharStyle>)
    returns (chars: seq<char>, ghost origin: seq<nat>)
    requires styles == Styles(clones)
    requires forall j, k :: 0 <= j < k < |clones| ==> clones[j] != clones[k]
    requires forall k :: 0 <= k < |clones| ==> clones[k].min == 0
    requires remaining <= Sum(Maxs(clones))
    modifies clones
    ensures |chars| == remaining
    ensures Drawn(chars, origin, styles)
    ensures forall k :: 0 <= k < |clones| ==> multiset(origin)[k] <= old(clones[k].max)
  {
    var active, orig := ActiveOnly(clones);
    ghost var caps := Maxs(clones);
    ghost var left := caps;
    chars := [];
    origin := [];
    for t := 0 to remaining
      invariant Books(active, orig, clones, left, caps, chars, origin, styles) && Rooms(clones, left, styles)
      invariant Sum(left) + t >= remaining && |chars| == t
    {
      active, orig, left, chars, origin := FillStep(clones, active, orig, left, caps, chars, origin, styles);
    }
  }

  /** Required draws plus bounded extra draws land each choice within its [min, max]. */
  lemma CountsCombine(required: seq<nat>, drawn: seq<nat>, mins: seq<nat>, maxs: seq<nat>, rooms: seq<nat>)
    requires |mins| == |maxs| == |rooms|
    requires forall k :: 0 <= k < |mins| ==> multiset(required)[k] == mins[k] && rooms[k] + mins[k] == maxs[k]
    requires forall k :: 0 <= k < |mins| ==> multiset(drawn)[k] <= rooms[k] && mins[k] <= maxs[k]
    ensures forall k :: 0 <= k < |mins| ==> mins[k] <= multiset(required + drawn)[k] <= maxs[k]
  {
  }

  lemma DrawnConcat(a: seq<char>, oa: seq<nat>, b: seq<char>, ob: seq<nat>, styles: seq<CharStyle>)
    requires Drawn(a, oa, styles) && Drawn(b, ob, styles)
    ensures Drawn(a + b, oa + ob, styles)
  {
    forall p | 0 <= p < |a + b|
      ensures (oa + ob)[p] < |styles| && (a + b)[p] in Charset(styles[(oa + ob)[p]])
    {
      if p < |a| {
        assert (a + b)[p] == a[p] && (oa + ob)[p] == oa[p];
      } else {
        assert (a + b)[p] == b[p - |a|] && (oa + ob)[p] == ob[p - |a|];
      }
    }
  }

  lemma DrawnSwap(chars: seq<char>, origin: seq<nat>, styles: seq<CharStyle>, i: nat, j: nat)
    requires Drawn(chars, origin, styles) && i < |chars| && j < |chars|
    ensures Drawn(FieldLists.SwapAt(chars, i, j), FieldLists.SwapAt(origin, i, j), styles)
  {
    FieldLists.SwapPreserves(chars, i, j);
    FieldLists.SwapPreserves(origin, i, j);
  }

  /** `characters.shuffle(..)`: a Fisher–Yates pass with nondeterministic picks. */
  method Shuffle(chars: seq<char>, ghost origin: seq<nat>, ghost styles: seq<CharStyle>)
    returns (out: seq<char>, ghost outOrigin: seq<nat>)
    requires Drawn(chars, origin, styles)
    ensures |out| == |chars| && multiset(out) == multiset(chars)
    ensures Drawn(out, outOrigin, styles) && multiset(outOrigin) == multiset(origin)
  {
    out := chars;
    outOrigin := origin;
    for i := 0 to |chars|
      invariant |out| == |chars| && multiset(out) == multiset(chars)
      invariant Drawn(out, outOrigin, styles) && multiset(outOrigin) == multiset(origin)
    {
      var j :| i <= j < |out|;
      DrawnSwap(out, outOrigin, styles, i, j);
      FieldLists.SwapPreserves(out, i, j);
      FieldLists.SwapPreserves(outOrigin, i, j);
      out := FieldLists.SwapAt(out, i, j);
      outOrigin := FieldLists.SwapAt(outOrigin, i, j);
    }
  }

  /** Required draws, fill and shuffle on the clones, which end up used. */
  method DrawClones(clones: seq<Choice>, length: nat, ghost mins: seq<nat>, ghost maxs: seq<nat>,
                    ghost styles: seq<CharStyle>)
    returns (chars: seq<char>, ghost origin: seq<nat>)
    requires AllValid(clones) && mins == Mins(clones) && maxs == Maxs(clones) && styles == Styles(clones)
    requires forall j, k :: 0 <= j < k < |clones| ==> clones[j] != clones[k]
    requires Sum(mins) <= length <= Sum(maxs)
    modifies clones
    ensures |chars| == length && Drawn(chars, origin, styles)
    ensures forall k :: 0 <= k < |mins| ==> mins[k] <= multiset(origin)[k] <= maxs[k]
  {
    var characters, required := DrawRequired(clones, styles, mins, maxs);
    ghost var rooms := Maxs(clones);
    assert forall k :: 0 <= k < |mins| ==> rooms[k] + mins[k] == maxs[k];
    var remaining := length - |characters|;
    SumDifference(maxs, mins, rooms);
    var extra, drawn := FillRemaining(clones, remaining, styles);
    CountsCombine(required, drawn, mins, maxs, rooms);
    DrawnConcat(characters, required, extra, drawn, styles);
    chars, origin := Shuffle(characters + extra, required + drawn, styles);
  }

  /** The body of `generate` once `check` has passed: clone the choices, then draw from the clones. */
  method Draw(choices: seq<Choice>, length: nat) returns (chars: seq<char>, ghost origin: seq<nat>)
    requires AllValid(choices) && length <= USIZE_MAX && Sum(Mins(choices)) <= USIZE_MAX
    requires Feasible(choices, length)
    ensures |chars| == length && Drawn(chars, origin, Styles(choices))
    ensures forall i :: 0 <= i < |choices| ==> choices[i].min <= multiset(origin)[i] <= choices[i].max
  {
    FeasibleMeans(choices, length);
    var clones := CloneAll(choices);
    assert Mins(clones) == Mins(choices) && Maxs(clones) == Maxs(choices) && Styles(clones) == Styles(choices);
    chars, origin := DrawClones(clones, length, Mins(choices), Maxs(choices), Styles(choices));
  }

  /** The default character classes: one or more each of upper case, lower case, digits, symbols. */
  method DefaultChoices() returns (cs: seq<Choice>)
    ensures |cs| == 4 && AllValid(cs)
    ensures cs[0].chars == Upper && cs[1].chars == Lower && cs[2].chars == Number && cs[3].chars == Symbol
    ensures forall i :: 0 <= i < 4 ==> cs[i].min == 1 && cs[i].max == USIZE_MAX
  {
    var upper := new Choice.AtLeast(1, Upper);
    var lower := new Choice.AtLeast(1, Lower);
    var number := new Choice.AtLeast(1, Number);
    var symbol := new Choice.AtLeast(1, Symbol);
    cs := [upper, lower, number, symbol];
  }

  /** Four classes of at least one character each admit a 32-character password. */
  lemma DefaultCounts(mins: seq<nat>, maxs: seq<nat>)
    requires |mins| == 4 && |maxs| == 4
    requires forall i :: 0 <= i < 4 ==> mins[i] == 1 && maxs[i] == USIZE_MAX
    ensures SatSum(mins) <= 32 <= SatSum(maxs)
  {
    SumAtMost(mins, 1);
    SatSumIsCappedSum(mins);
    SatSumCovers(maxs, 0);
  }

  class Password {
    const choices: seq<Choice>
    const length: nat

    /** `Password::new`. */
    constructor (choices: seq<Choice>, length: nat)
      requires length <= USIZE_MAX
      ensures this.choices == choices && this.length == length
    {
      this.choices := choices;
      this.length := length;
    }

    /** At least one upper case letter, lower case letter, digit and symbol; 32 characters. */
    constructor Default()
      ensures length == 32 && |choices| == 4 && AllValid(choices)
      ensures choices[0].chars == Upper && choices[1].chars == Lower
      ensures choices[2].chars == Number && choices[3].chars == Symbol
      ensures forall i :: 0 <= i < 4 ==> choices[i].min == 1 && choices[i].max == USIZE_MAX
      ensures Feasible(choices, length)
    {
      var cs := DefaultChoices();
      choices := cs;
      length := 32;
      DefaultCounts(Mins(cs), Maxs(cs));
    }

    /** Saturating sums of the minimums and maximums, then `min <= length <= max`. */
    method Check() returns (r: bool)
      ensures r == Feasible(choices, length)
    {
      var minLength := 0;
      var maxLength := 0;
      for i := 0 to |choices|
        invariant minLength == SatSum(Mins(choices)[..i])
        invariant maxLength == SatSum(Maxs(choices)[..i])
      {
        assert Mins(choices)[..i + 1][..i] == Mins(choices)[..i];
        assert Maxs(choices)[..i + 1][..i] == Maxs(choices)[..i];
        minLength := SatAdd(minLength, choices[i].min);
        maxLength := SatAdd(maxLength, choices[i].max);
      }
      assert Mins(choices)[..|choices|] == Mins(choices);
      assert Maxs(choices)[..|choices|] == Maxs(choices);
      r := minLength <= length && length <= maxLength;
    }

    /**
     * `generate`: None when `check` fails; otherwise exactly `length` characters, where
     * `origin[p]` names the choice that drew character `p` (which lies in that choice's set)
     * and every choice drew between its minimum and its maximum.
     */
    method Generate() returns (r: Option<string>, ghost origin: seq<nat>)
      requires AllValid(choices) && length <= USIZE_MAX && Sum(Mins(choices)) <= USIZE_MAX
      ensures r.Some? <==> Feasible(choices, length)
      ensures r.Some? ==> |r.value| == length && Drawn(r.value, origin, Styles(choices))
      ensures r.Some? ==> forall i :: 0 <= i < |choices| ==>
        choices[i].min <= multiset(origin)[i] <= choices[i].max
    {
      var ok := Check();
      if ok {
        var characters;
        characters, origin := Draw(choices, length);
        r := Some(characters);
      } else {
        r, origin := None, [];
      }
    }
  }
}
