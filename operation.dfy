/**
 * Expansion of commands into the operations a transaction runs (src/operation.rs):
 * an Update reads the key first so the prior value is captured for the record.
 */
module Operations {
  import opened Wrappers
  import opened Stores
  import opened Commands

  datatype Operation =
    | Get(key: string)
    | Set(key: string, value: Option<StoreData>)

  /** The operations one command becomes. */
  function ExpandCommand(c: Command): seq<Operation>
  {
    match c
    case Read(key) => [Get(key)]
    case Update(key, value) => [Get(key), Set(key, Some(value))]
    case Delete(key) => [Set(key, None)]
  }

  /** The operations a batch becomes: each command's expansion, in command order. */
  function Expand(cs: seq<Command>): seq<Operation>
    decreases |cs|
  {
    if cs == [] then [] else Expand(cs[..|cs| - 1]) + ExpandCommand(cs[|cs| - 1])
  }

  /** The number of operations a command contributes. */
  function Weight(c: Command): nat
  {
    match c
    case Read(_) => 1
    case Update(_, _) => 2
    case Delete(_) => 1
  }

  function TotalWeight(cs: seq<Command>): nat
    decreases |cs|
  {
    if cs == [] then 0 else TotalWeight(cs[..|cs| - 1]) + Weight(cs[|cs| - 1])
  }

  /** Every Set carrying a value directly follows a Get of the same key. */
  predicate WritesFollowReads(ops: seq<Operation>)
  {
    forall i :: 0 <= i < |ops| && ops[i].Set? && ops[i].value.Some? ==>
      i > 0 && ops[i - 1] == Get(ops[i].key)
  }

  class Operations {
    var operations: seq<Operation>

    /** `Operations::new()` and `Operations::default()`. */
    constructor ()
      ensures operations == []
    {
      operations := [];
    }

    /** `From<Vec<Operation>>`. */
    constructor FromSeq(operations: seq<Operation>)
      ensures this.operations == operations
    {
      this.operations := operations;
    }

    method Push(operation: Operation)
      modifies this
      ensures operations == old(operations) + [operation]
    {
      operations := operations + [operation];
    }
  }

  /** `From<Commands> for Operations`: the loop that pushes each command's operations. */
  method FromCommands(commands: Commands) returns (ops: Operations)
    ensures fresh(ops)
    ensures ops.operations == Expand(commands.commands)
  {
    ops := new Operations();
    var cs := commands.commands;
    for i := 0 to |cs|
      invariant ops.operations == Expand(cs[..i])
    {
      assert cs[..i + 1][..i] == cs[..i];
      match cs[i] {
        case Read(key) =>
          ops.Push(Get(key));
        case Update(key, value) =>
          ops.Push(Get(key));
          ops.Push(Set(key, Some(value)));
        case Delete(key) =>
          ops.Push(Set(key, None));
      }
    }
    assert cs[..|cs|] == cs;
  }

  /** Expansion distributes over concatenation of batches. */
  lemma {:induction false} ExpandAppend(a: seq<Command>, b: seq<Command>)
    ensures Expand(a + b) == Expand(a) + Expand(b)
    decreases |b|
  {
    if b != [] {
      var b' := b[..|b| - 1];
      assert (a + b)[..|a + b| - 1] == a + b';
      ExpandAppend(a, b');
    } else {
      assert a + b == a;
    }
  }

  /** A batch expands to the concatenation of its commands' expansions, front to back. */
  lemma ExpandCons(c: Command, rest: seq<Command>)
    ensures Expand([c] + rest) == ExpandCommand(c) + Expand(rest)
  {
    ExpandAppend([c], rest);
    assert Expand([c]) == ExpandCommand(c) by {
      assert [c][..0] == [];
    }
  }

  /** Output length is #Read + 2·#Update + #Delete. */
  lemma {:induction false} ExpandLength(cs: seq<Command>)
    ensures |Expand(cs)| == TotalWeight(cs)
    decreases |cs|
  {
    if cs != [] {
      ExpandLength(cs[..|cs| - 1]);
    }
  }

  /** Every Set(Some) in an expansion is immediately preceded by a Get of the same key. */
  lemma {:induction false} ExpandWritesFollowReads(cs: seq<Command>)
    ensures WritesFollowReads(Expand(cs))
    decreases |cs|
  {
    if cs != [] {
      var front := Expand(cs[..|cs| - 1]);
      var last := ExpandCommand(cs[|cs| - 1]);
      ExpandWritesFollowReads(cs[..|cs| - 1]);
      var ops := Expand(cs);
      forall i | 0 <= i < |ops| && ops[i].Set? && ops[i].value.Some?
        ensures i > 0 && ops[i - 1] == Get(ops[i].key)
      {
        if i < |front| {
          assert ops[i] == front[i];
          assert ops[i - 1] == front[i - 1];
        } else {
          assert ops[i] == last[i - |front|];
          assert i - |front| == 1;
          assert ops[i - 1] == last[0];
        }
      }
    }
  }

  /** The source's unit test `convert_read_to_get`. */
  lemma ReadBecomesGet()
    ensures Expand([Read("balls")]) == [Get("balls")]
  {
    assert [Read("balls")][..0] == [];
  }

  /** The source's unit test `convert_delete_to_set`. */
  lemma DeleteBecomesSet()
    ensures Expand([Delete("balls")]) == [Set("balls", None)]
  {
    assert [Delete("balls")][..0] == [];
  }

  /** The disabled unit test `convert_update_to_get_and_set`, with a one-field store. */
  lemma UpdateBecomesGetSet()
    ensures Expand([Update("balls", [("Password", "weiner")])]) ==
      [Get("balls"), Set("balls", Some([("Password", "weiner")]))]
  {
    assert [Update("balls", [("Password", "weiner")])][..0] == [];
  }
}
