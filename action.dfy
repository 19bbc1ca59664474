/** The write-ahead record's vocabulary (src/action.rs). */
module Actions {
  import opened Wrappers
  import opened Stores

  /** One change to one vault entry: its value before (`start`) and after (`end`); None means absent. */
  datatype Action =
    | Replace(key: string, start: Option<StoreData>, end: Option<StoreData>)
    | Noop

  /** The action that undoes `a`: before and after exchanged. */
  function Inverse(a: Action): Action
  {
    match a
    case Noop => Noop
    case Replace(key, start, end) => Replace(key, end, start)
  }

  /** `inverse` exchanges start and end, keeps the key, and maps Noop to Noop. */
  lemma InverseSwaps(a: Action)
    ensures a.Noop? ==> Inverse(a) == Noop
    ensures a.Replace? ==>
      Inverse(a).Replace? && Inverse(a).key == a.key && Inverse(a).start == a.end && Inverse(a).end == a.start
  {
  }

  /** `inverse` is an involution. */
  lemma InverseInvolution(a: Action)
    ensures Inverse(Inverse(a)) == a
  {
  }

  /** The log of one transaction; iterating it yields the actions in push order. */
  class Record {
    var actions: seq<Action>

    /** `Record::new()` and `Record::default()`. */
    constructor ()
      ensures actions == []
    {
      actions := [];
    }

    method Push(action: Action)
      modifies this
      ensures actions == old(actions) + [action]
      ensures actions[..|old(actions)|] == old(actions) && actions[|actions| - 1] == action
    {
      actions := actions + [action];
    }
  }
}
