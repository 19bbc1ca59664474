/** The requests a transaction is made of (src/command.rs). */
module Commands {
  import opened Stores

  datatype Command =
    | Read(key: string)
    | Update(key: string, value: StoreData)
    | Delete(key: string)

  /** An ordered batch of commands; iterating it yields them in order. */
  class Commands {
    var commands: seq<Command>

    /** `Commands::new()` and `Commands::default()`. */
    constructor ()
      ensures commands == []
    {
      commands := [];
    }

    /** `From<Vec<Command>>`: keeps the list as given. */
    constructor FromSeq(commands: seq<Command>)
      ensures this.commands == commands
    {
      this.commands := commands;
    }

    /** `From<Command>`: a batch of one. */
    constructor FromCommand(command: Command)
      ensures commands == [command]
    {
      commands := [command];
    }

    method Push(command: Command)
      modifies this
      ensures commands == old(commands) + [command]
    {
      commands := commands + [command];
    }
  }
}
