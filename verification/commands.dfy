/**
 * The closed set of command names that `coward` accepts on its command
 * line, `VALID_COMMANDS` (coward.py:7).
 */
module Commands {
  import opened Wrappers

  datatype Command = All | Snapshot | Prune | Push

  /** The name by which a command is written on the command line. */
  function Name(c: Command): string
  {
    match c
    case All => "all"
    case Snapshot => "snapshot"
    case Prune => "prune"
    case Push => "push"
  }

  /** `VALID_COMMANDS`, in the order the source lists them. */
  const ValidCommands: seq<string> := ["all", "snapshot", "prune", "push"]

  /** Recognises a command head; `None` for a head outside `ValidCommands`. */
  function Parse(head: string): (c: Option<Command>)
    ensures c.Some? <==> head in ValidCommands
    ensures c.Some? ==> Name(c.value) == head
  {
    if head == "all" then Some(All)
    else if head == "snapshot" then Some(Snapshot)
    else if head == "prune" then Some(Prune)
    else if head == "push" then Some(Push)
    else None
  }

  /** Every command's name is valid and parses back to that command. */
  lemma ParseName(c: Command)
    ensures Name(c) in ValidCommands
    ensures Parse(Name(c)) == Some(c)
  {
  }
}
