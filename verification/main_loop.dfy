/**
 * `main` as the source writes it (coward.py:21-43): a validation loop over
 * all tokens, then a dispatch loop that looks each handler up by name in
 * the module namespace and calls it with the second field or `None`.
 */
module CowardLoop {
  import opened Wrappers
  import opened Tokens
  import opened Commands
  import opened Coward
  import CowardProperties

  /** The validation loop: raises on the first head outside `VALID_COMMANDS`. */
  method CheckCommands(commands: seq<Fields>) returns (outcome: Outcome<Error>)
    ensures outcome == Validate(commands)
  {
    var i := 0;
    while i < |commands|
      invariant 0 <= i <= |commands|
      invariant forall j :: 0 <= j < i ==> IsValid(commands[j])
    {
      if Head(commands[i]) !in ValidCommands {
        assert FirstInvalid(commands, i);
        ValidateReportsFirstInvalid(commands, i);
        return Fail(InvalidCommand(Head(commands[i])));
      }
      i := i + 1;
    }
    return Pass;
  }

  /**
   * The dispatch loop: looks up `command_<head>` in the namespace, calls it
   * with the second field or `None`, and stops at the first exception.
   */
  method DispatchCommands(commands: seq<Fields>) returns (trace: seq<Call>, outcome: Outcome<Error>)
    ensures Run(trace, outcome) == Dispatch(commands)
  {
    trace := [];
    var i := 0;
    while i < |commands|
      invariant 0 <= i <= |commands|
      invariant Dispatch(commands[..i]) == Run(trace, Pass)
    {
      var command := commands[i];
      var name := HandlerName(Head(command));
      CowardProperties.DispatchStep(commands, i);
      if Dispatch([command]).outcome.Fail? {
        CowardProperties.DispatchStopsAfterFailure(commands, i + 1);
      }
      if name !in Globals {
        return trace, Fail(MissingHandler(name));
      }
      var handler := Globals[name];
      var params := if |command| > 1 then Some(command[1]) else None;
      trace := trace + [Call(name, params)];
      var o := Invoke(handler, params);
      if o.Fail? {
        return trace, o;
      }
      i := i + 1;
    }
    assert commands[..i] == commands;
    outcome := Pass;
  }

  /** `main` after argument parsing: split, validate every token, then dispatch. */
  method RunCommands(tokens: seq<string>) returns (trace: seq<Call>, outcome: Outcome<Error>)
    ensures Run(trace, outcome) == Main(tokens)
    ensures outcome.Fail? && outcome.error.InvalidCommand? ==> trace == []
  {
    var commands := ParseTokens(tokens);
    var checked := CheckCommands(commands);
    if checked.Fail? {
      return [], checked;
    }
    trace, outcome := DispatchCommands(commands);
  }
}
