/**
 * The command front end of `coward` (coward.py:21-43): split every token
 * into fields, validate every head, then dispatch the tokens in order to
 * the handler `command_<head>` found by name.
 */
module Coward {
  import opened Wrappers
  import opened Tokens
  import opened Commands

  /** The three exceptions the front end can raise. */
  datatype Error =
    | InvalidCommand(head: string)     // head outside VALID_COMMANDS
    | AllGotParams(params: string)     // `command_all` given a non-empty parameter
    | MissingHandler(name: string)     // no function `command_<head>` exists

  /** The handler functions the module defines; `command_all` is the only one. */
  datatype Handler = CommandAll

  const HandlerPrefix: string := "command_"

  /** The name under which the handler for `head` is looked up. */
  function HandlerName(head: string): string
  {
    HandlerPrefix + head
  }

  /** The module's global namespace, restricted to handler functions. */
  const Globals: map<string, Handler> := map["command_all" := CommandAll]

  /** The handler for `head`, if the namespace holds one under its name. */
  function Lookup(head: string): (h: Option<Handler>)
    ensures h.Some? <==> head == "all"
  {
    var name := HandlerName(head);
    assert name[|HandlerPrefix|..] == head;
    assert head == "all" ==> name == "command_all";
    if name in Globals then Some(Globals[name]) else None
  }

  /** Python truthiness of an optional string: present and non-empty. */
  predicate Truthy(params: Option<string>)
  {
    params.Some? && params.value != ""
  }

  /** Runs a handler on its parameter; `command_all` refuses any truthy one. */
  function Invoke(h: Handler, params: Option<string>): (o: Outcome<Error>)
    ensures o.Fail? <==> Truthy(params)
    ensures o.Fail? ==> o.error == AllGotParams(params.value)
  {
    match h
    case CommandAll =>
      if Truthy(params) then Fail(AllGotParams(params.value)) else Pass
  }

  /** A token after splitting: its colon-separated fields, never empty. */
  type Fields = f: seq<string> | |f| >= 1 witness [""]

  function Head(f: Fields): string { f[0] }

  /** The second field when there is one; later fields are not looked at. */
  function Params(f: Fields): Option<string>
  {
    if |f| > 1 then Some(f[1]) else None
  }

  function ParseTokens(tokens: seq<string>): seq<Fields>
  {
    seq(|tokens|, i requires 0 <= i < |tokens| => Split(tokens[i]))
  }

  /** The head names one of the commands of the enumeration. */
  predicate IsValid(f: Fields)
  {
    Parse(Head(f)).Some?
  }

  /** `i` is the position of the first token whose head is not valid. */
  ghost predicate FirstInvalid(cmds: seq<Fields>, i: int)
  {
    && 0 <= i < |cmds|
    && !IsValid(cmds[i])
    && forall j :: 0 <= j < i ==> IsValid(cmds[j])
  }

  /** The validation pass: raises on the first invalid head, in token order. */
  function Validate(cmds: seq<Fields>): (o: Outcome<Error>)
    ensures o.Pass? <==> forall i :: 0 <= i < |cmds| ==> IsValid(cmds[i])
    ensures o.Fail? ==> o.error.InvalidCommand? && o.error.head !in ValidCommands
  {
    if |cmds| == 0 then Pass
    else if !IsValid(cmds[0]) then Fail(InvalidCommand(Head(cmds[0])))
    else
      assert forall j :: 0 < j < |cmds| ==> cmds[j] == cmds[1..][j - 1];
      Validate(cmds[1..])
  }

  /** The error the validation pass raises names the first invalid head. */
  lemma {:induction false} ValidateReportsFirstInvalid(cmds: seq<Fields>, i: int)
    requires FirstInvalid(cmds, i)
    ensures Validate(cmds) == Fail(InvalidCommand(Head(cmds[i])))
  {
    if i > 0 {
      assert FirstInvalid(cmds[1..], i - 1) by {
        forall j | 0 <= j < i - 1 ensures IsValid(cmds[1..][j]) {
          assert cmds[1..][j] == cmds[j + 1];
        }
      }
      ValidateReportsFirstInvalid(cmds[1..], i - 1);
    }
  }

  /** One invocation of a handler: the function name and the parameter passed. */
  datatype Call = Call(handler: string, params: Option<string>)

  /** What a run did: the handlers invoked, in order, and how it ended. */
  datatype Run = Run(trace: seq<Call>, outcome: Outcome<Error>)

  /**
   * The dispatch loop: each token in order is handed to its handler; the
   * first raise ends the run. A handler that raised is still in the trace.
   */
  function Dispatch(cmds: seq<Fields>): (r: Run)
    ensures |r.trace| <= |cmds|
    ensures r.outcome.Pass? ==> |r.trace| == |cmds|
    ensures r.outcome.Fail? ==> !r.outcome.error.InvalidCommand?
  {
    if |cmds| == 0 then Run([], Pass)
    else
      var f := cmds[0];
      match Lookup(Head(f))
      case None => Run([], Fail(MissingHandler(HandlerName(Head(f)))))
      case Some(h) =>
        var call := Call(HandlerName(Head(f)), Params(f));
        var o := Invoke(h, Params(f));
        if o.Fail? then Run([call], o)
        else
          var rest := Dispatch(cmds[1..]);
          Run([call] + rest.trace, rest.outcome)
  }

  /** The whole front end on the command-line tokens: validate, then execute. */
  function Main(tokens: seq<string>): (r: Run)
    ensures r.outcome.Fail? && r.outcome.error.InvalidCommand? ==> r.trace == []
    ensures (exists i :: 0 <= i < |tokens| && Split(tokens[i])[0] !in ValidCommands) <==>
              r.outcome.Fail? && r.outcome.error.InvalidCommand?
  {
    var cmds := ParseTokens(tokens);
    assert forall i :: 0 <= i < |tokens| ==> Head(cmds[i]) == Split(tokens[i])[0];
    match Validate(cmds)
    case Fail(e) => Run([], Fail(e))
    case Pass => Dispatch(cmds)
  }
}
