# coward: command-line front end

`coward` is a backup tool for copy-on-write snapshots. Its command line is
a list of tokens of the form `command[:parameter]`. The revision modelled
here implements only the front end of that command line
(`coward.py:7-43`). It has four steps:

1. **Split.** Every token is split on `:` exactly as Python's `str.split(':')` does.
2. **Validate.** Every head is checked against `VALID_COMMANDS = ['all', 'snapshot', 'prune', 'push']`. This pass raises on the first invalid head, before any handler runs.
3. **Dispatch.** The tokens go, in order, to the function `command_<head>`, found by name in the module namespace. The handler gets the second field, or `None` when there is none. The first exception ends the run.
4. **`command_all`.** This is the only handler defined. It raises when its parameter is truthy and otherwise does nothing.

The model is functional. `Main(tokens)` returns a `Run`, which holds two things:

- the trace of handler calls (`Call(handler name, parameter)`), in order;
- an `Outcome`: `Pass`, or `Fail` with one of three errors:
  - `InvalidCommand(head)`
  - `AllGotParams(parameter)`
  - `MissingHandler(handler name)`

A handler that raised still appears in the trace, because it was called.
The method `CowardLoop.RunCommands` has the same two-loop shape as `main`.
It is proved to return exactly `Main(tokens)`.

Files:

- `wrappers.dfy`: `Option` (Python's `None` or a value) and `Outcome`.
- `tokens.dfy`: the colon split, its inverse `Join`, and the position of the first colon.
- `commands.dfy`: the closed command enumeration and `VALID_COMMANDS`.
- `coward.dfy`: errors, the handler namespace, `command_all`, the validation pass, the dispatch loop and `Main`.
- `properties.dfy`: a reference description of every run, plus the properties built on it:
  - validate before execute;
  - token order;
  - stopping at the first failure;
  - no state carried between tokens;
  - dependence only on heads and parameters;
  - concrete command lines.
- `main_loop.dfy`: the imperative rendering of `main`.

Two consequences of this revision of `coward.py` are worth stating:

- **`command_all` does not expand into other commands.** Its only behaviour is to reject a truthy parameter (coward.py:10-12); on `None` or the empty string it returns without doing anything.
- **Validation checks heads only** (coward.py:24-26). So `all:x`, `snapshot`, `prune` and `push` all pass it and fail only at execution time, after the handlers of earlier tokens have run. `all:x` fails when `command_all` raises on its parameter (`CowardProperties.AllWithParamsRaises`). `snapshot`, `prune` and `push` fail with the "could not be found" error, because no `command_<head>` function exists for them (`CowardProperties.SnapshotHasNoHandler`, `CowardProperties.MainStopsAtFirstFailing`).

## Model

| member | source | states |
|---|---|---|
| Tokens.Split | coward.py:21 | splitting a token always gives at least one field, even for the empty token |
| Tokens.SplitFieldsHaveNoSep | coward.py:21 | no field of a split contains a colon |
| Tokens.JoinSplit | coward.py:21 | joining the fields of a token with colons gives back the token, so the split loses nothing |
| Tokens.SplitJoin | coward.py:21 | splitting colon-free fields joined with colons gives back those fields |
| Tokens.SplitFieldCount | coward.py:21 | a token has exactly one more field than it has colons |
| Tokens.FirstSep | coward.py:21 | the index returned is that of the first colon, or the token's length when it has none |
| Tokens.HeadIsTextBeforeFirstSep | coward.py:21 | the head is the text before the first colon; a token without a colon is all head; the remaining fields are the split of the text after that colon |
| Tokens.SplitAtSep | coward.py:21 | a colon-free text, a colon and then any text split into that text followed by the fields of the rest |
| Commands.Parse | coward.py:7 | a head is recognised exactly when it is one of `all`, `snapshot`, `prune`, `push`, and the recognised command has that name |
| Commands.ParseName | coward.py:7 | every command of the enumeration has a valid name that parses back to it |
| Coward.Lookup | coward.py:33-38 | the namespace holds a handler `command_<head>` exactly when the head is `all` |
| Coward.Invoke | coward.py:10-12 | `command_all` raises exactly when its parameter is truthy (present and non-empty), naming that parameter |
| Coward.Validate | coward.py:24-26 | the validation pass passes exactly when every head is valid, that is, recognised by `Commands.Parse`; when it raises, the error names an invalid head |
| Coward.ValidateReportsFirstInvalid | coward.py:24-26 | the validation pass raises on the first invalid head in token order |
| Coward.Dispatch | coward.py:29-43 | calls never outnumber tokens; a passing run made exactly one call per token; dispatch never reports an invalid command |
| CowardProperties.DispatchCallsInOrder | coward.py:29-43 | the k-th call is `command_all` with the parameter of the k-th token, whose head is `all` |
| Coward.Main | coward.py:21-43 | an invalid head in some token is the only way to get `InvalidCommand`, and then no handler was called |
| CowardProperties.HandlerTable | coward.py:33-36 | of the four commands, only `all` has a handler, and it is `command_all` |
| CowardProperties.CommandAllParams | coward.py:10-12 | `command_all` returns normally on `None` and on the empty string and raises on any other string |
| CowardProperties.DispatchAllHarmless | coward.py:29-43 | when every token is `all` without a truthy parameter, every handler is called, once each, in token order, and the run passes |
| CowardProperties.DispatchPassedMeansHarmless | coward.py:29-43 | a dispatch that passed saw only `all` tokens without truthy parameters |
| CowardProperties.DispatchStopsAtFirstFailing | coward.py:29-43 | dispatch calls the handlers of the tokens before the first failing token, calls that token's handler too when it exists, and ends with that token's error |
| CowardProperties.DispatchAppend | coward.py:29-43 | no state passes between tokens: dispatching `a + b` dispatches `a` and, only if that passed, dispatches `b` from scratch |
| CowardProperties.DispatchStep | coward.py:29-43 | extending a passing prefix by one token appends that token's own dispatch |
| CowardProperties.DispatchStopsAfterFailure | coward.py:29-43 | once a prefix has raised, the tokens after it are never looked at |
| CowardProperties.ValidateSeesOnlyHeads | coward.py:24-26 | the validation pass depends only on the heads |
| CowardProperties.DispatchSeesOnlyHeadsAndParams | coward.py:33-43 | dispatch depends only on each token's head and parameter |
| CowardProperties.InvalidTokenMeansNothingRuns | coward.py:21-29 | an invalid head anywhere, even in the last token, ends the run with no handler called and names the first invalid head |
| CowardProperties.MainPassesIff | coward.py:21-43 | a run passes exactly when every token is `all` without a truthy parameter, and then it has called `command_all` once per token, in order |
| CowardProperties.MainStopsAtFirstFailing | coward.py:29-43 | once all heads are valid, the run stops at the first failing token; a missing handler (`snapshot`, `prune`, `push`) fails before its own call, after the earlier calls, and `all` with a parameter fails after its own call |
| CowardProperties.MainCallsInTokenOrder | coward.py:29-43 | handlers are called in token order, the k-th call being `command_all` with the k-th token's parameter |
| CowardProperties.MainSeesOnlyHeadsAndParams | coward.py:21-43 | two command lines whose tokens agree on head and parameter run identically |
| CowardProperties.ExtraFieldsIgnored | coward.py:39-42 | the parameter is the second field, and later fields are ignored: `h:p:rest` runs exactly like `h:p` |
| CowardProperties.AllWithoutParamsSucceeds | coward.py:10-12 | `all` and `all:` each call `command_all` once and succeed |
| CowardProperties.AllWithParamsRaises | coward.py:10-12 | `all all:x` calls `command_all` twice; the second call raises with parameter `x` |
| CowardProperties.SnapshotHasNoHandler | coward.py:33-36 | `all snapshot` calls `command_all` and then fails because `command_snapshot` is missing |
| CowardProperties.UnknownLastCommandRunsNothing | coward.py:24-26 | `all bogus` fails validation with no handler called |
| CowardLoop.CheckCommands | coward.py:24-26 | the validation loop raises exactly what the validation pass describes: nothing when all heads are valid, else the first invalid head |
| CowardLoop.DispatchCommands | coward.py:29-43 | the dispatch loop, with its by-name lookup in the namespace, produces exactly the run `Dispatch` describes |
| CowardLoop.RunCommands | coward.py:21-43 | the two loops of `main` compute exactly the run `Main` describes; an invalid command leaves the trace empty |

## Left out

- The empty command line: argument parsing (`nargs='+'`) rejects it before this code runs. The model accepts it and returns a passing run with no calls.
- Argument parsing and the `--config` option (coward.py:16-20). The option is parsed but never used. The model starts from the token list.
- The unused `sys` and `yaml` imports and the `__main__` guard (coward.py:3-5, coward.py:46-47).
- The text of the exception messages. Each exception is an `Error` constructor that carries the value the message names. `MissingHandler` carries the function name, as the message does.
- Python's `globals()` reflection. The model replaces it with a fixed map from handler names to the handlers the module defines, and only `command_all` is defined.
- Snapshot creation, retention and pruning, pushing, target selection, and the expansion of `all` into other commands. None of these exist in this revision of the source.
