/**
 * What a run of the front end does, stated independently of how `Dispatch`
 * walks the tokens: a reference description of the trace and the outcome,
 * the validate-before-execute guarantee, and the facts that a run depends
 * only on each token's head and parameter and carries nothing between tokens.
 */
module CowardProperties {
  import opened Wrappers
  import opened Tokens
  import opened Commands
  import opened Coward

  /** A token whose handler exists and returns normally. */
  predicate Harmless(f: Fields)
  {
    Head(f) == "all" && !Truthy(Params(f))
  }

  /** The call a token produces when it reaches its handler. */
  function CallOf(f: Fields): Call
  {
    Call(HandlerName(Head(f)), Params(f))
  }

  /** The calls of a sequence of tokens that all reach their handlers. */
  function CallsOf(cmds: seq<Fields>): (calls: seq<Call>)
    ensures |calls| == |cmds|
    ensures forall k :: 0 <= k < |cmds| ==> calls[k] == CallOf(cmds[k])
  {
    if |cmds| == 0 then []
    else [CallOf(cmds[0])] + CallsOf(cmds[1..])
  }

  /** `k` is the first token whose handler is missing or raises. */
  ghost predicate FirstFailing(cmds: seq<Fields>, k: int)
  {
    && 0 <= k < |cmds|
    && !Harmless(cmds[k])
    && forall j :: 0 <= j < k ==> Harmless(cmds[j])
  }

  /** The error a token that is not harmless ends the run with. */
  function FailureOf(f: Fields): (e: Error)
    requires !Harmless(f)
    ensures e.MissingHandler? <==> Head(f) != "all"
  {
    if Head(f) != "all" then MissingHandler(HandlerName(Head(f)))
    else AllGotParams(Params(f).value)
  }

  /** The reference run of the dispatch loop, stopping at the first failing token `k`. */
  function StoppedRun(cmds: seq<Fields>, k: int): Run
    requires 0 <= k < |cmds| && !Harmless(cmds[k])
  {
    var ran := if Head(cmds[k]) == "all" then [CallOf(cmds[k])] else [];
    Run(CallsOf(cmds[..k]) + ran, Fail(FailureOf(cmds[k])))
  }

  /** Only `command_all` can be found, among all commands of the enumeration. */
  lemma HandlerTable(c: Command)
    ensures Lookup(Name(c)).Some? <==> c == All
    ensures c == All ==> Lookup(Name(c)) == Some(CommandAll)
  {
  }

  /** `command_all` returns normally exactly on `None` and the empty string. */
  lemma CommandAllParams(p: string)
    ensures Invoke(CommandAll, None) == Pass
    ensures Invoke(CommandAll, Some(p)) == (if p == "" then Pass else Fail(AllGotParams(p)))
  {
  }

  /** When every token is harmless, every handler runs, in order, and the run passes. */
  lemma {:induction false} DispatchAllHarmless(cmds: seq<Fields>)
    requires forall k :: 0 <= k < |cmds| ==> Harmless(cmds[k])
    ensures Dispatch(cmds) == Run(CallsOf(cmds), Pass)
  {
    if |cmds| > 0 {
      assert forall k :: 0 <= k < |cmds| - 1 ==> cmds[1..][k] == cmds[k + 1];
      DispatchAllHarmless(cmds[1..]);
    }
  }

  /** A run that passed had only harmless tokens. */
  lemma {:induction false} DispatchPassedMeansHarmless(cmds: seq<Fields>)
    requires Dispatch(cmds).outcome.Pass?
    ensures forall k :: 0 <= k < |cmds| ==> Harmless(cmds[k])
  {
    if |cmds| > 0 {
      DispatchPassedMeansHarmless(cmds[1..]);
      assert forall k :: 0 < k < |cmds| ==> cmds[k] == cmds[1..][k - 1];
    }
  }

  /**
   * The dispatch loop runs the handlers of the tokens before the first
   * failing one, runs that one too when its handler exists, and stops there.
   */
  lemma {:induction false} DispatchStopsAtFirstFailing(cmds: seq<Fields>, k: int)
    requires FirstFailing(cmds, k)
    ensures Dispatch(cmds) == StoppedRun(cmds, k)
  {
    if k == 0 {
      DispatchFailingHead(cmds);
    } else {
      var tail := cmds[1..];
      assert FirstFailing(tail, k - 1) by {
        forall j | 0 <= j < k - 1 ensures Harmless(tail[j]) {
          assert tail[j] == cmds[j + 1];
        }
      }
      DispatchStopsAtFirstFailing(tail, k - 1);
      DispatchHarmlessHead(cmds);
      assert tail[k - 1] == cmds[k];
      var ran := if Head(cmds[k]) == "all" then [CallOf(cmds[k])] else [];
      assert StoppedRun(tail, k - 1).trace == CallsOf(tail[..k - 1]) + ran;
      assert tail[..k - 1] == cmds[..k][1..];
      assert CallsOf(cmds[..k]) == [CallOf(cmds[0])] + CallsOf(tail[..k - 1]);
      assert [CallOf(cmds[0])] + (CallsOf(tail[..k - 1]) + ran) == CallsOf(cmds[..k]) + ran;
    }
  }

  /** A harmless first token is called, and the rest are dispatched after it. */
  lemma DispatchHarmlessHead(cmds: seq<Fields>)
    requires |cmds| > 0 && Harmless(cmds[0])
    ensures Dispatch(cmds) == Run([CallOf(cmds[0])] + Dispatch(cmds[1..]).trace, Dispatch(cmds[1..]).outcome)
  {
    assert Lookup(Head(cmds[0])) == Some(CommandAll);
  }

  /** A failing first token ends the run on its own. */
  lemma DispatchFailingHead(cmds: seq<Fields>)
    requires |cmds| > 0 && !Harmless(cmds[0])
    ensures Dispatch(cmds) == StoppedRun(cmds, 0)
  {
    assert cmds[..0] == [];
    assert CallsOf([]) == [];
  }

  /**
   * No state is carried from one token to the next: dispatching `a + b` is
   * dispatching `a` and, if that passed, dispatching `b` afresh.
   */
  lemma {:induction false} DispatchAppend(a: seq<Fields>, b: seq<Fields>)
    ensures Dispatch(a + b) ==
              if Dispatch(a).outcome.Fail? then Dispatch(a)
              else Run(Dispatch(a).trace + Dispatch(b).trace, Dispatch(b).outcome)
  {
    if |a| == 0 {
      assert a + b == b;
    } else {
      assert (a + b)[0] == a[0];
      if Harmless(a[0]) {
        assert (a + b)[1..] == a[1..] + b;
        DispatchAppend(a[1..], b);
        DispatchHarmlessHead(a);
        DispatchHarmlessHead(a + b);
        var ra := Dispatch(a[1..]);
        if ra.outcome.Pass? {
          assert [CallOf(a[0])] + (ra.trace + Dispatch(b).trace) == ([CallOf(a[0])] + ra.trace) + Dispatch(b).trace;
        }
      } else {
        DispatchFailingHead(a);
        DispatchFailingHead(a + b);
        assert a[..0] == (a + b)[..0];
      }
    }
  }

  /**
   * Handlers are called in token order: the `k`-th call is `command_all`
   * with the parameter of the `k`-th token.
   */
  lemma {:induction false} DispatchCallsInOrder(cmds: seq<Fields>)
    ensures forall k :: 0 <= k < |Dispatch(cmds).trace| ==>
              Head(cmds[k]) == "all" && Dispatch(cmds).trace[k] == Call("command_all", Params(cmds[k]))
  {
    if |cmds| > 0 {
      if Harmless(cmds[0]) {
        DispatchHarmlessHead(cmds);
        DispatchCallsInOrder(cmds[1..]);
        assert HandlerName("all") == "command_all";
        var r := Dispatch(cmds);
        forall k | 1 <= k < |r.trace|
          ensures Head(cmds[k]) == "all" && r.trace[k] == Call("command_all", Params(cmds[k]))
        {
          assert r.trace[k] == Dispatch(cmds[1..]).trace[k - 1];
          assert cmds[k] == cmds[1..][k - 1];
        }
      } else {
        DispatchFailingHead(cmds);
        assert cmds[..0] == [];
        assert HandlerName("all") == "command_all";
      }
    }
  }

  /** One more step of the dispatch loop: a passing prefix extended by token `i`. */
  lemma DispatchStep(cmds: seq<Fields>, i: int)
    requires 0 <= i < |cmds|
    requires Dispatch(cmds[..i]).outcome.Pass?
    ensures Dispatch(cmds[..i + 1]) ==
              Run(Dispatch(cmds[..i]).trace + Dispatch([cmds[i]]).trace, Dispatch([cmds[i]]).outcome)
  {
    assert cmds[..i + 1] == cmds[..i] + [cmds[i]];
    DispatchAppend(cmds[..i], [cmds[i]]);
  }

  /** A prefix whose run raised is the whole run: later tokens are never looked at. */
  lemma {:induction false} DispatchStopsAfterFailure(cmds: seq<Fields>, i: int)
    requires 0 <= i <= |cmds|
    requires Dispatch(cmds[..i]).outcome.Fail?
    ensures Dispatch(cmds) == Dispatch(cmds[..i])
  {
    assert cmds == cmds[..i] + cmds[i..];
    DispatchAppend(cmds[..i], cmds[i..]);
  }

  /** The validation pass looks at nothing but the heads. */
  lemma {:induction false} ValidateSeesOnlyHeads(cmds: seq<Fields>, cmds': seq<Fields>)
    requires |cmds| == |cmds'|
    requires forall i :: 0 <= i < |cmds| ==> Head(cmds[i]) == Head(cmds'[i])
    ensures Validate(cmds) == Validate(cmds')
  {
    if |cmds| > 0 {
      assert forall i :: 0 <= i < |cmds| - 1 ==> cmds[1..][i] == cmds[i + 1] && cmds'[1..][i] == cmds'[i + 1];
      ValidateSeesOnlyHeads(cmds[1..], cmds'[1..]);
    }
  }

  /** The dispatch loop looks at nothing but the heads and the parameters. */
  lemma {:induction false} DispatchSeesOnlyHeadsAndParams(cmds: seq<Fields>, cmds': seq<Fields>)
    requires |cmds| == |cmds'|
    requires forall i :: 0 <= i < |cmds| ==> Head(cmds[i]) == Head(cmds'[i]) && Params(cmds[i]) == Params(cmds'[i])
    ensures Dispatch(cmds) == Dispatch(cmds')
  {
    if |cmds| > 0 {
      assert forall i :: 0 <= i < |cmds| - 1 ==> cmds[1..][i] == cmds[i + 1] && cmds'[1..][i] == cmds'[i + 1];
      DispatchSeesOnlyHeadsAndParams(cmds[1..], cmds'[1..]);
    }
  }

  // ----- Properties of whole runs, stated on the command-line tokens -----

  /** `i` is the first token whose head is not a valid command. */
  ghost predicate FirstInvalidToken(tokens: seq<string>, i: int)
  {
    && 0 <= i < |tokens|
    && Split(tokens[i])[0] !in ValidCommands
    && forall j :: 0 <= j < i ==> Split(tokens[j])[0] in ValidCommands
  }

  /**
   * Validate first, then execute: an invalid head anywhere, even in the last
   * token, ends the run with no handler invoked, naming the first invalid head.
   */
  lemma InvalidTokenMeansNothingRuns(tokens: seq<string>, i: int)
    requires FirstInvalidToken(tokens, i)
    ensures Main(tokens) == Run([], Fail(InvalidCommand(Split(tokens[i])[0])))
  {
    var cmds := ParseTokens(tokens);
    assert FirstInvalid(cmds, i) by {
      assert forall j :: 0 <= j <= i ==> Head(cmds[j]) == Split(tokens[j])[0];
    }
    ValidateReportsFirstInvalid(cmds, i);
  }

  /**
   * A run passes exactly when every token is `all` with no truthy parameter,
   * and then it has invoked `command_all` once per token, in token order.
   */
  lemma MainPassesIff(tokens: seq<string>)
    ensures Main(tokens).outcome.Pass? <==> forall i :: 0 <= i < |tokens| ==> Harmless(Split(tokens[i]))
    ensures Main(tokens).outcome.Pass? ==> Main(tokens).trace == CallsOf(ParseTokens(tokens))
  {
    var cmds := ParseTokens(tokens);
    assert forall i :: 0 <= i < |tokens| ==> cmds[i] == Split(tokens[i]);
    if forall i :: 0 <= i < |tokens| ==> Harmless(Split(tokens[i])) {
      assert Validate(cmds).Pass?;
      DispatchAllHarmless(cmds);
    }
    if Main(tokens).outcome.Pass? {
      DispatchPassedMeansHarmless(cmds);
    }
  }

  /**
   * Once every head is valid, the run invokes the handlers of the tokens
   * before the first failing token `k` and stops there: with
   * `MissingHandler` when `k` is `snapshot`, `prune` or `push` (whose
   * handler was never invoked), with `AllGotParams` when `k` is `all` given
   * a non-empty parameter (whose handler was invoked and raised).
   */
  lemma MainStopsAtFirstFailing(tokens: seq<string>, k: int)
    requires forall i :: 0 <= i < |tokens| ==> Split(tokens[i])[0] in ValidCommands
    requires FirstFailing(ParseTokens(tokens), k)
    ensures Main(tokens) == StoppedRun(ParseTokens(tokens), k)
    ensures Main(tokens).outcome.error.MissingHandler? ==>
              Split(tokens[k])[0] in ["snapshot", "prune", "push"] && |Main(tokens).trace| == k
    ensures Main(tokens).outcome.error.AllGotParams? ==> |Main(tokens).trace| == k + 1
  {
    var cmds := ParseTokens(tokens);
    assert Validate(cmds).Pass? by {
      assert forall i :: 0 <= i < |tokens| ==> Head(cmds[i]) == Split(tokens[i])[0];
    }
    DispatchStopsAtFirstFailing(cmds, k);
  }

  /**
   * Handlers run in token order: the `k`-th call is `command_all` with the
   * parameter of the `k`-th token, and there are never more calls than tokens.
   */
  lemma MainCallsInTokenOrder(tokens: seq<string>)
    ensures |Main(tokens).trace| <= |tokens|
    ensures forall k :: 0 <= k < |Main(tokens).trace| ==>
              Split(tokens[k])[0] == "all" && Main(tokens).trace[k] == Call("command_all", Params(Split(tokens[k])))
  {
    var cmds := ParseTokens(tokens);
    assert forall k :: 0 <= k < |tokens| ==> cmds[k] == Split(tokens[k]);
    DispatchCallsInOrder(cmds);
  }

  /** A run depends on each token only through its head and its parameter. */
  lemma MainSeesOnlyHeadsAndParams(tokens: seq<string>, tokens': seq<string>)
    requires |tokens| == |tokens'|
    requires forall i :: 0 <= i < |tokens| ==>
               Head(Split(tokens[i])) == Head(Split(tokens'[i])) && Params(Split(tokens[i])) == Params(Split(tokens'[i]))
    ensures Main(tokens) == Main(tokens')
  {
    var cmds, cmds' := ParseTokens(tokens), ParseTokens(tokens');
    ValidateSeesOnlyHeads(cmds, cmds');
    DispatchSeesOnlyHeadsAndParams(cmds, cmds');
  }

  /** Fields after the second are ignored: `h:p:rest` runs exactly like `h:p`. */
  lemma ExtraFieldsIgnored(tokens: seq<string>, i: int, h: string, p: string, rest: string)
    requires 0 <= i < |tokens|
    requires Sep !in h && Sep !in p
    ensures Main(tokens[i := h + [Sep] + p + [Sep] + rest]) == Main(tokens[i := h + [Sep] + p])
  {
    var long, short := h + [Sep] + p + [Sep] + rest, h + [Sep] + p;
    assert long == h + [Sep] + (p + [Sep] + rest);
    SplitAtSep(h, p + [Sep] + rest);
    SplitAtSep(p, rest);
    SplitAtSep(h, p);
    SplitNoSep(p);
    assert Split(long) == [h, p] + Split(rest);
    assert Split(short) == [h, p];
    MainSeesOnlyHeadsAndParams(tokens[i := long], tokens[i := short]);
  }

  // ----- Concrete command lines -----

  /** `all` and `all:` both invoke `command_all` and succeed. */
  lemma AllWithoutParamsSucceeds()
    ensures Main(["all"]) == Run([Call("command_all", None)], Pass)
    ensures Main(["all:"]) == Run([Call("command_all", Some(""))], Pass)
  {
    SplitNoSep("all");
    SplitAtSep("all", "");
    assert "all" + [Sep] + "" == "all:";
    var bare, colon := ["all"], ["all:"];
    var cmds, cmds' := ParseTokens(bare), ParseTokens(colon);
    assert cmds[0] == Split(bare[0]) && cmds'[0] == Split(colon[0]);
    DispatchSingleAll(cmds);
    DispatchSingleAll(cmds');
  }

  lemma DispatchSingleAll(cmds: seq<Fields>)
    requires |cmds| == 1 && Harmless(cmds[0])
    ensures Validate(cmds) == Pass
    ensures Dispatch(cmds) == Run([Call("command_all", Params(cmds[0]))], Pass)
  {
    DispatchHarmlessHead(cmds);
    assert HandlerName("all") == "command_all";
  }

  /** `all:x` passes validation; `command_all` is invoked and raises. */
  lemma AllWithParamsRaises()
    ensures Main(["all", "all:x"]) == Run([Call("command_all", None), Call("command_all", Some("x"))], Fail(AllGotParams("x")))
  {
    SplitNoSep("all");
    SplitNoSep("x");
    SplitAtSep("all", "x");
    assert "all" + [Sep] + "x" == "all:x";
    var tokens := ["all", "all:x"];
    var cmds := ParseTokens(tokens);
    assert cmds[0] == Split(tokens[0]) && cmds[1] == Split(tokens[1]);
    DispatchAllThenAllX(cmds);
  }

  lemma DispatchAllThenAllX(cmds: seq<Fields>)
    requires |cmds| == 2 && cmds[0] == ["all"] && cmds[1] == ["all", "x"]
    ensures Validate(cmds) == Pass
    ensures Dispatch(cmds) == Run([Call("command_all", None), Call("command_all", Some("x"))], Fail(AllGotParams("x")))
  {
    assert cmds[1..] == [["all", "x"]];
    assert HandlerName("all") == "command_all";
    assert Dispatch(cmds[1..]) == Run([Call("command_all", Some("x"))], Fail(AllGotParams("x")));
  }

  /** A valid command without a handler fails at execution time, after earlier handlers ran. */
  lemma SnapshotHasNoHandler()
    ensures Main(["all", "snapshot"]) == Run([Call("command_all", None)], Fail(MissingHandler("command_snapshot")))
  {
    SplitNoSep("all");
    SplitNoSep("snapshot");
    var tokens := ["all", "snapshot"];
    var cmds := ParseTokens(tokens);
    assert cmds[0] == Split(tokens[0]) && cmds[1] == Split(tokens[1]);
    DispatchAllThenSnapshot(cmds);
  }

  lemma DispatchAllThenSnapshot(cmds: seq<Fields>)
    requires |cmds| == 2 && cmds[0] == ["all"] && cmds[1] == ["snapshot"]
    ensures Validate(cmds) == Pass
    ensures Dispatch(cmds) == Run([Call("command_all", None)], Fail(MissingHandler("command_snapshot")))
  {
    assert cmds[1..] == [["snapshot"]];
    assert Lookup("snapshot") == None;
    assert HandlerName("snapshot") == "command_snapshot";
    assert Dispatch(cmds[1..]) == Run([], Fail(MissingHandler("command_snapshot")));
    assert Lookup("all") == Some(CommandAll);
    assert HandlerName("all") == "command_all";
  }

  /** An unknown command in the last token stops the run before `all` is executed. */
  lemma UnknownLastCommandRunsNothing()
    ensures Main(["all", "bogus"]) == Run([], Fail(InvalidCommand("bogus")))
  {
    SplitNoSep("all");
    SplitNoSep("bogus");
    var tokens := ["all", "bogus"];
    assert Split(tokens[0])[0] in ValidCommands && Split(tokens[1])[0] !in ValidCommands;
    assert FirstInvalidToken(tokens, 1);
    InvalidTokenMeansNothingRuns(tokens, 1);
  }
}
