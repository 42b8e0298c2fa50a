/*
 * The delete-and-classify loop of the workspace cleaner
 * (cy-runner.js:37-47): when the listing gives more than one token, each
 * token in index order gets one `workspace delete` call through the
 * toolbelt and one message saying whether that call succeeded; otherwise
 * the only output is a message that there is nothing to clean.
 */
module Cleanup {
  import opened Listing

  /** The level a message is logged at; `Plain` is a call that passes none. */
  datatype Level = Plain | Ok | Error

  datatype Message = Message(text: string, level: Level)

  const NothingToClean: Message := Message("No dirty workspaces to clean", Plain)

  /** The toolbelt subcommand that deletes one workspace; the token follows the fixed prefix intact. */
  function DeleteCommand(token: string): (r: string)
    ensures |r| == 17 + |token| && r[..17] == "workspace delete " && r[17..] == token
  {
    "workspace delete " + token
  }

  /** The message for one deletion, from the `success` flag of its result. */
  function Outcome(token: string, success: bool): (m: Message)
    ensures m.level == Ok <==> success
    ensures m.level == Error <==> !success
    ensures |m.text| > |token| && m.text[..|token|] == token
  {
    if success then Message(token + " removed", Ok) else Message(token + " failed", Error)
  }

  /** How many toolbelt calls the loop makes for these tokens. */
  function CallCount(tokens: seq<string>): nat
  {
    if |tokens| > 1 then |tokens| else 0
  }

  /** One delete command per token, in order. */
  function DeleteCommands(tokens: seq<string>): (r: seq<string>)
    ensures |r| == |tokens|
  {
    if tokens == [] then []
    else DeleteCommands(tokens[..|tokens| - 1]) + [DeleteCommand(tokens[|tokens| - 1])]
  }

  /** One outcome message per token; the i-th call's `success` is `results[i]`. */
  function Outcomes(tokens: seq<string>, results: seq<bool>): (r: seq<Message>)
    requires |tokens| <= |results|
    ensures |r| == |tokens|
  {
    if tokens == [] then []
    else
      var n := |tokens| - 1;
      Outcomes(tokens[..n], results) + [Outcome(tokens[n], results[n])]
  }

  /** The commands the cleanup issues, gated on there being more than one token. */
  function Commands(tokens: seq<string>): (r: seq<string>)
    ensures |r| == CallCount(tokens)
  {
    if |tokens| > 1 then DeleteCommands(tokens) else []
  }

  /** The messages the cleanup emits, gated the same way. */
  function Messages(tokens: seq<string>, results: seq<bool>): (r: seq<Message>)
    requires CallCount(tokens) <= |results|
    ensures |r| == if |tokens| > 1 then |tokens| else 1
    ensures |tokens| <= 1 ==> r[0].level == Plain
  {
    if |tokens| > 1 then Outcomes(tokens, results) else [NothingToClean]
  }

  /** Number of messages at `level`. */
  function CountLevel(ms: seq<Message>, level: Level): nat
  {
    if ms == [] then 0
    else CountLevel(ms[..|ms| - 1], level) + (if ms[|ms| - 1].level == level then 1 else 0)
  }

  /** Number of `false` entries. */
  function Failures(results: seq<bool>): nat
  {
    if results == [] then 0
    else Failures(results[..|results| - 1]) + (if results[|results| - 1] then 0 else 1)
  }

  /**
   * The loop itself: `results[i]` is the `success` flag the toolbelt
   * returns for the i-th call. No outcome stops the loop and none is raised.
   */
  method Clean(tokens: seq<string>, results: seq<bool>) returns (commands: seq<string>, messages: seq<Message>)
    requires CallCount(tokens) <= |results|
    ensures commands == Commands(tokens)
    ensures messages == Messages(tokens, results)
  {
    commands, messages := [], [];
    if |tokens| > 1 {
      var i := 0;
      while i < |tokens|
        invariant 0 <= i <= |tokens|
        invariant commands == DeleteCommands(tokens[..i])
        invariant messages == Outcomes(tokens[..i], results)
      {
        commands := commands + [DeleteCommand(tokens[i])];
        var success := results[i];
        if success {
          messages := messages + [Message(tokens[i] + " removed", Ok)];
        } else {
          messages := messages + [Message(tokens[i] + " failed", Error)];
        }
        assert tokens[..i + 1][..i] == tokens[..i];
        i := i + 1;
      }
      assert tokens[..i] == tokens;
    } else {
      messages := [NothingToClean];
    }
  }

  /** Command i deletes token i, one command per token. */
  lemma {:induction false} DeleteCommandsAt(tokens: seq<string>)
    ensures |DeleteCommands(tokens)| == |tokens|
    ensures forall i :: 0 <= i < |tokens| ==> DeleteCommands(tokens)[i] == "workspace delete " + tokens[i]
  {
    if tokens != [] {
      var n := |tokens| - 1;
      DeleteCommandsAt(tokens[..n]);
    }
  }

  /**
   * Message i reports token i: "removed" at level ok exactly when call i
   * succeeded, "failed" at level error exactly when it did not.
   */
  lemma {:induction false} OutcomesAt(tokens: seq<string>, results: seq<bool>)
    requires |tokens| <= |results|
    ensures |Outcomes(tokens, results)| == |tokens|
    ensures forall i :: 0 <= i < |tokens| ==>
      (Outcomes(tokens, results)[i].level == Ok <==> results[i]) &&
      (Outcomes(tokens, results)[i].level == Error <==> !results[i]) &&
      Outcomes(tokens, results)[i].text == tokens[i] + (if results[i] then " removed" else " failed")
  {
    if tokens != [] {
      var n := |tokens| - 1;
      OutcomesAt(tokens[..n], results);
    }
  }

  /** The error messages are exactly as many as the failed calls. */
  lemma {:induction false} ErrorsAreFailures(tokens: seq<string>, results: seq<bool>)
    requires |tokens| <= |results|
    ensures CountLevel(Outcomes(tokens, results), Error) == Failures(results[..|tokens|])
  {
    if tokens != [] {
      var n := |tokens| - 1;
      ErrorsAreFailures(tokens[..n], results);
      OutcomesAt(tokens, results);
      var ms := Outcomes(tokens, results);
      assert ms[..n] == Outcomes(tokens[..n], results);
      assert results[..|tokens|][..n] == results[..n];
    }
  }

  /**
   * With more than one token every token is attempted, whatever the
   * outcomes: n commands in index order, n messages, and one error message
   * per failed call.
   */
  lemma AllAttempted(tokens: seq<string>, results: seq<bool>)
    requires |tokens| > 1 && |tokens| <= |results|
    ensures |Commands(tokens)| == |tokens|
    ensures forall i :: 0 <= i < |tokens| ==> Commands(tokens)[i] == DeleteCommand(tokens[i])
    ensures |Messages(tokens, results)| == |tokens|
    ensures CountLevel(Messages(tokens, results), Error) == Failures(results[..|tokens|])
  {
    DeleteCommandsAt(tokens);
    OutcomesAt(tokens, results);
    ErrorsAreFailures(tokens, results);
  }

  /** With at most one token nothing is deleted and the only message is "No dirty workspaces to clean". */
  lemma NothingAttempted(tokens: seq<string>, results: seq<bool>)
    requires |tokens| <= 1
    ensures Commands(tokens) == []
    ensures Messages(tokens, results) == [Message("No dirty workspaces to clean", Plain)]
  {
  }

  /**
   * A listing with no space, in particular one naming a single stale
   * workspace, yields one token and so deletes nothing: the lone workspace
   * is left in place.
   */
  lemma SingleWorkspaceKept(name: string, results: seq<bool>)
    requires ' ' !in name && '\n' !in name
    requires name == [] || name[|name| - 1] != '\r'
    ensures Tokens(name + "\n") == [name]
    ensures Commands(Tokens(name + "\n")) == []
    ensures Messages(Tokens(name + "\n"), results) == [NothingToClean]
  {
    LineEndingDropped(name);
    assert ' ' !in name + "\n";
    SingleToken(name + "\n");
  }

  /** An empty listing is one empty token, so nothing is deleted. */
  lemma EmptyListing(results: seq<bool>)
    ensures Tokens("") == [""]
    ensures Commands(Tokens("")) == []
    ensures Messages(Tokens(""), results) == [NothingToClean]
  {
    SingleToken("");
  }

  /**
   * A listing of n > 1 names deletes every one of them in listing order and
   * reports each by its own call's outcome, whatever the outcomes are.
   */
  lemma ListingDeletedInOrder(names: seq<string>, results: seq<bool>)
    requires |names| > 1 && |names| <= |results|
    requires forall i :: 0 <= i < |names| ==> ' ' !in names[i] && '\n' !in names[i]
    requires Join(names) == [] || Join(names)[|Join(names)| - 1] != '\r'
    ensures Tokens(Join(names) + "\n") == names
    ensures |Commands(Tokens(Join(names) + "\n"))| == |names|
    ensures forall i :: 0 <= i < |names| ==>
      Commands(Tokens(Join(names) + "\n"))[i] == "workspace delete " + names[i]
    ensures |Messages(Tokens(Join(names) + "\n"), results)| == |names|
    ensures forall i :: 0 <= i < |names| ==>
      Messages(Tokens(Join(names) + "\n"), results)[i] == Outcome(names[i], results[i])
  {
    ListedNames(names);
    DeleteCommandsAt(names);
    OutcomesAt(names, results);
  }

  /**
   * A listing of two names deletes both, the first listed first, and
   * reports each by its own call's outcome.
   */
  lemma TwoWorkspaces(a: string, b: string, results: seq<bool>)
    requires ' ' !in a && ' ' !in b && '\n' !in a && '\n' !in b
    requires b == [] || b[|b| - 1] != '\r'
    requires |results| >= 2
    ensures Tokens(a + " " + b + "\n") == [a, b]
    ensures Commands(Tokens(a + " " + b + "\n")) == ["workspace delete " + a, "workspace delete " + b]
    ensures Messages(Tokens(a + " " + b + "\n"), results) == [Outcome(a, results[0]), Outcome(b, results[1])]
  {
    var line := a + " " + b;
    assert Join([a, b]) == line;
    assert line[|line| - 1] != '\r' by {
      if b == [] { assert line[|line| - 1] == ' '; } else { assert line[|line| - 1] == b[|b| - 1]; }
    }
    ListingDeletedInOrder([a, b], results);
  }
}
