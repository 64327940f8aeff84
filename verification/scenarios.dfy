/** Concrete console lines and what the dispatcher does with them, for any
    collaborator answers consistent with the stated conditions. Each line's
    tokens are worked out by a lemma of their own; the scenario about the line
    takes those tokens as its starting point. */
module Scenarios {
  import opened Strings
  import opened Console
  import opened Session

  /** The tokens of a line written as words separated by single spaces. */
  lemma TokensOf(line: string, words: seq<string>)
    requires |words| >= 1
    requires forall i :: 0 <= i < |words| ==> ' ' !in words[i]
    requires Join(words, ' ') == line
    ensures Tokenize(line) == words
  {
    SplitJoin(words, ' ');
  }

  lemma SayHelloWorldTokens()
    ensures Tokenize("say hello world") == ["say", "hello", "world"]
  {
    assert Join(["say", "hello", "world"], ' ') == "say hello world";
    TokensOf("say hello world", ["say", "hello", "world"]);
  }

  /** `say hello world` sends `hello`, and only `hello`, to every client. */
  lemma SayTruncatesToFirstWord(line: string, env: Env)
    requires Tokenize(line) == ["say", "hello", "world"]
    ensures Dispatch(line, env) == Step(Sends(env.clients, "hello"), true)
  {
  }

  /** Two spaces in a row leave an empty token. */
  lemma SayDoubleSpaceTokens()
    ensures Tokenize("say  hi") == ["say", "", "hi"]
  {
    assert Join(["say", "", "hi"], ' ') == "say  hi";
    TokensOf("say  hi", ["say", "", "hi"]);
  }

  /** `say  hi` sends the empty message. */
  lemma DoubleSpaceSendsEmptyMessage(line: string, env: Env)
    requires Tokenize(line) == ["say", "", "hi"]
    ensures Dispatch(line, env) == Step(Sends(env.clients, ""), true)
  {
  }

  lemma MkusrAliceTokens()
    ensures Tokenize("mkusr alice secret admin") == ["mkusr", "alice", "secret", "admin"]
  {
    assert Join(["mkusr", "alice", "secret", "admin"], ' ') == "mkusr alice secret admin";
    TokensOf("mkusr alice secret admin", ["mkusr", "alice", "secret", "admin"]);
  }

  /** `mkusr alice secret admin`, for a fresh user and a resolving role,
      creates the user once with the role's permissions and names the user in
      the confirmation. */
  lemma MkusrCreates(line: string, env: Env)
    requires Tokenize(line) == ["mkusr", "alice", "secret", "admin"]
    requires "alice" !in env.users && "admin" in env.roles && env.createError.None?
    ensures Dispatch(line, env) ==
              Step([CreateUser("alice", "secret", env.roles["admin"]), Log(UserCreated("alice"))], true)
  {
  }

  lemma MkusrBogusTokens()
    ensures Tokenize("mkusr bob x bogusrole") == ["mkusr", "bob", "x", "bogusrole"]
  {
    assert Join(["mkusr", "bob", "x", "bogusrole"], ' ') == "mkusr bob x bogusrole";
    TokensOf("mkusr bob x bogusrole", ["mkusr", "bob", "x", "bogusrole"]);
  }

  /** `mkusr bob x bogusrole` with a role that does not resolve is reported
      and creates nothing. */
  lemma MkusrRejectsUnknownRole(line: string, env: Env)
    requires Tokenize(line) == ["mkusr", "bob", "x", "bogusrole"]
    requires "bob" !in env.users && "bogusrole" !in env.roles
    ensures Dispatch(line, env) == Step([Log(InvalidRole)], true)
  {
  }

  lemma RmusrCarolTokens()
    ensures Tokenize("rmusr carol") == ["rmusr", "carol"]
  {
    assert Join(["rmusr", "carol"], ' ') == "rmusr carol";
    TokensOf("rmusr carol", ["rmusr", "carol"]);
  }

  /** `rmusr carol` for an unknown user is reported and then attempted anyway. */
  lemma RmusrUnknownStillRemoves(line: string, env: Env)
    requires Tokenize(line) == ["rmusr", "carol"]
    requires "carol" !in env.users && env.removeError.None?
    ensures Dispatch(line, env) ==
              Step([Log(UserDoesNotExist), RemoveUser("carol"), Log(UserRemoved("carol"))], true)
  {
  }

  lemma FrobnicateTokens()
    ensures Tokenize("frobnicate a b") == ["frobnicate", "a", "b"]
  {
    assert Join(["frobnicate", "a", "b"], ' ') == "frobnicate a b";
    TokensOf("frobnicate a b", ["frobnicate", "a", "b"]);
  }

  /** `frobnicate a b` gives the notice whatever arguments follow. */
  lemma UnknownCommandIgnoresArguments(line: string, env: Env)
    requires Tokenize(line) == ["frobnicate", "a", "b"]
    ensures Dispatch(line, env) == Step([Log(Unrecognized)], true)
  {
  }

  /** An `mkusr` naming a known user ends the loop: a later line is never read. */
  lemma DuplicateUserEndsSession(first: Input, later: seq<Input>)
    requires Tokenize(first.line) == ["mkusr", "bob", "x", "admin"]
    requires "bob" in first.env.users
    ensures Run([first] + later) == Trace([Log(UserAlreadyExists)], 1, true)
  {
    assert Dispatch(first.line, first.env) == Step([Log(UserAlreadyExists)], false);
    assert Steps([first]) == [Step([Log(UserAlreadyExists)], false)];
    assert Run([first]) == Trace([Log(UserAlreadyExists)], 1, true);
    RunIgnoresAfterHalt([first], later);
  }

  /** The literal line `say hello world`, tokens and outcome together. */
  lemma SayHelloWorld(env: Env)
    ensures Dispatch("say hello world", env) == Step(Sends(env.clients, "hello"), true)
  {
    SayHelloWorldTokens();
    SayTruncatesToFirstWord("say hello world", env);
  }

  /** The literal line `say  hi`, tokens and outcome together. */
  lemma SayDoubleSpace(env: Env)
    ensures Dispatch("say  hi", env) == Step(Sends(env.clients, ""), true)
  {
    SayDoubleSpaceTokens();
    DoubleSpaceSendsEmptyMessage("say  hi", env);
  }

  /** The literal line `mkusr alice secret admin`, tokens and outcome together. */
  lemma MkusrAlice(env: Env)
    requires "alice" !in env.users && "admin" in env.roles && env.createError.None?
    ensures Dispatch("mkusr alice secret admin", env) ==
              Step([CreateUser("alice", "secret", env.roles["admin"]), Log(UserCreated("alice"))], true)
  {
    MkusrAliceTokens();
    MkusrCreates("mkusr alice secret admin", env);
  }

  /** The literal line `mkusr bob x bogusrole`, tokens and outcome together. */
  lemma MkusrBogus(env: Env)
    requires "bob" !in env.users && "bogusrole" !in env.roles
    ensures Dispatch("mkusr bob x bogusrole", env) == Step([Log(InvalidRole)], true)
  {
    MkusrBogusTokens();
    MkusrRejectsUnknownRole("mkusr bob x bogusrole", env);
  }

  /** The literal line `rmusr carol`, tokens and outcome together. */
  lemma RmusrCarol(env: Env)
    requires "carol" !in env.users && env.removeError.None?
    ensures Dispatch("rmusr carol", env) ==
              Step([Log(UserDoesNotExist), RemoveUser("carol"), Log(UserRemoved("carol"))], true)
  {
    RmusrCarolTokens();
    RmusrUnknownStillRemoves("rmusr carol", env);
  }

  /** The literal line `frobnicate a b`, tokens and outcome together. */
  lemma Frobnicate(env: Env)
    ensures Dispatch("frobnicate a b", env) == Step([Log(Unrecognized)], true)
  {
    FrobnicateTokens();
    UnknownCommandIgnoresArguments("frobnicate a b", env);
  }
}
