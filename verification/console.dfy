/** The operator console's dispatcher: one input line is split into tokens,
    its first token selects one of six commands (or the unrecognized-command
    notice), the command's minimum token count is checked, and the command's
    handler asks the server's collaborators and produces effects.

    The collaborators (user store, role lookup, player count, area registry,
    client registry) are not executed here: their answers for the line being
    handled are collected in an `Env`, and what the console asks them to do is
    returned as a sequence of `Effect`s, in the order the console does it. */
module Console {
  import opened Wrappers
  import opened Strings

  /** A role's permission set, passed through unchanged from the role lookup
      to the user store. */
  type Perms = nat

  /** A connected client, as handed out by the client registry. */
  type ClientId = nat

  /** An area: its name and its message log, oldest entry first. */
  datatype Area = Area(name: string, buffer: seq<string>)

  /** What the collaborators answer while one line is being handled.
      `users` is the set of user names the store reports as existing; `roles`
      maps every role name that resolves to its permission set; `createError`
      and `removeError` are the error the store reports for a creation or a
      removal, if any; `online` and `maxPlayers` are the two numbers of the
      player count; `areas` is the area list in its iteration order; `clients`
      lists the connected clients in the order the registry yields them. */
  datatype Env = Env(
    users: set<string>,
    roles: map<string, Perms>,
    createError: Option<string>,
    removeError: Option<string>,
    online: int,
    maxPlayers: int,
    areas: seq<Area>,
    clients: seq<ClientId>)

  /** The six commands the console recognizes. */
  datatype Command = Help | MkUsr | RmUsr | Players | GetLog | Say

  /** The log lines the console writes, one constructor per distinct message. */
  datatype Msg =
    | CommandList(names: seq<string>)
    | Usage(cmd: Command)
    | UserAlreadyExists
    | InvalidRole
    | CreateFailed(createErr: string)
    | UserCreated(created: string)
    | UserDoesNotExist
    | RemoveFailed(removeErr: string)
    | UserRemoved(removed: string)
    | PlayerCount(online: int, max: int)
    | AreaLog(text: string)
    | Unrecognized

  /** What the console does: write a log line, ask the store to create or
      remove a user, or send a server message to one client. */
  datatype Effect =
    | Log(msg: Msg)
    | CreateUser(user: string, pass: string, perms: Perms)
    | RemoveUser(name: string)
    | Send(client: ClientId, text: string)

  /** The outcome of one line: its effects, and whether the listen loop goes
      on to read the next line. */
  datatype Step = Step(effects: seq<Effect>, cont: bool)

  // ---------------------------------------------------------------------------
  // The command table

  /** The word that selects a command. */
  function Name(c: Command): string
  {
    match c
    case Help => "help"
    case MkUsr => "mkusr"
    case RmUsr => "rmusr"
    case Players => "players"
    case GetLog => "getlog"
    case Say => "say"
  }

  /** The command a first token selects, if any; the comparison is exact
      (case-sensitive, no trimming). */
  function Parse(word: string): (r: Option<Command>)
    ensures r.Some? ==> Name(r.value) == word
    ensures r.None? <==> forall c: Command :: Name(c) != word
  {
    if word == "help" then Some(Help)
    else if word == "mkusr" then Some(MkUsr)
    else if word == "rmusr" then Some(RmUsr)
    else if word == "players" then Some(Players)
    else if word == "getlog" then Some(GetLog)
    else if word == "say" then Some(Say)
    else None
  }

  /** Every command word selects its command. */
  lemma ParseName(c: Command)
    ensures Parse(Name(c)) == Some(c)
  {
  }

  /** The least number of tokens, command word included, a command needs
      before it does anything but print its usage. Only the four commands
      that read arguments are guarded; every line meets the others' minimum. */
  function MinTokens(c: Command): (n: nat)
    ensures n >= 1
    ensures n > 1 <==> c in [MkUsr, RmUsr, GetLog, Say]
  {
    match c
    case MkUsr => 4
    case RmUsr | GetLog | Say => 2
    case Help | Players => 1
  }

  /** The command names listed by `help`. */
  function HelpNames(): (names: seq<string>)
    ensures forall w :: w in names <==> Parse(w).Some?
    ensures forall i, j :: 0 <= i < j < |names| ==> names[i] != names[j]
  {
    ["help", "mkusr", "rmusr", "players", "getlog", "say"]
  }

  // ---------------------------------------------------------------------------
  // Tokens and effect views

  /** A console line cut at every single space. */
  function Tokenize(line: string): (tokens: seq<string>)
    ensures |tokens| >= 1
    ensures line == "" ==> tokens == [""]
  {
    Split(line, ' ')
  }

  /** The log lines among `effects`, in order. */
  function Logs(effects: seq<Effect>): seq<Msg>
  {
    if |effects| == 0 then []
    else (if effects[0].Log? then [effects[0].msg] else []) + Logs(effects[1..])
  }

  /** The user creations among `effects`, in order. */
  function Creations(effects: seq<Effect>): seq<Effect>
  {
    if |effects| == 0 then []
    else (if effects[0].CreateUser? then [effects[0]] else []) + Creations(effects[1..])
  }

  /** The names whose removal `effects` asks for, in order. */
  function Removals(effects: seq<Effect>): seq<string>
  {
    if |effects| == 0 then []
    else (if effects[0].RemoveUser? then [effects[0].name] else []) + Removals(effects[1..])
  }

  /** How many server messages `effects` sends to client `c`. */
  function SendCount(effects: seq<Effect>, c: ClientId): nat
  {
    if |effects| == 0 then 0
    else (if effects[0].Send? && effects[0].client == c then 1 else 0) + SendCount(effects[1..], c)
  }

  /** The effect views distribute over concatenation. */
  lemma {:induction false} LogsOfAppend(a: seq<Effect>, b: seq<Effect>)
    ensures Logs(a + b) == Logs(a) + Logs(b)
    decreases |a|
  {
    if |a| == 0 {
      assert a + b == b;
    } else {
      var head := if a[0].Log? then [a[0].msg] else [];
      assert (a + b)[0] == a[0];
      assert (a + b)[1..] == a[1..] + b;
      assert Logs(a + b) == head + Logs(a[1..] + b);
      LogsOfAppend(a[1..], b);
      assert Logs(a) == head + Logs(a[1..]);
      assert head + (Logs(a[1..]) + Logs(b)) == (head + Logs(a[1..])) + Logs(b);
    }
  }

  lemma {:induction false} CreationsOfAppend(a: seq<Effect>, b: seq<Effect>)
    ensures Creations(a + b) == Creations(a) + Creations(b)
    decreases |a|
  {
    if |a| == 0 {
      assert a + b == b;
    } else {
      CreationsOfAppend(a[1..], b);
      assert (a + b)[0] == a[0];
      assert (a + b)[1..] == a[1..] + b;
    }
  }

  lemma {:induction false} RemovalsOfAppend(a: seq<Effect>, b: seq<Effect>)
    ensures Removals(a + b) == Removals(a) + Removals(b)
    decreases |a|
  {
    if |a| == 0 {
      assert a + b == b;
    } else {
      RemovalsOfAppend(a[1..], b);
      assert (a + b)[0] == a[0];
      assert (a + b)[1..] == a[1..] + b;
    }
  }

  lemma {:induction false} SendCountOfAppend(a: seq<Effect>, b: seq<Effect>, c: ClientId)
    ensures SendCount(a + b, c) == SendCount(a, c) + SendCount(b, c)
    decreases |a|
  {
    if |a| == 0 {
      assert a + b == b;
    } else {
      SendCountOfAppend(a[1..], b, c);
      assert (a + b)[0] == a[0];
      assert (a + b)[1..] == a[1..] + b;
    }
  }

  predicate Distinct<T(==)>(s: seq<T>)
  {
    forall i, j :: 0 <= i < j < |s| ==> s[i] != s[j]
  }

  // ---------------------------------------------------------------------------
  // Handlers, one per `case` arm

  /** The role lookup: the permission set of a role name, or nothing when the
      name does not resolve. */
  function ResolveRole(roles: map<string, Perms>, role: string): Option<Perms>
  {
    if role in roles then Some(roles[role]) else None
  }

  /** Whether an `mkusr` line with these tokens reaches the store's create call. */
  predicate ReachesCreate(cmd: seq<string>, env: Env)
  {
    |cmd| >= 4 && cmd[1] !in env.users && cmd[3] in env.roles
  }

  /** The log line that reports a creation's outcome. */
  function CreateOutcome(user: string, err: Option<string>): Msg
  {
    match err
    case Some(e) => CreateFailed(e)
    case None => UserCreated(user)
  }

  /** `mkusr <user> <pass> <role>`. A name the store already knows ends the
      whole listen loop; a role that does not resolve is reported and the loop
      goes on; otherwise the user is created with the role's permissions and
      the outcome of the creation is reported. */
  function HandleMkusr(cmd: seq<string>, env: Env): (s: Step)
    ensures |cmd| < 4 ==> s == Step([Log(Usage(MkUsr))], true)
    ensures !s.cont <==> |cmd| >= 4 && cmd[1] in env.users
    ensures !s.cont ==> s.effects == [Log(UserAlreadyExists)]
    ensures |cmd| >= 4 && cmd[1] !in env.users && cmd[3] !in env.roles ==>
              s == Step([Log(InvalidRole)], true)
    ensures Creations(s.effects) ==
              if ReachesCreate(cmd, env) then [CreateUser(cmd[1], cmd[2], env.roles[cmd[3]])] else []
    ensures ReachesCreate(cmd, env) ==> s.effects[0].CreateUser?
    ensures |Logs(s.effects)| == 1
    ensures forall m :: m in Logs(s.effects) && m.UserCreated? ==>
              ReachesCreate(cmd, env) && env.createError.None? && m.created == cmd[1]
    ensures ReachesCreate(cmd, env) ==>
              Logs(s.effects) == [if env.createError.None? then UserCreated(cmd[1])
                                  else CreateFailed(env.createError.value)]
    ensures ReachesCreate(cmd, env) ==>
              s.effects == [CreateUser(cmd[1], cmd[2], env.roles[cmd[3]]), Log(CreateOutcome(cmd[1], env.createError))]
    ensures |s.effects| == if ReachesCreate(cmd, env) then 2 else 1
  {
    if |cmd| < 4 then Step([Log(Usage(MkUsr))], true)
    else if cmd[1] in env.users then Step([Log(UserAlreadyExists)], false)
    else
      var user := cmd[1];
      var pass := cmd[2];
      match ResolveRole(env.roles, cmd[3])
      case None => Step([Log(InvalidRole)], true)
      case Some(perms) =>
        var create := CreateUser(user, pass, perms);
        var outcome := Log(CreateOutcome(user, env.createError));
        CreationsOfAppend([create], [outcome]);
        LogsOfAppend([create], [outcome]);
        Step([create] + [outcome], true)
  }

  /** The log line that reports a removal's outcome. */
  function RemoveOutcome(user: string, err: Option<string>): Msg
  {
    match err
    case Some(e) => RemoveFailed(e)
    case None => UserRemoved(user)
  }

  /** `rmusr <user>`. An unknown name is reported, and the removal is asked
      for all the same; its outcome is reported after it. */
  function HandleRmusr(cmd: seq<string>, env: Env): (s: Step)
    ensures s.cont
    ensures |cmd| < 2 ==> s.effects == [Log(Usage(RmUsr))]
    ensures |cmd| >= 2 ==> Removals(s.effects) == [cmd[1]]
    ensures |cmd| >= 2 ==> (Log(UserDoesNotExist) in s.effects <==> cmd[1] !in env.users)
    ensures |cmd| >= 2 && cmd[1] !in env.users ==>
              [Log(UserDoesNotExist), RemoveUser(cmd[1])] <= s.effects
    ensures |cmd| >= 2 ==>
              |s.effects| >= 2 &&
              s.effects[|s.effects| - 2] == RemoveUser(cmd[1]) &&
              s.effects[|s.effects| - 1] == Log(RemoveOutcome(cmd[1], env.removeError))
    ensures |cmd| >= 2 ==> |Logs(s.effects)| == if cmd[1] in env.users then 1 else 2
    ensures |cmd| >= 2 ==> |s.effects| == if cmd[1] in env.users then 2 else 3
    ensures forall m :: m in Logs(s.effects) && m.UserRemoved? ==>
              |cmd| >= 2 && env.removeError.None? && m.removed == cmd[1]
  {
    if |cmd| < 2 then Step([Log(Usage(RmUsr))], true)
    else
      var attempt := [RemoveUser(cmd[1]), Log(RemoveOutcome(cmd[1], env.removeError))];
      LogsOfAppend([RemoveUser(cmd[1])], [Log(RemoveOutcome(cmd[1], env.removeError))]);
      LogsOfAppend([Log(UserDoesNotExist)], attempt);
      RemovalsOfAppend([RemoveUser(cmd[1])], [Log(RemoveOutcome(cmd[1], env.removeError))]);
      RemovalsOfAppend([Log(UserDoesNotExist)], attempt);
      if cmd[1] !in env.users then Step([Log(UserDoesNotExist)] + attempt, true)
      else Step(attempt, true)
  }

  /** The name of every area in `areas`, in order. */
  function Names(areas: seq<Area>): seq<string>
  {
    if |areas| == 0 then [] else [areas[0].name] + Names(areas[1..])
  }

  /** The log line that prints area `a`'s buffer, one entry per line. */
  function AreaLogOf(a: Area): Effect
  {
    Log(AreaLog(Join(a.buffer, '\n')))
  }

  /** One log line per area named exactly `name`, in area order; every match
      is printed, not only the first. */
  function AreaLogs(areas: seq<Area>, name: string): (r: seq<Effect>)
    ensures |r| <= |areas|
    ensures forall k :: 0 <= k < |r| ==> r[k].Log? && r[k].msg.AreaLog?
  {
    if |areas| == 0 then []
    else
      var rest := AreaLogs(areas[1..], name);
      if areas[0].name == name then [AreaLogOf(areas[0])] + rest else rest
  }

  /** As many buffers are printed as there are areas named `name`. */
  lemma {:induction false} AreaLogsCount(areas: seq<Area>, name: string)
    ensures |AreaLogs(areas, name)| == multiset(Names(areas))[name]
    decreases |areas|
  {
    if |areas| > 0 {
      AreaLogsCount(areas[1..], name);
      assert Names(areas) == [areas[0].name] + Names(areas[1..]);
    }
  }

  /** Printing the areas of `a` then those of `b` is printing the areas of `a + b`. */
  lemma {:induction false} AreaLogsAppend(a: seq<Area>, b: seq<Area>, name: string)
    ensures AreaLogs(a + b, name) == AreaLogs(a, name) + AreaLogs(b, name)
    decreases |a|
  {
    if |a| == 0 {
      assert a + b == b;
    } else {
      AreaLogsAppend(a[1..], b, name);
      assert (a + b)[0] == a[0];
      assert (a + b)[1..] == a[1..] + b;
    }
  }

  /** Every area named `name` has its buffer printed. */
  lemma {:induction false} AreaLogsComplete(areas: seq<Area>, name: string, i: nat)
    requires i < |areas| && areas[i].name == name
    ensures AreaLogOf(areas[i]) in AreaLogs(areas, name)
    decreases |areas|
  {
    if i > 0 {
      AreaLogsComplete(areas[1..], name, i - 1);
    }
  }

  /** Every printed buffer belongs to an area named `name`. */
  lemma {:induction false} AreaLogsSound(areas: seq<Area>, name: string, e: Effect)
    requires e in AreaLogs(areas, name)
    ensures exists i :: 0 <= i < |areas| && areas[i].name == name && e == AreaLogOf(areas[i])
    decreases |areas|
  {
    if areas[0].name == name && e == AreaLogOf(areas[0]) {
    } else {
      AreaLogsSound(areas[1..], name, e);
      var j :| 0 <= j < |areas[1..]| && areas[1..][j].name == name && e == AreaLogOf(areas[1..][j]);
      assert areas[j + 1] == areas[1..][j];
    }
  }

  /** `getlog <area>`. */
  function HandleGetlog(cmd: seq<string>, env: Env): (s: Step)
    ensures s.cont
    ensures |cmd| < 2 ==> s.effects == [Log(Usage(GetLog))]
    ensures |cmd| >= 2 ==> s.effects == AreaLogs(env.areas, cmd[1])
    ensures |cmd| >= 2 && cmd[1] !in Names(env.areas) ==> s.effects == []
  {
    if |cmd| < 2 then Step([Log(Usage(GetLog))], true)
    else
      AreaLogsCount(env.areas, cmd[1]);
      Step(AreaLogs(env.areas, cmd[1]), true)
  }

  /** One server message carrying `text` to each client, in registry order. */
  function Sends(clients: seq<ClientId>, text: string): (r: seq<Effect>)
    ensures |r| == |clients|
    ensures forall i :: 0 <= i < |r| ==> r[i] == Send(clients[i], text)
  {
    if |clients| == 0 then []
    else [Send(clients[0], text)] + Sends(clients[1..], text)
  }

  /** When the registry lists each client once, every client receives the
      message exactly once and nobody else receives it. */
  lemma {:induction false} SendsReachEachClientOnce(clients: seq<ClientId>, text: string, c: ClientId)
    requires Distinct(clients)
    ensures SendCount(Sends(clients, text), c) == if c in clients then 1 else 0
    decreases |clients|
  {
    if |clients| > 0 {
      assert Distinct(clients[1..]) by {
        forall i, j | 0 <= i < j < |clients[1..]| ensures clients[1..][i] != clients[1..][j] {
          assert clients[1..][i] == clients[i + 1] && clients[1..][j] == clients[j + 1];
        }
      }
      SendsReachEachClientOnce(clients[1..], text, c);
      SendCountOfAppend([Send(clients[0], text)], Sends(clients[1..], text), c);
      assert c in clients[1..] ==> c != clients[0] by {
        if c in clients[1..] {
          var j :| 0 <= j < |clients[1..]| && clients[1..][j] == c;
          assert clients[j + 1] == c;
        }
      }
      assert clients == [clients[0]] + clients[1..];
    }
  }

  /** `say <message>`: only the token right after `say` is sent. */
  function HandleSay(cmd: seq<string>, env: Env): (s: Step)
    ensures s.cont
    ensures |cmd| < 2 ==> s.effects == [Log(Usage(Say))]
    ensures |cmd| >= 2 ==> s.effects == Sends(env.clients, cmd[1])
  {
    if |cmd| < 2 then Step([Log(Usage(Say))], true)
    else Step(Sends(env.clients, cmd[1]), true)
  }

  /** Tokens past the ones a command reads change nothing: `mkusr` reads
      three arguments, the other commands one. */
  lemma ExtraTokensIgnored(cmd: seq<string>, env: Env)
    ensures |cmd| >= 4 ==> HandleMkusr(cmd, env) == HandleMkusr(cmd[..4], env)
    ensures |cmd| >= 2 ==> HandleRmusr(cmd, env) == HandleRmusr(cmd[..2], env)
    ensures |cmd| >= 2 ==> HandleGetlog(cmd, env) == HandleGetlog(cmd[..2], env)
    ensures |cmd| >= 2 ==> HandleSay(cmd, env) == HandleSay(cmd[..2], env)
  {
  }

  // ---------------------------------------------------------------------------
  // The dispatcher

  /** The one case in which a line ends the listen loop: an `mkusr` with
      enough tokens whose user name the store already knows. */
  predicate Halts(line: string, env: Env)
    ensures Halts(line, env) ==> |Tokenize(line)| >= 4 && line != ""
  {
    var tokens := Tokenize(line);
    tokens[0] == Name(MkUsr) && |tokens| >= MinTokens(MkUsr) && tokens[1] in env.users
  }

  /** Handles one console line. The loop goes on after every line except
      the one case `Halts` names. */
  function Dispatch(line: string, env: Env): (s: Step)
    ensures s.cont <==> !Halts(line, env)
  {
    var cmd := Tokenize(line);
    if cmd[0] == Name(Help) then Step([Log(CommandList(HelpNames()))], true)
    else if cmd[0] == Name(MkUsr) then HandleMkusr(cmd, env)
    else if cmd[0] == Name(RmUsr) then HandleRmusr(cmd, env)
    else if cmd[0] == Name(Players) then Step([Log(PlayerCount(env.online, env.maxPlayers))], true)
    else if cmd[0] == Name(GetLog) then HandleGetlog(cmd, env)
    else if cmd[0] == Name(Say) then HandleSay(cmd, env)
    else Step([Log(Unrecognized)], true)
  }

  /** The command table view of `Dispatch`: an unknown first token gives the
      unrecognized-command notice whatever follows it; a known command with
      fewer tokens than its minimum gives only its usage line and touches no
      collaborator; otherwise the command's handler runs. */
  lemma DispatchByTable(line: string, env: Env)
    ensures var tokens := Tokenize(line);
      var s := Dispatch(line, env);
      && (Parse(tokens[0]).None? ==> s == Step([Log(Unrecognized)], true))
      && (line == "" ==> s == Step([Log(Unrecognized)], true))
      && (Parse(tokens[0]).Some? && |tokens| < MinTokens(Parse(tokens[0]).value) ==>
            s == Step([Log(Usage(Parse(tokens[0]).value))], true))
      && (Parse(tokens[0]) == Some(Help) ==> s == Step([Log(CommandList(HelpNames()))], true))
      && (Parse(tokens[0]) == Some(Players) ==> s == Step([Log(PlayerCount(env.online, env.maxPlayers))], true))
      && (Parse(tokens[0]) == Some(MkUsr) ==> s == HandleMkusr(tokens, env))
      && (Parse(tokens[0]) == Some(RmUsr) ==> s == HandleRmusr(tokens, env))
      && (Parse(tokens[0]) == Some(GetLog) ==> s == HandleGetlog(tokens, env))
      && (Parse(tokens[0]) == Some(Say) ==> s == HandleSay(tokens, env))
  {
  }
}
