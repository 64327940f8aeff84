# Athena operator console, modelled in Dafny

Athena is a server for Attorney Online 2. Its operator console (`ListenInput`)
reads commands from standard input, one per line. Each line is cut at every
single space. The first token selects one of six commands: `help`, `mkusr`,
`rmusr`, `players`, `getlog` and `say`. Any other first token gives the
"Unrecognized command" notice. Each command checks that the line has enough
tokens. It then asks the server's collaborators and logs what happened. The
collaborators are the user database, the role lookup, the player count, the
area list and the client registry.

This project models that dispatcher as pure functions:

- `Strings` models `strings.Split` and `strings.Join` for a one-character
  separator. It proves that they are inverse to each other.
- `Console` models one line. An `Env` holds the collaborators' answers while
  the line is handled: the set of existing user names, the map from role names
  to permission sets, the error (if any) of a create or remove call, the two
  player-count numbers, the areas with their log buffers, and the connected
  clients. `Dispatch(line, env)` returns a `Step`: the `Effect`s in the order
  the console performs them (`Log`, `CreateUser`, `RemoveUser`, `Send`) and
  whether the loop reads another line. The `mkusr`, `rmusr`, `getlog` and
  `say` arms are handler functions. The `help`, `players` and default arms are
  single log lines written inline in `Dispatch`. `Parse` and `MinTokens` form
  a command table. The dispatcher's properties
  are stated in terms of that table.
- `Session` models the listen loop. It is a fold over a finite sequence of
  lines. Each line comes with its own `Env`. The fold stops right after the
  first line that ends the loop, which is an `mkusr` whose user already exists.
- `Scenarios` works through concrete lines, such as `say hello world`,
  `mkusr alice secret admin` and `rmusr carol`. It also covers a session whose
  first line ends the loop, followed by any number of further lines.

Some behaviour of the code is easy to misread. The model follows the code:

- `getlog` logs the buffer of **every** area whose name matches, in area order.
  It is not limited to the first match. When no area matches, it logs nothing.
- Not every command logs exactly one line. `rmusr` on an unknown user logs
  two lines: "does not exist", then the outcome of the removal it attempts
  anyway. `getlog` logs one line per matching area. `say` logs nothing.
- `say` and `getlog` use only the token right after the command word. Two
  consecutive spaces produce an empty token, so `say  hi` sends the empty
  message.
- `help` and `players` have no arity guard. The split always yields at least
  one token, so the table gives them a minimum of one token, which every line
  meets.

## Model

| member | source | states |
|---|---|---|
| `Strings.Split` | internal/athena/cli.go:33 | The split always yields at least one piece. The empty string splits to `[""]`. |
| `Strings.SplitPieces` | internal/athena/cli.go:33 | No piece of a split contains the separator. A string splits to itself alone exactly when it has no separator. |
| `Strings.Join` | internal/athena/cli.go:83 | Joining no pieces gives the empty string. The first piece is a prefix of the result. With two or more pieces, the first piece is followed by the separator. |
| `Strings.JoinSplit` | internal/athena/cli.go:33 | Joining the pieces of a split with the separator gives back the original line. No character is lost or added. |
| `Strings.SplitJoin` | internal/athena/cli.go:33 | Splitting a join of separator-free pieces gives back exactly those pieces. Together with `JoinSplit`, this makes `Split` and `Join` inverse to each other. |
| `Console.Tokenize` | internal/athena/cli.go:33-34 | A line has at least one token, so `cmd[0]` always exists. The empty line gives `[""]`. |
| `Console.Parse` | internal/athena/cli.go:34-95 | A recognized word is exactly the name of the command it selects. A word is unrecognized exactly when it names no command. |
| `Console.ParseName` | internal/athena/cli.go:34-95 | Every command's own word selects that command. |
| `Console.MinTokens` | internal/athena/cli.go:38-90 | Every command needs at least the command word. Exactly `mkusr`, `rmusr`, `getlog` and `say` need more, because only those four arms check the token count. |
| `Console.HelpNames` | internal/athena/cli.go:35-36 | The `help` text lists each recognized command word once and nothing else. |
| `Console.HandleMkusr` | internal/athena/cli.go:37-59 | Fewer than 4 tokens gives only the usage line. The loop ends exactly when the user already exists, and then the only effect is "User already exists.". An unresolved role gives only "Invalid role.". Exactly one `CreateUser(cmd[1], cmd[2], perms of cmd[3])` is issued when, and only when, the user is new and the role resolves. On that path the effects are exactly the creation followed by its outcome line. Every other path has exactly one effect. Exactly one line is logged. The success line names `cmd[1]` and appears only when creation reports no error; otherwise the failure line carries the error. |
| `Console.HandleRmusr` | internal/athena/cli.go:60-73 | The loop always continues. Fewer than 2 tokens gives only the usage line. Otherwise exactly one removal of `cmd[1]` is issued, even when the user does not exist. In that case "User does not exist." comes first, directly followed by the removal. The removal is always directly followed by its outcome line, and the success line appears only without an error. There are exactly 2 effects for an existing user and 3 for an unknown one, so nothing else happens. |
| `Console.AreaLogs` | internal/athena/cli.go:81-85 | The loop over the areas logs at most one line per area. Each effect is a log line holding an area buffer. |
| `Console.AreaLogsCount` | internal/athena/cli.go:81-85 | The number of logged buffers equals the number of areas named exactly `cmd[1]`, so no match gives nothing and the loop does not break early. |
| `Console.AreaLogsComplete` | internal/athena/cli.go:81-85 | Every area whose name equals the argument has its buffer, joined by newlines, logged. |
| `Console.AreaLogsSound` | internal/athena/cli.go:81-85 | Every logged buffer belongs to an area whose name equals the argument. |
| `Console.AreaLogsAppend` | internal/athena/cli.go:81-85 | The logs for the areas of `a + b` are the logs for `a` followed by those for `b`, so the output follows area order. |
| `Console.HandleGetlog` | internal/athena/cli.go:76-85 | The loop always continues. Fewer than 2 tokens gives only the usage line. Otherwise the effects are the matching-area logs for `cmd[1]`, and they are empty when no area has that name. |
| `Console.Sends` | internal/athena/cli.go:91-93 | One message per registry entry, carrying the given text to that entry's client in registry order. |
| `Console.SendsReachEachClientOnce` | internal/athena/cli.go:91-93 | When the registry lists each client once, every connected client receives the message exactly once and no other client receives it. |
| `Console.HandleSay` | internal/athena/cli.go:86-93 | The loop always continues. Fewer than 2 tokens gives only the usage line. Otherwise every client is sent `cmd[1]` and nothing else. |
| `Console.ExtraTokensIgnored` | internal/athena/cli.go:46-92 | Tokens past index 3 for `mkusr`, and past index 1 for `rmusr`, `getlog` and `say`, do not change the outcome. |
| `Console.Halts` | internal/athena/cli.go:42-44 | A line that ends the loop has at least 4 tokens, so it is never the empty line. |
| `Console.Dispatch` | internal/athena/cli.go:33-96 | A line lets the loop continue if and only if it is not an `mkusr` with at least 4 tokens whose user already exists. |
| `Console.DispatchByTable` | internal/athena/cli.go:34-96 | An unknown first token, including the one from an empty line, gives only "Unrecognized command" whatever follows it. A known command with fewer tokens than its minimum (4 for `mkusr`; 2 for `rmusr`, `getlog` and `say`) gives only its usage line and calls no collaborator. `help` and `players` each log one line. The other commands run their handler. |
| `Session.Steps` | internal/athena/cli.go:32-33 | There is one outcome per line of input. |
| `Session.StepsAt` | internal/athena/cli.go:32-34 | The outcome at position `i` is the dispatch of line `i`. It continues exactly when that line does not end the loop. |
| `Session.Fold` | internal/athena/cli.go:32-97 | The loop reads at most all lines. It reads all of them when it does not halt, and at least one when it does. |
| `Session.FoldStopsAtFirstHalt` | internal/athena/cli.go:32-45 | The fold halts if and only if some outcome does not continue. It halts at the first such outcome, and every earlier one continues. |
| `Session.Run` | internal/athena/cli.go:30-98 | The loop reads at most all lines. It reads every line unless some line ends it. |
| `Session.RunStopsAtFirstHalt` | internal/athena/cli.go:42-45 | The loop halts if and only if some line is a duplicate `mkusr`. The last line read is the first such line. Without one, every line is read. |
| `Session.RunIgnoresAfterHalt` | internal/athena/cli.go:42-45 | Once a line has ended the loop, appending further lines changes nothing: no later line is processed. |
| `Session.RunAppend` | internal/athena/cli.go:32-97 | When the first part of the input does not end the loop, running the whole input gives that part's effects followed by the rest's. |
| `Scenarios.SayHelloWorldTokens` | internal/athena/cli.go:33 | `say hello world` splits into `say`, `hello`, `world`. |
| `Scenarios.SayTruncatesToFirstWord` | internal/athena/cli.go:86-93 | A line with the tokens `say hello world` sends `hello` to each client and nothing else. |
| `Scenarios.SayDoubleSpaceTokens` | internal/athena/cli.go:33 | `say  hi`, with two spaces, splits into `say`, an empty token, and `hi`. |
| `Scenarios.DoubleSpaceSendsEmptyMessage` | internal/athena/cli.go:86-93 | A line with the tokens `say`, empty, `hi` sends the empty message. |
| `Scenarios.MkusrAliceTokens` | internal/athena/cli.go:33 | `mkusr alice secret admin` splits into its four words. |
| `Scenarios.MkusrCreates` | internal/athena/cli.go:46-59 | A line with the tokens `mkusr alice secret admin`, with a new user and a resolving role, creates `alice` once with the role's permissions and confirms it. |
| `Scenarios.MkusrBogusTokens` | internal/athena/cli.go:33 | `mkusr bob x bogusrole` splits into its four words. |
| `Scenarios.MkusrRejectsUnknownRole` | internal/athena/cli.go:48-52 | A line with the tokens `mkusr bob x bogusrole`, where the role does not resolve, logs only "Invalid role.". |
| `Scenarios.RmusrCarolTokens` | internal/athena/cli.go:33 | `rmusr carol` splits into its two words. |
| `Scenarios.RmusrUnknownStillRemoves` | internal/athena/cli.go:65-73 | A line with the tokens `rmusr carol`, for an unknown user, logs "does not exist", removes `carol` all the same, then confirms. |
| `Scenarios.FrobnicateTokens` | internal/athena/cli.go:33 | `frobnicate a b` splits into its three words. |
| `Scenarios.UnknownCommandIgnoresArguments` | internal/athena/cli.go:94-95 | A line with the tokens `frobnicate a b` gives only the unrecognized-command notice. |
| `Scenarios.SayHelloWorld` | internal/athena/cli.go:33-93 | The line `say hello world` sends `hello` to each client and nothing else. |
| `Scenarios.SayDoubleSpace` | internal/athena/cli.go:33-93 | The line `say  hi` sends the empty message to each client. |
| `Scenarios.MkusrAlice` | internal/athena/cli.go:33-59 | The line `mkusr alice secret admin`, with a new user and a resolving role, creates `alice` once and confirms it. |
| `Scenarios.MkusrBogus` | internal/athena/cli.go:33-52 | The line `mkusr bob x bogusrole`, where the role does not resolve, logs only "Invalid role.". |
| `Scenarios.RmusrCarol` | internal/athena/cli.go:33-73 | The line `rmusr carol`, for an unknown user, logs "does not exist", removes `carol` all the same, then confirms. |
| `Scenarios.Frobnicate` | internal/athena/cli.go:33-95 | The line `frobnicate a b` gives only the unrecognized-command notice. |
| `Scenarios.DuplicateUserEndsSession` | internal/athena/cli.go:42-45 | A first line with the tokens `mkusr bob x admin`, where `bob` already exists, logs only "User already exists.". One line is read, and the lines after it are not. |

## Left out

- Reading standard input through `bufio.Scanner` is not modelled. The input is a finite sequence of lines. The scanner's own stopping cases are out of scope: end of input, read errors, and lines longer than its buffer. So is its removal of a trailing carriage return.
- Go strings are byte strings, and the model uses Dafny characters. Splitting at the space byte gives the same pieces either way, because byte 0x20 never occurs inside a multi-byte UTF-8 sequence.
- `logger.LogInfo`/`LogInfof` and `gotext.Get` are not modelled. Each log line is a `Msg` tag that carries the values interpolated into it, not its localized text.
- The user database is not modelled. `db.UserExists`, `db.CreateUser` and `db.RemoveUser` are answers in `Env`: the set of existing users and an optional error per call. The model makes no claim about the store after a call. Each line gets its own `Env`, so the model does not tie one line's creation to the next line's existence check. The password's conversion to bytes is also not modelled: the password is passed through as the token.
- `getRole` and permission bitsets are a map from role names to an opaque `Perms` number. A name outside the map is the failing lookup.
- The player count and `config.MaxPlayers` are not computed. They are two numbers in `Env`, used only in the `players` log line.
- Message delivery (`SendServerMessage`) and the client registry's locking are not modelled. The registry's iteration order is arbitrary, so it is an input: `Env.clients` lists the clients in the order a run yields them. The property that each client is reached once assumes the list has no duplicates, as the registry guarantees.
- `Session.Steps` states only that there is one outcome per line. What each outcome is, is stated in `StepsAt`.
- `Session.Run` states only bounds on what was read. Where it stops and what it yields are stated in `RunStopsAtFirstHalt`, `RunIgnoresAfterHalt` and `RunAppend`.
- `Console.AreaLogs` states only a bound and the kind of each effect. Which areas are logged, and in what order, is stated in `AreaLogsCount`, `AreaLogsComplete`, `AreaLogsSound` and `AreaLogsAppend`.
- `Strings.Join` states only how the result begins. That it is inverse to `Split` is stated in `JoinSplit` and `SplitJoin`.
- `Console.Halts` states only that a halting line has at least 4 tokens. Which lines halt is stated in `Dispatch` and `HandleMkusr`.
- `Session.Fold` states only bounds on what was read. What the fold does at a halting line is stated in `FoldStopsAtFirstHalt`, `FoldIgnoresAfterHalt` and `FoldAppend`.
