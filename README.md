# Script bot of Minecraft Console Client, modelled in Dafny

The `Script` chat bot of Minecraft Console Client runs a user script, either
line by line as a tick-driven command interpreter or, for `.cs` files, as C#
source compiled into a bot class and stepped one statement per tick. This
project models the logic of that bot that does not depend on threads, the
compiler or the file system:

- `Tokenizer` (tokenizer.dfy) covers the invocation string tokenizer (`ParseArguments`): the character loop with its `escape` and `quotes` flags, proved equal to a left fold `Scan`, and the quoting and escaping rules proved about that fold.
- `Locator` (locator.dfy) covers the script locator (`LookForScript`): nine candidate paths, probed in order, with an early return on the first one that exists.
- `Scheduler` (scheduler.dfy) covers the interpreter's tick (the `else` branch of `Update`) as a pure transition function `Tick` over `sleepticks`, `nextline`, the unload flag and the recorded host effects, with lemmas for each kind of line and for a whole tick.
- `CompiledScript` (compiled.dfy) covers the source preparation of `RunCSharpScript`: the version-header check, the `scriptMain` section loop, the step-gate insertion and the generated class text. The loop is proved equal to a declarative description of the two sections.
- `ScriptBot` (script.dfy) holds the class `Script`: its fields, both constructors, `Initialize` and `Update`. The interpreter branch of `Update` is proved to move the object's state exactly as `Scheduler.Tick` says.
- `Text` (text.dfy) holds the .NET string operations the bot uses: `Trim`, ordinal `StartsWith`/`EndsWith`, ASCII `ToLower`, `Split(' ')` and `String.Join`. `Wrappers` holds `Option` and `Result`.

Host services are parameters:
- `Settings.ExpandVars`, `PerformInternalCommand` and `Convert.ToInt32` are the three functions of a `Scheduler.Host` value. The parse is partial and returns `Option<int>`.
- `File.Exists` is a set of existing paths.
- `File.ReadAllLines` is a function from path to lines.
- The directory separator (`Program.isUsingMono`) is a `slash` character.
- The outcome of `thread.Join(100)` is a boolean.
- `LogToConsole`, `SendPrivateMessage`, `PerformInternalCommand` and `UnloadBot` are recorded in the fields `console`, `messages`, `commands` and `unloaded`.

Points where the code is easy to misread, and which the model follows:
- An escaped quote `\"` yields only `"`: the backslash is dropped (Script.cs lines 51-53).
- A trimmed line of at most one character is not free. It consumes the tick, because line 171 has no `else`.
- The comment test on line 173 is wider than "`#` or `//`". Any line that trims to at least two characters, and whose first character is `#` or `/` or whose second is `/`, is passed over. A line that trims to one character, such as `#`, is blank instead.
- `sleepticks` is an `int`. `wait -5` stores a negative count, which the next tick treats as awake (line 163 tests `> 0`).
- A fresh script sleeps ten ticks first (line 20).
- The tick that reads a `wait n` line is not one of the `n` sleeping ticks: the counter is set on that tick and counted down on the next `n`. For the script `wait 2` / `log hi` started awake (`Scheduler.WaitThenLog`):
  - tick 1 reads the wait;
  - ticks 2 and 3 sleep;
  - tick 4 hands `log hi` to the command table without echoing it;
  - tick 5 finds no line left and unloads.

## Model

| member | source | states |
|---|---|---|
| Tokenizer.ParseArguments | MinecraftClient/ChatBots/Script.cs:39-82 | the character loop computes exactly `Parse(argstr)`: the fold of the one-character step over the input, flushed, then split into file and arguments |
| Tokenizer.Step | MinecraftClient/ChatBots/Script.cs:49-69 | one character of the scan: the escape branch, the backslash, the quote toggle, the separator outside quotes and the plain append |
| Tokenizer.ParseShape | MinecraftClient/ChatBots/Script.cs:62-81 | the file followed by the arguments is exactly the token list; no tokens gives file `""` and no arguments; the file is `""` exactly when there are no tokens |
| Tokenizer.TokensNonEmpty | MinecraftClient/ChatBots/Script.cs:62-73 | no emitted token is empty |
| Tokenizer.EscapedCharacter | MinecraftClient/ChatBots/Script.cs:49-55 | a backslash followed by a character other than `"` puts both characters into the token and changes nothing else |
| Tokenizer.EscapedQuote | MinecraftClient/ChatBots/Script.cs:49-55 | `\"` puts a lone `"` into the token and leaves quote mode and the token list unchanged |
| Tokenizer.UnescapedQuote | MinecraftClient/ChatBots/Script.cs:60-61 | an unescaped quote only toggles quote mode |
| Tokenizer.QuotedSpace | MinecraftClient/ChatBots/Script.cs:62-68 | inside quotes a space is appended to the token |
| Tokenizer.TrailingBackslash | MinecraftClient/ChatBots/Script.cs:58-73 | a lone backslash at the end of the input changes no token |
| Tokenizer.EscapeParity | MinecraftClient/ChatBots/Script.cs:49-59 | the scanner is in escape mode exactly when the input read so far ends in an odd number of backslashes |
| Tokenizer.QuotesNeverEmittedUnescaped | MinecraftClient/ChatBots/Script.cs:47-70 | without backslashes in the input, no token contains a quote character |
| Tokenizer.PlainInput | MinecraftClient/ChatBots/Script.cs:58-73 | on input with no backslash and no quote, the tokens are the non-empty pieces of the input split on spaces |
| Locator.Candidates | MinecraftClient/ChatBots/Script.cs:88-99 | the nine candidate paths in probing order |
| Locator.LookForScript | MinecraftClient/ChatBots/Script.cs:84-111 | returns true exactly when some candidate exists; then the path is the first existing candidate in probing order; otherwise the name is unchanged |
| Locator.CandidateOrder | MinecraftClient/ChatBots/Script.cs:88-99 | candidate `3d+e` is directory `d` (none, `scripts`, `config`) joined with extension `e` (none, `.txt`, `.cs`) |
| Scheduler.Classify | MinecraftClient/ChatBots/Script.cs:168-187 | what a line is once trimmed: blank at length at most one, a comment by the test of line 173, otherwise expanded and a wait when its lower-cased first word is `wait`, else a command |
| Scheduler.Tick | MinecraftClient/ChatBots/Script.cs:161-206 | one interpreted tick: `nextline` never decreases and never passes the line count, commands and console only grow, and an unloaded bot stays unloaded |
| Scheduler.SleepingTick | MinecraftClient/ChatBots/Script.cs:163-163 | while `sleepticks > 0` a tick only decrements it |
| Scheduler.SleepFor | MinecraftClient/ChatBots/Script.cs:163-163 | `k` ticks of a machine that still sleeps at least `k` only subtract `k` from `sleepticks` |
| Scheduler.FreshScriptSleeps | MinecraftClient/ChatBots/Script.cs:20-20 | a fresh script reads no line in its first ten ticks |
| Scheduler.ExhaustedTick | MinecraftClient/ChatBots/Script.cs:200-204 | awake with no line left, a tick only unloads the bot |
| Scheduler.BlankLineTick | MinecraftClient/ChatBots/Script.cs:168-171 | a line that trims to at most one character advances the cursor by one and ends the tick, changing nothing else |
| Scheduler.CommentTick | MinecraftClient/ChatBots/Script.cs:171-197 | a comment line advances the cursor and the tick continues at the next line |
| Scheduler.WaitTick | MinecraftClient/ChatBots/Script.cs:176-187 | a `wait` line advances the cursor and sets `sleepticks` from the expanded line; nothing else changes |
| Scheduler.WaitArgument | MinecraftClient/ChatBots/Script.cs:176-186 | a line whose instruction is `wait` is `wait` alone or followed by a space; its count is parsed from index 5 on, and is 10 when the line is `wait` alone or the text does not parse |
| Scheduler.CommandTick | MinecraftClient/ChatBots/Script.cs:188-194 | a command the host accepts is handed on once, echoed to the console unless its name is `log`, and ends the tick |
| Scheduler.SkipTick | MinecraftClient/ChatBots/Script.cs:189-197 | a comment or a command the host rejects is consumed, handed on if it is a command, and the tick continues at the next line |
| Scheduler.StopTick | MinecraftClient/ChatBots/Script.cs:166-194 | a line that is not passed over is the only line the tick reads, and it alone decides the echo and the sleep counter |
| Scheduler.PassTick | MinecraftClient/ChatBots/Script.cs:189-197 | passing over one line keeps the whole-tick description for the rest of the tick |
| Scheduler.AwakeTick | MinecraftClient/ChatBots/Script.cs:164-204 | an awake tick with a line left reads lines from the cursor up to and including the first line not passed over, hands each command among them to the host once and in order, and only the last line read can echo or set the sleep counter; if every remaining line is passed over it reaches the end and unloads |
| Scheduler.AllSkippedTick | MinecraftClient/ChatBots/Script.cs:166-204 | when every remaining line is a comment or a rejected command, a single tick reaches the end and unloads |
| Scheduler.ExampleWaitLine | MinecraftClient/ChatBots/Script.cs:168-186 | `wait 2` is read as a wait of two ticks |
| Scheduler.ExampleLogLine | MinecraftClient/ChatBots/Script.cs:168-193 | `log hi` is read as the command `log hi` named `log` |
| Scheduler.WaitThenLog | MinecraftClient/ChatBots/Script.cs:161-206 | the tick-by-tick run of `wait 2` / `log hi`: wait read on tick 1, asleep on ticks 2-3, `log hi` handed on (not echoed) on tick 4, unloaded on tick 5 |
| ScriptBot.Script.constructor | MinecraftClient/ChatBots/Script.cs:17-30 | the file and arguments are the tokenized invocation; no lines, no owner, ten ticks of sleep, cursor at 0 |
| ScriptBot.Script.WithOwner | MinecraftClient/ChatBots/Script.cs:32-37 | as the other constructor, and the owner is set exactly when the name is not empty |
| ScriptBot.Script.Initialize | MinecraftClient/ChatBots/Script.cs:113-134 | if a candidate exists: the file becomes the first existing one, its lines are read, `.cs` selects compiled mode, and the owner is told it was loaded; otherwise "File not found" goes to the console and the owner and the bot unloads; nothing else changes |
| ScriptBot.Script.Update | MinecraftClient/ChatBots/Script.cs:136-160 | compiled mode starts the worker on the first tick, pulses the step gate once per tick and unloads when the worker has finished; interpreted mode moves the state exactly as `Tick` |
| ScriptBot.Script.Interpret | MinecraftClient/ChatBots/Script.cs:161-206 | the interpreter branch, with its recursive re-entry, moves the object's state exactly as `Tick`, and touches no other field |
| CompiledScript.PrepareSource | MinecraftClient/ChatBots/Script.cs:209-254 | fails with the source's message exactly when there are no lines or the first is not `//MCCScript 1.0`; otherwise gives the class text of the declared sections |
| CompiledScript.SplitLine | MinecraftClient/ChatBots/Script.cs:224-236 | one step of the section loop: a marker line is dropped and may clear `scriptMain`; other lines go to the main section, followed by the gate call after a statement, or to the extensions |
| CompiledScript.GenerateSource | MinecraftClient/ChatBots/Script.cs:240-254 | the generated class text: the fixed lines, the joined main section, `}`, the joined extensions and `}}`, joined with newlines |
| CompiledScript.SplitSections | MinecraftClient/ChatBots/Script.cs:218-237 | the `scriptMain` loop builds the main section (gated when the step gate exists) from the non-marker lines before the first extensions marker, and the extensions from the non-marker lines after it |
| CompiledScript.SplitPrefixSections | MinecraftClient/ChatBots/Script.cs:222-237 | after every prefix of the file, the loop state equals the declarative sections of that prefix |
| CompiledScript.DeclaredSnoc | MinecraftClient/ChatBots/Script.cs:224-236 | one more line moves the declarative sections exactly as one loop step does |
| CompiledScript.ExtensionsStartSpec | MinecraftClient/ChatBots/Script.cs:224-227 | no line before the start of the extensions is an extensions marker, and the line at it is one |
| CompiledScript.FirstExtensionsMarker | MinecraftClient/ChatBots/Script.cs:224-227 | the start of the extensions is the one index with no extensions marker before it and one at it |
| CompiledScript.ExtensionsStartSnoc | MinecraftClient/ChatBots/Script.cs:224-227 | reading one more line moves the start of the extensions only while no marker has been seen |
| CompiledScript.SectionsPartition | MinecraftClient/ChatBots/Script.cs:222-236 | the non-marker lines of the file are the main lines followed by the extension lines |
| CompiledScript.NoMarkerInSections | MinecraftClient/ChatBots/Script.cs:224-236 | no line starting with `//MCCScript` is in either section |
| CompiledScript.AfterExtensionsMarker | MinecraftClient/ChatBots/Script.cs:226-236 | after an extensions marker at index i, the main section is what precedes i, and every later non-marker line is in the extensions |
| CompiledScript.GateAfterStatement | MinecraftClient/ChatBots/Script.cs:231-234 | each main line is followed by `tpause.WaitOne();` exactly when its trimmed form ends in `;` |
| CompiledScript.GatedAddsOnlyGates | MinecraftClient/ChatBots/Script.cs:231-234 | exactly one gate call is added per statement; when no main line is itself `tpause.WaitOne();`, removing the gate calls gives back the main lines |
| CompiledScript.OwnGateCallRemoved | MinecraftClient/ChatBots/Script.cs:231-234 | a main line that is itself `tpause.WaitOne();` is a statement, gets a gate call after it, and both go when the gate calls are removed, so the round trip needs the condition above |
| CompiledScript.GeneratedJoin | MinecraftClient/ChatBots/Script.cs:240-254 | the class text is the newline join of the fixed lines with both sections spliced in (an empty section leaves an empty line) |
| CompiledScript.GeneratedLines | MinecraftClient/ChatBots/Script.cs:240-254 | read back line by line, the class text is the preamble, the main section, `}`, the extensions and `}}`, in order |
| CompiledScript.PreambleHasNoNewline | MinecraftClient/ChatBots/Script.cs:242-249 | no fixed line of the generated class contains a newline |
| Text.TrimSpec | MinecraftClient/ChatBots/Script.cs:168-168 | `Trim` removes exactly the white space at both ends |
| Text.SplitHead | MinecraftClient/ChatBots/Script.cs:176-176 | `Split(' ')[0]` is the text up to the first space, or the whole text when there is none |
| Text.SplitJoin | MinecraftClient/ChatBots/Script.cs:240-254 | splitting a newline join gives back its parts when no part contains a newline |
| Text.StartsWithSlice | MinecraftClient/ChatBots/Script.cs:224-224 | the ordinal `StartsWith` holds exactly when the prefix is an initial slice |
| Text.EndsWithSlice | MinecraftClient/ChatBots/Script.cs:226-226 | the ordinal `EndsWith` holds exactly when the suffix is a final slice |

## Left out

- Threads, the `ManualResetEvent` step gate and `thread.Join(100)` (lines 141-159) are cross-thread timing. `Update` records only that the worker was started and how many pulses were sent; the outcome of the join is a boolean parameter.
- The owner notice "Script '…' failed to run." (lines 146-147) is sent from inside the worker thread, which is not modelled.
- In-memory compilation, assembly enumeration, reflection and invocation of `__run`, and their error reports (lines 256-286), are foreign library calls.
- CompiledScript.PrepareSource: returns the header error message instead of logging it to the console and returning false (lines 212-216).
- `File.Exists` and `File.ReadAllLines` (lines 103, 118) are a set of existing paths and a function from path to lines.
- `Settings.ExpandVars`, `PerformInternalCommand` and `Convert.ToInt32` (lines 175, 183, 189) are uninterpreted. The integer parse is partial, so its whitespace, sign and overflow rules are not modelled.
- `String.ToLower` is modelled on ASCII letters only, ignoring culture. `StartsWith` and `EndsWith` are modelled as ordinal comparisons, although .NET's default string overloads are culture-sensitive.
- `Program.isUsingMono` (line 87) becomes the `slash` parameter.
- `SendPrivateMessage`, `LogToConsole` and `UnloadBot` are recorded in fields, not performed.
- The `tpause != null` test (line 233) is the `gated` parameter of the section split. RunCSharpScript is started only from `Update`, after the gate is created, so in the running bot it is always true.
- Scheduler.Classify, Scheduler.Tick: line length and indexing (the tests on lines 171-173) count Unicode scalar values, because a Dafny `char` is one; .NET counts UTF-16 code units. A line holding one character outside the Basic Multilingual Plane, such as an emoji, is blank here but a command in the source, and such a character followed by `/x` is a comment here but a command there.
- Scheduler.Tick: does not model the depth of the source's recursion. The source calls `Update()` again once per passed-over line (lines 191, 197), so a long run of comments or rejected commands grows the call stack by one frame per line and can end the process with a stack overflow; `Tick` and `Interpret` pass over any number of lines.
