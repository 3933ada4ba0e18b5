/**
 * The script bot itself (class Script): construction from an invocation
 * string, loading the script file on initialisation, and the per-tick Update
 * that either paces a compiled script or runs the interpreter.
 *
 * Host effects are recorded in fields: `console` for LogToConsole,
 * `messages` for SendPrivateMessage (recipient and text), `commands` for the
 * lines handed to PerformInternalCommand, and `unloaded` for UnloadBot.
 * The compiled script's worker thread is abstracted to whether it has been
 * started and how many times the step gate has been pulsed.
 */
module ScriptBot {
  import opened Wrappers
  import opened Text
  import Tokenizer
  import Locator
  import opened Scheduler

  /** The owner's notice that the script was found and read. */
  function LoadedText(file: string): string {
    "Script '" + file + "' loaded."
  }

  /** The console line and owner notice for a script that is nowhere to be found. */
  function NotFoundText(file: string): string {
    "File not found: '" + file + "'"
  }

  class Script {
    var file: string
    var lines: seq<string>
    var args: seq<string>
    var sleepticks: int
    var nextline: nat
    var owner: Option<string>
    var csharp: bool
    var threadStarted: bool
    var pulses: nat
    var unloaded: bool
    var commands: seq<string>
    var console: seq<string>
    var messages: seq<(string, string)>

    /** The interpreter's part of the state, as the scheduler specification sees it. */
    function State(): Machine
      reads this
    {
      Machine(sleepticks, nextline, unloaded, commands, console)
    }

    /** Script(filename): tokenizes the invocation; nothing is loaded yet and the interpreter sleeps ten ticks. */
    constructor (filename: string)
      ensures Tokenizer.Invocation(file, args) == Tokenizer.Parse(filename)
      ensures State() == Fresh && lines == [] && owner == None
      ensures !csharp && !threadStarted && pulses == 0 && messages == []
    {
      var inv := Tokenizer.ParseArguments(filename);
      file, args := inv.file, inv.args;
      lines := [];
      sleepticks, nextline := InitialSleep, 0;
      owner := None;
      csharp, threadStarted, pulses := false, false, 0;
      unloaded, commands, console, messages := false, [], [], [];
    }

    /** Script(filename, ownername): as above, and an owner to notify unless the name is empty. */
    constructor WithOwner(filename: string, ownername: string)
      ensures Tokenizer.Invocation(file, args) == Tokenizer.Parse(filename)
      ensures State() == Fresh && lines == []
      ensures owner == if ownername != "" then Some(ownername) else None
      ensures !csharp && !threadStarted && pulses == 0 && messages == []
    {
      var inv := Tokenizer.ParseArguments(filename);
      file, args := inv.file, inv.args;
      lines := [];
      sleepticks, nextline := InitialSleep, 0;
      owner := if ownername != "" then Some(ownername) else None;
      csharp, threadStarted, pulses := false, false, 0;
      unloaded, commands, console, messages := false, [], [], [];
    }

    /** The owner notification for `text`, if there is an owner. */
    function Notify(text: string): seq<(string, string)>
      reads this
    {
      if owner.Some? then [(owner.value, text)] else []
    }

    /**
     * Initialize: locate the script and load its lines (`readAllLines` stands for
     * File.ReadAllLines); a `.cs` file selects compiled mode. When no candidate
     * exists, report it and unload.
     */
    method Initialize(slash: char, existing: set<string>, readAllLines: string -> seq<string>)
      modifies this
      ensures Locator.AnyExists(old(file), slash, existing) ==>
        && Locator.FirstExisting(old(file), slash, existing, file)
        && lines == readAllLines(file)
        && csharp == EndsWith(file, ".cs")
        && !threadStarted
        && messages == old(messages) + Notify(LoadedText(file))
        && console == old(console) && unloaded == old(unloaded)
      ensures !Locator.AnyExists(old(file), slash, existing) ==>
        && file == old(file) && lines == old(lines) && csharp == old(csharp)
        && threadStarted == old(threadStarted)
        && console == old(console) + [NotFoundText(file)]
        && messages == old(messages) + Notify(NotFoundText(file))
        && unloaded
      ensures args == old(args) && owner == old(owner) && sleepticks == old(sleepticks)
      ensures nextline == old(nextline) && commands == old(commands) && pulses == old(pulses)
    {
      var found, path := Locator.LookForScript(file, slash, existing);
      file := path;
      if found {
        lines := readAllLines(file);
        csharp := EndsWith(file, ".cs");
        threadStarted := false;
        messages := messages + Notify(LoadedText(file));
      } else {
        console := console + [NotFoundText(file)];
        messages := messages + Notify(NotFoundText(file));
        unloaded := true;
      }
    }

    /**
     * One host tick. A compiled script has its thread started on the first tick,
     * the step gate pulsed once per tick, and the bot unloaded when the thread is
     * seen to finish (`joined` stands for the result of Thread.Join(100)). An
     * interpreted script advances exactly as Tick specifies.
     */
    method Update(host: Host, joined: bool)
      modifies this
      ensures file == old(file) && lines == old(lines) && args == old(args) && owner == old(owner)
      ensures csharp == old(csharp) && messages == old(messages)
      ensures !csharp ==> State() == Tick(lines, old(State()), host)
      ensures !csharp ==> threadStarted == old(threadStarted) && pulses == old(pulses)
      ensures csharp ==>
        && threadStarted && pulses == old(pulses) + 1
        && unloaded == (old(unloaded) || joined)
        && sleepticks == old(sleepticks) && nextline == old(nextline)
        && commands == old(commands) && console == old(console)
    {
      if csharp {
        if !threadStarted {
          threadStarted := true;
        }
        pulses := pulses + 1;
        if joined {
          unloaded := true;
        }
      } else {
        Interpret(host);
      }
    }

    /**
     * The interpreter's tick: count down a wait, or read lines until one is blank,
     * a wait, or a command the host accepts; past the last line, unload. A comment
     * or a rejected command goes straight on to the next line (the source calls
     * Update again).
     */
    method Interpret(host: Host)
      modifies this
      ensures file == old(file) && lines == old(lines) && args == old(args) && owner == old(owner)
      ensures csharp == old(csharp) && messages == old(messages)
      ensures threadStarted == old(threadStarted) && pulses == old(pulses)
      ensures State() == Tick(lines, old(State()), host)
      decreases |lines| - nextline
    {
      ghost var m := State();
      if sleepticks > 0 {
        sleepticks := sleepticks - 1;
      } else if nextline < |lines| {
        // the trimmed, filtered and expanded line, as Classify reads it
        var kind := Classify(lines[nextline], host);
        nextline := nextline + 1;
        match kind {
          case Blank =>
          case Comment =>
            Interpret(host);
          case Wait(ticks) =>
            sleepticks := ticks;
          case Command(text, name) =>
            commands := commands + [text];
            if !host.perform(text) {
              Interpret(host);
            } else if name != "log" {
              console := console + [text];
            }
        }
      } else {
        unloaded := true;
      }
    }
  }
}
