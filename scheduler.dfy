/**
 * The interpreted-mode scheduler of the script bot (the `else` branch of
 * Script.Update), as a pure transition function over the two cursor fields
 * `sleepticks` and `nextline`, the unload flag and the recorded host effects.
 * One call of `Tick` is one host tick. Within a tick, comment lines and lines
 * the host's command table rejects are passed over and the next line is tried
 * at once; every other outcome ends the tick.
 *
 * The host services are opaque: variable expansion (Settings.ExpandVars), the
 * command table (PerformInternalCommand, which answers whether it knew the
 * command) and integer parsing (Convert.ToInt32, partial).
 */
module Scheduler {
  import opened Wrappers
  import opened Text

  /** `sleepticks` of a freshly constructed script. */
  const InitialSleep := 10
  /** The wait used when a `wait` line has no parsable tick count. */
  const DefaultWait := 10

  datatype Host = Host(expand: string -> string, perform: string -> bool, parseInt: string -> Option<int>)

  /**
   * The interpreter's state: the cursor fields, whether UnloadBot was called,
   * the lines handed to the command table and the lines echoed to the console.
   */
  datatype Machine = Machine(sleepticks: int, nextline: nat, unloaded: bool, commands: seq<string>, console: seq<string>)

  const Fresh := Machine(InitialSleep, 0, false, [], [])

  /** What one script line turns out to be once it has been read. */
  datatype LineKind =
    | Blank                              // trimmed to at most one character
    | Comment                            // '#' or '/' first, or '/' second
    | Wait(ticks: int)                   // instruction name `wait`
    | Command(text: string, name: string) // anything else, after variable expansion

  /** The lower-cased instruction name: the text before the first space. */
  function InstructionName(expanded: string): string {
    Lower(SplitOn(expanded, ' ')[0])
  }

  /** The tick count of a `wait` line: what follows the first five characters, when it parses. */
  function WaitTicks(expanded: string, parseInt: string -> Option<int>): int {
    if |expanded| >= 5 then
      match parseInt(expanded[5..])
      case Some(n) => n
      case None => DefaultWait
    else DefaultWait
  }

  function Classify(raw: string, host: Host): LineKind {
    var line := Trim(raw);
    if |line| <= 1 then Blank
    else if line[0] == '#' || line[0] == '/' || line[1] == '/' then Comment
    else
      var expanded := host.expand(line);
      var name := InstructionName(expanded);
      if name == "wait" then Wait(WaitTicks(expanded, host.parseInt)) else Command(expanded, name)
  }

  /** A line the tick passes over: a comment, or a command the host does not know. */
  predicate Passes(k: LineKind, host: Host) {
    k.Comment? || (k.Command? && !host.perform(k.text))
  }

  predicate Skipped(raw: string, host: Host) {
    Passes(Classify(raw, host), host)
  }

  /** What a line of kind `k` hands to the command table. */
  function Handed(k: LineKind): seq<string> {
    if k.Command? then [k.text] else []
  }

  function DispatchedAll(lines: seq<string>, host: Host): seq<string> {
    if lines == [] then [] else Handed(Classify(lines[0], host)) + DispatchedAll(lines[1..], host)
  }

  /** What a line of kind `k` echoes to the console: a known command other than `log`. */
  function Echo(k: LineKind, host: Host): seq<string> {
    if k.Command? && host.perform(k.text) && k.name != "log" then [k.text] else []
  }

  /** The sleep counter after a line of kind `k` ended the tick. */
  function SleepAfter(k: LineKind, sleepticks: int): int {
    if k.Wait? then k.ticks else sleepticks
  }

  /** One host tick in interpreted mode. */
  function Tick(lines: seq<string>, m: Machine, host: Host): (r: Machine)
    ensures m.nextline <= r.nextline
    ensures m.nextline <= |lines| ==> r.nextline <= |lines|
    ensures m.commands <= r.commands && m.console <= r.console
    ensures m.unloaded ==> r.unloaded
    decreases |lines| - m.nextline
  {
    if m.sleepticks > 0 then m.(sleepticks := m.sleepticks - 1)
    else if m.nextline < |lines| then
      var next := m.(nextline := m.nextline + 1);
      match Classify(lines[m.nextline], host)
      case Blank => next
      case Comment => Tick(lines, next, host)
      case Wait(t) => next.(sleepticks := t)
      case Command(text, name) =>
        var sent := next.(commands := next.commands + [text]);
        if !host.perform(text) then Tick(lines, sent, host)
        else if name != "log" then sent.(console := sent.console + [text])
        else sent
    else m.(unloaded := true)
  }

  /** `n` consecutive ticks. */
  function Ticks(lines: seq<string>, m: Machine, host: Host, n: nat): Machine
    decreases n
  {
    if n == 0 then m else Ticks(lines, Tick(lines, m, host), host, n - 1)
  }

  /** While asleep a tick only counts down: no line is read and nothing else changes. */
  lemma {:induction false} SleepingTick(lines: seq<string>, m: Machine, host: Host)
    requires m.sleepticks > 0
    ensures Tick(lines, m, host) == m.(sleepticks := m.sleepticks - 1)
  {
  }

  /** `k` ticks of a machine that sleeps at least `k` more do nothing but count down. */
  lemma {:induction false} SleepFor(lines: seq<string>, m: Machine, host: Host, k: nat)
    requires k <= m.sleepticks
    ensures Ticks(lines, m, host, k) == m.(sleepticks := m.sleepticks - k)
    decreases k
  {
    if k > 0 {
      SleepFor(lines, m.(sleepticks := m.sleepticks - 1), host, k - 1);
    }
  }

  /** A fresh script reads none of its lines during its first ten ticks. */
  lemma {:induction false} FreshScriptSleeps(lines: seq<string>, host: Host, k: nat)
    requires k <= InitialSleep
    ensures Ticks(lines, Fresh, host, k) == Fresh.(sleepticks := InitialSleep - k)
  {
    SleepFor(lines, Fresh, host, k);
  }

  /** Awake with no line left, a tick only unloads the bot. */
  lemma {:induction false} ExhaustedTick(lines: seq<string>, m: Machine, host: Host)
    requires m.sleepticks <= 0 && m.nextline >= |lines|
    ensures Tick(lines, m, host) == m.(unloaded := true)
  {
  }

  /** A line trimmed to at most one character is not free: it is consumed and ends the tick. */
  lemma {:induction false} BlankLineTick(lines: seq<string>, m: Machine, host: Host)
    requires m.sleepticks <= 0 && m.nextline < |lines|
    requires |Trim(lines[m.nextline])| <= 1
    ensures Tick(lines, m, host) == m.(nextline := m.nextline + 1)
  {
  }

  /** A comment line is consumed and the tick goes on with the next line. */
  lemma {:induction false} CommentTick(lines: seq<string>, m: Machine, host: Host)
    requires m.sleepticks <= 0 && m.nextline < |lines|
    requires var line := Trim(lines[m.nextline]);
      |line| > 1 && (line[0] == '#' || line[0] == '/' || line[1] == '/')
    ensures Tick(lines, m, host) == Tick(lines, m.(nextline := m.nextline + 1), host)
  {
  }

  /** A `wait` line sets the sleep counter and advances the cursor; nothing else changes. */
  lemma {:induction false} WaitTick(lines: seq<string>, m: Machine, host: Host)
    requires m.sleepticks <= 0 && m.nextline < |lines|
    requires Classify(lines[m.nextline], host).Wait?
    ensures var e := host.expand(Trim(lines[m.nextline]));
      Tick(lines, m, host) == m.(nextline := m.nextline + 1, sleepticks := WaitTicks(e, host.parseInt))
  {
  }

  /** A command the host knows is handed on once, echoed unless it is `log`, and ends the tick. */
  lemma {:induction false} CommandTick(lines: seq<string>, m: Machine, host: Host)
    requires m.sleepticks <= 0 && m.nextline < |lines|
    requires Classify(lines[m.nextline], host).Command?
    requires host.perform(Classify(lines[m.nextline], host).text)
    ensures var k := Classify(lines[m.nextline], host);
      Tick(lines, m, host) ==
        m.(nextline := m.nextline + 1, commands := m.commands + [k.text], console := m.console + Echo(k, host))
  {
    var k := Classify(lines[m.nextline], host);
    if k.name == "log" {
      assert m.console + [] == m.console;
    }
  }

  /**
   * A `wait` instruction is the word `wait` alone or followed by a space, in any
   * case; the count is parsed from what follows that space, and the bare word,
   * like an unparsable count, waits the default ten ticks.
   */
  lemma {:induction false} WaitArgument(expanded: string, parseInt: string -> Option<int>)
    requires InstructionName(expanded) == "wait"
    ensures |expanded| == 4 || (|expanded| >= 5 && expanded[4] == ' ')
    ensures Lower(expanded[..4]) == "wait"
    ensures |expanded| == 4 ==> WaitTicks(expanded, parseInt) == DefaultWait
    ensures |expanded| >= 5 && parseInt(expanded[5..]).None? ==> WaitTicks(expanded, parseInt) == DefaultWait
    ensures |expanded| >= 5 && parseInt(expanded[5..]).Some? ==> WaitTicks(expanded, parseInt) == parseInt(expanded[5..]).value
  {
    SplitHead(expanded, ' ');
    var h := SplitOn(expanded, ' ')[0];
    assert |h| == 4;
    assert expanded[..4] == h;
  }

  lemma {:induction false} DispatchedAllSlice(lines: seq<string>, i: nat, j: nat, host: Host)
    requires i < j <= |lines|
    ensures DispatchedAll(lines[i..j], host) == Handed(Classify(lines[i], host)) + DispatchedAll(lines[i + 1..j], host)
  {
    assert lines[i..j][0] == lines[i];
    assert lines[i..j][1..] == lines[i + 1..j];
  }

  /**
   * What an awake tick that finds a line at the cursor does, with `r` the machine
   * after it: it reads the lines from the cursor on, passing over skipped lines,
   * until it reaches one that is not skipped, which it consumes and stops after;
   * if every remaining line is skipped it reaches the end and unloads. Every
   * line it reads is read once, each command line is handed to the command
   * table once and in order, and only the last line read can be echoed or set
   * the sleep counter.
   */
  ghost predicate ReadsThrough(lines: seq<string>, m: Machine, host: Host, r: Machine)
    requires m.nextline < |lines|
  {
    && m.nextline < r.nextline <= |lines|
    && (forall j :: m.nextline <= j < r.nextline - 1 ==> Skipped(lines[j], host))
    && r.commands == m.commands + DispatchedAll(lines[m.nextline..r.nextline], host)
    && LastEffect(Classify(lines[r.nextline - 1], host), m, host, r, |lines|)
  }

  /**
   * The effect of the line of kind `k` that ended a tick from `m` to `r`: if it
   * was passed over, the tick ran past the last line (`end`) and unloaded;
   * otherwise it alone decides the echo and the sleep counter.
   */
  ghost predicate LastEffect(k: LineKind, m: Machine, host: Host, r: Machine, end: nat) {
    && (Passes(k, host) ==>
          r == m.(nextline := end, unloaded := true, commands := r.commands))
    && (!Passes(k, host) ==>
          && r.unloaded == m.unloaded
          && r.console == m.console + Echo(k, host)
          && r.sleepticks == SleepAfter(k, m.sleepticks))
  }

  /** LastEffect does not look at the cursor or the commands of the starting machine. */
  lemma LastEffectCarries(k: LineKind, m: Machine, n: Machine, host: Host, r: Machine, end: nat)
    requires n == m.(nextline := n.nextline, commands := n.commands)
    requires LastEffect(k, n, host, r, end)
    ensures LastEffect(k, m, host, r, end)
  {
  }

  /** Every awake tick with a line left behaves as ReadsThrough describes. */
  lemma {:induction false} AwakeTick(lines: seq<string>, m: Machine, host: Host)
    requires m.sleepticks <= 0 && m.nextline < |lines|
    ensures ReadsThrough(lines, m, host, Tick(lines, m, host))
    decreases |lines| - m.nextline
  {
    var i := m.nextline;
    if !Skipped(lines[i], host) {
      StopTick(lines, m, host);
    } else {
      var n := m.(nextline := i + 1, commands := m.commands + Handed(Classify(lines[i], host)));
      SkipTick(lines, m, host);
      if i + 1 < |lines| {
        AwakeTick(lines, n, host);
        PassTick(lines, m, n, host, Tick(lines, n, host));
      } else {
        ExhaustedTick(lines, n, host);
        DispatchedAllSlice(lines, i, i + 1, host);
      }
    }
  }

  /** A skipped line is consumed, handed on if it is a command, and the tick goes on with the next line. */
  lemma {:induction false} SkipTick(lines: seq<string>, m: Machine, host: Host)
    requires m.sleepticks <= 0 && m.nextline < |lines|
    requires Skipped(lines[m.nextline], host)
    ensures Tick(lines, m, host) ==
      Tick(lines, m.(nextline := m.nextline + 1, commands := m.commands + Handed(Classify(lines[m.nextline], host))), host)
  {
    match Classify(lines[m.nextline], host) {
      case Comment =>
        assert m.commands + [] == m.commands;
      case Command(text, _) =>
    }
  }

  /** A line that is not skipped is the only one the tick reads. */
  lemma {:induction false} StopTick(lines: seq<string>, m: Machine, host: Host)
    requires m.sleepticks <= 0 && m.nextline < |lines|
    requires !Skipped(lines[m.nextline], host)
    ensures ReadsThrough(lines, m, host, Tick(lines, m, host))
  {
    var i := m.nextline;
    DispatchedAllSlice(lines, i, i + 1, host);
    var h := Handed(Classify(lines[i], host));
    assert DispatchedAll(lines[i + 1..i + 1], host) == [];
    assert h + [] == h;
    var next := m.(nextline := i + 1);
    match Classify(lines[i], host) {
      case Blank =>
        assert Tick(lines, m, host) == next;
      case Wait(t) =>
        assert Tick(lines, m, host) == next.(sleepticks := t);
      case Command(text, name) =>
        var sent := next.(commands := m.commands + [text]);
        assert Tick(lines, m, host) == if name != "log" then sent.(console := m.console + [text]) else sent;
    }
  }

  /** Passing over one skipped line keeps ReadsThrough for the rest of the tick. */
  lemma {:induction false} PassTick(lines: seq<string>, m: Machine, n: Machine, host: Host, r: Machine)
    requires m.nextline + 1 < |lines|
    requires Skipped(lines[m.nextline], host)
    requires n == m.(nextline := m.nextline + 1, commands := m.commands + Handed(Classify(lines[m.nextline], host)))
    requires ReadsThrough(lines, n, host, r)
    ensures ReadsThrough(lines, m, host, r)
  {
    var i := m.nextline;
    DispatchedAllSlice(lines, i, r.nextline, host);
    AppendAssoc(m.commands, Handed(Classify(lines[i], host)), DispatchedAll(lines[i + 1..r.nextline], host));
    forall j | i <= j < r.nextline - 1 ensures Skipped(lines[j], host) {
      if j > i {
        assert n.nextline <= j < r.nextline - 1;
      }
    }
    LastEffectCarries(Classify(lines[r.nextline - 1], host), m, n, host, r, |lines|);
  }

  /** A tick over lines that are all skipped reaches the end and unloads. */
  lemma {:induction false} AllSkippedTick(lines: seq<string>, m: Machine, host: Host)
    requires m.sleepticks <= 0 && m.nextline < |lines|
    requires forall j :: m.nextline <= j < |lines| ==> Skipped(lines[j], host)
    ensures Tick(lines, m, host).unloaded && Tick(lines, m, host).nextline == |lines|
  {
    AwakeTick(lines, m, host);
  }

  /** The first word of a two-word line. */
  lemma FirstWord(w: string, rest: string)
    requires ' ' !in w && ' ' !in rest
    ensures SplitOn(w + " " + rest, ' ')[0] == w
  {
    SplitAround(w, ' ', rest);
    SplitWithoutSeparator(w, ' ');
  }

  /** How the first line of the example below is read, when expansion changes nothing. */
  lemma ExampleWaitLine(host: Host)
    requires forall s :: host.expand(s) == s
    requires host.parseInt("2") == Some(2)
    ensures Classify("wait 2", host) == Wait(2)
  {
    var line := "wait 2";
    assert !IsWhiteSpace(line[0]) && !IsWhiteSpace(line[5]);
    TrimmedAlready(line);
    assert host.expand(Trim(line)) == line;
    assert "wait" + " " + "2" == line;
    FirstWord("wait", "2");
    assert InstructionName(line) == "wait" by {
      assert Lower("wait") == "wait";
    }
    assert WaitTicks(line, host.parseInt) == 2 by {
      assert line[5..] == "2";
    }
  }

  /** How the second line of the example below is read, when expansion changes nothing. */
  lemma ExampleLogLine(host: Host)
    requires forall s :: host.expand(s) == s
    ensures Classify("log hi", host) == Command("log hi", "log")
  {
    var line := "log hi";
    assert !IsWhiteSpace(line[0]) && !IsWhiteSpace(line[5]);
    TrimmedAlready(line);
    assert host.expand(Trim(line)) == line;
    assert "log" + " " + "hi" == line;
    FirstWord("log", "hi");
    assert InstructionName(line) == "log" by {
      assert Lower("log") == "log";
    }
  }

  /**
   * The two-line script `wait 2` / `log hi`, started awake: the first tick reads
   * the wait, the next two sleep, the fourth hands `log hi` to the command table
   * (not echoed, being a log), and the fifth finds no line left and unloads.
   */
  lemma WaitThenLog(host: Host, m: Machine)
    requires m.sleepticks == 0 && m.nextline == 0 && !m.unloaded
    requires forall s :: host.expand(s) == s
    requires host.parseInt("2") == Some(2) && host.perform("log hi")
    ensures Ticks(["wait 2", "log hi"], m, host, 1) == m.(nextline := 1, sleepticks := 2)
    ensures Ticks(["wait 2", "log hi"], m, host, 3) == m.(nextline := 1, sleepticks := 0)
    ensures Ticks(["wait 2", "log hi"], m, host, 4) == m.(nextline := 2, commands := m.commands + ["log hi"])
    ensures Ticks(["wait 2", "log hi"], m, host, 5) == m.(nextline := 2, commands := m.commands + ["log hi"], unloaded := true)
  {
    var lines := ["wait 2", "log hi"];
    ExampleWaitLine(host);
    ExampleLogLine(host);
    WaitTick(lines, m, host);
    var m1 := m.(nextline := 1, sleepticks := 2);
    SleepFor(lines, m1, host, 2);
    var m3 := m1.(sleepticks := 0);
    CommandTick(lines, m3, host);
    var m4 := m3.(nextline := 2, commands := m.commands + ["log hi"]);
    assert m.console + Echo(Command("log hi", "log"), host) == m.console;
    ExhaustedTick(lines, m4, host);
  }
}
