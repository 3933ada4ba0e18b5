/**
 * The source preparation of compiled (C#) scripts (first part of
 * Script.RunCSharpScript): the version-header check, the split of the file
 * into the main section and the extensions section, the step-gate call
 * inserted after every statement of the main section, and the generated
 * class text. Compiling and running that text are not modelled.
 */
module CompiledScript {
  import opened Wrappers
  import opened Text

  const VersionHeader := "//MCCScript 1.0"
  const MarkerPrefix := "//MCCScript"
  const ExtensionsSuffix := "Extensions"
  /** The rendezvous call inserted after each statement. */
  const GateCall := "tpause.WaitOne();"

  /** Lines starting with the marker prefix delimit sections and are never copied. */
  predicate IsMarker(line: string) {
    StartsWith(line, MarkerPrefix)
  }

  /** The marker that switches the rest of the file to the extensions section. */
  predicate IsExtensionsMarker(line: string) {
    IsMarker(line) && EndsWith(line, ExtensionsSuffix)
  }

  /** A main line after which the script pauses: its trimmed form ends in `;`. */
  predicate IsStatement(line: string) {
    EndsWith(Trim(line), ";")
  }

  /** The lines of `ls` that are not markers, in order. */
  function NonMarkers(ls: seq<string>): seq<string> {
    if ls == [] then []
    else NonMarkers(ls[..|ls| - 1]) + (if IsMarker(ls[|ls| - 1]) then [] else [ls[|ls| - 1]])
  }

  /** `ls` with the gate call inserted right after each statement. */
  function Gated(ls: seq<string>): seq<string> {
    if ls == [] then []
    else Gated(ls[..|ls| - 1]) + [ls[|ls| - 1]] + (if IsStatement(ls[|ls| - 1]) then [GateCall] else [])
  }

  /** The index of the first extensions marker, or |ls| if there is none. */
  function ExtensionsStart(ls: seq<string>): (k: nat)
    ensures k <= |ls|
  {
    if ls == [] || IsExtensionsMarker(ls[0]) then 0 else 1 + ExtensionsStart(ls[1..])
  }

  /** ExtensionsStart is the index of the first extensions marker: none comes before it. */
  lemma {:induction false} ExtensionsStartSpec(ls: seq<string>)
    ensures forall j :: 0 <= j < ExtensionsStart(ls) ==> !IsExtensionsMarker(ls[j])
    ensures ExtensionsStart(ls) < |ls| ==> IsExtensionsMarker(ls[ExtensionsStart(ls)])
  {
    if ls != [] && !IsExtensionsMarker(ls[0]) {
      ExtensionsStartSpec(ls[1..]);
      forall j | 1 <= j < ExtensionsStart(ls) ensures !IsExtensionsMarker(ls[j]) {
        assert ls[j] == ls[1..][j - 1];
      }
    }
  }

  /** The main section: the non-marker lines before the first extensions marker. */
  function MainLines(ls: seq<string>): seq<string> {
    NonMarkers(ls[..ExtensionsStart(ls)])
  }

  /** The extensions section: the non-marker lines after it. */
  function ExtensionLines(ls: seq<string>): seq<string> {
    NonMarkers(ls[ExtensionsStart(ls)..])
  }

  datatype Sections = Sections(main: seq<string>, extensions: seq<string>)

  /** The two sections as the split builds them; the gate calls go in when the step gate exists. */
  function ExpectedSections(ls: seq<string>, gated: bool): Sections {
    Sections(if gated then Gated(MainLines(ls)) else MainLines(ls), ExtensionLines(ls))
  }

  /** The state of the section loop: the `scriptMain` flag and the two sections built so far. */
  datatype SplitState = SplitState(scriptMain: bool, script: seq<string>, extensions: seq<string>)

  /** One line of the section loop. */
  function SplitLine(st: SplitState, line: string, gated: bool): SplitState {
    if IsMarker(line) then
      (if EndsWith(line, ExtensionsSuffix) then st.(scriptMain := false) else st)
    else if st.scriptMain then
      st.(script := st.script + [line] + (if gated && IsStatement(line) then [GateCall] else []))
    else st.(extensions := st.extensions + [line])
  }

  /** The loop state after the lines `ls`. */
  function SplitPrefix(ls: seq<string>, gated: bool): SplitState {
    if ls == [] then SplitState(true, [], [])
    else SplitLine(SplitPrefix(ls[..|ls| - 1], gated), ls[|ls| - 1], gated)
  }

  /**
   * The section loop of the source, with its `scriptMain` flag. `gated` says
   * whether the step gate exists (the source tests `tpause != null`).
   */
  method SplitSections(lines: seq<string>, gated: bool) returns (s: Sections)
    ensures s == ExpectedSections(lines, gated)
  {
    var scriptMain := true;
    var script: seq<string> := [];
    var extensions: seq<string> := [];
    for i := 0 to |lines|
      invariant SplitState(scriptMain, script, extensions) == SplitPrefix(lines[..i], gated)
    {
      var line := lines[i];
      assert lines[..i + 1][..i] == lines[..i];
      if StartsWith(line, MarkerPrefix) {
        if EndsWith(line, ExtensionsSuffix) {
          scriptMain := false;
        }
      } else if scriptMain {
        script := script + [line];
        if gated && EndsWith(Trim(line), ";") {
          script := script + [GateCall];
        } else {
          assert script + [] == script;
        }
      } else {
        extensions := extensions + [line];
      }
    }
    assert lines[..|lines|] == lines;
    SplitPrefixSections(lines, gated);
    s := Sections(script, extensions);
  }

  /** ExtensionsStart is the one index before which no line, and at which the line, is an extensions marker. */
  lemma {:induction false} FirstExtensionsMarker(ls: seq<string>, k: nat)
    requires k <= |ls|
    requires forall j :: 0 <= j < k ==> !IsExtensionsMarker(ls[j])
    requires k < |ls| ==> IsExtensionsMarker(ls[k])
    ensures ExtensionsStart(ls) == k
  {
    if ls != [] && !IsExtensionsMarker(ls[0]) {
      assert k != 0;
      forall j | 0 <= j < k - 1 ensures !IsExtensionsMarker(ls[1..][j]) {
        assert ls[1..][j] == ls[j + 1];
      }
      if k - 1 < |ls| - 1 {
        assert ls[1..][k - 1] == ls[k];
      }
      FirstExtensionsMarker(ls[1..], k - 1);
    } else if ls != [] {
      assert !(0 < k);
    }
  }

  /** Where the extensions start once one more line is read. */
  lemma ExtensionsStartSnoc(ls: seq<string>, x: string)
    ensures ExtensionsStart(ls + [x]) ==
      if ExtensionsStart(ls) < |ls| then ExtensionsStart(ls)
      else if IsExtensionsMarker(x) then |ls| else |ls| + 1
  {
    var k := ExtensionsStart(ls);
    var l := ls + [x];
    ExtensionsStartSpec(ls);
    forall j | 0 <= j < k ensures !IsExtensionsMarker(l[j]) {
      assert l[j] == ls[j];
    }
    if k < |ls| {
      assert l[k] == ls[k];
      FirstExtensionsMarker(l, k);
    } else if IsExtensionsMarker(x) {
      assert l[|ls|] == x;
      FirstExtensionsMarker(l, |ls|);
    } else {
      assert l[|ls|] == x;
      FirstExtensionsMarker(l, |ls| + 1);
    }
  }

  /**
   * The loop state a prefix should give, in terms of the declarative sections: the
   * flag is set until an extensions marker has been read, the main section is what
   * precedes that marker and the extensions are the non-marker lines after it.
   */
  function Declared(ls: seq<string>, gated: bool): SplitState {
    var k := ExtensionsStart(ls);
    SplitState(k == |ls|, MainOf(ls[..k], gated), NonMarkers(ls[k..]))
  }

  /** The loop computes the declarative sections, after every prefix. */
  lemma {:induction false} SplitPrefixSections(ls: seq<string>, gated: bool)
    ensures SplitPrefix(ls, gated) == Declared(ls, gated)
  {
    if ls != [] {
      var init, x := ls[..|ls| - 1], ls[|ls| - 1];
      assert ls == init + [x];
      SplitPrefixSections(init, gated);
      DeclaredSnoc(init, x, gated);
    }
  }

  /** One more line moves the declarative sections exactly as one loop step does. */
  lemma DeclaredSnoc(init: seq<string>, x: string, gated: bool)
    ensures Declared(init + [x], gated) == SplitLine(Declared(init, gated), x, gated)
  {
    ExtensionsStartSnoc(init, x);
    if ExtensionsStart(init) < |init| {
      AfterMarkerSnoc(init, x, gated);
    } else if IsExtensionsMarker(x) {
      MarkerSnoc(init, x, gated);
    } else {
      MainSnoc(init, x, gated);
    }
  }

  lemma AfterMarkerSnoc(init: seq<string>, x: string, gated: bool)
    requires ExtensionsStart(init) < |init|
    requires ExtensionsStart(init + [x]) == ExtensionsStart(init)
    ensures Declared(init + [x], gated) == SplitLine(Declared(init, gated), x, gated)
  {
    var ls, k := init + [x], ExtensionsStart(init);
    var m := MainOf(init[..k], gated);
    DeclaredAt(init, k, gated);
    DeclaredAt(ls, k, gated);
    SliceSnoc(init, x, k);
    var st := SplitState(false, m, NonMarkers(init[k..]));
    assert Declared(init, gated) == st;
    NonMarkersSnoc(init[k..], x);
    assert Declared(ls, gated) == SplitState(false, m, NonMarkers(init[k..] + [x]));
    SplitLineOutsideMain(st, x, gated);
  }

  lemma MarkerSnoc(init: seq<string>, x: string, gated: bool)
    requires ExtensionsStart(init) == |init| && IsExtensionsMarker(x)
    requires ExtensionsStart(init + [x]) == |init|
    ensures Declared(init + [x], gated) == SplitLine(Declared(init, gated), x, gated)
  {
    var ls, k := init + [x], |init|;
    DeclaredAt(init, k, gated);
    DeclaredAt(ls, k, gated);
    SliceSnoc(init, x, k);
    assert init[..k] == init && init[k..] == [];
    NonMarkersSnoc([], x);
  }

  lemma MainSnoc(init: seq<string>, x: string, gated: bool)
    requires ExtensionsStart(init) == |init| && !IsExtensionsMarker(x)
    requires ExtensionsStart(init + [x]) == |init| + 1
    ensures Declared(init + [x], gated) == SplitLine(Declared(init, gated), x, gated)
  {
    DeclaredWhole(init, gated);
    DeclaredWhole(init + [x], gated);
    MainOfSnoc(init, x, gated);
    SplitLineInMain(SplitState(true, MainOf(init, gated), []), x, gated);
  }

  /** Before any extensions marker, everything read so far is main. */
  lemma DeclaredWhole(ls: seq<string>, gated: bool)
    requires ExtensionsStart(ls) == |ls|
    ensures Declared(ls, gated) == SplitState(true, MainOf(ls, gated), [])
  {
    DeclaredAt(ls, |ls|, gated);
    assert ls[..|ls|] == ls && ls[|ls|..] == [];
  }

  /** Declared, with the start of the extensions given. */
  lemma DeclaredAt(ls: seq<string>, k: nat, gated: bool)
    requires ExtensionsStart(ls) == k
    ensures Declared(ls, gated) == SplitState(k == |ls|, MainOf(ls[..k], gated), NonMarkers(ls[k..]))
  {
  }

  /** In the main section a line other than the extensions marker is dropped if it is a marker and appended, gated, otherwise. */
  lemma SplitLineInMain(st: SplitState, x: string, gated: bool)
    requires st.scriptMain && !IsExtensionsMarker(x)
    ensures SplitLine(st, x, gated) ==
      if IsMarker(x) then st
      else st.(script := st.script + [x] + (if gated && IsStatement(x) then [GateCall] else []))
  {
  }

  /** Outside the main section a line is dropped if it is a marker and appended to the extensions otherwise. */
  lemma SplitLineOutsideMain(st: SplitState, x: string, gated: bool)
    requires !st.scriptMain
    ensures SplitLine(st, x, gated) == st.(extensions := st.extensions + (if IsMarker(x) then [] else [x]))
  {
    if IsMarker(x) {
      assert st.(scriptMain := false) == st;
      assert st.extensions + [] == st.extensions;
    }
  }

  /** The main section a prefix of the file gives, gated or not. */
  function MainOf(ls: seq<string>, gated: bool): seq<string> {
    if gated then Gated(NonMarkers(ls)) else NonMarkers(ls)
  }

  lemma {:induction false} MainOfSnoc(ls: seq<string>, x: string, gated: bool)
    ensures MainOf(ls + [x], gated) ==
      if IsMarker(x) then MainOf(ls, gated)
      else MainOf(ls, gated) + [x] + (if gated && IsStatement(x) then [GateCall] else [])
  {
    NonMarkersSnoc(ls, x);
    if !IsMarker(x) {
      var n := NonMarkers(ls);
      assert NonMarkers(ls + [x]) == n + [x];
      if gated {
        GatedSnoc(n, x);
        assert MainOf(ls + [x], gated) == Gated(n + [x]);
        assert MainOf(ls, gated) == Gated(n);
      } else {
        assert MainOf(ls + [x], gated) == n + [x];
        assert MainOf(ls, gated) == n;
        assert n + [x] + [] == n + [x];
      }
    } else {
      assert NonMarkers(ls) + [] == NonMarkers(ls);
    }
  }

  lemma {:induction false} NonMarkersSnoc(ls: seq<string>, x: string)
    ensures NonMarkers(ls + [x]) == NonMarkers(ls) + (if IsMarker(x) then [] else [x])
  {
    assert (ls + [x])[..|ls|] == ls;
  }

  lemma {:induction false} GatedSnoc(ls: seq<string>, x: string)
    ensures Gated(ls + [x]) == Gated(ls) + [x] + (if IsStatement(x) then [GateCall] else [])
  {
    assert (ls + [x])[..|ls|] == ls;
  }

  lemma {:induction false} NonMarkersAppend(a: seq<string>, b: seq<string>)
    ensures NonMarkers(a + b) == NonMarkers(a) + NonMarkers(b)
    decreases |b|
  {
    if b != [] {
      var b', x := b[..|b| - 1], b[|b| - 1];
      assert a + b == (a + b') + [x];
      assert b == b' + [x];
      NonMarkersAppend(a, b');
      NonMarkersSnoc(a + b', x);
      NonMarkersSnoc(b', x);
    } else {
      assert a + b == a;
    }
  }

  lemma {:induction false} GatedAppend(a: seq<string>, b: seq<string>)
    ensures Gated(a + b) == Gated(a) + Gated(b)
    decreases |b|
  {
    if b != [] {
      var b', x := b[..|b| - 1], b[|b| - 1];
      assert a + b == (a + b') + [x];
      assert b == b' + [x];
      GatedAppend(a, b');
      GatedSnoc(a + b', x);
      GatedSnoc(b', x);
    } else {
      assert a + b == a;
    }
  }

  /** Every non-marker line lands in exactly one section, in file order: main first, then extensions. */
  lemma SectionsPartition(ls: seq<string>)
    ensures NonMarkers(ls) == MainLines(ls) + ExtensionLines(ls)
  {
    var k := ExtensionsStart(ls);
    assert ls == ls[..k] + ls[k..];
    NonMarkersAppend(ls[..k], ls[k..]);
  }

  lemma {:induction false} NonMarkersHasNoMarker(ls: seq<string>)
    ensures forall l :: l in NonMarkers(ls) ==> !IsMarker(l)
  {
    if ls != [] {
      NonMarkersHasNoMarker(ls[..|ls| - 1]);
    }
  }

  lemma {:induction false} GatedKeepsNonMarkers(ls: seq<string>)
    requires forall l :: l in ls ==> !IsMarker(l)
    ensures forall l :: l in Gated(ls) ==> !IsMarker(l)
  {
    if ls != [] {
      assert ls[|ls| - 1] in ls;
      assert forall l :: l in ls[..|ls| - 1] ==> l in ls;
      GatedKeepsNonMarkers(ls[..|ls| - 1]);
      assert GateCall[0] != MarkerPrefix[0];
    }
  }

  /** No marker line is copied into either section. */
  lemma NoMarkerInSections(ls: seq<string>, gated: bool)
    ensures forall l :: l in ExpectedSections(ls, gated).main ==> !IsMarker(l)
    ensures forall l :: l in ExpectedSections(ls, gated).extensions ==> !IsMarker(l)
  {
    NonMarkersHasNoMarker(ls[..ExtensionsStart(ls)]);
    NonMarkersHasNoMarker(ls[ExtensionsStart(ls)..]);
    GatedKeepsNonMarkers(MainLines(ls));
  }

  /**
   * Once an extensions marker has been seen at index i, the main section is
   * settled (nothing after i changes it) and every later non-marker line is
   * in the extensions section.
   */
  lemma AfterExtensionsMarker(ls: seq<string>, i: nat, j: nat)
    requires i < j < |ls| && IsExtensionsMarker(ls[i]) && !IsMarker(ls[j])
    ensures MainLines(ls) == MainLines(ls[..i])
    ensures ls[j] in ExtensionLines(ls)
  {
    var k := ExtensionsStart(ls);
    ExtensionsStartSpec(ls);
    assert k <= i;
    var k' := ExtensionsStart(ls[..i]);
    forall j | 0 <= j < k ensures !IsExtensionsMarker(ls[..i][j]) {
      assert ls[..i][j] == ls[j];
    }
    if k < i {
      assert ls[..i][k] == ls[k];
    }
    FirstExtensionsMarker(ls[..i], k);
    assert k' == k;
    assert ls[..i][..k] == ls[..k];
    var tail := ls[k..];
    assert tail == tail[..j - k] + [ls[j]] + tail[j - k + 1..];
    NonMarkersAppend(tail[..j - k] + [ls[j]], tail[j - k + 1..]);
    NonMarkersSnoc(tail[..j - k], ls[j]);
  }

  /** Each main line is followed by the gate call exactly when it is a statement. */
  lemma GateAfterStatement(a: seq<string>, x: string, b: seq<string>)
    ensures Gated(a + [x] + b) == Gated(a) + [x] + (if IsStatement(x) then [GateCall] else []) + Gated(b)
  {
    GatedAppend(a + [x], b);
    GatedSnoc(a, x);
  }

  /** How many lines of `ls` are statements. */
  function Statements(ls: seq<string>): nat {
    if ls == [] then 0 else Statements(ls[..|ls| - 1]) + (if IsStatement(ls[|ls| - 1]) then 1 else 0)
  }

  /** `ls` without the gate-call lines. */
  function WithoutGates(ls: seq<string>): seq<string> {
    if ls == [] then []
    else WithoutGates(ls[..|ls| - 1]) + (if ls[|ls| - 1] == GateCall then [] else [ls[|ls| - 1]])
  }

  lemma {:induction false} WithoutGatesSnoc(ls: seq<string>, x: string)
    ensures WithoutGates(ls + [x]) == WithoutGates(ls) + (if x == GateCall then [] else [x])
  {
    assert (ls + [x])[..|ls|] == ls;
  }

  /**
   * The gates are the only lines added: exactly one is added per statement, and
   * removing them gives back the original lines when those contain no gate call
   * of their own (a script's own `tpause.WaitOne();` would be removed too).
   */
  lemma {:induction false} GatedAddsOnlyGates(ls: seq<string>)
    ensures (forall i :: 0 <= i < |ls| ==> ls[i] != GateCall) ==> WithoutGates(Gated(ls)) == ls
    ensures |Gated(ls)| == |ls| + Statements(ls)
  {
    if ls != [] {
      var init, x := ls[..|ls| - 1], ls[|ls| - 1];
      assert ls == init + [x];
      GatedAddsOnlyGates(init);
      var g := Gated(init) + [x];
      GatedSnoc(init, x);
      if forall i :: 0 <= i < |ls| ==> ls[i] != GateCall {
        assert forall i :: 0 <= i < |init| ==> init[i] == ls[i];
        assert x == ls[|ls| - 1];
        WithoutGatesSnoc(Gated(init), x);
        if IsStatement(x) {
          assert Gated(ls) == g + [GateCall];
          WithoutGatesSnoc(g, GateCall);
        } else {
          assert Gated(ls) == g;
        }
      }
    }
  }

  /** A script's own gate call is not given back once the gates are removed. */
  lemma OwnGateCallRemoved()
    ensures WithoutGates(Gated([GateCall])) == []
  {
    assert IsStatement(GateCall) by {
      assert !IsWhiteSpace(GateCall[0]) && !IsWhiteSpace(GateCall[|GateCall| - 1]);
      TrimmedAlready(GateCall);
      EndsWithSlice(GateCall, ";");
    }
    assert [GateCall][..0] == [];
    GatedSnoc([], GateCall);
    assert Gated([GateCall]) == [GateCall, GateCall];
    WithoutGatesSnoc([GateCall], GateCall);
    WithoutGatesSnoc([], GateCall);
    assert [GateCall, GateCall] == [GateCall] + [GateCall];
  }

  /**
   * The header of the generated entry method: the host bot, the step gate and the
   * arguments. Script.cs has it as one string literal; it is written here in four pieces, one per
   * parameter, so that the verifier can see it contains no newline.
   */
  const RunHeader := "public void __run(" + "ChatBot master, " + "ManualResetEvent tpause, " + "string[] args) {"

  /** The fixed lines of the generated unit before the main section. */
  const Preamble: seq<string> := [
    "using System;",
    "using System.IO;",
    "using System.Threading;",
    "using MinecraftClient;",
    "namespace ScriptLoader {",
    "public class Script : ChatBot {",
    RunHeader,
    "SetMaster(master);"]

  /** The generated class: the main section is the body of `__run`, the extensions follow it as members. */
  function GenerateSource(s: Sections): string {
    Join(Preamble + [Join(s.main, '\n'), "}", Join(s.extensions, '\n'), "}}"], '\n')
  }

  /** A section as it appears among the generated lines: an empty one still leaves an empty line. */
  function Block(ls: seq<string>): seq<string> {
    if ls == [] then [""] else ls
  }

  lemma RunHeaderHasNoNewline()
    ensures '\n' !in RunHeader
  {
    var a, b, c, d := "public void __run(", "ChatBot master, ", "ManualResetEvent tpause, ", "string[] args) {";
    assert '\n' !in a && '\n' !in b && '\n' !in c && '\n' !in d;
    assert RunHeader == a + b + c + d;
  }

  lemma PreambleHasNoNewline()
    ensures forall i :: 0 <= i < |Preamble| ==> '\n' !in Preamble[i]
  {
    RunHeaderHasNoNewline();
    forall i | 0 <= i < |Preamble| ensures '\n' !in Preamble[i] {
      if i == 6 {
        assert Preamble[i] == RunHeader;
      }
    }
  }

  /** The generated text is the join of its lines, with both sections spliced in. */
  lemma GeneratedJoin(s: Sections)
    ensures GenerateSource(s) == Join(Preamble + Block(s.main) + ["}"] + Block(s.extensions) + ["}}"], '\n')
  {
    var m, e := s.main, s.extensions;
    var Je := Join(e, '\n');
    var Q := ["}", Je, "}}"];
    assert Preamble + [Join(m, '\n'), "}", Je, "}}"] == Preamble + [Join(m, '\n')] + Q;
    JoinBlock(Preamble, m, Q);
    var P2 := Preamble + Block(m) + ["}"];
    assert Preamble + Block(m) + Q == P2 + [Je] + ["}}"];
    JoinBlock(P2, e, ["}}"]);
  }

  /**
   * Read back line by line, the generated text is the preamble, the main
   * section, the closing brace of `__run`, the extensions and the closing
   * braces of the class and the namespace, in this order.
   */
  lemma GeneratedLines(s: Sections)
    requires forall i :: 0 <= i < |s.main| ==> '\n' !in s.main[i]
    requires forall i :: 0 <= i < |s.extensions| ==> '\n' !in s.extensions[i]
    ensures SplitOn(GenerateSource(s), '\n') == Preamble + Block(s.main) + ["}"] + Block(s.extensions) + ["}}"]
  {
    GeneratedJoin(s);
    PreambleHasNoNewline();
    var lines := Preamble + Block(s.main) + ["}"] + Block(s.extensions) + ["}}"];
    forall i | 0 <= i < |lines| ensures '\n' !in lines[i] {
      var a := |Preamble|;
      var b := a + |Block(s.main)|;
      var c := b + 1 + |Block(s.extensions)|;
      if i < a {
        assert lines[i] == Preamble[i];
      } else if i < b {
        assert lines[i] == Block(s.main)[i - a];
      } else if b < i < c {
        assert lines[i] == Block(s.extensions)[i - b - 1];
      }
    }
    SplitJoin(lines, '\n');
  }

  /** An inner join of a section can be spliced into the outer list of lines. */
  lemma JoinBlock(P: seq<string>, ls: seq<string>, Q: seq<string>)
    requires |P| >= 1 && |Q| >= 1
    ensures Join(P + [Join(ls, '\n')] + Q, '\n') == Join(P + Block(ls) + Q, '\n')
  {
    var J := Join(ls, '\n');
    var B := Block(ls);
    AppendAssoc(P, [J], Q);
    AppendAssoc(P, B, Q);
    JoinAppend(P, [J] + Q, '\n');
    JoinAppend(P, B + Q, '\n');
    JoinAppend(B, Q, '\n');
    JoinAppend([J], Q, '\n');
    JoinOfBlock(ls);
  }

  lemma JoinOfBlock(ls: seq<string>)
    ensures Join(Block(ls), '\n') == Join(ls, '\n')
  {
    if ls == [] {
      assert Block(ls) == [""];
    }
  }

  /**
   * The preparation step of RunCSharpScript: a file that does not open with the
   * exact version header is refused with the source's message; otherwise the
   * sections are split and the class text is generated.
   */
  method PrepareSource(file: string, lines: seq<string>, gated: bool) returns (r: Result<string, string>)
    ensures r.Failure? <==> |lines| < 1 || lines[0] != VersionHeader
    ensures r.Failure? ==> r.error == "Script file '" + file + "' does not start with a valid //MCCScript identifier."
    ensures r.Success? ==> r.value == GenerateSource(ExpectedSections(lines, gated))
  {
    if |lines| < 1 || lines[0] != VersionHeader {
      return Failure("Script file '" + file + "' does not start with a valid //MCCScript identifier.");
    }
    var sections := SplitSections(lines, gated);
    return Success(GenerateSource(sections));
  }
}
