/**
 * The argument tokenizer of the script bot (Script.ParseArguments): splits an
 * invocation string such as `myscript "some arg" other` into the script file
 * and its positional arguments, honouring double quotes and backslash escapes.
 *
 * The scan is a left fold of `Step` over the characters; `Scan` gives the
 * scanner state after a prefix, which is also what the loop of
 * `ParseArguments` maintains.
 */
module Tokenizer {
  import opened Text

  /** The scanner state: the two flags, the token under construction and the tokens emitted so far. */
  datatype Scanner = Scanner(escape: bool, quotes: bool, buffer: string, tokens: seq<string>)

  /** The result of tokenizing: the script file and the remaining arguments. */
  datatype Invocation = Invocation(file: string, args: seq<string>)

  const Start := Scanner(false, false, [], [])

  /** One character of input. */
  function Step(st: Scanner, c: char): Scanner {
    if st.escape then
      // an escaped quote is kept alone; any other escaped character keeps its backslash
      st.(buffer := st.buffer + (if c != '"' then ['\\', c] else [c]), escape := false)
    else if c == '\\' then st.(escape := true)
    else if c == '"' then st.(quotes := !st.quotes)
    else if c == ' ' && !st.quotes then
      st.(tokens := if |st.buffer| > 0 then st.tokens + [st.buffer] else st.tokens, buffer := [])
    else st.(buffer := st.buffer + [c])
  }

  /** The scanner state after reading all of `s`. */
  function Scan(s: string): Scanner {
    if s == [] then Start else Step(Scan(s[..|s| - 1]), s[|s| - 1])
  }

  /** End of input: a pending non-empty token is emitted. */
  function Flush(st: Scanner): seq<string> {
    if |st.buffer| > 0 then st.tokens + [st.buffer] else st.tokens
  }

  function Tokens(s: string): seq<string> {
    Flush(Scan(s))
  }

  /** The first token names the file, the rest are the arguments; no token at all gives an empty file name. */
  function Split(tokens: seq<string>): Invocation {
    if |tokens| > 0 then Invocation(tokens[0], tokens[1..]) else Invocation([], [])
  }

  function Parse(argstr: string): Invocation {
    Split(Tokens(argstr))
  }

  /** The character loop of the source, with its two flags, its string builder and its list. */
  method ParseArguments(argstr: string) returns (inv: Invocation)
    ensures inv == Parse(argstr)
  {
    var args: seq<string> := [];
    var str: string := [];
    var escape := false;
    var quotes := false;
    var i := 0;
    while i < |argstr|
      invariant 0 <= i <= |argstr|
      invariant Scanner(escape, quotes, str, args) == Scan(argstr[..i])
    {
      var c := argstr[i];
      if escape {
        if c != '"' {
          str := str + ['\\'];
        }
        str := str + [c];
        escape := false;
      } else {
        if c == '\\' {
          escape := true;
        } else if c == '"' {
          quotes := !quotes;
        } else if c == ' ' && !quotes {
          if |str| > 0 {
            args := args + [str];
          }
          str := [];
        } else {
          str := str + [c];
        }
      }
      assert argstr[..i + 1][..i] == argstr[..i];
      i := i + 1;
    }
    assert argstr[..i] == argstr;
    if |str| > 0 {
      args := args + [str];
    }
    if |args| > 0 {
      inv := Invocation(args[0], args[1..]);
    } else {
      inv := Invocation([], []);
    }
  }

  lemma ScanSnoc(s: string, c: char)
    ensures Scan(s + [c]) == Step(Scan(s), c)
  {
    assert (s + [c])[..|s|] == s;
  }

  /** Tokens are emitted only when non-empty, at a separator and at the end alike. */
  lemma {:induction false} ScannedTokensNonEmpty(s: string)
    ensures forall t :: t in Scan(s).tokens ==> t != []
  {
    if s != [] {
      ScannedTokensNonEmpty(s[..|s| - 1]);
    }
  }

  lemma TokensNonEmpty(s: string)
    ensures forall t :: t in Tokens(s) ==> t != []
  {
    ScannedTokensNonEmpty(s);
  }

  /**
   * The invocation reassembles to exactly the token list: the file is the first
   * token and the arguments are the others, in order; no tokens gives file "".
   */
  lemma ParseShape(argstr: string)
    ensures Tokens(argstr) == [] ==> Parse(argstr) == Invocation("", [])
    ensures Tokens(argstr) != [] ==> [Parse(argstr).file] + Parse(argstr).args == Tokens(argstr)
    ensures Parse(argstr).file == "" <==> Tokens(argstr) == []
  {
    TokensNonEmpty(argstr);
    if Tokens(argstr) != [] {
      assert Tokens(argstr)[0] in Tokens(argstr);
    }
  }

  /** A backslash followed by anything but a quote puts both characters into the token. */
  lemma EscapedCharacter(s: string, c: char)
    requires !Scan(s).escape && c != '"'
    ensures Scan(s + ['\\', c]) == Scan(s).(buffer := Scan(s).buffer + ['\\', c])
  {
    var t := s + ['\\'];
    ScanSnoc(s, '\\');
    var st := Scan(s).(escape := true);
    assert Scan(t) == st;
    ScanSnoc(t, c);
    assert t + [c] == s + ['\\', c];
    assert Step(st, c) == Scan(s).(buffer := Scan(s).buffer + ['\\', c]);
  }

  /** `\"` puts a lone quote into the token and leaves quote mode as it was. */
  lemma EscapedQuote(s: string)
    requires !Scan(s).escape
    ensures Scan(s + ['\\', '"']) == Scan(s).(buffer := Scan(s).buffer + ['"'])
  {
    var t := s + ['\\'];
    ScanSnoc(s, '\\');
    var st := Scan(s).(escape := true);
    assert Scan(t) == st;
    ScanSnoc(t, '"');
    assert t + ['"'] == s + ['\\', '"'];
    assert Step(st, '"') == Scan(s).(buffer := Scan(s).buffer + ['"']);
  }

  /** An unescaped quote only toggles quote mode: nothing is added to any token. */
  lemma UnescapedQuote(s: string)
    requires !Scan(s).escape
    ensures Scan(s + ['"']) == Scan(s).(quotes := !Scan(s).quotes)
  {
    ScanSnoc(s, '"');
  }

  /** Inside quotes a space is part of the token. */
  lemma QuotedSpace(s: string)
    requires !Scan(s).escape && Scan(s).quotes
    ensures Scan(s + [' ']) == Scan(s).(buffer := Scan(s).buffer + [' '])
  {
    ScanSnoc(s, ' ');
  }

  /** A lone backslash at the very end of the input is dropped. */
  lemma TrailingBackslash(s: string)
    requires !Scan(s).escape
    ensures Tokens(s + ['\\']) == Tokens(s)
  {
    ScanSnoc(s, '\\');
  }

  /** The number of backslashes that end `s`. */
  function TrailingBackslashes(s: string): nat {
    if s != [] && s[|s| - 1] == '\\' then 1 + TrailingBackslashes(s[..|s| - 1]) else 0
  }

  /** The scanner is in escape mode exactly after an odd run of backslashes. */
  lemma {:induction false} EscapeParity(s: string)
    ensures Scan(s).escape <==> TrailingBackslashes(s) % 2 == 1
  {
    if s != [] {
      EscapeParity(s[..|s| - 1]);
    }
  }

  /** Without backslashes no quote character ever reaches a token. */
  lemma {:induction false} QuotesNeverEmittedUnescaped(s: string)
    requires '\\' !in s
    ensures forall t :: t in Tokens(s) ==> '"' !in t
  {
    ScanWithoutBackslash(s);
  }

  lemma {:induction false} ScanWithoutBackslash(s: string)
    requires '\\' !in s
    ensures !Scan(s).escape && '"' !in Scan(s).buffer
    ensures forall t :: t in Scan(s).tokens ==> '"' !in t
  {
    if s != [] {
      assert s[|s| - 1] in s;
      ScanWithoutBackslash(s[..|s| - 1]);
    }
  }

  /** The non-empty strings of `xs`, in order. */
  function NonEmpty(xs: seq<string>): seq<string> {
    if xs == [] then []
    else NonEmpty(xs[..|xs| - 1]) + (if xs[|xs| - 1] != [] then [xs[|xs| - 1]] else [])
  }

  lemma NonEmptySnoc(xs: seq<string>, x: string)
    ensures NonEmpty(xs + [x]) == NonEmpty(xs) + (if x != [] then [x] else [])
  {
    assert (xs + [x])[..|xs|] == xs;
  }

  /**
   * On input with neither backslashes nor quotes, the tokenizer is String.Split(' ')
   * with the empty pieces removed.
   */
  lemma PlainInput(s: string)
    requires '\\' !in s && '"' !in s
    ensures Tokens(s) == NonEmpty(SplitOn(s, ' '))
  {
    ScanPlain(s);
    var p := SplitOn(s, ' ');
    assert p == p[..|p| - 1] + [p[|p| - 1]];
    NonEmptySnoc(p[..|p| - 1], p[|p| - 1]);
  }

  lemma {:induction false} ScanPlain(s: string)
    requires '\\' !in s && '"' !in s
    ensures var p := SplitOn(s, ' ');
      Scan(s) == Scanner(false, false, p[|p| - 1], NonEmpty(p[..|p| - 1]))
  {
    if s != [] {
      var init, c := s[..|s| - 1], s[|s| - 1];
      assert c in s;
      assert s == init + [c];
      ScanPlain(init);
      var p := SplitOn(init, ' ');
      SplitSnoc(init, c, ' ');
      ScanSnoc(init, c);
      if c == ' ' {
        assert p == p[..|p| - 1] + [p[|p| - 1]];
        NonEmptySnoc(p[..|p| - 1], p[|p| - 1]);
        assert (p + [[]])[..|p|] == p;
      } else {
        var q := p[..|p| - 1] + [p[|p| - 1] + [c]];
        assert q[..|q| - 1] == p[..|p| - 1];
      }
    }
  }
}
