/** Quoting of argument lists (backend shell.js, worker worker.js) against a reader of shell input that
    follows sections 2.2.1 (escape character), 2.2.2 (single-quotes) and 2.3 (token recognition) of the
    POSIX.1-2017 Shell Command Language. */
module ShellQuoting {
  import opened Runs

  // ----- the program -----

  /** value.replace of every single quote by quote, backslash, quote, quote. */
  function EscapeQuotes(s: string): string {
    if s == "" then "" else (if s[0] == '\'' then "'\\''" else [s[0]]) + EscapeQuotes(s[1..])
  }

  function ShQuote(value: string): string {
    "'" + EscapeQuotes(value) + "'"
  }

  /** The map(shQuote).join(' ') of a list of values. */
  function JoinQuoted(args: seq<string>): string {
    if args == [] then ""
    else if |args| == 1 then ShQuote(args[0])
    else ShQuote(args[0]) + " " + JoinQuoted(args[1..])
  }

  predicate IsShellForm(args: seq<string>) {
    |args| >= 2 && args[0] == "sh" && args[1] == "-lc"
  }

  /** An empty list still has a (missing) command, which String() turns into a word. */
  function ShellCommandFromArgs(args: seq<string>): string {
    if IsShellForm(args) then (if |args| > 2 then args[2] else "")
    else if args == [] then ShQuote("undefined")
    else JoinQuoted(args)
  }

  const HOST_NOTE := " TronFire host Firebird script"

  /** The text sent to the host. */
  function HostScript(args: seq<string>): string {
    "#" + (HOST_NOTE + "\n" + (ShellCommandFromArgs(args) + "\n"))
  }

  // ----- the shell's reader -----

  datatype Token = Word(text: string) | NewLine
  datatype Mode = Plain | Quoted | Comment

  function Delimit(word: Option<string>): seq<Token> {
    if word.Some? then [Word(word.value)] else []
  }

  function Grow(word: Option<string>, c: char): Option<string> {
    Some((if word.Some? then word.value else "") + [c])
  }

  function Prepend(head: seq<Token>, tail: Option<seq<Token>>): Option<seq<Token>> {
    if tail.Some? then Some(head + tail.value) else None
  }

  /** Reads input one character at a time; word is the token being built, if one has begun. None: input
      the three sections do not cover (expansions, operators, double quotes) or that ends inside a quote. */
  function Tokens(input: string, mode: Mode, word: Option<string>): Option<seq<Token>>
    decreases |input|
  {
    if input == "" then
      if mode == Quoted then None else Some(Delimit(word))
    else
      var c, rest := input[0], input[1..];
      match mode
      case Quoted =>
        if c == '\'' then Tokens(rest, Plain, word) else Tokens(rest, Quoted, Grow(word, c))
      case Comment =>
        if c == '\n' then Prepend([NewLine], Tokens(rest, Plain, None)) else Tokens(rest, Comment, None)
      case Plain =>
        if c == '\'' then Tokens(rest, Quoted, Some(if word.Some? then word.value else ""))
        else if c == '\\' then
          if rest == "" then None
          else if rest[0] == '\n' then Tokens(rest[1..], Plain, word)
          else Tokens(rest[1..], Plain, Grow(word, rest[0]))
        else if c == ' ' || c == '\t' then Prepend(Delimit(word), Tokens(rest, Plain, None))
        else if c == '\n' then Prepend(Delimit(word) + [NewLine], Tokens(rest, Plain, None))
        else if c == '#' && word.None? then Tokens(rest, Comment, None)
        else if c in "|&;<>()$`\"" then None
        else Tokens(rest, Plain, Grow(word, c))
  }

  function Words(args: seq<string>): seq<Token> {
    seq(|args|, i requires 0 <= i < |args| => Word(args[i]))
  }

  // ----- what the reader makes of quoted text -----

  /** Inside single quotes, escaped text is read back character for character, then the quote closes. */
  lemma {:induction false} ReadEscaped(value: string, rest: string, word: string)
    ensures Tokens(EscapeQuotes(value) + "'" + rest, Quoted, Some(word)) == Tokens(rest, Plain, Some(word + value))
    decreases |value|
  {
    if value == "" {
      assert EscapeQuotes(value) + "'" + rest == "'" + rest;
      assert ("'" + rest)[1..] == rest;
      assert word + value == word;
    } else {
      var tail := EscapeQuotes(value[1..]) + "'" + rest;
      var grown := word + [value[0]];
      ReadEscaped(value[1..], rest, grown);
      assert grown + value[1..] == word + value;
      if value[0] == '\'' {
        var i3 := "'" + tail;
        var i2 := "\\'" + i3;
        var i1 := "'" + i2;
        assert EscapeQuotes(value) + "'" + rest == i1;
        assert i1[1..] == i2 && i2[1..] == "'" + i3 && i2[1..][1..] == i3 && i3[1..] == tail;
        assert Tokens(i1, Quoted, Some(word)) == Tokens(i2, Plain, Some(word));
        assert Tokens(i2, Plain, Some(word)) == Tokens(i3, Plain, Some(grown));
        assert Tokens(i3, Plain, Some(grown)) == Tokens(tail, Quoted, Some(grown));
      } else {
        assert EscapeQuotes(value) + "'" + rest == [value[0]] + tail;
        assert ([value[0]] + tail)[1..] == tail;
      }
    }
  }

  lemma ReadQuoted(value: string, rest: string)
    ensures Tokens(ShQuote(value) + rest, Plain, None) == Tokens(rest, Plain, Some(value))
  {
    var inner := EscapeQuotes(value) + "'" + rest;
    assert ShQuote(value) + rest == "'" + inner;
    assert ("'" + inner)[1..] == inner;
    ReadEscaped(value, rest, "");
    assert "" + value == value;
  }

  /** The tokens after the last word of a command that ends the input or its line. */
  function EndOf(rest: string): seq<Token> {
    if rest == "" then [] else [NewLine]
  }

  lemma ReadEnd(word: string, rest: string)
    requires rest == "" || rest == "\n"
    ensures Tokens(rest, Plain, Some(word)) == Some([Word(word)] + EndOf(rest))
  {
    if rest == "" {
      assert [Word(word)] + EndOf(rest) == [Word(word)];
    } else {
      assert rest[0] == '\n' && rest[1..] == "";
      assert Tokens("", Plain, None) == Some([]);
      assert [Word(word)] + [NewLine] + [] == [Word(word)] + EndOf(rest);
    }
  }

  lemma ReadSpace(word: string, more: string)
    ensures Tokens(" " + more, Plain, Some(word)) == Prepend([Word(word)], Tokens(more, Plain, None))
  {
    assert (" " + more)[1..] == more;
  }

  lemma {:induction false} ReadJoined(args: seq<string>, rest: string)
    requires args != []
    requires rest == "" || rest == "\n"
    ensures Tokens(JoinQuoted(args) + rest, Plain, None) == Some(Words(args) + EndOf(rest))
    decreases |args|
  {
    if |args| == 1 {
      ReadQuoted(args[0], rest);
      ReadEnd(args[0], rest);
      assert Words(args) == [Word(args[0])];
    } else {
      var more := JoinQuoted(args[1..]) + rest;
      assert JoinQuoted(args) + rest == ShQuote(args[0]) + (" " + more);
      ReadQuoted(args[0], " " + more);
      ReadSpace(args[0], more);
      ReadJoined(args[1..], rest);
      assert Words(args) + EndOf(rest) == [Word(args[0])] + (Words(args[1..]) + EndOf(rest));
    }
  }

  /** The command text means exactly its argument list to the shell, for arbitrary strings, precisely when
      there is a command at all: an empty list becomes the one word "undefined". */
  lemma RoundTrip(args: seq<string>)
    requires !(|args| >= 2 && args[0] == "sh" && args[1] == "-lc")
    ensures Tokens(ShellCommandFromArgs(args), Plain, None) == Some(Words(args)) <==> args != []
    ensures args == [] ==> Tokens(ShellCommandFromArgs(args), Plain, None) == Some([Word("undefined")])
  {
    var given := if args == [] then ["undefined"] else args;
    ReadJoined(given, "");
    assert JoinQuoted(given) + "" == JoinQuoted(given);
    assert Words(given) + [] == Words(given);
    if args == [] {
      assert |Words(given)| == 1 && |Words(args)| == 0 && Words(given) == [Word("undefined")];
    }
  }

  lemma {:induction false} ReadComment(text: string, rest: string)
    requires '\n' !in text
    ensures Tokens(text + "\n" + rest, Comment, None) == Prepend([NewLine], Tokens(rest, Plain, None))
    decreases |text|
  {
    if text == "" {
      assert text + "\n" + rest == "\n" + rest;
      assert ("\n" + rest)[1..] == rest;
    } else {
      assert (text + "\n" + rest)[0] == text[0] && text[0] in text;
      assert (text + "\n" + rest)[1..] == text[1..] + "\n" + rest;
      assert forall c :: c in text[1..] ==> c in text;
      ReadComment(text[1..], rest);
    }
  }

  /** The whole script sent to the host is one comment line and one simple command: the direct path's argv. */
  lemma HostRunsSameArgv(args: seq<string>)
    requires args != [] && !(|args| >= 2 && args[0] == "sh" && args[1] == "-lc")
    ensures Tokens(HostScript(args), Plain, None) == Some([NewLine] + Words(args) + [NewLine])
  {
    var body := JoinQuoted(args) + "\n";
    ReadComment(HOST_NOTE, body);
    ReadJoined(args, "\n");
    assert HostScript(args)[1..] == HOST_NOTE + "\n" + body;
    assert [NewLine] + (Words(args) + [NewLine]) == [NewLine] + Words(args) + [NewLine];
  }

  /** In the sh -lc form the script is the command text, byte for byte; anything after it is dropped. */
  lemma ShellFormUnchanged(script: string, more: seq<string>)
    ensures ShellCommandFromArgs(["sh", "-lc", script] + more) == script
    ensures ShellCommandFromArgs(["sh", "-lc"]) == ""
  {
    assert (["sh", "-lc", script] + more)[2] == script;
  }

  /** No two different values have the same quoted form. */
  lemma ShQuoteInjective(a: string, b: string)
    ensures ShQuote(a) == ShQuote(b) <==> a == b
  {
    ReadQuoted(a, "");
    ReadQuoted(b, "");
    assert ShQuote(a) + "" == ShQuote(a) && ShQuote(b) + "" == ShQuote(b);
    assert Tokens("", Plain, Some(a)) == Some([Word(a)]);
    assert Tokens("", Plain, Some(b)) == Some([Word(b)]);
    assert [Word(a)][0] == Word(a) && [Word(b)][0] == Word(b);
  }
}
