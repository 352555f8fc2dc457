/** Shell quoting, against the reading a POSIX shell gives it: sections 2.2 and 2.3
    of the POSIX Shell Command Language, for commands without expansions. */
module ShellQuoting {
  import opened Bytes

  // ---- the quoter --------------------------------------------------------

  /** Every single quote becomes a closing quote, an escaped quote and an opening one. */
  function Escaped(s: string): string {
    if |s| == 0 then ""
    else (if s[0] == '\'' then "'\\''" else [s[0]]) + Escaped(s[1..])
  }

  function ShellQuote(s: string): string {
    "'" + Escaped(s) + "'"
  }

  // ---- the shell ---------------------------------------------------------

  datatype Mode = Plain | Single | Double

  /** Characters that, unquoted, make more of a text than literal words. */
  predicate Special(c: char) {
    c in "|&;<>()$`\n*?[#~=%!{}"
  }

  predicate Blank(c: char) {
    c == ' ' || c == '\t'
  }

  function Add(word: Option<string>, s: string): Option<string> {
    match word
    case None => Some(s)
    case Some(w) => Some(w + s)
  }

  /** The words of a text, read in a quoting mode with a word begun or not; None when
      the text is not just literal words. */
  function Lex(s: string, mode: Mode, word: Option<string>): Option<seq<string>>
    decreases |s|
  {
    if |s| == 0 then
      if mode != Plain then None else Some(if word.Some? then [word.value] else [])
    else
      var c, rest := s[0], s[1..];
      match mode
      case Single => if c == '\'' then Lex(rest, Plain, word) else Lex(rest, Single, Add(word, [c]))
      case Double =>
        if c == '"' then Lex(rest, Plain, word)
        else if c == '$' || c == '`' then None
        else if c == '\\' && |rest| > 0 && rest[0] == '\n' then Lex(rest[1..], Double, word)
        else if c == '\\' && |rest| > 0 && rest[0] in "$`\"\\" then Lex(rest[1..], Double, Add(word, rest[..1]))
        else Lex(rest, Double, Add(word, [c]))
      case Plain =>
        if c == '\'' then Lex(rest, Single, Add(word, ""))
        else if c == '"' then Lex(rest, Double, Add(word, ""))
        else if c == '\\' then
          if |rest| == 0 then None
          else if rest[0] == '\n' then Lex(rest[1..], Plain, word)
          else Lex(rest[1..], Plain, Add(word, rest[..1]))
        else if Blank(c) then
          if word.None? then Lex(rest, Plain, None)
          else
            match Lex(rest, Plain, None)
            case None => None
            case Some(words) => Some([word.value] + words)
        else if Special(c) then None
        else Lex(rest, Plain, Add(word, [c]))
  }

  /** The words of a command line. */
  function Words(s: string): Option<seq<string>> {
    Lex(s, Plain, None)
  }

  // ---- quoting is undone by reading --------------------------------------

  lemma {:induction false} EscapedReads(s: string, rest: string, word: string)
    ensures Lex(Escaped(s) + "'" + rest, Single, Some(word)) == Lex(rest, Plain, Some(word + s))
    decreases |s|
  {
    var t := Escaped(s) + "'" + rest;
    if |s| == 0 {
      assert t[0] == '\'' && t[1..] == rest;
      assert word + s == word;
    } else {
      EscapedReads(s[1..], rest, word + [s[0]]);
      assert word + [s[0]] + s[1..] == word + s;
      var tail := Escaped(s[1..]) + "'" + rest;
      if s[0] == '\'' {
        assert t == "'\\''" + tail;
        EscapedQuoteReads(tail, word);
      } else {
        assert t[0] == s[0] && t[1..] == tail;
      }
    }
  }

  /** The four characters that stand for a quote. */
  lemma EscapedQuoteReads(tail: string, word: string)
    ensures Lex("'\\''" + tail, Single, Some(word)) == Lex(tail, Single, Some(word + "'"))
  {
    var t := "'\\''" + tail;
    assert t[0] == '\'' && t[1] == '\\' && t[2] == '\'' && t[3] == '\'';
    assert t[1..][1..] == t[2..] && t[2..][1..] == t[3..] && t[3..][1..] == tail;
    assert t[2..][..1] == "'";
    assert Lex(t, Single, Some(word)) == Lex(t[1..], Plain, Some(word));
    assert Lex(t[1..], Plain, Some(word)) == Lex(t[3..], Plain, Some(word + "'"));
    assert word + "'" + "" == word + "'";
    assert Lex(t[3..], Plain, Some(word + "'")) == Lex(tail, Single, Some(word + "'"));
  }

  /** Main result. Wherever a quoted text stands unquoted, the shell reads it as the
      text itself, added to the word it stands in, and goes on with what follows:
      nothing in the text can end the quoting or be read as anything else. */
  lemma QuotedReads(s: string, rest: string, word: Option<string>)
    ensures Lex(ShellQuote(s) + rest, Plain, word) == Lex(rest, Plain, Add(word, s))
  {
    var t := ShellQuote(s) + rest;
    assert t[0] == '\'' && t[1..] == Escaped(s) + "'" + rest;
    var w := if word.Some? then word.value else "";
    assert w + "" == w;
    EscapedReads(s, rest, w);
    assert w + s == if word.Some? then word.value + s else s;
  }

  /** A quoted text alone is exactly one word, and that word is the text. */
  lemma QuotedIsOneWord(s: string)
    ensures Words(ShellQuote(s)) == Some([s])
  {
    QuotedReads(s, "", None);
    assert ShellQuote(s) + "" == ShellQuote(s);
  }

  predicate Harmless(c: char) {
    !Blank(c) && !Special(c) && c !in "'\"\\"
  }

  /** A command is put together from literal words and quoted ones. */
  datatype Argument = Literal(text: string) | Quoted(text: string)

  predicate Sound(a: Argument) {
    a.Literal? ==> a.text != "" && forall i :: 0 <= i < |a.text| ==> Harmless(a.text[i])
  }

  function Written(a: Argument): string {
    if a.Literal? then a.text else ShellQuote(a.text)
  }

  function Command(args: seq<Argument>): string {
    if |args| == 0 then ""
    else Written(args[0]) + if |args| == 1 then "" else " " + Command(args[1..])
  }

  function Texts(args: seq<Argument>): seq<string> {
    seq(|args|, i requires 0 <= i < |args| => args[i].text)
  }

  lemma {:induction false} LiteralReads(command: string, rest: string, word: Option<string>)
    requires command != "" && forall i :: 0 <= i < |command| ==> Harmless(command[i])
    ensures Lex(command + rest, Plain, word) == Lex(rest, Plain, Add(word, command))
    decreases |command|
  {
    var t := command + rest;
    assert t[0] == command[0] && t[1..] == command[1..] + rest;
    assert Harmless(command[0]);
    if |command| == 1 {
      assert command == [command[0]] && command[1..] + rest == rest;
    } else {
      LiteralReads(command[1..], rest, Add(word, [command[0]]));
      assert [command[0]] + command[1..] == command;
      assert word.Some? ==> word.value + [command[0]] + command[1..] == word.value + command;
    }
  }

  /** Main result. A command put together from literal words and quoted texts reads as
      exactly those words, whatever the quoted texts are. */
  lemma {:induction false} CommandReads(args: seq<Argument>)
    requires forall i :: 0 <= i < |args| ==> Sound(args[i])
    ensures Words(Command(args)) == Some(Texts(args))
    decreases |args|
  {
    if |args| > 0 {
      var a := args[0];
      var rest := if |args| == 1 then "" else " " + Command(args[1..]);
      assert Sound(a);
      if a.Literal? { LiteralReads(a.text, rest, None); } else { QuotedReads(a.text, rest, None); }
      if |args| == 1 {
        assert Texts(args) == [a.text];
      } else {
        assert rest[0] == ' ' && rest[1..] == Command(args[1..]);
        CommandReads(args[1..]);
        assert Texts(args) == [a.text] + Texts(args[1..]);
      }
    }
  }
}
