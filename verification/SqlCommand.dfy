// The writing side of the SQL Server bridge: shellQuote and mssqlSQLCmdShell,
// proved to be read back by the POSIX lexer as exactly the intended arguments.
module SqlCommand {
  import opened Wrappers
  import opened ShellLexer

  // strings.ReplaceAll of one character.
  function ReplaceAll(s: string, c: char, repl: string): string {
    if s == [] then "" else (if s[0] == c then repl else [s[0]]) + ReplaceAll(s[1..], c, repl)
  }

  function ShellQuote(s: string): string {
    "'" + ReplaceAll(s, '\'', "'\"'\"'") + "'"
  }

  const LOOKUP :=
    "command -v sqlcmd || command -v " + "/opt/mssql-tools18/bin/sqlcmd"
    + " || command -v " + "/opt/mssql-tools/bin/sqlcmd"

  const BEFORE := ["-S", "localhost", "-U"]
  const AFTER := ["-C", "-b", "-l", "5", "-h", "-1", "-W", "-w", "65535", "-Q"]

  // Flags as the format string writes them: " -a -b ...".
  function Spaced(ws: seq<string>): string {
    if ws == [] then "" else " " + ws[0] + Spaced(ws[1..])
  }

  function CommandLine(lookup: string, before: seq<string>, username: string,
                       after: seq<string>, query: string): string {
    "SQLCMD=\"$(" + lookup + ")\" && \"$SQLCMD\"" + Spaced(before) + " " + ShellQuote(username)
    + Spaced(after) + " " + ShellQuote(query)
  }

  function SqlCmdShell(username: string, query: string): string {
    CommandLine(LOOKUP, BEFORE, username, AFTER, query)
  }

  function Letters(s: string, quoted: bool): seq<Piece> {
    seq(|s|, i requires 0 <= i < |s| => Lit(s[i], quoted))
  }

  // The words a shell command receives, in order.
  function Arguments(ts: seq<Token>): seq<Option<string>> {
    seq(|ts|, i requires 0 <= i < |ts| => Argument(ts[i]))
  }

  function Somes(ws: seq<string>): seq<Option<string>> {
    seq(|ws|, i requires 0 <= i < |ws| => Some(ws[i]))
  }

  lemma Advance(head: string, tail: string, st: LexState)
    requires head != [] && Step(head + tail, st).0 == |head|
    ensures Lex(head + tail, st) == Lex(tail, Step(head + tail, st).1)
  {
    assert (head + tail)[|head|..] == tail;
  }

  lemma Moves(head: string, tail: string, st: LexState, st': LexState)
    requires head != [] && Step(head + tail, st) == (|head|, st')
    ensures Lex(head + tail, st) == Lex(tail, st')
  {
    Advance(head, tail, st);
  }

  // ---- quoted text ----

  // A single quote leaves the quotation, is written inside double quotes, and
  // the quotation is entered again.
  lemma EscapedQuoteReads(rest: string, st: LexState)
    requires st.nest == [Single] && st.word.Some? && st.raw == ""
    ensures Lex("'\"'\"'" + rest, st) == Lex(rest, st.(word := Some(st.word.value + [Lit('\'', true)])))
  {
    hide Lex;
    var s1, s2 := "'" + rest, "\"" + ("'" + rest);
    var s3, s4 := "'" + ("\"" + ("'" + rest)), "\"" + ("'" + ("\"" + ("'" + rest)));
    assert "'\"'\"'" + rest == "'" + s4;
    var st' := st.(word := Some(st.word.value + [Lit('\'', true)]));
    Moves("'", s4, st, st.(nest := []));
    assert [] + [Double] == [Double];
    Moves("\"", s3, st.(nest := []), st.(nest := [Double]));
    Moves("'", s2, st.(nest := [Double]), st'.(nest := [Double]));
    Moves("\"", s1, st'.(nest := [Double]), st'.(nest := []));
    Moves("'", rest, st'.(nest := []), st');
  }

  lemma {:induction false} QuotedBodyReads(s: string, rest: string, st: LexState)
    requires st.nest == [Single] && st.word.Some? && st.raw == ""
    ensures Lex(ReplaceAll(s, '\'', "'\"'\"'") + ("'" + rest), st)
         == Lex(rest, st.(nest := [], word := Some(st.word.value + Letters(s, true))))
    decreases |s|
  {
    var end := "'" + rest;
    if s == [] {
      assert ReplaceAll(s, '\'', "'\"'\"'") + end == end;
      Advance("'", rest, st);
      assert st.word.value + Letters(s, true) == st.word.value;
    } else {
      var body := ReplaceAll(s[1..], '\'', "'\"'\"'") + end;
      var st' := st.(word := Some(st.word.value + [Lit(s[0], true)]));
      if s[0] == '\'' {
        assert ReplaceAll(s, '\'', "'\"'\"'") + end == "'\"'\"'" + body;
        EscapedQuoteReads(body, st);
      } else {
        assert ReplaceAll(s, '\'', "'\"'\"'") + end == [s[0]] + body;
        Advance([s[0]], body, st);
      }
      QuotedBodyReads(s[1..], rest, st');
      assert st'.word.value + Letters(s[1..], true) == st.word.value + Letters(s, true);
    }
  }

  // Whatever the text, its quoted form extends the current word by exactly that
  // text, every character of it quoted, and leaves the lexer outside quotes.
  lemma ShellQuoteReads(s: string, rest: string, st: LexState)
    requires st.nest == [] && st.raw == ""
    ensures Lex(ShellQuote(s) + rest, st)
         == Lex(rest, st.(word := Some(Pieces(st.word) + Letters(s, true))))
  {
    var body := ReplaceAll(s, '\'', "'\"'\"'");
    assert ShellQuote(s) + rest == "'" + (body + ("'" + rest));
    Advance("'", body + ("'" + rest), st);
    QuotedBodyReads(s, rest, st.(word := Some(Pieces(st.word)), nest := [Single]));
  }

  // shellQuote(s) alone is one word, and that word is s.
  lemma ShellQuoteIsOneWord(s: string)
    ensures Tokenize(ShellQuote(s)) == Ok([Word(Letters(s, true))])
    ensures Argument(Word(Letters(s, true))) == Some(s)
  {
    ShellQuoteReads(s, "", START);
    assert ShellQuote(s) + "" == ShellQuote(s);
    var word: Option<seq<Piece>> := Some(Letters(s, true));
    assert Pieces(START.word) + Letters(s, true) == Letters(s, true);
    assert Delimit(START.(word := word)).done == [Word(Letters(s, true))];
    assert Lex("", START.(word := word)) == Ok([Word(Letters(s, true))]);
    assert LiteralText(Letters(s, true)) == s;
  }

  lemma ShellQuoteInjective(a: string, b: string)
    requires ShellQuote(a) == ShellQuote(b)
    ensures a == b
  {
    ShellQuoteIsOneWord(a);
    ShellQuoteIsOneWord(b);
    var ta, tb := [Word(Letters(a, true))], [Word(Letters(b, true))];
    assert ta[0] == tb[0];
  }

  // ---- the fixed parts of the command ----

  lemma {:induction false} PlainReads(w: string, rest: string, st: LexState)
    requires st.nest == []
    requires forall i :: 0 <= i < |w| ==> IsPlain(w[i])
    requires w != [] && (st.word.Some? || w[0] != '#')
    ensures Lex(w + rest, st) == Lex(rest, st.(word := Some(Pieces(st.word) + Letters(w, false))))
    decreases |w|
  {
    var st' := st.(word := Some(Pieces(st.word) + [Lit(w[0], false)]));
    assert w + rest == [w[0]] + (w[1..] + rest);
    Advance([w[0]], w[1..] + rest, st);
    if |w| > 1 {
      PlainReads(w[1..], rest, st');
      assert Pieces(st'.word) + Letters(w[1..], false) == Pieces(st.word) + Letters(w, false);
    } else {
      assert w[1..] + rest == rest;
      assert [Lit(w[0], false)] == Letters(w, false);
    }
  }

  predicate IsRaw(c: char) {
    c != ')' && c != '(' && !IsQuoting(c)
  }

  lemma {:induction false} CommandTextReads(w: string, rest: string, st: LexState)
    requires st.nest == [Double, Expansion(')')]
    requires forall i :: 0 <= i < |w| ==> IsRaw(w[i])
    ensures Lex(w + rest, st) == Lex(rest, st.(raw := st.raw + w))
    decreases |w|
  {
    if w == [] {
      assert w + rest == rest && st.raw + w == st.raw;
    } else {
      assert w + rest == [w[0]] + (w[1..] + rest);
      assert st.nest[|st.nest| - 1] == Expansion(')');
      Advance([w[0]], w[1..] + rest, st);
      CommandTextReads(w[1..], rest, st.(raw := st.raw + [w[0]]));
      assert st.raw + [w[0]] + w[1..] == st.raw + w;
    }
  }

  function BareWords(ws: seq<string>): seq<Token> {
    seq(|ws|, i requires 0 <= i < |ws| => Word(Letters(ws[i], false)))
  }

  // Flags use letters, digits and '-' only, so nothing in them is special.
  predicate IsFlag(w: string) {
    && w != ""
    && forall i :: 0 <= i < |w| ==>
         'a' <= w[i] <= 'z' || 'A' <= w[i] <= 'Z' || '0' <= w[i] <= '9' || w[i] == '-'
  }

  lemma {:induction false} FlagsRead(ws: seq<string>, rest: string, st: LexState)
    requires st.nest == [] && st.word.Some?
    requires forall i :: 0 <= i < |ws| ==> IsFlag(ws[i])
    ensures Lex(Spaced(ws) + (" " + rest), st)
         == Lex(rest, st.(done := st.done + [Word(st.word.value)] + BareWords(ws), word := None))
    decreases |ws|
  {
    if ws == [] {
      assert Spaced(ws) + (" " + rest) == " " + rest;
      Advance(" ", rest, st);
      assert st.done + [Word(st.word.value)] + BareWords(ws) == st.done + [Word(st.word.value)];
    } else {
      var tail := Spaced(ws[1..]) + (" " + rest);
      var done := st.done + [Word(st.word.value)];
      assert Spaced(ws) + (" " + rest) == " " + (ws[0] + tail);
      Advance(" ", ws[0] + tail, st);
      PlainReads(ws[0], tail, st.(done := done, word := None));
      var letters := Letters(ws[0], false);
      assert [] + letters == letters;
      FlagsRead(ws[1..], rest, st.(done := done, word := Some(letters)));
      assert done + [Word(letters)] + BareWords(ws[1..]) == done + BareWords(ws);
    }
  }

  // ---- the command line as a whole ----

  function LookupWord(command: string): Token {
    Word(Letters("SQLCMD=", false) + [Command(command, true)])
  }

  function InLookup(command: string): LexState {
    LexState([], Some(Letters("SQLCMD=", false)), [Double, Expansion(')')], command)
  }

  // The assignment word, up to the end of the substituted command's text.
  lemma LookupOpens(command: string, rest: string)
    requires forall i :: 0 <= i < |command| ==> IsRaw(command[i])
    ensures Lex("SQLCMD=\"$(" + (command + rest), START) == Lex(rest, InLookup(command))
  {
    var name := Letters("SQLCMD=", false);
    var st := START.(word := Some(name));
    var r := command + rest;
    assert "SQLCMD=\"$(" + r == "SQLCMD=" + ("\"" + ("$(" + r));
    PlainReads("SQLCMD=", "\"" + ("$(" + r), START);
    assert Pieces(START.word) + name == name;
    assert [] + [Double] == [Double];
    Moves("\"", "$(" + r, st, st.(nest := [Double]));
    assert !Collecting([Double]);
    assert [Double] + [Expansion(')')] == [Double, Expansion(')')];
    Moves("$(", r, st.(nest := [Double]), InLookup(""));
    CommandTextReads(command, rest, InLookup(""));
    assert "" + command == command;
  }

  lemma LookupCloses(command: string, rest: string)
    ensures Lex(")" + ("\"" + (" " + rest)), InLookup(command)) == Lex(rest, START.(done := [LookupWord(command)]))
  {
    var name := Letters("SQLCMD=", false);
    var closed := START.(word := Some(name + [Command(command, true)]));
    assert InLookup(command).nest[1] == Expansion(')') && InLookup(command).nest[..1] == [Double];
    assert !Collecting([Double]);
    Moves(")", "\"" + (" " + rest), InLookup(command), closed.(nest := [Double]));
    Moves("\"", " " + rest, closed.(nest := [Double]), closed);
    assert START.done + [LookupWord(command)] == [LookupWord(command)];
    Moves(" ", rest, closed, START.(done := [LookupWord(command)]));
  }

  lemma AndReads(rest: string, done: seq<Token>)
    ensures Lex("&&" + (" " + rest), START.(done := done)) == Lex(rest, START.(done := done + [Operator("&&")]))
  {
    var s := "&&" + (" " + rest);
    assert s[..2] == "&&" && s[..3][0] == '&';
    assert OperatorLength(s) == 2;
    var st := START.(done := done + [Operator("&&")]);
    Moves("&&", " " + rest, START.(done := done), st);
    Moves(" ", rest, st, st);
  }

  lemma {:induction false} NameReads(name: string, rest: string)
    requires forall i :: 0 <= i < |name| ==> IsNameChar(name[i])
    requires rest == "" || !IsNameChar(rest[0])
    ensures NameLength(name + rest) == |name|
    decreases |name|
  {
    if name == "" {
      assert name + rest == rest;
    } else {
      assert (name + rest)[1..] == name[1..] + rest;
      NameReads(name[1..], rest);
    }
  }

  lemma VariableStep(rest: string, st: LexState)
    requires st.nest == [Double]
    ensures Step("$SQLCMD" + ("\"" + rest), st) == (7, Add(st, Parameter("SQLCMD", true)))
  {
    var s := "$SQLCMD" + ("\"" + rest);
    assert s[1..] == "SQLCMD" + ("\"" + rest);
    NameReads("SQLCMD", "\"" + rest);
    assert s[1..7] == "SQLCMD";
    assert !Collecting(st.nest);
    assert s[0] == '$' && s[1] == 'S';
    assert Dollar(s, st) == (7, Add(st, Parameter("SQLCMD", true)));
  }

  lemma VariableReads(rest: string, done: seq<Token>)
    ensures Lex("\"" + ("$SQLCMD" + ("\"" + rest)), START.(done := done))
         == Lex(rest, START.(done := done, word := Some([Parameter("SQLCMD", true)])))
  {
    var st := START.(done := done);
    var entered := st.(word := Some([]), nest := [Double]);
    var named := st.(word := Some([Parameter("SQLCMD", true)]));
    assert [] + [Double] == [Double];
    Moves("\"", "$SQLCMD" + ("\"" + rest), st, entered);
    VariableStep(rest, entered);
    assert [] + [Parameter("SQLCMD", true)] == [Parameter("SQLCMD", true)];
    Moves("$SQLCMD", "\"" + rest, entered, named.(nest := [Double]));
    Moves("\"", rest, named.(nest := [Double]), named);
  }

  // The tokens of the command line: the assignment, "&&", the variable run, then
  // its arguments.
  function CommandTokens(lookup: string, before: seq<string>, username: string,
                         after: seq<string>, query: string): seq<Token> {
    [LookupWord(lookup), Operator("&&"), Word([Parameter("SQLCMD", true)])]
    + BareWords(before) + [Word(Letters(username, true))]
    + BareWords(after) + [Word(Letters(query, true))]
  }

  predicate AllRaw(s: string) {
    forall i :: 0 <= i < |s| ==> IsRaw(s[i])
  }

  lemma LookupIsRaw()
    ensures AllRaw(LOOKUP)
  {
    LookupStartIsRaw();
    ToolPathsAreRaw();
    assert AllRaw(" || command -v ");
    hide IsRaw;
  }

  lemma LookupStartIsRaw()
    ensures AllRaw("command -v sqlcmd || command -v ")
  {
  }

  lemma ToolPathsAreRaw()
    ensures AllRaw("/opt/mssql-tools18/bin/sqlcmd")
    ensures AllRaw("/opt/mssql-tools/bin/sqlcmd")
  {
  }

  lemma FlagsAreFlags()
    ensures forall w :: w in BEFORE + AFTER ==> IsFlag(w)
  {
    assert IsFlag("localhost") && IsFlag("65535");
  }

  lemma QuotedWordReads(s: string, rest: string, done: seq<Token>)
    ensures Lex(ShellQuote(s) + rest, START.(done := done))
         == Lex(rest, START.(done := done, word := Some(Letters(s, true))))
  {
    ShellQuoteReads(s, rest, START.(done := done));
    assert [] + Letters(s, true) == Letters(s, true);
  }

  // Word by word from the first argument on.
  lemma ArgumentsRead(before: seq<string>, username: string, after: seq<string>, query: string,
                      done: seq<Token>, word: seq<Piece>)
    requires forall w :: w in before + after ==> IsFlag(w)
    ensures Lex(Spaced(before) + (" " + (ShellQuote(username) + (Spaced(after) + (" " + ShellQuote(query))))),
                START.(done := done, word := Some(word)))
         == Ok(done + [Word(word)] + BareWords(before) + [Word(Letters(username, true))]
               + BareWords(after) + [Word(Letters(query, true))])
  {
    assert forall i :: 0 <= i < |before| ==> before[i] in before + after;
    assert forall i :: 0 <= i < |after| ==> after[i] in before + after;
    var tail := Spaced(after) + (" " + ShellQuote(query));
    var done1 := done + [Word(word)] + BareWords(before);
    FlagsRead(before, ShellQuote(username) + tail, START.(done := done, word := Some(word)));
    QuotedWordReads(username, tail, done1);
    var done2 := done1 + [Word(Letters(username, true))] + BareWords(after);
    FlagsRead(after, ShellQuote(query), START.(done := done1, word := Some(Letters(username, true))));
    assert ShellQuote(query) == ShellQuote(query) + "";
    QuotedWordReads(query, "", done2);
    assert Lex("", START.(done := done2, word := Some(Letters(query, true))))
        == Ok(done2 + [Word(Letters(query, true))]);
  }

  lemma Regroup(a: string, b: string, c: string, d: string, e: string, f: string)
    ensures a + b + ")\" && \"$SQLCMD\"" + c + " " + d + e + " " + f
         == a + (b + (")" + ("\"" + (" " + ("&&" + (" " + ("\"" + ("$SQLCMD" + ("\"" +
            (c + (" " + (d + (e + (" " + f))))))))))))))
  {
    assert ")\" && \"$SQLCMD\"" == ")" + ("\"" + (" " + ("&&" + (" " + ("\"" + ("$SQLCMD" + "\""))))));
  }

  // Everything up to the first argument.
  lemma ProgramReads(lookup: string, rest: string)
    requires AllRaw(lookup)
    ensures Lex("SQLCMD=\"$(" +
                (lookup + (")" + ("\"" + (" " + ("&&" + (" " + ("\"" + ("$SQLCMD" + ("\"" + rest))))))))), START)
         == Lex(rest, START.(done := [LookupWord(lookup), Operator("&&")], word := Some([Parameter("SQLCMD", true)])))
  {
    var variable := "\"" + ("$SQLCMD" + ("\"" + rest));
    LookupThenAnd(lookup, variable);
    VariableReads(rest, [LookupWord(lookup), Operator("&&")]);
  }

  lemma LookupThenAnd(lookup: string, rest: string)
    requires AllRaw(lookup)
    ensures Lex("SQLCMD=\"$(" + (lookup + (")" + ("\"" + (" " + ("&&" + (" " + rest)))))), START)
         == Lex(rest, START.(done := [LookupWord(lookup), Operator("&&")]))
  {
    var and := "&&" + (" " + rest);
    LookupOpens(lookup, ")" + ("\"" + (" " + and)));
    LookupCloses(lookup, and);
    AndReads(rest, [LookupWord(lookup)]);
    assert [LookupWord(lookup)] + [Operator("&&")] == [LookupWord(lookup), Operator("&&")];
  }

  lemma CommandLineReads(lookup: string, before: seq<string>, username: string, after: seq<string>, query: string)
    requires AllRaw(lookup)
    requires forall w :: w in before + after ==> IsFlag(w)
    ensures Tokenize(CommandLine(lookup, before, username, after, query))
         == Ok(CommandTokens(lookup, before, username, after, query))
  {
    var arguments := Spaced(before) + (" " + (ShellQuote(username) + (Spaced(after) + (" " + ShellQuote(query)))));
    Regroup("SQLCMD=\"$(", lookup, Spaced(before), ShellQuote(username), Spaced(after), ShellQuote(query));
    ProgramReads(lookup, arguments);
    var done := [LookupWord(lookup), Operator("&&")];
    var run := Word([Parameter("SQLCMD", true)]);
    assert done + [run] == [LookupWord(lookup), Operator("&&"), run];
    ArgumentsRead(before, username, after, query, done, [Parameter("SQLCMD", true)]);
  }

  lemma QuotedArgument(s: string)
    ensures Argument(Word(Letters(s, true))) == Some(s)
  {
    assert LiteralText(Letters(s, true)) == s;
  }

  lemma BareArgument(s: string)
    requires IsFlag(s)
    ensures Argument(Word(Letters(s, false))) == Some(s)
  {
    assert LiteralText(Letters(s, false)) == s;
  }

  // Whatever quotes, dollars, backslashes or newlines the two strings hold, the
  // command line is the sqlcmd lookup, "&&", and one run of the program found,
  // whose arguments no expansion can alter: the fixed flags with exactly this
  // username after -U and this query after -Q.
  lemma SqlCmdShellReads(username: string, query: string)
    ensures var tokens := Tokenize(SqlCmdShell(username, query));
      && tokens.Ok? && |tokens.value| >= 3
      && tokens.value[0] == Word(Letters("SQLCMD=", false) + [Command(
           "command -v sqlcmd || command -v " + "/opt/mssql-tools18/bin/sqlcmd"
           + " || command -v " + "/opt/mssql-tools/bin/sqlcmd", true)])
      && tokens.value[1] == Operator("&&")
      && tokens.value[2] == Word([Parameter("SQLCMD", true)])
      && Arguments(tokens.value[3..]) == Somes(
           ["-S", "localhost", "-U", username, "-C", "-b", "-l", "5", "-h", "-1", "-W", "-w", "65535", "-Q", query])
  {
    LookupIsRaw();
    FlagsAreFlags();
    CommandLineReads(LOOKUP, BEFORE, username, AFTER, query);
    ArgumentList(LOOKUP, BEFORE, username, AFTER, query);
    FlagsSpelled(username, query);
    hide Tokenize, CommandLine, Arguments, Somes, Letters;
    var tokens := CommandTokens(LOOKUP, BEFORE, username, AFTER, query);
    assert tokens[..3][0] == tokens[0] && tokens[..3][1] == tokens[1] && tokens[..3][2] == tokens[2];
  }

  lemma FlagsSpelled(username: string, query: string)
    ensures BEFORE + [username] + AFTER + [query] ==
      ["-S", "localhost", "-U", username, "-C", "-b", "-l", "5", "-h", "-1", "-W", "-w", "65535", "-Q", query]
  {
  }

  lemma ArgumentList(lookup: string, before: seq<string>, username: string, after: seq<string>, query: string)
    requires forall w :: w in before + after ==> IsFlag(w)
    ensures var ts := CommandTokens(lookup, before, username, after, query);
      && ts[..3] == [LookupWord(lookup), Operator("&&"), Word([Parameter("SQLCMD", true)])]
      && Arguments(ts[3..]) == Somes(before + [username] + after + [query])
  {
    var words := before + [username] + after + [query];
    var ts := CommandTokens(lookup, before, username, after, query)[3..];
    assert ts == BareWords(before) + [Word(Letters(username, true))] + BareWords(after) + [Word(Letters(query, true))];
    forall i | 0 <= i < |ts| ensures Argument(ts[i]) == Some(words[i]) {
      if i == |before| || i == |ts| - 1 {
        QuotedArgument(words[i]);
      } else {
        assert words[i] in before + after;
        BareArgument(words[i]);
      }
    }
  }
}
