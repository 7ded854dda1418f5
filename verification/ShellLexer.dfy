// The reading side of the SQL Server bridge: token recognition as the Shell
// Command Language of POSIX.1-2017 describes it, sections 2.2 (Quoting) and 2.3
// (Token Recognition). Here-documents, aliases and reserved words do not affect
// the division of a line into words and are not part of this lexer.
module ShellLexer {
  import opened Wrappers

  // What a word is made of once its quoting is removed. "quoted" is remembered
  // because only unquoted text undergoes tilde, pathname and field expansion.
  datatype Piece =
    | Lit(c: char, quoted: bool)
    | Parameter(name: string, quoted: bool)
    | Command(text: string, quoted: bool)

  datatype Token = Word(pieces: seq<Piece>) | Operator(text: string)

  // The construct the next character is read inside of. Closing is the
  // character that ends an expansion: ')', '}' or a backquote.
  datatype Context = Single | Double | Expansion(closing: char)

  // word: the token in progress; nest: enclosing constructs, innermost last;
  // raw: source text of the expansion being collected.
  datatype LexState = LexState(done: seq<Token>, word: Option<seq<Piece>>, nest: seq<Context>, raw: string)

  const START := LexState([], None, [], "")

  predicate IsBlank(c: char) { c == ' ' || c == '\t' }

  predicate IsOperatorStart(c: char) {
    c == '&' || c == '|' || c == ';' || c == '<' || c == '>' || c == '(' || c == ')' || c == '\n'
  }

  predicate IsNameChar(c: char) {
    'a' <= c <= 'z' || 'A' <= c <= 'Z' || '0' <= c <= '9' || c == '_'
  }

  predicate IsQuoting(c: char) {
    c == '\\' || c == '\'' || c == '"' || c == '$' || c == '`'
  }

  // A character that simply joins the current word (section 2.3, rules 8 and 10).
  predicate IsPlain(c: char) {
    !IsBlank(c) && !IsOperatorStart(c) && !IsQuoting(c)
  }

  function OperatorLength(s: string): (n: nat)
    requires s != []
    ensures 1 <= n <= |s|
  {
    if |s| >= 3 && s[..3] == "<<-" then 3
    else if |s| >= 2 && s[..2] in {"&&", "||", ";;", "<<", ">>", "<&", ">&", "<>", ">|"} then 2
    else 1
  }

  function NameLength(s: string): (n: nat)
    ensures n <= |s|
  {
    if s != [] && IsNameChar(s[0]) then 1 + NameLength(s[1..]) else 0
  }

  function CommentLength(s: string): (n: nat)
    ensures n <= |s|
  {
    if s != [] && s[0] != '\n' then 1 + CommentLength(s[1..]) else 0
  }

  function Pieces(word: Option<seq<Piece>>): seq<Piece> {
    if word.Some? then word.value else []
  }

  // Inside an expansion everything, quotes included, is collected as source text.
  predicate Collecting(nest: seq<Context>) {
    exists i :: 0 <= i < |nest| && nest[i].Expansion?
  }

  predicate InDouble(nest: seq<Context>) {
    nest != [] && nest[|nest| - 1].Double?
  }

  function Take(st: LexState, text: string): LexState {
    st.(raw := st.raw + text)
  }

  function Add(st: LexState, p: Piece): LexState {
    st.(word := Some(Pieces(st.word) + [p]))
  }

  function Emit(st: LexState, c: char, quoted: bool): LexState {
    if Collecting(st.nest) then Take(st, [c]) else Add(st, Lit(c, quoted))
  }

  function Push(st: LexState, c: Context, text: string): LexState {
    var st' := if Collecting(st.nest) then Take(st, text) else st.(word := Some(Pieces(st.word)), raw := "");
    st'.(nest := st.nest + [c])
  }

  function Pop(st: LexState, text: string): LexState
    requires st.nest != []
  {
    var nest' := st.nest[..|st.nest| - 1];
    if Collecting(nest') then Take(st, text).(nest := nest')
    else if Collecting(st.nest) then Add(st, Command(st.raw, InDouble(nest'))).(nest := nest', raw := "")
    else st.(nest := nest')
  }

  function Delimit(st: LexState): LexState {
    if st.word.Some? then st.(done := st.done + [Word(st.word.value)], word := None) else st
  }

  // '$' and the backquote outside single quotes (section 2.3, rule 5).
  function Dollar(s: string, st: LexState): (r: (nat, LexState))
    requires s != [] && (s[0] == '$' || s[0] == '`')
    ensures 1 <= r.0 <= |s|
  {
    if s[0] == '`' then (1, Push(st, Expansion('`'), "`"))
    else if |s| >= 2 && s[1] == '(' then (2, Push(st, Expansion(')'), "$("))
    else if |s| >= 2 && s[1] == '{' then (2, Push(st, Expansion('}'), "${"))
    else if Collecting(st.nest) then (1, Take(st, "$"))
    else
      var quoted := InDouble(st.nest);
      var n := NameLength(s[1..]);
      if n > 0 && !('0' <= s[1] <= '9') then (1 + n, Add(st, Parameter(s[1..1 + n], quoted)))
      else if |s| >= 2 && s[1] in "@*#?-$!0123456789" then (2, Add(st, Parameter(s[1..2], quoted)))
      else (1, Add(st, Lit('$', quoted)))
  }

  // One recognition step: how many characters it consumes, and the next state.
  function Step(s: string, st: LexState): (r: (nat, LexState))
    requires s != []
    ensures 1 <= r.0 <= |s|
  {
    var c := s[0];
    if st.nest == [] then StepBare(s, st)
    else
      match st.nest[|st.nest| - 1]
      case Single =>
        if c == '\'' then (1, Pop(st, "'")) else (1, Emit(st, c, true))
      case Double =>
        if c == '"' then (1, Pop(st, "\""))
        else if c == '\\' && |s| >= 2 && s[1] in "$`\"\\\n" then
          if Collecting(st.nest) then (2, Take(st, s[..2]))
          else if s[1] == '\n' then (2, st)
          else (2, Add(st, Lit(s[1], true)))
        else if c == '$' || c == '`' then Dollar(s, st)
        else (1, Emit(st, c, true))
      case Expansion(closing) =>
        if c == closing then (1, Pop(st, [c]))
        else if c == '\\' && |s| >= 2 then (2, Take(st, s[..2]))
        else if c == '\'' then (1, Push(st, Single, "'"))
        else if c == '"' then (1, Push(st, Double, "\""))
        else if c == '(' && closing == ')' then (1, Push(st, Expansion(')'), "("))
        else if c == '$' || c == '`' then Dollar(s, st)
        else (1, Take(st, [c]))
  }

  function StepBare(s: string, st: LexState): (r: (nat, LexState))
    requires s != []
    ensures 1 <= r.0 <= |s|
  {
    var c := s[0];
    if c == '\'' then (1, Push(st, Single, "'"))
    else if c == '"' then (1, Push(st, Double, "\""))
    else if c == '$' || c == '`' then Dollar(s, st)
    else if c == '\\' then
      if |s| == 1 then (1, Add(st, Lit(c, false)))
      else if s[1] == '\n' then (2, st)
      else (2, Add(st, Lit(s[1], true)))
    else if IsOperatorStart(c) then
      var n := OperatorLength(s);
      var st' := Delimit(st);
      (n, st'.(done := st'.done + [Operator(s[..n])]))
    else if IsBlank(c) then (1, Delimit(st))
    else if c == '#' && st.word.None? then (CommentLength(s), st)
    else (1, Add(st, Lit(c, false)))
  }

  // The tokens of a command line; an unfinished quotation or expansion is an error.
  function Lex(s: string, st: LexState): Result<seq<Token>, ()>
    decreases |s|
  {
    if s == [] then
      if st.nest == [] then Ok(Delimit(st).done) else Err(())
    else
      var (n, st') := Step(s, st);
      Lex(s[n..], st')
  }

  function Tokenize(s: string): Result<seq<Token>, ()> {
    Lex(s, START)
  }

  // The argument a word stands for, when no expansion can alter it: every piece
  // is literal, and the unquoted ones are not pattern or tilde characters.
  predicate Inert(pieces: seq<Piece>) {
    forall i :: 0 <= i < |pieces| ==>
      && pieces[i].Lit?
      && (!pieces[i].quoted ==> pieces[i].c !in "*?[~")
  }

  function LiteralText(pieces: seq<Piece>): string
    requires Inert(pieces)
  {
    seq(|pieces|, i requires 0 <= i < |pieces| => pieces[i].c)
  }

  function Argument(t: Token): Option<string> {
    if t.Word? && Inert(t.pieces) then Some(LiteralText(t.pieces)) else None
  }
}
