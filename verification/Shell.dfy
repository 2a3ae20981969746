/** The shell's lexer and recursive-descent parser.

    A buffer is the string in front of the terminating NUL.  The pure functions
    work on the text that is still to be read; the lexer's loops, which walk a
    pointer over the buffer, are methods proved against them. */
module Shell {
  import opened Common

  const MAX_ARGV: nat := 20

  // include/kernel/fcntl.h, lib/include/stdio.h
  const O_RDONLY: int := 0
  const O_WRONLY: int := 1
  const O_CREAT: int := 64
  const O_APPEND: int := 1024
  const STDIN: int := 0
  const STDOUT: int := 1

  datatype TokenType =
    | EOF | GT | GTGT | LT | LPAREN | RPAREN | SEMI | BACK | AND | PIPE | OR | STRING

  /** A token and, for a word, its text between the quotes if it had any.  The
      text is missing when the recorded length is negative. */
  datatype Token = Token(typ: TokenType, text: Option<string>)

  /** The lexer: the peeked token and what follows it. */
  datatype Lex = Lex(tok: Token, rest: string)

  datatype Cmd =
    | Exec(argv: seq<string>)
    | Redir(cmd: Cmd, fd: int, mode: int, file: string)
    | List(left: Cmd, right: Cmd)
    | Back(cmd: Cmd)
    | Pipe(left: Cmd, right: Cmd)
    | Binary(left: Cmd, right: Cmd, op: TokenType)

  // ------------------------------------------------------------------
  // Lexer
  // ------------------------------------------------------------------

  predicate IsSpace(c: char) {
    c == ' ' || c == '\n' || c == '\r' || c == '\t' || c == '\U{000C}'
  }

  predicate IsSymbol(c: char) {
    c == '<' || c == '>' || c == '&' || c == '|' || c == ';' || c == '(' || c == ')'
  }

  function SkipSpace(s: string): (r: string)
    ensures |r| <= |s| && (r != [] ==> !IsSpace(r[0]))
  {
    if s != [] && IsSpace(s[0]) then SkipSpace(s[1..]) else s
  }

  function SkipComment(s: string): (r: string)
    ensures |r| <= |s|
  {
    if s == [] || s[0] == '\n' || s[0] == '\r' then s else SkipComment(s[1..])
  }

  /** How many characters read_string passes over. */
  function WordLength(s: string): (n: nat)
    ensures n <= |s|
    ensures s != [] && !IsSymbol(s[0]) && !IsSpace(s[0]) ==> n > 0
  {
    if s == [] || IsSymbol(s[0]) || IsSpace(s[0]) then 0
    else if s[0] == '\\' then
      if |s| == 1 then 1 else 2 + WordLength(s[2..])
    else 1 + WordLength(s[1..])
  }

  /** How many characters read_string_with_quotes passes over, the closing
      quote included. */
  function QuoteLength(s: string, quote: char): (n: nat)
    ensures n <= |s| && (s != [] ==> n > 0)
  {
    if s == [] then 0
    else if s[0] == quote then 1
    else if s[0] == '\\' && quote == '"' then
      if |s| == 1 then 1 else 2 + QuoteLength(s[2..], quote)
    else 1 + QuoteLength(s[1..], quote)
  }

  function Plain(t: TokenType, rest: string): Lex {
    Lex(Token(t, None), rest)
  }

  /** The operator at the head of `s` and its length, or length 0. */
  function Operator(s: string): (r: (TokenType, nat))
    requires s != []
    ensures r.1 <= |s| && (r.1 > 0 ==> r.0 != EOF && r.0 != STRING)
  {
    var c, twice := s[0], |s| > 1 && s[1] == s[0];
    if c == '>' then if twice then (GTGT, 2) else (GT, 1)
    else if c == '<' then (LT, 1)
    else if c == '(' then (LPAREN, 1)
    else if c == ')' then (RPAREN, 1)
    else if c == '&' then if twice then (AND, 2) else (BACK, 1)
    else if c == '|' then if twice then (OR, 2) else (PIPE, 1)
    else if c == ';' then (SEMI, 1)
    else (EOF, 0)
  }

  /** scan_tok. */
  function Scan(s: string): (lx: Lex)
    ensures |lx.rest| <= |s|
    ensures lx.tok.typ == EOF ==> lx.rest == []
    ensures lx.tok.typ != EOF ==> |lx.rest| < |s|
    decreases |s|
  {
    var s := SkipSpace(s);
    if s == [] then Plain(EOF, [])
    else
      var (op, n) := Operator(s);
      if n > 0 then Plain(op, s[n..])
      else if s[0] == '#' then Scan(SkipComment(s[1..]))
      else if s[0] == '"' || s[0] == '\'' then
        var n := 1 + QuoteLength(s[1..], s[0]);
        Lex(Token(STRING, if n >= 2 then Some(s[1..n - 1]) else None), s[n..])
      else
        var n := WordLength(s);
        Lex(Token(STRING, Some(s[..n])), s[n..])
  }

  /** The cases of scan_tok, after white space. */
  lemma ScanCases(s0: string)
    ensures var s := SkipSpace(s0);
            && (s == [] ==> Scan(s0) == Plain(EOF, []))
            && (s != [] ==>
                  var (op, n) := Operator(s);
                  && (n > 0 ==> Scan(s0) == Plain(op, s[n..]))
                  && (n == 0 && s[0] == '#' ==> Scan(s0) == Scan(SkipComment(s[1..])))
                  && (n == 0 && s[0] != '#' && s[0] != '"' && s[0] != '\'' ==>
                        Scan(s0) == Lex(Token(STRING, Some(s[..WordLength(s)])), s[WordLength(s)..])))
    ensures var s := SkipSpace(s0);
            s != [] && (s[0] == '"' || s[0] == '\'') ==>
              var n := 1 + QuoteLength(s[1..], s[0]);
              Scan(s0) == Lex(Token(STRING, if n >= 2 then Some(s[1..n - 1]) else None), s[n..])
  {
  }

  /** copy_peek_string: a backslash stands for the character after it. */
  function Unescape(s: string): string {
    if s == [] then []
    else if s[0] == '\\' && |s| > 1 then [s[1]] + Unescape(s[2..])
    else [s[0]] + Unescape(s[1..])
  }

  // ------------------------------------------------------------------
  // Parser
  // ------------------------------------------------------------------

  /** The result of a parsing function: a command or NULL, and the lexer.
      `Overrun` is the case in which copy_peek_string is given a token of
      negative length and runs off the buffer. */
  datatype Res = Overrun | Got(cmd: Option<Cmd>, lx: Lex)

  function Fuel(lx: Lex): nat {
    if lx.tok.typ == EOF then 0 else 1 + |lx.rest|
  }

  function Advance(lx: Lex): (r: Lex)
    ensures lx.tok.typ != EOF ==> Fuel(r) < Fuel(lx)
    ensures Fuel(r) <= |lx.rest|
  {
    Scan(lx.rest)
  }

  predicate StartsCmd(t: TokenType) {
    t == LPAREN || t == STRING
  }

  function ParseCmd(lx: Lex): (r: Res)
    ensures r.Got? ==> Fuel(r.lx) <= Fuel(lx)
    ensures r.Got? && r.cmd.Some? ==> Shape(r.cmd.value)
    decreases Fuel(lx), 5
  {
    if StartsCmd(lx.tok.typ) then ParseList(lx) else Got(None, lx)
  }

  function ParseList(lx: Lex): (r: Res)
    ensures r.Got? ==> Fuel(r.lx) <= Fuel(lx)
    ensures r.Got? && r.cmd.Some? ==> Shape(r.cmd.value)
    decreases Fuel(lx), 4
  {
    var l := ParseBinary(lx);
    if l.Overrun? || l.cmd.None? then l
    else if l.lx.tok.typ != SEMI && l.lx.tok.typ != BACK then l
    else
      var left := if l.lx.tok.typ == BACK then Back(l.cmd.value) else l.cmd.value;
      var right := ParseCmd(Advance(l.lx));
      if right.Overrun? then right
      else if right.cmd.Some? then Got(Some(List(left, right.cmd.value)), right.lx)
      else Got(Some(left), right.lx)
  }

  predicate IsBinaryOp(t: TokenType) {
    t == PIPE || t == AND || t == OR
  }

  function ParseBinary(lx: Lex): (r: Res)
    ensures r.Got? ==> Fuel(r.lx) <= Fuel(lx)
    ensures r.Got? && r.cmd.Some? ==> Shape(r.cmd.value)
    decreases Fuel(lx), 3
  {
    var l := ParseRedir(lx);
    if l.Overrun? || l.cmd.None? then l
    else if !IsBinaryOp(l.lx.tok.typ) then l
    else
      var op := l.lx.tok.typ;
      var right := ParseBinary(Advance(l.lx));
      if right.Overrun? || right.cmd.None? then right
      else if op == PIPE then Got(Some(Pipe(l.cmd.value, right.cmd.value)), right.lx)
      else Got(Some(Binary(l.cmd.value, right.cmd.value, op)), right.lx)
  }

  function ParseRedir(lx: Lex): (r: Res)
    ensures r.Got? ==> Fuel(r.lx) <= Fuel(lx)
    ensures r.Got? && r.cmd.Some? ==> Shape(r.cmd.value)
    decreases Fuel(lx), 2
  {
    var p := ParsePrimary(lx);
    if p.Overrun? || p.cmd.None? then p else RedirLoop(p.cmd.value, p.lx)
  }

  predicate IsRedirOp(t: TokenType) {
    t == GT || t == GTGT || t == LT
  }

  function RedirNode(c: Cmd, op: TokenType, file: string): Cmd
    requires IsRedirOp(op)
  {
    if op == LT then Redir(c, STDIN, O_RDONLY, file)
    else if op == GT then Redir(c, STDOUT, O_WRONLY + O_CREAT, file)
    else Redir(c, STDOUT, O_APPEND + O_WRONLY + O_CREAT, file)
  }

  function RedirLoop(c: Cmd, lx: Lex): (r: Res)
    requires Shape(c)
    ensures r.Got? ==> Fuel(r.lx) <= Fuel(lx)
    ensures r.Got? && r.cmd.Some? ==> Shape(r.cmd.value)
    decreases Fuel(lx), 0
  {
    if !IsRedirOp(lx.tok.typ) then Got(Some(c), lx)
    else
      var w := Advance(lx);
      if w.tok.typ != STRING then Got(None, w)
      else if w.tok.text.None? then Overrun
      else RedirLoop(RedirNode(c, lx.tok.typ, Unescape(w.tok.text.value)), Advance(w))
  }

  function ParsePrimary(lx: Lex): (r: Res)
    ensures r.Got? ==> Fuel(r.lx) <= Fuel(lx)
    ensures r.Got? && r.cmd.Some? ==> Shape(r.cmd.value)
    decreases Fuel(lx), 1
  {
    if lx.tok.typ == LPAREN then
      var c := ParseCmd(Advance(lx));
      if c.Overrun? then c
      else if c.lx.tok.typ != RPAREN then Got(None, c.lx)
      else Got(c.cmd, Advance(c.lx))
    else if lx.tok.typ == STRING then ExecLoop([], lx)
    else Got(None, lx)
  }

  /** The do-while loop of parse_execcmd, entered with a word peeked. */
  function ExecLoop(argv: seq<string>, lx: Lex): (r: Res)
    requires lx.tok.typ == STRING && |argv| <= MAX_ARGV - 1
    ensures r.Got? ==> Fuel(r.lx) <= Fuel(lx)
    ensures r.Got? && r.cmd.Some? ==> Shape(r.cmd.value)
    decreases Fuel(lx), 0
  {
    if |argv| >= MAX_ARGV - 1 then Got(None, lx)
    else if lx.tok.text.None? then Overrun
    else
      var argv' := argv + [Unescape(lx.tok.text.value)];
      var n := Advance(lx);
      if n.tok.typ == STRING then ExecLoop(argv', n) else Got(Some(Exec(argv')), n)
  }

  /** sh_parse. */
  function Parse(s: string): Res {
    var r := ParseCmd(Scan(s));
    if r.Overrun? || r.cmd.None? then r
    else if r.lx.tok.typ != EOF then Got(None, r.lx)
    else r
  }

  /** The trees the parser can build. */
  predicate Shape(c: Cmd) {
    match c
    case Exec(argv) => 1 <= |argv| <= MAX_ARGV - 1
    case Redir(d, fd, mode, _) =>
      Shape(d) && ((fd == STDIN && mode == O_RDONLY) ||
                   (fd == STDOUT && mode == O_WRONLY + O_CREAT) ||
                   (fd == STDOUT && mode == O_APPEND + O_WRONLY + O_CREAT))
    case List(l, r) => Shape(l) && Shape(r)
    case Back(d) => Shape(d)
    case Pipe(l, r) => Shape(l) && Shape(r)
    case Binary(l, r, op) => Shape(l) && Shape(r) && (op == AND || op == OR)
  }

  // ------------------------------------------------------------------
  // A printer, and the parser as its inverse
  // ------------------------------------------------------------------

  function Escaped(w: string): string {
    if w == [] then [] else ['\\', w[0]] + Escaped(w[1..])
  }

  /** A word with every character escaped, or quoted if it is empty. */
  function WordText(w: string): string {
    if w == [] then "\"\"" else Escaped(w)
  }

  function WordsText(ws: seq<string>): string {
    if ws == [] then [] else WordText(ws[0]) + " " + WordsText(ws[1..])
  }

  function RedirText(fd: int, mode: int): string {
    if fd == STDIN then "<" else if mode == O_WRONLY + O_CREAT then ">" else ">>"
  }

  function OpText(op: TokenType): string {
    if op == AND then "&&" else if op == OR then "||" else "|"
  }

  function Paren(c: Cmd): string
    decreases c, 1
  {
    "(" + Print(c) + ")"
  }

  function Print(c: Cmd): string
    decreases c, 0
  {
    match c
    case Exec(argv) => WordsText(argv)
    case Redir(d, fd, mode, file) => Paren(d) + RedirText(fd, mode) + WordText(file) + " "
    case List(l, r) => Paren(l) + ";" + Paren(r)
    case Back(d) => Paren(d) + "&"
    case Pipe(l, r) => Paren(l) + "|" + Paren(r)
    case Binary(l, r, op) => Paren(l) + OpText(op) + Paren(r)
  }

  lemma EscapeSkips(c: char, u: string)
    ensures WordLength(['\\', c] + u) == 2 + WordLength(u)
  {
    assert (['\\', c] + u)[2..] == u;
  }

  lemma {:induction false} EscapedLength(w: string, t: string)
    requires t == [] || IsSpace(t[0])
    ensures WordLength(Escaped(w) + t) == |Escaped(w)|
  {
    if w != [] {
      EscapedLength(w[1..], t);
      var s, u := Escaped(w) + t, Escaped(w[1..]) + t;
      assert s == ['\\', w[0]] + u;
      EscapeSkips(w[0], u);
    }
  }

  lemma {:induction false} UnescapeEscaped(w: string)
    ensures Unescape(Escaped(w)) == w
  {
    if w != [] {
      UnescapeEscaped(w[1..]);
      assert Escaped(w)[2..] == Escaped(w[1..]);
    }
  }

  lemma ScanSpace(t: string)
    ensures Scan(" " + t) == Scan(t)
  {
    assert (" " + t)[1..] == t;
    assert SkipSpace(" " + t) == SkipSpace(t);
  }

  lemma ScanEmptyWord(t: string)
    ensures Scan("\"\"" + (" " + t)) == Lex(Token(STRING, Some([])), " " + t)
  {
    var s := "\"\"" + (" " + t);
    assert SkipSpace(s) == s && s[1] == '"';
    assert QuoteLength(s[1..], '"') == 1;
    assert s[2..] == " " + t && s[1..1] == [];
  }

  lemma ScanEscapedWord(w: string, t: string)
    requires w != []
    ensures Scan(Escaped(w) + (" " + t)) == Lex(Token(STRING, Some(Escaped(w))), " " + t)
  {
    var s := Escaped(w) + (" " + t);
    assert SkipSpace(s) == s && s[0] == '\\';
    EscapedLength(w, " " + t);
    assert s[..|Escaped(w)|] == Escaped(w) && s[|Escaped(w)|..] == " " + t;
  }

  /** The lexer reads a printed word back as that word. */
  lemma ScanWord(w: string, t: string)
    ensures var lx := Scan(WordText(w) + " " + t);
            && lx.tok.typ == STRING && lx.tok.text.Some?
            && Unescape(lx.tok.text.value) == w
            && Advance(lx) == Scan(t)
  {
    hide Scan;
    assert WordText(w) + " " + t == WordText(w) + (" " + t);
    ScanSpace(t);
    if w == [] {
      ScanEmptyWord(t);
    } else {
      ScanEscapedWord(w, t);
      UnescapeEscaped(w);
    }
  }

  /** A symbol in front of a text that does not double it. */
  lemma ScanSymbol(c: char, t: string)
    requires IsSymbol(c) && (t == [] || t[0] != c || c == '(' || c == ')' || c == ';' || c == '<')
    ensures Scan([c] + t) == Plain(if c == '>' then GT else if c == '<' then LT else if c == '(' then LPAREN
              else if c == ')' then RPAREN else if c == '&' then BACK else if c == '|' then PIPE else SEMI, t)
  {
    var s := [c] + t;
    assert SkipSpace(s) == s && s[1..] == t;
  }

  lemma ScanDouble(c: char, t: string)
    requires c == '>' || c == '&' || c == '|'
    ensures Scan([c, c] + t) == Plain(if c == '>' then GTGT else if c == '&' then AND else OR, t)
  {
    var s := [c, c] + t;
    assert SkipSpace(s) == s && s[1..] == [c] + t && ([c] + t)[1..] == t;
  }

  /** Nothing that follows can be taken for part of the command. */
  predicate Closed(t: string) {
    Scan(t).tok.typ == RPAREN || Scan(t).tok.typ == EOF
  }

  lemma ClosedStart(t: string)
    requires Closed(t)
    ensures t == [] || t[0] != '&'
  {
    assert t != [] && t[0] == '&' ==> SkipSpace(t) == t;
  }

  lemma {:induction false} ExecInverse(done: seq<string>, ws: seq<string>, t: string)
    requires ws != [] && |done| + |ws| <= MAX_ARGV - 1 && Scan(t).tok.typ != STRING
    ensures Scan(WordsText(ws) + t).tok.typ == STRING
    ensures ExecLoop(done, Scan(WordsText(ws) + t)) == Got(Some(Exec(done + ws)), Scan(t))
    decreases ws
  {
    hide Scan, WordText, Unescape;
    var tail := WordsText(ws[1..]) + t;
    assert WordsText(ws) + t == WordText(ws[0]) + " " + tail;
    ScanWord(ws[0], tail);
    if |ws| == 1 {
      assert tail == t && done + [ws[0]] == done + ws;
    } else {
      assert done + [ws[0]] + ws[1..] == done + ws;
      ExecInverse(done + [ws[0]], ws[1..], t);
    }
  }

  /** A primary that no operator follows is also a redirection, and so on up. */
  lemma RedirOf(lx: Lex, c: Cmd, nx: Lex)
    requires ParsePrimary(lx) == Got(Some(c), nx) && Shape(c) && !IsRedirOp(nx.tok.typ)
    ensures ParseRedir(lx) == Got(Some(c), nx)
  {
  }

  lemma BinaryOf(lx: Lex, c: Cmd, nx: Lex)
    requires ParseRedir(lx) == Got(Some(c), nx) && !IsBinaryOp(nx.tok.typ)
    ensures ParseBinary(lx) == Got(Some(c), nx)
  {
  }

  lemma CmdOf(lx: Lex, c: Cmd, nx: Lex)
    requires ParseBinary(lx) == Got(Some(c), nx) && StartsCmd(lx.tok.typ)
    requires nx.tok.typ != SEMI && nx.tok.typ != BACK
    ensures ParseCmd(lx) == Got(Some(c), nx)
  {
  }

  /** A parenthesised command is a primary, whatever comes after it. */
  lemma {:induction false} PrimaryInverse(c: Cmd, t: string)
    requires Shape(c)
    ensures Scan(Paren(c) + t).tok.typ == LPAREN
    ensures ParsePrimary(Scan(Paren(c) + t)) == Got(Some(c), Scan(t))
    decreases c, 1
  {
    hide Scan, Print, ParseCmd;
    var tail := [')'] + t;
    assert Paren(c) + t == ['('] + (Print(c) + tail);
    ScanSymbol('(', Print(c) + tail);
    ScanSymbol(')', t);
    CmdInverse(c, tail);
  }

  /** Parsing a printed command gives the command back and stops right after it. */
  lemma {:induction false} CmdInverse(c: Cmd, t: string)
    requires Shape(c) && Closed(t)
    ensures ParseCmd(Scan(Print(c) + t)) == Got(Some(c), Scan(t))
    decreases c, 0
  {
    hide Scan, ParseCmd, ParseList, ParseBinary, ParseRedir, ParsePrimary, WordsText, Paren;
    var lx, nx := Scan(Print(c) + t), Scan(t);
    match c
    case Exec(argv) =>
      assert ParsePrimary(lx) == Got(Some(c), nx) && StartsCmd(lx.tok.typ) by { ExecPrimary(argv, t); }
      RedirOf(lx, c, nx);
      BinaryOf(lx, c, nx);
      CmdOf(lx, c, nx);
    case Redir(d, fd, mode, file) =>
      PrimaryInverse(d, RedirText(fd, mode) + (WordText(file) + " " + t));
      RedirInverse(c, t);
    case List(l, r) =>
      PrimaryInverse(l, [';'] + (Paren(r) + t));
      PrimaryInverse(r, t);
      ListInverse(l, r, t);
    case Back(d) =>
      PrimaryInverse(d, ['&'] + t);
      BackInverse(d, t);
    case Pipe(l, r) =>
      PrimaryInverse(l, ['|'] + (Paren(r) + t));
      PrimaryInverse(r, t);
      PipeInverse(l, r, t);
    case Binary(l, r, op) =>
      PrimaryInverse(l, OpText(op) + (Paren(r) + t));
      PrimaryInverse(r, t);
      AndOrInverse(l, r, op, t);
  }

  lemma ExecPrimary(argv: seq<string>, t: string)
    requires Shape(Exec(argv)) && Closed(t)
    ensures Scan(Print(Exec(argv)) + t).tok.typ == STRING
    ensures ParsePrimary(Scan(Print(Exec(argv)) + t)) == Got(Some(Exec(argv)), Scan(t))
  {
    hide Scan, WordsText;
    ExecInverse([], argv, t);
    assert [] + argv == argv;
  }

  /** The text `s` opens with a parenthesised command that a parser of
      primaries reads as `c`, leaving `t`. */
  predicate ReadsAs(s: string, c: Cmd, t: string) {
    Scan(s).tok.typ == LPAREN && ParsePrimary(Scan(s)) == Got(Some(c), Scan(t))
  }

  lemma RedirInverse(c: Cmd, t: string)
    requires c.Redir? && Shape(c) && Closed(t)
    requires ReadsAs(Paren(c.cmd) + (RedirText(c.fd, c.mode) + (WordText(c.file) + " " + t)),
                     c.cmd, RedirText(c.fd, c.mode) + (WordText(c.file) + " " + t))
    ensures ParseCmd(Scan(Print(c) + t)) == Got(Some(c), Scan(t))
  {
    hide Scan, Paren, WordText, Unescape, ParsePrimary;
    var word := WordText(c.file) + " " + t;
    var tail := RedirText(c.fd, c.mode) + word;
    assert Print(c) + t == Paren(c.cmd) + tail;
    assert Scan(word).tok.typ == STRING by { ScanWord(c.file, t); }
    RedirOpScan(c.fd, c.mode, c.file, t);
    ScanWord(c.file, t);
    var lx, nx := Scan(Print(c) + t), Scan(t);
    RedirStep(c, Scan(tail), Scan(word), nx);
    BinaryOf(lx, c, nx);
    CmdOf(lx, c, nx);
  }

  lemma RedirOpScan(fd: int, mode: int, file: string, t: string)
    ensures Scan(RedirText(fd, mode) + (WordText(file) + " " + t)) ==
            Plain(if fd == STDIN then LT else if mode == O_WRONLY + O_CREAT then GT else GTGT,
                  WordText(file) + " " + t)
  {
    hide Scan;
    var word := WordText(file) + " " + t;
    if fd == STDIN {
      ScanSymbol('<', word);
    } else if mode == O_WRONLY + O_CREAT {
      ScanSymbol('>', word);
    } else {
      ScanDouble('>', word);
    }
  }

  /** One turn of the redirection loop. */
  lemma RedirStep(c: Cmd, op: Lex, word: Lex, nx: Lex)
    requires c.Redir? && Shape(c) && !IsRedirOp(nx.tok.typ)
    requires op.tok.typ == if c.fd == STDIN then LT else if c.mode == O_WRONLY + O_CREAT then GT else GTGT
    requires Advance(op) == word && word.tok.typ == STRING && word.tok.text.Some?
    requires Unescape(word.tok.text.value) == c.file && Advance(word) == nx
    ensures RedirLoop(c.cmd, op) == Got(Some(c), nx)
  {
    hide Scan, Unescape;
    assert RedirLoop(c, nx) == Got(Some(c), nx);
  }

  lemma ListInverse(l: Cmd, r: Cmd, t: string)
    requires Shape(l) && Shape(r) && Closed(t)
    requires ReadsAs(Paren(l) + ([';'] + (Paren(r) + t)), l, [';'] + (Paren(r) + t))
    requires ReadsAs(Paren(r) + t, r, t)
    ensures ParseCmd(Scan(Print(List(l, r)) + t)) == Got(Some(List(l, r)), Scan(t))
  {
    hide Scan, Paren, ParsePrimary, ParseRedir, ParseBinary;
    var tail := [';'] + (Paren(r) + t);
    assert Print(List(l, r)) + t == Paren(l) + tail;
    ScanSymbol(';', Paren(r) + t);
    var lx, m, rx, nx := Scan(Paren(l) + tail), Scan(tail), Scan(Paren(r) + t), Scan(t);
    RedirOf(lx, l, m);
    BinaryOf(lx, l, m);
    RedirOf(rx, r, nx);
    BinaryOf(rx, r, nx);
    CmdOf(rx, r, nx);
  }

  lemma BackInverse(d: Cmd, t: string)
    requires Shape(d) && Closed(t) && ReadsAs(Paren(d) + (['&'] + t), d, ['&'] + t)
    ensures ParseCmd(Scan(Print(Back(d)) + t)) == Got(Some(Back(d)), Scan(t))
  {
    hide Scan, Paren, ParsePrimary, ParseRedir, ParseBinary;
    ClosedStart(t);
    assert Print(Back(d)) + t == Paren(d) + (['&'] + t);
    ScanSymbol('&', t);
    var lx, m, nx := Scan(Paren(d) + (['&'] + t)), Scan(['&'] + t), Scan(t);
    RedirOf(lx, d, m);
    BinaryOf(lx, d, m);
    assert Advance(m) == nx;
    assert ParseCmd(nx) == Got(None, nx);
    assert ParseList(lx) == Got(Some(Back(d)), nx);
  }

  lemma ParenStart(d: Cmd, t: string)
    ensures Paren(d) + t != [] && (Paren(d) + t)[0] == '('
  {
    hide Print;
  }

  /** parse_binary at an operator. */
  lemma BinaryStep(lx: Lex, l: Cmd, m: Lex, rx: Lex, r: Cmd, nx: Lex)
    requires ParseRedir(lx) == Got(Some(l), m) && IsBinaryOp(m.tok.typ) && Advance(m) == rx && ParseBinary(rx) == Got(Some(r), nx)
    ensures ParseBinary(lx) == Got(Some(if m.tok.typ == PIPE then Pipe(l, r) else Binary(l, r, m.tok.typ)), nx)
  {
    hide Scan, ParseRedir;
  }

  /** The right side and the whole, once the text has been cut into tokens. */
  lemma OperatorInverse(lx: Lex, l: Cmd, m: Lex, rx: Lex, r: Cmd, nx: Lex)
    requires Shape(l) && Shape(r) && StartsCmd(lx.tok.typ) && ParsePrimary(lx) == Got(Some(l), m)
    requires IsBinaryOp(m.tok.typ) && Advance(m) == rx && ParsePrimary(rx) == Got(Some(r), nx)
    requires nx.tok.typ == RPAREN || nx.tok.typ == EOF
    ensures ParseCmd(lx) == Got(Some(if m.tok.typ == PIPE then Pipe(l, r) else Binary(l, r, m.tok.typ)), nx)
  {
    hide Scan, ParsePrimary, ParseRedir, ParseBinary, ParseCmd, Advance;
    RedirOf(lx, l, m);
    RedirOf(rx, r, nx);
    BinaryOf(rx, r, nx);
    BinaryStep(lx, l, m, rx, r, nx);
    CmdOf(lx, if m.tok.typ == PIPE then Pipe(l, r) else Binary(l, r, m.tok.typ), nx);
  }

  lemma PipeInverse(l: Cmd, r: Cmd, t: string)
    requires Shape(l) && Shape(r) && Closed(t)
    requires ReadsAs(Paren(l) + (['|'] + (Paren(r) + t)), l, ['|'] + (Paren(r) + t))
    requires ReadsAs(Paren(r) + t, r, t)
    ensures ParseCmd(Scan(Print(Pipe(l, r)) + t)) == Got(Some(Pipe(l, r)), Scan(t))
  {
    hide Scan, Paren, ParsePrimary, ParseCmd, Shape;
    var tail := ['|'] + (Paren(r) + t);
    assert Print(Pipe(l, r)) + t == Paren(l) + tail;
    ParenStart(r, t);
    ScanSymbol('|', Paren(r) + t);
    OperatorInverse(Scan(Paren(l) + tail), l, Scan(tail), Scan(Paren(r) + t), r, Scan(t));
  }

  lemma AndOrInverse(l: Cmd, r: Cmd, op: TokenType, t: string)
    requires Shape(l) && Shape(r) && Closed(t) && (op == AND || op == OR)
    requires ReadsAs(Paren(l) + (OpText(op) + (Paren(r) + t)), l, OpText(op) + (Paren(r) + t))
    requires ReadsAs(Paren(r) + t, r, t)
    ensures ParseCmd(Scan(Print(Binary(l, r, op)) + t)) == Got(Some(Binary(l, r, op)), Scan(t))
  {
    hide Scan, Paren, ParsePrimary, ParseCmd, Shape;
    var tail := OpText(op) + (Paren(r) + t);
    assert Print(Binary(l, r, op)) + t == Paren(l) + tail;
    ScanAndOr(op, Paren(r) + t);
    OperatorInverse(Scan(Paren(l) + tail), l, Scan(tail), Scan(Paren(r) + t), r, Scan(t));
  }

  lemma ScanAndOr(op: TokenType, t: string)
    requires op == AND || op == OR
    ensures Scan(OpText(op) + t) == Plain(op, t)
  {
    hide Scan;
    var ch := if op == AND then '&' else '|';
    assert OpText(op) == [ch, ch];
    ScanDouble(ch, t);
  }

  /** For every command tree of the parser's shape, parsing what the printer
      writes gives back the same tree with the input used up. */
  lemma ParseInvertsPrint(c: Cmd)
    requires Shape(c)
    ensures Parse(Print(c)) == Got(Some(c), Scan([]))
  {
    assert Print(c) + [] == Print(c);
    CmdInverse(c, []);
  }

  /** So whatever text was accepted, its tree can be printed and parsed again. */
  lemma PrintIsCanonical(s: string)
    requires Parse(s).Got? && Parse(s).cmd.Some?
    ensures Parse(Print(Parse(s).cmd.value)) == Got(Parse(s).cmd, Scan([]))
  {
    ParseInvertsPrint(Parse(s).cmd.value);
  }

  // ------------------------------------------------------------------
  // NUL-terminated buffers
  // ------------------------------------------------------------------

  predicate NulFree(s: string) {
    '\0' !in s
  }

  predicate NulFreeCmd(c: Cmd) {
    match c
    case Exec(argv) => forall i :: 0 <= i < |argv| ==> NulFree(argv[i])
    case Redir(d, _, _, file) => NulFreeCmd(d) && NulFree(file)
    case List(l, r) => NulFreeCmd(l) && NulFreeCmd(r)
    case Back(d) => NulFreeCmd(d)
    case Pipe(l, r) => NulFreeCmd(l) && NulFreeCmd(r)
    case Binary(l, r, _) => NulFreeCmd(l) && NulFreeCmd(r)
  }

  lemma {:induction false} EscapedNulFree(w: string)
    requires NulFree(w)
    ensures NulFree(Escaped(w))
  {
    if w != [] { EscapedNulFree(w[1..]); }
  }

  lemma {:induction false} WordsNulFree(ws: seq<string>)
    requires forall i :: 0 <= i < |ws| ==> NulFree(ws[i])
    ensures NulFree(WordsText(ws))
  {
    if ws != [] {
      EscapedNulFree(ws[0]);
      WordsNulFree(ws[1..]);
    }
  }

  lemma {:induction false} PrintNulFree(c: Cmd)
    requires NulFreeCmd(c)
    ensures NulFree(Print(c))
    decreases c
  {
    match c
    case Exec(argv) => WordsNulFree(argv);
    case Redir(d, _, _, file) => PrintNulFree(d); EscapedNulFree(file);
    case List(l, r) => PrintNulFree(l); PrintNulFree(r);
    case Back(d) => PrintNulFree(d);
    case Pipe(l, r) => PrintNulFree(l); PrintNulFree(r);
    case Binary(l, r, _) => PrintNulFree(l); PrintNulFree(r);
  }

  /** The round trip through a line buffer: whatever lies behind the NUL. */
  lemma BufferRoundTrip(c: Cmd, junk: seq<char>)
    requires Shape(c) && NulFreeCmd(c)
    ensures Parse(CString(Print(c) + ['\0'] + junk, '\0')) == Got(Some(c), Scan([]))
  {
    PrintNulFree(c);
    CStringStops(Print(c), '\0', junk);
    ParseInvertsPrint(c);
  }
}
