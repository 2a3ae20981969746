/** What the shell's parser does with broken text: which errors it drops, and
    when it runs off the buffer. */
module ShellFaults {
  import opened Common
  import opened Shell

  // ------------------------------------------------------------------
  // Dropped errors
  // ------------------------------------------------------------------

  /** The grammar of the parser's comments taken at its word: a command that is
      begun behind `;` or `&` and comes to nothing fails the list. */
  function StrictCmd(lx: Lex): (r: Res)
    ensures r.Got? ==> Fuel(r.lx) <= Fuel(lx)
    ensures r.Got? && r.cmd.Some? ==> Shape(r.cmd.value) && StartsCmd(lx.tok.typ)
    decreases Fuel(lx), 5
  {
    if StartsCmd(lx.tok.typ) then StrictList(lx) else Got(None, lx)
  }

  function StrictList(lx: Lex): (r: Res)
    ensures r.Got? ==> Fuel(r.lx) <= Fuel(lx)
    ensures r.Got? && r.cmd.Some? ==> Shape(r.cmd.value)
    decreases Fuel(lx), 4
  {
    var l := StrictBinary(lx);
    if l.Overrun? || l.cmd.None? then l
    else if l.lx.tok.typ != SEMI && l.lx.tok.typ != BACK then l
    else
      var left := if l.lx.tok.typ == BACK then Back(l.cmd.value) else l.cmd.value;
      var right := StrictCmd(Advance(l.lx));
      if right.Overrun? then right
      else if right.cmd.Some? then Got(Some(List(left, right.cmd.value)), right.lx)
      else if StartsCmd(Advance(l.lx).tok.typ) then right
      else Got(Some(left), right.lx)
  }

  function StrictBinary(lx: Lex): (r: Res)
    ensures r.Got? ==> Fuel(r.lx) <= Fuel(lx)
    ensures r.Got? && r.cmd.Some? ==> Shape(r.cmd.value) && StartsCmd(lx.tok.typ)
    decreases Fuel(lx), 3
  {
    var l := StrictRedir(lx);
    if l.Overrun? || l.cmd.None? then l
    else if !IsBinaryOp(l.lx.tok.typ) then l
    else
      var op := l.lx.tok.typ;
      var right := StrictBinary(Advance(l.lx));
      if right.Overrun? || right.cmd.None? then right
      else if op == PIPE then Got(Some(Pipe(l.cmd.value, right.cmd.value)), right.lx)
      else Got(Some(Binary(l.cmd.value, right.cmd.value, op)), right.lx)
  }

  function StrictRedir(lx: Lex): (r: Res)
    ensures r.Got? ==> Fuel(r.lx) <= Fuel(lx)
    ensures r.Got? && r.cmd.Some? ==> Shape(r.cmd.value) && StartsCmd(lx.tok.typ)
    decreases Fuel(lx), 2
  {
    var p := StrictPrimary(lx);
    if p.Overrun? || p.cmd.None? then p else RedirLoop(p.cmd.value, p.lx)
  }

  function StrictPrimary(lx: Lex): (r: Res)
    ensures r.Got? ==> Fuel(r.lx) <= Fuel(lx)
    ensures r.Got? && r.cmd.Some? ==> Shape(r.cmd.value) && StartsCmd(lx.tok.typ)
    decreases Fuel(lx), 1
  {
    if lx.tok.typ == LPAREN then
      var c := StrictCmd(Advance(lx));
      if c.Overrun? then c
      else if c.lx.tok.typ != RPAREN then Got(None, c.lx)
      else Got(c.cmd, Advance(c.lx))
    else if lx.tok.typ == STRING then ExecLoop([], lx)
    else Got(None, lx)
  }

  function Strict(s: string): Res {
    var r := StrictCmd(Scan(s));
    if r.Overrun? || r.cmd.None? then r
    else if r.lx.tok.typ != EOF then Got(None, r.lx)
    else r
  }

  /** The command that is run, if any. */
  function Tree(r: Res): Option<Cmd> {
    if r.Got? then r.cmd else None
  }

  predicate Ends(t: TokenType) { t == RPAREN || t == EOF }

  /** One pass over the tokens, without parsing: no redirection and no `|`, `&&`,
      `||` directly before `)` or the end, no `()`, and `depth` parentheses still
      to be closed. */
  predicate Tidy(lx: Lex, depth: nat)
    decreases Fuel(lx)
  {
    var (t, n) := (lx.tok.typ, Advance(lx));
    if t == EOF then depth == 0
    else if IsRedirOp(t) || IsBinaryOp(t) then !Ends(n.tok.typ) && Tidy(n, depth)
    else if t == LPAREN then n.tok.typ != RPAREN && Tidy(n, depth + 1)
    else if t == RPAREN then depth > 0 && Tidy(n, depth - 1)
    else Tidy(n, depth)
  }

  lemma NotBegun(lx: Lex)
    requires !StartsCmd(lx.tok.typ)
    ensures ParseCmd(lx) == StrictCmd(lx) == Got(None, lx)
  {
  }

  // What the strict parser accepts is tidy.

  lemma {:induction false} ExecTidy(argv: seq<string>, lx: Lex, d: nat)
    requires lx.tok.typ == STRING && |argv| <= MAX_ARGV - 1 && Tree(ExecLoop(argv, lx)).Some?
    ensures Tidy(lx, d) == Tidy(ExecLoop(argv, lx).lx, d)
    decreases Fuel(lx)
  {
    hide Scan, Unescape;
    if Advance(lx).tok.typ == STRING {
      ExecTidy(argv + [Unescape(lx.tok.text.value)], Advance(lx), d);
    }
  }

  lemma {:induction false} RedirTidy(c: Cmd, lx: Lex, d: nat)
    requires Shape(c) && Tree(RedirLoop(c, lx)).Some?
    ensures Tidy(lx, d) == Tidy(RedirLoop(c, lx).lx, d)
    decreases Fuel(lx)
  {
    hide Scan, Unescape;
    if IsRedirOp(lx.tok.typ) {
      var w := Advance(lx);
      RedirTidy(RedirNode(c, lx.tok.typ, Unescape(w.tok.text.value)), Advance(w), d);
    }
  }

  lemma {:induction false} PrimaryTidy(lx: Lex, d: nat)
    requires Tree(StrictPrimary(lx)).Some?
    ensures Tidy(lx, d) == Tidy(StrictPrimary(lx).lx, d)
    decreases Fuel(lx), 1
  {
    hide Scan, ExecLoop, StrictCmd;
    if lx.tok.typ == LPAREN {
      CmdTidy(Advance(lx), d + 1);
    } else {
      ExecTidy([], lx, d);
    }
  }

  lemma {:induction false} BinaryTidy(lx: Lex, d: nat)
    requires Tree(StrictBinary(lx)).Some?
    ensures Tidy(lx, d) == Tidy(StrictBinary(lx).lx, d)
    decreases Fuel(lx), 3
  {
    hide Scan, StrictPrimary, RedirLoop, Shape;
    var p := StrictPrimary(lx);
    PrimaryTidy(lx, d);
    RedirTidy(p.cmd.value, p.lx, d);
    var l := StrictRedir(lx);
    if IsBinaryOp(l.lx.tok.typ) { BinaryTidy(Advance(l.lx), d); }
  }

  lemma {:induction false} CmdTidy(lx: Lex, d: nat)
    requires Tree(StrictCmd(lx)).Some?
    ensures Tidy(lx, d) == Tidy(StrictCmd(lx).lx, d)
    decreases Fuel(lx), 5
  {
    hide Scan, StrictBinary;
    BinaryTidy(lx, d);
    var l := StrictBinary(lx);
    if l.lx.tok.typ == SEMI || l.lx.tok.typ == BACK {
      var n := Advance(l.lx);
      if StartsCmd(n.tok.typ) { CmdTidy(n, d); }
    }
  }

  // What the strict parser accepts, the parser accepts.

  lemma {:induction false} PrimaryAgrees(lx: Lex)
    requires Tree(StrictPrimary(lx)).Some?
    ensures ParsePrimary(lx) == StrictPrimary(lx)
    decreases Fuel(lx), 1
  {
    hide Scan, ExecLoop, StrictCmd, ParseCmd;
    if lx.tok.typ == LPAREN { CmdAgrees(Advance(lx)); }
  }

  lemma {:induction false} BinaryAgrees(lx: Lex)
    requires Tree(StrictBinary(lx)).Some?
    ensures ParseBinary(lx) == StrictBinary(lx)
    decreases Fuel(lx), 3
  {
    hide Scan, StrictPrimary, ParsePrimary, RedirLoop;
    PrimaryAgrees(lx);
    var l := StrictRedir(lx);
    assert ParseRedir(lx) == l;
    if IsBinaryOp(l.lx.tok.typ) { BinaryAgrees(Advance(l.lx)); }
  }

  lemma {:induction false} CmdAgrees(lx: Lex)
    requires Tree(StrictCmd(lx)).Some?
    ensures ParseCmd(lx) == StrictCmd(lx)
    decreases Fuel(lx), 5
  {
    hide Scan, StrictBinary, ParseBinary;
    BinaryAgrees(lx);
    var l := StrictBinary(lx);
    if l.lx.tok.typ == SEMI || l.lx.tok.typ == BACK {
      var n := Advance(l.lx);
      if StartsCmd(n.tok.typ) { CmdAgrees(n); } else { NotBegun(n); }
      hide ParseCmd, StrictCmd;
      assert ParseList(lx) == StrictList(lx);
    }
  }

  // In tidy text an error stops the parser at a token that nothing can follow up.

  /** The parser is stuck: neither a closing parenthesis nor the end is next. */
  predicate Stuck(r: Res) {
    r.Got? && !Ends(r.lx.tok.typ)
  }

  lemma {:induction false} ExecStuck(argv: seq<string>, lx: Lex)
    requires lx.tok.typ == STRING && |argv| <= MAX_ARGV - 1
    ensures var r := ExecLoop(argv, lx); r.Got? && r.cmd.None? ==> Stuck(r)
    decreases Fuel(lx)
  {
    hide Scan, Unescape;
    if |argv| < MAX_ARGV - 1 && lx.tok.text.Some? && Advance(lx).tok.typ == STRING {
      ExecStuck(argv + [Unescape(lx.tok.text.value)], Advance(lx));
    }
  }

  lemma {:induction false} RedirStuck(c: Cmd, lx: Lex, d: nat)
    requires Shape(c) && Tidy(lx, d)
    ensures var r := RedirLoop(c, lx); r.Got? && r.cmd.None? ==> Stuck(r)
    decreases Fuel(lx)
  {
    hide Scan, Unescape;
    if IsRedirOp(lx.tok.typ) {
      var w := Advance(lx);
      if w.tok.typ == STRING && w.tok.text.Some? {
        RedirStuck(RedirNode(c, lx.tok.typ, Unescape(w.tok.text.value)), Advance(w), d);
      }
    }
  }

  lemma {:induction false} PrimaryStuck(lx: Lex, d: nat)
    requires Tidy(lx, d) && !Ends(lx.tok.typ)
    ensures var r := ParsePrimary(lx);
            && (r.Got? && r.cmd.None? ==> Stuck(r))
            && (r.Got? && r.cmd.Some? ==> StrictPrimary(lx) == r)
    decreases Fuel(lx), 1
  {
    hide Scan, ExecLoop, StrictCmd, ParseCmd;
    if lx.tok.typ == LPAREN {
      var n := Advance(lx);
      CmdStuck(n, d + 1);
      if !StartsCmd(n.tok.typ) { NotBegun(n); }
      var c := ParseCmd(n);
      if c.Got? && c.cmd.Some? && StrictCmd(n) == c { CmdTidy(n, d + 1); }
    } else if lx.tok.typ == STRING {
      ExecStuck([], lx);
    }
  }

  /** From the primary to its redirections. */
  lemma RedirsStuck(lx: Lex, d: nat)
    requires Tidy(lx, d)
    requires var p := ParsePrimary(lx);
             (p.Got? && p.cmd.None? ==> Stuck(p)) && (p.Got? && p.cmd.Some? ==> StrictPrimary(lx) == p)
    ensures var r := ParseRedir(lx);
            && (r.Got? && r.cmd.None? ==> Stuck(r))
            && (r.Got? && r.cmd.Some? ==> StrictRedir(lx) == r && Tidy(r.lx, d))
  {
    hide Scan, ParsePrimary, StrictPrimary, RedirLoop, Shape, Tidy;
    var p := ParsePrimary(lx);
    if p.Got? && p.cmd.Some? {
      PrimaryTidy(lx, d);
      RedirStuck(p.cmd.value, p.lx, d);
      if Tree(RedirLoop(p.cmd.value, p.lx)).Some? { RedirTidy(p.cmd.value, p.lx, d); }
    }
  }

  lemma {:induction false} BinaryStuck(lx: Lex, d: nat)
    requires Tidy(lx, d) && !Ends(lx.tok.typ)
    ensures var r := ParseBinary(lx);
            && (r.Got? && r.cmd.None? ==> Stuck(r))
            && (r.Got? && r.cmd.Some? ==> StrictBinary(lx) == r)
    decreases Fuel(lx), 3
  {
    hide Scan, ParsePrimary, StrictPrimary, ParseRedir, StrictRedir, Shape, Tidy;
    PrimaryStuck(lx, d);
    RedirsStuck(lx, d);
    var l := ParseRedir(lx);
    if l.Got? && l.cmd.Some? && IsBinaryOp(l.lx.tok.typ) {
      TidyOp(l.lx, d);
      BinaryStuck(Advance(l.lx), d);
    }
  }

  lemma TidyOp(lx: Lex, d: nat)
    requires Tidy(lx, d) && IsBinaryOp(lx.tok.typ)
    ensures Tidy(Advance(lx), d) && !Ends(Advance(lx).tok.typ)
  {
  }

  /** Either the parsers agree, or the parser is stuck behind a dropped tail. */
  lemma {:induction false} CmdStuck(lx: Lex, d: nat)
    requires Tidy(lx, d)
    ensures var r := ParseCmd(lx);
            && (r.Got? && r.cmd.None? && StartsCmd(lx.tok.typ) ==> Stuck(r))
            && (r.Got? && r.cmd.Some? ==> StrictCmd(lx) == r || Stuck(r))
    decreases Fuel(lx), 5
  {
    hide Scan, ParseBinary, StrictBinary;
    if StartsCmd(lx.tok.typ) {
      BinaryStuck(lx, d);
      var l := ParseBinary(lx);
      if l.Got? && l.cmd.Some? {
        BinaryTidy(lx, d);
        if l.lx.tok.typ == SEMI || l.lx.tok.typ == BACK {
          CmdStuck(Advance(l.lx), d);
          ListStuck(lx, l);
        }
      }
    }
  }

  /** The list step of CmdStuck, given what is known of the tail. */
  lemma ListStuck(lx: Lex, l: Res)
    requires l == ParseBinary(lx) == StrictBinary(lx) && l.Got? && l.cmd.Some? && (l.lx.tok.typ == SEMI || l.lx.tok.typ == BACK)
    requires var n := Advance(l.lx);
             var r := ParseCmd(n);
             && (r.Got? && r.cmd.None? && StartsCmd(n.tok.typ) ==> Stuck(r))
             && (r.Got? && r.cmd.Some? ==> StrictCmd(n) == r || Stuck(r))
    ensures var r := ParseList(lx); r.Got? && r.cmd.Some? ==> StrictList(lx) == r || Stuck(r)
    ensures ParseList(lx).Got? ==> ParseList(lx).cmd.Some?
  {
    hide Scan, ParseBinary, StrictBinary, ParseCmd, StrictCmd;
    if !StartsCmd(Advance(l.lx).tok.typ) { NotBegun(Advance(l.lx)); }
  }

  /** On tidy text sh_parse agrees with the strict parser; a text that it accepts
      although a command behind `;` or `&` is broken, at any depth and anywhere in
      a chain, is exactly one that it accepts and that is not tidy. */
  lemma DroppedTails(s: string)
    ensures Tree(Strict(s)) == if Tidy(Scan(s), 0) then Tree(Parse(s)) else None
    ensures Tree(Parse(s)) == Tree(Strict(s)) <==> Tidy(Scan(s), 0) || Tree(Parse(s)).None?
  {
    hide Scan, ParseCmd, StrictCmd;
    var lx := Scan(s);
    if Tree(StrictCmd(lx)).Some? {
      CmdTidy(lx, 0);
      CmdAgrees(lx);
    }
    if Tidy(lx, 0) { CmdStuck(lx, 0); }
  }

  /** Two such texts, in which only `a` would be run. */
  lemma BrokenTailIsDropped()
    ensures Parse("a;(") == Got(Some(Exec(["a"])), Plain(EOF, []))
  {
    var end := Scan([]);
    ScanA(";(");
    ScanSymbol(';', "(");
    ScanSymbol('(', []);
    assert "a;(" == "a" + ";(" && [';'] + "(" == ";(" && ['('] + [] == "(";
    assert end == Plain(EOF, []);
    hide Scan, Unescape, ParseCmd;
    Unclosed(Scan("("), end);
    TailDropped(Scan("a;("), Scan(";("), Scan("("), end);
  }

  lemma NestedTailIsDropped()
    ensures Parse("(a;())") == Got(Some(Exec(["a"])), Plain(EOF, []))
  {
    hide Scan, Unescape, ParseCmd, Parse;
    NestedText("(a;())");
  }

  lemma NestedText(s: string)
    requires s == ['('] + ("a" + ([';'] + (['('] + ([')'] + [')']))))
    ensures Parse(s) == Got(Some(Exec(["a"])), Plain(EOF, []))
  {
    assert Scan([]) == Plain(EOF, []);
    hide Scan, Unescape, ParseCmd, Advance;
    var outer := [')'];
    var inner := [')'] + outer;
    var paren := ['('] + inner;
    var semi := [';'] + paren;
    var a := "a" + semi;
    assert outer == [')'] + [];
    SymbolLex(')', []);
    SymbolLex(')', outer);
    SymbolLex('(', inner);
    SymbolLex(';', paren);
    WordLex(semi);
    SymbolLex('(', a);
    Nested(Scan(s), Scan(a), Scan(semi), Scan(paren), Scan(inner), Scan(outer), Scan([]));
  }

  /** The token of a single-character operator, and the lexer behind it. */
  lemma SymbolLex(c: char, t: string)
    requires c == '(' || c == ')' || c == ';'
    ensures var lx := Scan([c] + t);
            && lx.tok.typ == (if c == '(' then LPAREN else if c == ')' then RPAREN else SEMI)
            && Advance(lx) == Scan(t)
  {
    hide Scan;
    ScanSymbol(c, t);
  }

  lemma WordLex(t: string)
    requires t != [] && IsSymbol(t[0])
    ensures Scan("a" + t).tok == Token(STRING, Some("a")) && Advance(Scan("a" + t)) == Scan(t) && Unescape("a") == "a"
  {
    hide Scan;
    ScanA(t);
  }

  lemma Nested(open: Lex, a: Lex, semi: Lex, paren: Lex, inner: Lex, outer: Lex, end: Lex)
    requires open.tok.typ == LPAREN && Advance(open) == a && a.tok == Token(STRING, Some("a")) && Unescape("a") == "a"
    requires Advance(a) == semi && semi.tok.typ == SEMI && Advance(semi) == paren && paren.tok.typ == LPAREN
    requires Advance(paren) == inner && inner.tok.typ == RPAREN && Advance(inner) == outer && outer.tok.typ == RPAREN
    requires Advance(outer) == end && end.tok.typ == EOF
    ensures ParseCmd(open) == Got(Some(Exec(["a"])), end)
  {
    hide Scan, Unescape, ParseCmd, ParseRedir, ParseBinary;
    EmptyParen(paren, inner, outer);
    TailDropped(a, semi, paren, outer);
    assert ParsePrimary(open) == Got(Some(Exec(["a"])), end);
    RedirOf(open, Exec(["a"]), end);
    BinaryOf(open, Exec(["a"]), end);
    CmdOf(open, Exec(["a"]), end);
  }

  lemma ScanA(t: string)
    requires t == [] || IsSpace(t[0]) || IsSymbol(t[0])
    ensures Scan("a" + t) == Lex(Token(STRING, Some("a")), t)
    ensures Unescape("a") == "a"
  {
    var s := "a" + t;
    assert s[1..] == t && WordLength(t) == 0 && WordLength(s) == 1 && SkipSpace(s) == s && s[..1] == "a";
    assert Unescape("a"[1..]) == [];
  }

  /** parse_list keeps `a` when the command behind the separator fails. */
  lemma TailDropped(lx: Lex, semi: Lex, tail: Lex, end: Lex)
    requires lx.tok == Token(STRING, Some("a")) && Unescape("a") == "a"
    requires Advance(lx) == semi && semi.tok.typ == SEMI && Advance(semi) == tail && ParseCmd(tail) == Got(None, end)
    ensures ParseCmd(lx) == Got(Some(Exec(["a"])), end)
  {
    hide Scan, Unescape;
    var a := Exec(["a"]);
    assert [] + ["a"] == ["a"];
    assert ParsePrimary(lx) == Got(Some(a), semi);
    RedirOf(lx, a, semi);
    BinaryOf(lx, a, semi);
    hide ParsePrimary, ParseRedir, ParseBinary;
    assert ParseList(lx) == Got(Some(a), end);
  }

  lemma PrimaryFails(lx: Lex, end: Lex)
    requires lx.tok.typ == LPAREN && ParsePrimary(lx) == Got(None, end)
    ensures ParseCmd(lx) == Got(None, end)
  {
    hide ParsePrimary;
    assert ParseRedir(lx) == Got(None, end);
    assert ParseBinary(lx) == Got(None, end);
  }

  lemma Unclosed(paren: Lex, end: Lex)
    requires paren.tok.typ == LPAREN && Advance(paren) == end && end.tok.typ == EOF
    ensures ParseCmd(paren) == Got(None, end)
  {
    hide Scan;
    NotBegun(end);
    PrimaryFails(paren, end);
  }

  lemma EmptyParen(paren: Lex, close: Lex, next: Lex)
    requires paren.tok.typ == LPAREN && Advance(paren) == close && close.tok.typ == RPAREN && Advance(close) == next
    ensures ParseCmd(paren) == Got(None, next)
  {
    hide Scan;
    NotBegun(close);
    PrimaryFails(paren, next);
  }

  // ------------------------------------------------------------------
  // Overruns
  // ------------------------------------------------------------------

  /** A token whose recorded length is -1. */
  predicate Lone(t: Token) { t == Token(STRING, None) }

  /** Scanning to the end of the text meets such a token. */
  predicate LoneEnd(s: string)
    decreases |s|
  {
    var lx := Scan(s);
    lx.tok.typ != EOF && (Lone(lx.tok) || LoneEnd(lx.rest))
  }

  /** A token has length -1 exactly if it starts with a quote that is the last
      character of the buffer. */
  lemma LoneQuote(s: string)
    requires SkipSpace(s) != [] && SkipSpace(s)[0] != '#'
    ensures Lone(Scan(s).tok) <==> SkipSpace(s) == "\"" || SkipSpace(s) == "\'"
  {
    var t := SkipSpace(s);
    if t[0] == '"' || t[0] == '\'' {
      assert 1 + QuoteLength(t[1..], t[0]) < 2 <==> |t| == 1;
    }
  }

  // The text with its last character once more: the same tokens, and a quote that
  // stood alone is closed.

  lemma {:induction false} SkipSpaceMore(s: string, q: char)
    requires SkipSpace(s) != []
    ensures SkipSpace(s + [q]) == SkipSpace(s) + [q]
    ensures SkipSpace(s)[|SkipSpace(s)| - 1] == s[|s| - 1]
  {
    if IsSpace(s[0]) {
      SkipSpaceMore(s[1..], q);
      assert (s + [q])[1..] == s[1..] + [q];
    }
  }

  lemma {:induction false} SkipCommentMore(s: string, q: char)
    requires SkipComment(s) != []
    ensures SkipComment(s + [q]) == SkipComment(s) + [q]
    ensures SkipComment(s)[|SkipComment(s)| - 1] == s[|s| - 1]
  {
    if s[0] != '\n' && s[0] != '\r' {
      SkipCommentMore(s[1..], q);
      assert (s + [q])[1..] == s[1..] + [q];
    }
  }

  lemma {:induction false} WordMore(s: string, q: char)
    requires WordLength(s) < |s|
    ensures WordLength(s + [q]) == WordLength(s)
  {
    if !IsSymbol(s[0]) && !IsSpace(s[0]) {
      var k := if s[0] == '\\' then 2 else 1;
      WordMore(s[k..], q);
      assert (s + [q])[k..] == s[k..] + [q];
    }
  }

  lemma {:induction false} QuoteMore(s: string, c: char, q: char)
    requires QuoteLength(s, c) < |s|
    ensures QuoteLength(s + [q], c) == QuoteLength(s, c)
  {
    if s[0] != c {
      var k := if s[0] == '\\' && c == '"' then 2 else 1;
      QuoteMore(s[k..], c, q);
      assert (s + [q])[k..] == s[k..] + [q];
    }
  }

  /** `lx'` is `lx` with the last quote closed. */
  predicate Closing(lx: Lex, lx': Lex) {
    if Lone(lx.tok) then lx'.tok == Token(STRING, Some([])) && lx'.rest == []
    else && lx'.tok == lx.tok && lx.tok.typ != EOF && LoneEnd(lx.rest) && lx.rest != []
         && lx'.rest == lx.rest + [lx.rest[|lx.rest| - 1]]
  }

  lemma OperatorMore(t: string, q: char)
    requires t != [] && (Operator(t).1 == 0 || Operator(t).1 < |t|)
    ensures Operator(t + [q]) == Operator(t)
  {
  }

  lemma LoneText(s: string)
    requires LoneEnd(s)
    ensures s != [] && SkipSpace(s) != []
  {
  }

  lemma RestMore(t: string, n: nat)
    requires n < |t|
    ensures (t + [t[|t| - 1]])[n..] == t[n..] + [t[n..][|t[n..]| - 1]]
  {
  }

  /** What the skipping of spaces leaves of `s` and of `s` with `q` behind it. */
  predicate Skipped(s: string, t: string, q: char) {
    t != [] && SkipSpace(s) == t && SkipSpace(s + [q]) == t + [q] && q == t[|t| - 1]
  }

  lemma OperatorCase(s: string, t: string, q: char)
    requires Skipped(s, t, q) && LoneEnd(s) && Operator(t).1 > 0
    ensures Closing(Scan(s), Scan(s + [q]))
  {
    hide Scan, Operator, WordLength, QuoteLength, SkipSpace, SkipComment;
    ScanCases(s);
    ScanCases(s + [q]);
    LoneText(t[Operator(t).1..]);
    OperatorMore(t, q);
    RestMore(t, Operator(t).1);
  }

  lemma WordCase(s: string, t: string, q: char)
    requires Skipped(s, t, q) && LoneEnd(s) && Operator(t).1 == 0 && t[0] != '#' && t[0] != '"' && t[0] != '\''
    ensures Closing(Scan(s), Scan(s + [q]))
  {
    hide Scan, Operator, WordLength, QuoteLength, SkipSpace, SkipComment;
    ScanCases(s);
    ScanCases(s + [q]);
    var n := WordLength(t);
    LoneText(t[n..]);
    OperatorMore(t, q);
    WordMore(t, q);
    RestMore(t, n);
    assert (t + [q])[..n] == t[..n];
  }

  lemma QuoteCase(s: string, t: string, q: char)
    requires Skipped(s, t, q) && LoneEnd(s) && (t[0] == '"' || t[0] == '\'')
    ensures Closing(Scan(s), Scan(s + [q]))
  {
    hide Scan, WordLength, QuoteLength, SkipSpace, SkipComment;
    ScanCases(s);
    ScanCases(s + [q]);
    hide Operator;
    var u, n := t + [q], 1 + QuoteLength(t[1..], t[0]);
    if |t| > 1 { LoneText(t[n..]); }
    QuotedMore(t);
    assert u[0] == t[0] && u[1..1] == [];
    assert |t| > 1 ==> u[1..n - 1] == t[1..n - 1];
  }

  lemma {:induction false} ScanMore(s: string)
    requires LoneEnd(s)
    ensures s != [] && Closing(Scan(s), Scan(s + [s[|s| - 1]]))
    decreases |s|
  {
    hide Scan, Operator, WordLength, QuoteLength, SkipSpace, SkipComment, Closing;
    LoneText(s);
    var q, t := s[|s| - 1], SkipSpace(s);
    SkipSpaceMore(s, q);
    if Operator(t).1 > 0 {
      OperatorCase(s, t, q);
    } else if t[0] == '#' {
      ScanCases(s);
      ScanCases(s + [q]);
      OperatorMore(t, q);
      var c := SkipComment(t[1..]);
      assert LoneEnd(c);
      LoneText(c);
      assert (t + [q])[1..] == t[1..] + [q];
      SkipCommentMore(t[1..], q);
      ScanMore(c);
    } else if t[0] == '"' || t[0] == '\'' {
      QuoteCase(s, t, q);
    } else {
      WordCase(s, t, q);
    }
  }

  /** The quoted token at the head of `t`, and of `t` with its last character
      doubled. */
  lemma QuotedMore(t: string)
    requires t != [] && (|t| == 1 || 1 + QuoteLength(t[1..], t[0]) < |t|)
    ensures var u := t + [t[|t| - 1]];
            var (n, m) := (1 + QuoteLength(t[1..], t[0]), 1 + QuoteLength(u[1..], u[0]));
            if |t| == 1 then n == 1 && m == 2 && u[2..] == []
            else n == m >= 2 && u[..n] == t[..n] && u[n..] == t[n..] + [t[n..][|t[n..]| - 1]]
  {
    var u := t + [t[|t| - 1]];
    assert u[1..] == t[1..] + [t[|t| - 1]];
    if |t| > 1 { QuoteMore(t[1..], t[0], t[|t| - 1]); }
  }

  lemma NextClosing(lx: Lex, lx': Lex)
    requires Closing(lx, lx') && !Lone(lx.tok)
    ensures Closing(Advance(lx), Advance(lx'))
  {
    hide Scan;
    ScanMore(lx.rest);
  }

  /** The parser on the text and on the text with its last quote closed: they do
      the same until the first overruns, and then the second is at the end. */
  predicate InStep(r: Res, r': Res) {
    && r'.Got?
    && if r.Overrun? then r'.lx.tok.typ == EOF else r'.cmd == r.cmd && Closing(r.lx, r'.lx)
  }

  lemma AtEnd(lx: Lex, lx': Lex)
    requires Closing(lx, lx')
    ensures lx'.tok.typ == lx.tok.typ != EOF
    ensures Lone(lx.tok) ==> Advance(lx').tok.typ == EOF
  {
  }

  lemma {:induction false} ExecInStep(argv: seq<string>, lx: Lex, lx': Lex)
    requires Closing(lx, lx') && lx.tok.typ == lx'.tok.typ == STRING && |argv| <= MAX_ARGV - 1
    ensures InStep(ExecLoop(argv, lx), ExecLoop(argv, lx'))
    decreases Fuel(lx)
  {
    hide Scan, Unescape, LoneEnd;
    AtEnd(lx, lx');
    if |argv| < MAX_ARGV - 1 && !Lone(lx.tok) {
      NextClosing(lx, lx');
      var n, n' := Advance(lx), Advance(lx');
      AtEnd(n, n');
      if n.tok.typ == STRING { ExecInStep(argv + [Unescape(lx.tok.text.value)], n, n'); }
    }
  }

  lemma {:induction false} RedirInStep(c: Cmd, lx: Lex, lx': Lex)
    requires Closing(lx, lx') && Shape(c)
    ensures InStep(RedirLoop(c, lx), RedirLoop(c, lx'))
    decreases Fuel(lx)
  {
    hide Scan, Unescape, LoneEnd, RedirNode, Shape;
    AtEnd(lx, lx');
    if IsRedirOp(lx.tok.typ) {
      NextClosing(lx, lx');
      var w, w' := Advance(lx), Advance(lx');
      AtEnd(w, w');
      if w.tok.typ == STRING && !Lone(w.tok) {
        NextClosing(w, w');
        var d := RedirNode(c, lx.tok.typ, Unescape(w.tok.text.value));
        RedirShape(c, lx.tok.typ, Unescape(w.tok.text.value));
        RedirInStep(d, Advance(w), Advance(w'));
      }
    }
  }

  lemma RedirShape(c: Cmd, op: TokenType, file: string)
    requires Shape(c) && IsRedirOp(op)
    ensures Shape(RedirNode(c, op, file))
  {
  }

  lemma {:induction false} PrimaryInStep(lx: Lex, lx': Lex)
    requires Closing(lx, lx')
    ensures InStep(ParsePrimary(lx), ParsePrimary(lx'))
    decreases Fuel(lx), 1
  {
    hide Scan, ParseCmd, ExecLoop, LoneEnd;
    AtEnd(lx, lx');
    if lx.tok.typ == LPAREN {
      NextClosing(lx, lx');
      CmdInStep(Advance(lx), Advance(lx'));
      var c, c' := ParseCmd(Advance(lx)), ParseCmd(Advance(lx'));
      if c.Got? {
        AtEnd(c.lx, c'.lx);
        if c.lx.tok.typ == RPAREN { NextClosing(c.lx, c'.lx); }
      }
    } else if lx.tok.typ == STRING {
      ExecInStep([], lx, lx');
    }
  }

  /** From the primary to its redirections. */
  lemma RedirsInStep(lx: Lex, lx': Lex)
    requires InStep(ParsePrimary(lx), ParsePrimary(lx'))
    ensures InStep(ParseRedir(lx), ParseRedir(lx'))
  {
    hide Scan, ParsePrimary, Closing;
    var p, p' := ParsePrimary(lx), ParsePrimary(lx');
    if p.Overrun? {
      assert p'.cmd.Some? ==> RedirLoop(p'.cmd.value, p'.lx) == p';
    } else if p.cmd.Some? {
      RedirInStep(p.cmd.value, p.lx, p'.lx);
    }
  }

  lemma {:induction false} BinaryInStep(lx: Lex, lx': Lex)
    requires Closing(lx, lx')
    ensures InStep(ParseBinary(lx), ParseBinary(lx'))
    decreases Fuel(lx), 3
  {
    hide Scan, ParsePrimary, ParseRedir, Closing;
    PrimaryInStep(lx, lx');
    RedirsInStep(lx, lx');
    var l, l' := ParseRedir(lx), ParseRedir(lx');
    if l.Got? {
      AtEnd(l.lx, l'.lx);
      if l.cmd.Some? && IsBinaryOp(l.lx.tok.typ) {
        NextClosing(l.lx, l'.lx);
        BinaryInStep(Advance(l.lx), Advance(l'.lx));
      }
    }
  }

  lemma {:induction false} CmdInStep(lx: Lex, lx': Lex)
    requires Closing(lx, lx')
    ensures InStep(ParseCmd(lx), ParseCmd(lx'))
    decreases Fuel(lx), 5
  {
    hide Scan, ParseBinary, LoneEnd;
    AtEnd(lx, lx');
    if StartsCmd(lx.tok.typ) {
      BinaryInStep(lx, lx');
      var l, l' := ParseBinary(lx), ParseBinary(lx');
      if l.Got? {
        AtEnd(l.lx, l'.lx);
        if l.cmd.Some? && (l.lx.tok.typ == SEMI || l.lx.tok.typ == BACK) {
          NextClosing(l.lx, l'.lx);
          CmdInStep(Advance(l.lx), Advance(l'.lx));
        }
      }
    }
  }

  // Without such a token nothing overruns.

  predicate Safe(lx: Lex) { !Lone(lx.tok) && !LoneEnd(lx.rest) }

  lemma NextSafe(lx: Lex)
    requires Safe(lx)
    ensures Safe(Advance(lx))
  {
  }

  lemma {:induction false} ExecSafe(argv: seq<string>, lx: Lex)
    requires lx.tok.typ == STRING && |argv| <= MAX_ARGV - 1 && Safe(lx)
    ensures ExecLoop(argv, lx).Got? && Safe(ExecLoop(argv, lx).lx)
    decreases Fuel(lx)
  {
    hide Scan, Unescape, LoneEnd;
    NextSafe(lx);
    if |argv| < MAX_ARGV - 1 && Advance(lx).tok.typ == STRING {
      ExecSafe(argv + [Unescape(lx.tok.text.value)], Advance(lx));
    }
  }

  lemma {:induction false} RedirSafe(c: Cmd, lx: Lex)
    requires Shape(c) && Safe(lx)
    ensures RedirLoop(c, lx).Got? && Safe(RedirLoop(c, lx).lx)
    decreases Fuel(lx)
  {
    hide Scan, Unescape, LoneEnd;
    if IsRedirOp(lx.tok.typ) {
      NextSafe(lx);
      var w := Advance(lx);
      NextSafe(w);
      if w.tok.typ == STRING { RedirSafe(RedirNode(c, lx.tok.typ, Unescape(w.tok.text.value)), Advance(w)); }
    }
  }

  lemma {:induction false} PrimarySafe(lx: Lex)
    requires Safe(lx)
    ensures ParsePrimary(lx).Got? && Safe(ParsePrimary(lx).lx)
    decreases Fuel(lx), 1
  {
    hide Scan, ParseCmd, ExecLoop, LoneEnd;
    if lx.tok.typ == LPAREN {
      NextSafe(lx);
      CmdSafe(Advance(lx));
      NextSafe(ParseCmd(Advance(lx)).lx);
    } else if lx.tok.typ == STRING {
      ExecSafe([], lx);
    }
  }

  lemma {:induction false} BinarySafe(lx: Lex)
    requires Safe(lx)
    ensures ParseBinary(lx).Got? && Safe(ParseBinary(lx).lx)
    decreases Fuel(lx), 3
  {
    hide Scan, ParsePrimary, RedirLoop, LoneEnd;
    PrimarySafe(lx);
    var p := ParsePrimary(lx);
    if p.cmd.Some? {
      RedirSafe(p.cmd.value, p.lx);
      var l := RedirLoop(p.cmd.value, p.lx);
      if l.cmd.Some? && IsBinaryOp(l.lx.tok.typ) {
        NextSafe(l.lx);
        BinarySafe(Advance(l.lx));
      }
    }
  }

  lemma {:induction false} CmdSafe(lx: Lex)
    requires Safe(lx)
    ensures ParseCmd(lx).Got? && Safe(ParseCmd(lx).lx)
    decreases Fuel(lx), 5
  {
    hide Scan, ParseBinary, LoneEnd;
    if StartsCmd(lx.tok.typ) {
      BinarySafe(lx);
      var l := ParseBinary(lx);
      if l.cmd.Some? && (l.lx.tok.typ == SEMI || l.lx.tok.typ == BACK) {
        NextSafe(l.lx);
        CmdSafe(Advance(l.lx));
      }
    }
  }

  /** copy_peek_string runs off the buffer exactly if the text ends in a quote that
      stands alone as a token, and sh_parse reads the text to its end once that
      quote is closed. */
  lemma OverrunsExactly(s: string)
    ensures LoneEnd(s) ==> s != []
    ensures Parse(s) == Overrun <==>
            LoneEnd(s) && Parse(s + [s[|s| - 1]]).Got? && Parse(s + [s[|s| - 1]]).lx.tok.typ == EOF
  {
    hide Scan, ParseCmd;
    if LoneEnd(s) {
      ScanMore(s);
      var lx, lx' := Scan(s), Scan(s + [s[|s| - 1]]);
      CmdInStep(lx, lx');
      if ParseCmd(lx).Got? { AtEnd(ParseCmd(lx).lx, ParseCmd(lx').lx); }
    } else {
      SafeText(s);
      CmdSafe(Scan(s));
    }
  }

  lemma SafeText(s: string)
    requires !LoneEnd(s)
    ensures Safe(Scan(s))
  {
  }

  /** What the line reader (shell/sh/sh_scanner.c) asks of a text without backslash
      and newline that the input ends with: its quotes are paired. */
  predicate Paired(s: string, open: Option<char>) {
    if s == [] then open == None
    else if open == None then Paired(s[1..], if s[0] == '"' || s[0] == '\'' then Some(s[0]) else None)
    else Paired(s[1..], if s[0] == open.value then None else open)
  }

  /** The reader pairs the two quotes of this text; the lexer takes the first for a
      part of the word `a"b` and the second for a token of its own. */
  lemma QuoteOverruns()
    ensures Paired("a\"b \"", None) && Parse("a\"b \"") == Overrun
  {
    hide Parse;
    QuoteText("a\"b \"");
  }

  lemma QuoteText(s: string)
    requires s == "a\"b" + " \""
    ensures Paired(s, None) && Parse(s) == Overrun
  {
    var (w, q) := ("a\"b", " \"");
    assert s[1..] == "\"b \"" && s[1..][1..] == "b \"" && s[1..][1..][1..] == q && q[1..] == "\"" && "\""[1..] == [];
    var open := Some('"');
    assert Paired("\"", open);
    assert Paired(q, open);
    assert Paired("b \"", open);
    assert Paired("\"b \"", None);
    assert SkipSpace(q) == "\"" by { assert SkipSpace(q[1..]) == "\""; }
    LoneQuote(q);
    WordTaken(w, q);
    hide Scan, ParseCmd, Paired;
    SecondWordOverruns(Scan(s), Scan(q));
  }

  lemma WordTaken(w: string, t: string)
    requires w == "a\"b" && t != [] && IsSpace(t[0])
    ensures Scan(w + t) == Lex(Token(STRING, Some(w)), t)
  {
    var s := w + t;
    assert s[1..][1..][1..] == t && s[1..][1..] == "b" + t && s[1..] == "\"b" + t;
    assert WordLength(t) == 0 && WordLength("b" + t) == 1 && WordLength("\"b" + t) == 2 && WordLength(s) == 3;
    assert SkipSpace(s) == s && s[..3] == w && s[3..] == t;
  }

  lemma SecondWordOverruns(lx: Lex, q: Lex)
    requires lx.tok.typ == STRING && lx.tok.text.Some? && Advance(lx) == q && Lone(q.tok)
    ensures ParseCmd(lx) == Overrun
  {
    hide Scan, Unescape;
    var argv := [] + [Unescape(lx.tok.text.value)];
    assert ExecLoop(argv, q) == Overrun;
    assert ExecLoop([], lx) == Overrun;
    assert ParsePrimary(lx) == Overrun;
    assert ParseBinary(lx) == Overrun;
  }
}
