/** The grammar in the comments of the parser, as concrete syntax trees, and the parser
    as sound and complete for it.  A printer that writes no parenthesis the grammar
    does not need, and leaves ordinary words as they are, is undone by the parser. */
module ShellGrammar {
  import opened Common
  import opened Shell
  import opened ShellFaults

  // ------------------------------------------------------------------
  // Concrete syntax
  // ------------------------------------------------------------------

  /** Primary := "(" Cmd ")" | Execcmd */
  datatype Primary = Group(list: ListTree) | Words(ws: seq<Token>)

  /** Redir := Primary ( ( ">>" | ">" | "<" ) word )* */
  datatype RedirTree = Base(p: Primary) | To(r: RedirTree, op: Token, file: Token)

  /** Binary := Redir [ ( "|" | "&&" | "||" ) Binary ] */
  datatype BinaryTree = Single(r: RedirTree) | Operation(l: RedirTree, op: Token, b: BinaryTree)

  /** List := Binary [ ( ";" | "&" ) [ List ] ] */
  datatype ListTree = One(b: BinaryTree) | Ended(b: BinaryTree, sep: Token) | More(b: BinaryTree, sep: Token, rest: ListTree)

  predicate IsWord(t: Token) { t.typ == STRING && t.text.Some? }
  predicate IsSep(t: Token) { t.typ == SEMI || t.typ == BACK }

  const OPEN: Token := Token(LPAREN, None)
  const CLOSE: Token := Token(RPAREN, None)

  predicate PrimaryOk(x: Primary) {
    match x
    case Group(l) => ListOk(l)
    case Words(ws) => 1 <= |ws| <= MAX_ARGV - 1 && forall i :: 0 <= i < |ws| ==> IsWord(ws[i])
  }

  predicate RedirOk(x: RedirTree) {
    match x
    case Base(p) => PrimaryOk(p)
    case To(r, op, f) => RedirOk(r) && IsRedirOp(op.typ) && op.text.None? && IsWord(f)
  }

  predicate BinaryOk(x: BinaryTree) {
    match x
    case Single(r) => RedirOk(r)
    case Operation(l, op, b) => RedirOk(l) && IsBinaryOp(op.typ) && op.text.None? && BinaryOk(b)
  }

  predicate ListOk(x: ListTree) {
    match x
    case One(b) => BinaryOk(b)
    case Ended(b, sep) => BinaryOk(b) && IsSep(sep) && sep.text.None?
    case More(b, sep, rest) => BinaryOk(b) && IsSep(sep) && sep.text.None? && ListOk(rest)
  }

  // The tokens of a tree.

  function PrimaryTokens(x: Primary): seq<Token> {
    match x
    case Group(l) => [OPEN] + ListTokens(l) + [CLOSE]
    case Words(ws) => ws
  }

  function RedirTokens(x: RedirTree): seq<Token> {
    match x
    case Base(p) => PrimaryTokens(p)
    case To(r, op, f) => RedirTokens(r) + [op, f]
  }

  function BinaryTokens(x: BinaryTree): seq<Token> {
    match x
    case Single(r) => RedirTokens(r)
    case Operation(l, op, b) => RedirTokens(l) + [op] + BinaryTokens(b)
  }

  function ListTokens(x: ListTree): seq<Token> {
    match x
    case One(b) => BinaryTokens(b)
    case Ended(b, sep) => BinaryTokens(b) + [sep]
    case More(b, sep, rest) => BinaryTokens(b) + [sep] + ListTokens(rest)
  }

  // What it stands for.

  function Argv(ws: seq<Token>): (r: seq<string>)
    ensures |r| == |ws|
  {
    if ws == [] then []
    else Argv(ws[..|ws| - 1]) + [if ws[|ws| - 1].text.Some? then Unescape(ws[|ws| - 1].text.value) else []]
  }

  function PrimaryMeans(x: Primary): Cmd
    requires PrimaryOk(x)
  {
    match x
    case Group(l) => ListMeans(l)
    case Words(ws) => Exec(Argv(ws))
  }

  function RedirMeans(x: RedirTree): Cmd
    requires RedirOk(x)
  {
    match x
    case Base(p) => PrimaryMeans(p)
    case To(r, op, f) => RedirNode(RedirMeans(r), op.typ, Unescape(f.text.value))
  }

  function BinaryMeans(x: BinaryTree): Cmd
    requires BinaryOk(x)
  {
    match x
    case Single(r) => RedirMeans(r)
    case Operation(l, op, b) => Combined(RedirMeans(l), op.typ, BinaryMeans(b))
  }

  function Combined(l: Cmd, op: TokenType, r: Cmd): Cmd {
    if op == PIPE then Pipe(l, r) else Binary(l, r, op)
  }

  function ListMeans(x: ListTree): Cmd
    requires ListOk(x)
  {
    match x
    case One(b) => BinaryMeans(b)
    case Ended(b, sep) => Sent(BinaryMeans(b), sep)
    case More(b, sep, rest) => List(Sent(BinaryMeans(b), sep), ListMeans(rest))
  }

  /** `&` puts the command in front of it into the background. */
  function Sent(c: Cmd, sep: Token): Cmd {
    if sep.typ == BACK then Back(c) else c
  }

  // ------------------------------------------------------------------
  // Tokens of a text
  // ------------------------------------------------------------------

  /** The peeked token and all that follow, up to the end. */
  function Stream(lx: Lex): seq<Token>
    decreases Fuel(lx)
  {
    if lx.tok.typ == EOF then [] else [lx.tok] + Stream(Advance(lx))
  }

  function Head(ts: seq<Token>): TokenType { if ts == [] then EOF else ts[0].typ }

  lemma StreamHead(lx: Lex)
    ensures Head(Stream(lx)) == lx.tok.typ && (lx.tok.typ == EOF <==> Stream(lx) == [])
    ensures lx.tok.typ != EOF ==> Stream(lx)[0] == lx.tok && Stream(lx)[1..] == Stream(Advance(lx))
  {
    hide Scan;
  }

  /** If the tokens are these, the next one is the first of them. */
  lemma StreamTakes(lx: Lex, t: Token, ts: seq<Token>)
    requires Stream(lx) == [t] + ts
    ensures lx.tok == t && t.typ != EOF && Stream(Advance(lx)) == ts
  {
    hide Scan;
    StreamHead(lx);
    assert ([t] + ts)[1..] == ts;
  }

  // ------------------------------------------------------------------
  // Complete: what the grammar derives is parsed
  // ------------------------------------------------------------------

  /** Which tokens cannot continue a command at each level. */
  predicate AfterRedir(t: TokenType) { t != STRING && !IsRedirOp(t) }
  predicate AfterBinary(t: TokenType) { AfterRedir(t) && !IsBinaryOp(t) }

  /** The parser has read a tree that stands for `c` and left `rest`. */
  predicate Reads(r: Res, c: Cmd, rest: seq<Token>) {
    r.Got? && r.cmd == Some(c) && Stream(r.lx) == rest
  }

  lemma {:induction false} WordsComplete(argv: seq<string>, ws: seq<Token>, lx: Lex, rest: seq<Token>)
    requires ws != [] && |argv| + |ws| <= MAX_ARGV - 1 && (forall i :: 0 <= i < |ws| ==> IsWord(ws[i]))
    requires Stream(lx) == ws + rest && Head(rest) != STRING
    ensures lx.tok.typ == STRING && Reads(ExecLoop(argv, lx), Exec(argv + Argv(ws)), rest)
    decreases |ws|
  {
    hide Scan, Unescape, Stream, Argv, Advance;
    assert ws + rest == [ws[0]] + (ws[1..] + rest);
    StreamTakes(lx, ws[0], ws[1..] + rest);
    var n := Advance(lx);
    StreamHead(n);
    ArgvFront(ws);
    if |ws| == 1 {
      assert ws[1..] + rest == rest && ws[1..] == [];
      ArgvNone();
      assert argv + [Unescape(ws[0].text.value)] == argv + Argv(ws);
    } else {
      WordsComplete(argv + [Unescape(ws[0].text.value)], ws[1..], n, rest);
      assert argv + [Unescape(ws[0].text.value)] + Argv(ws[1..]) == argv + Argv(ws);
    }
  }

  lemma ArgvNone()
    ensures Argv([]) == []
  {
  }

  lemma {:induction false} ArgvFront(ws: seq<Token>)
    requires ws != [] && IsWord(ws[0])
    ensures Argv(ws) == [Unescape(ws[0].text.value)] + Argv(ws[1..])
  {
    hide Unescape;
    if |ws| > 1 {
      var n := |ws| - 1;
      ArgvFront(ws[..n]);
      assert ws[..n][1..] == ws[1..][..n - 1] && ws[1..][n - 1] == ws[n];
    } else {
      assert ws[..0] == [] && ws[1..] == [];
    }
  }

  lemma {:induction false} PrimaryComplete(x: Primary, lx: Lex, rest: seq<Token>)
    requires PrimaryOk(x) && Stream(lx) == PrimaryTokens(x) + rest && (x.Words? ==> Head(rest) != STRING)
    ensures StartsCmd(lx.tok.typ) && Reads(ParsePrimary(lx), PrimaryMeans(x), rest)
    decreases x
  {
    hide Scan, Stream, ExecLoop, ParseCmd, Advance, ListTokens, Argv;
    match x
    case Words(ws) =>
      WordsComplete([], ws, lx, rest);
      assert [] + Argv(ws) == Argv(ws);
    case Group(l) =>
      var inner := ListTokens(l) + ([CLOSE] + rest);
      assert PrimaryTokens(x) + rest == [OPEN] + inner;
      StreamTakes(lx, OPEN, inner);
      ListComplete(l, Advance(lx), [CLOSE] + rest);
      var c := ParseCmd(Advance(lx));
      StreamTakes(c.lx, CLOSE, rest);
  }

  /** The loop has got as far as `c`, whatever follows. */
  lemma {:induction false} RedirComplete(x: RedirTree, lx: Lex, rest: seq<Token>)
    requires RedirOk(x) && Stream(lx) == RedirTokens(x) + rest && Head(rest) != STRING
    ensures StartsCmd(lx.tok.typ)
    ensures var p := ParsePrimary(lx);
            && p.Got? && p.cmd.Some?
            && exists m :: Stream(m) == rest && Shape(RedirMeans(x)) && RedirLoop(p.cmd.value, p.lx) == RedirLoop(RedirMeans(x), m)
    decreases x, 0
  {
    hide Scan, Stream, ParsePrimary, Advance, Unescape, PrimaryMeans, Shape;
    match x
    case Base(p) => PrimaryComplete(p, lx, rest);
    case To(r, op, f) =>
      var more := [op] + ([f] + rest);
      assert RedirTokens(x) + rest == RedirTokens(r) + more;
      RedirComplete(r, lx, more);
      var p := ParsePrimary(lx);
      var m :| Stream(m) == more && Shape(RedirMeans(r)) && RedirLoop(p.cmd.value, p.lx) == RedirLoop(RedirMeans(r), m);
      StreamTakes(m, op, [f] + rest);
      StreamTakes(Advance(m), f, rest);
      RedirTurn(RedirMeans(r), m);
  }

  /** One turn of the loop. */
  lemma RedirTurn(c: Cmd, m: Lex)
    requires Shape(c) && IsRedirOp(m.tok.typ) && IsWord(Advance(m).tok)
    ensures var d := RedirNode(c, m.tok.typ, Unescape(Advance(m).tok.text.value));
            Shape(d) && RedirLoop(c, m) == RedirLoop(d, Advance(Advance(m)))
  {
    hide Scan, Unescape;
  }

  lemma RedirDone(x: RedirTree, lx: Lex, rest: seq<Token>)
    requires RedirOk(x) && Stream(lx) == RedirTokens(x) + rest && AfterRedir(Head(rest))
    ensures StartsCmd(lx.tok.typ) && Reads(ParseRedir(lx), RedirMeans(x), rest)
    decreases x, 1
  {
    hide Scan, Stream, ParsePrimary, Advance, RedirMeans, RedirTokens;
    RedirComplete(x, lx, rest);
    var p := ParsePrimary(lx);
    var m :| Stream(m) == rest && Shape(RedirMeans(x)) && RedirLoop(p.cmd.value, p.lx) == RedirLoop(RedirMeans(x), m);
    StreamHead(m);
  }

  lemma {:induction false} BinaryComplete(x: BinaryTree, lx: Lex, rest: seq<Token>)
    requires BinaryOk(x) && Stream(lx) == BinaryTokens(x) + rest && AfterBinary(Head(rest))
    ensures StartsCmd(lx.tok.typ) && Reads(ParseBinary(lx), BinaryMeans(x), rest)
    decreases x
  {
    hide Scan, Stream, ParseRedir, Advance, RedirMeans, RedirTokens, RedirOk;
    match x
    case Single(r) =>
      RedirDone(r, lx, rest);
      StreamHead(ParseRedir(lx).lx);
    case Operation(l, op, b) =>
      var more := [op] + (BinaryTokens(b) + rest);
      assert BinaryTokens(x) + rest == RedirTokens(l) + more;
      RedirDone(l, lx, more);
      var m := ParseRedir(lx).lx;
      StreamTakes(m, op, BinaryTokens(b) + rest);
      BinaryComplete(b, Advance(m), rest);
  }

  lemma {:induction false} ListComplete(x: ListTree, lx: Lex, rest: seq<Token>)
    requires ListOk(x) && Stream(lx) == ListTokens(x) + rest && Ends(Head(rest))
    ensures Reads(ParseCmd(lx), ListMeans(x), rest)
    decreases x
  {
    hide Scan, Stream, ParseBinary, Advance, BinaryMeans, BinaryTokens, BinaryOk, ParseCmd;
    match x
    case One(b) =>
      BinaryComplete(b, lx, rest);
      StreamHead(ParseBinary(lx).lx);
      ListPlain(lx);
    case Ended(b, sep) =>
      assert ListTokens(x) + rest == BinaryTokens(b) + ([sep] + rest);
      BinaryComplete(b, lx, [sep] + rest);
      var m := ParseBinary(lx).lx;
      StreamTakes(m, sep, rest);
      StreamHead(Advance(m));
      ListEnds(lx);
    case More(b, sep, more) =>
      var tail := ListTokens(more) + rest;
      assert ListTokens(x) + rest == BinaryTokens(b) + ([sep] + tail);
      BinaryComplete(b, lx, [sep] + tail);
      var m := ParseBinary(lx).lx;
      StreamTakes(m, sep, tail);
      ListComplete(more, Advance(m), rest);
      ListGoesOn(lx);
  }

  // parse_list, by what follows the first command.

  lemma ListPlain(lx: Lex)
    requires StartsCmd(lx.tok.typ) && ParseBinary(lx).Got? && ParseBinary(lx).cmd.Some? && !IsSep(ParseBinary(lx).lx.tok)
    ensures ParseCmd(lx) == ParseBinary(lx)
  {
    hide Scan, ParseBinary;
  }

  lemma ListEnds(lx: Lex)
    requires StartsCmd(lx.tok.typ)
    requires var l := ParseBinary(lx); l.Got? && l.cmd.Some? && IsSep(l.lx.tok) && !StartsCmd(Advance(l.lx).tok.typ)
    ensures var l := ParseBinary(lx); ParseCmd(lx) == Got(Some(Sent(l.cmd.value, l.lx.tok)), Advance(l.lx))
  {
    hide Scan, ParseBinary;
    var l := ParseBinary(lx);
    assert ParseCmd(Advance(l.lx)) == Got(None, Advance(l.lx));
    hide ParseCmd;
    assert ParseList(lx) == Got(Some(Sent(l.cmd.value, l.lx.tok)), Advance(l.lx));
    CmdIsList(lx);
  }

  lemma CmdIsList(lx: Lex)
    requires StartsCmd(lx.tok.typ)
    ensures ParseCmd(lx) == ParseList(lx)
  {
  }

  lemma ListGoesOn(lx: Lex)
    requires StartsCmd(lx.tok.typ)
    requires var l := ParseBinary(lx); l.Got? && l.cmd.Some? && IsSep(l.lx.tok)
    requires var r := ParseCmd(Advance(ParseBinary(lx).lx)); r.Got? && r.cmd.Some?
    ensures var l := ParseBinary(lx);
            var r := ParseCmd(Advance(l.lx));
            ParseCmd(lx) == Got(Some(List(Sent(l.cmd.value, l.lx.tok), r.cmd.value)), r.lx)
  {
    hide Scan, ParseBinary, ParseCmd;
    CmdIsList(lx);
  }

  /** Whatever text has the tokens of a tree is parsed as what the tree stands for. */
  lemma ParseIsComplete(s: string, x: ListTree)
    requires ListOk(x) && Stream(Scan(s)) == ListTokens(x)
    ensures Parse(s).Got? && Parse(s).cmd == Some(ListMeans(x)) && Parse(s).lx.tok.typ == EOF
  {
    hide Scan, Stream, ParseCmd, ListTokens, ListMeans;
    assert ListTokens(x) + [] == ListTokens(x);
    ListComplete(x, Scan(s), []);
    StreamHead(ParseCmd(Scan(s)).lx);
  }

  // ------------------------------------------------------------------
  // Sound: what is accepted has a tree
  // ------------------------------------------------------------------

  /** Only words carry a text. */
  predicate Real(lx: Lex) { lx.tok.typ != STRING ==> lx.tok.text.None? }

  lemma {:induction false} ScanReal(s: string)
    ensures Real(Scan(s))
    decreases |s|
  {
    var r := SkipSpace(s);
    ScanCases(s);
    hide Scan, Operator, WordLength, QuoteLength;
    if r != [] && Operator(r).1 == 0 && r[0] == '#' { ScanReal(SkipComment(r[1..])); }
  }

  lemma NextReal(lx: Lex)
    ensures Real(Advance(lx))
  {
    hide Scan;
    ScanReal(lx.rest);
  }

  lemma {:induction false} WordsSound(argv: seq<string>, lx: Lex) returns (ws: seq<Token>)
    requires lx.tok.typ == STRING && |argv| <= MAX_ARGV - 1 && Tree(ExecLoop(argv, lx)).Some?
    ensures ws != [] && |argv| + |ws| <= MAX_ARGV - 1 && forall i :: 0 <= i < |ws| ==> IsWord(ws[i])
    ensures var r := ExecLoop(argv, lx); r.cmd == Some(Exec(argv + Argv(ws))) && Stream(lx) == ws + Stream(r.lx) && Real(r.lx)
    decreases Fuel(lx)
  {
    hide Scan, Unescape, Stream, Argv, Advance;
    var n, u := Advance(lx), Unescape(lx.tok.text.value);
    NextReal(lx);
    StreamHead(lx);
    if n.tok.typ == STRING {
      AdvanceLess(lx);
      var more := WordsSound(argv + [u], n);
      ws := [lx.tok] + more;
      ArgvFront(ws);
      assert ws[1..] == more && argv + [u] + Argv(more) == argv + Argv(ws);
      assert Stream(lx) == ws + Stream(ExecLoop(argv, lx).lx);
    } else {
      ws := [lx.tok];
      ArgvFront(ws);
      ArgvNone();
      assert ws[1..] == [] && argv + [u] == argv + Argv(ws);
      assert Stream(lx) == ws + Stream(n);
    }
  }

  lemma AdvanceLess(lx: Lex)
    requires lx.tok.typ != EOF
    ensures Fuel(Advance(lx)) < Fuel(lx)
  {
  }

  lemma {:induction false} RedirsSound(x0: RedirTree, lx: Lex) returns (x: RedirTree)
    requires RedirOk(x0) && Shape(RedirMeans(x0)) && Real(lx) && Tree(RedirLoop(RedirMeans(x0), lx)).Some?
    ensures RedirOk(x) && Real(RedirLoop(RedirMeans(x0), lx).lx)
    ensures var r := RedirLoop(RedirMeans(x0), lx);
            r.cmd == Some(RedirMeans(x)) && RedirTokens(x0) + Stream(lx) == RedirTokens(x) + Stream(r.lx)
    decreases Fuel(lx)
  {
    hide Scan, Unescape, Stream, Advance, Shape;
    x := x0;
    if IsRedirOp(lx.tok.typ) {
      var w := Advance(lx);
      var n := Advance(w);
      StreamHead(lx);
      StreamHead(w);
      AdvanceLess(lx);
      AdvanceLess(w);
      NextReal(w);
      var x1 := To(x0, lx.tok, w.tok);
      RedirTurn(RedirMeans(x0), lx);
      x := RedirsSound(x1, n);
      assert RedirTokens(x0) + Stream(lx) == RedirTokens(x1) + Stream(n);
    }
  }

  /** A tree for what has been read from `lx`. */
  ghost predicate PrimaryRead(x: Primary, lx: Lex, r: Res) {
    PrimaryOk(x) && r.Got? && r.cmd == Some(PrimaryMeans(x)) && Stream(lx) == PrimaryTokens(x) + Stream(r.lx) && Real(r.lx)
  }

  ghost predicate BinaryRead(x: BinaryTree, lx: Lex, r: Res) {
    BinaryOk(x) && r.Got? && r.cmd == Some(BinaryMeans(x)) && Stream(lx) == BinaryTokens(x) + Stream(r.lx) && Real(r.lx)
  }

  ghost predicate ListRead(x: ListTree, lx: Lex, r: Res) {
    ListOk(x) && r.Got? && r.cmd == Some(ListMeans(x)) && Stream(lx) == ListTokens(x) + Stream(r.lx) && Real(r.lx)
  }

  lemma {:induction false} PrimarySound(lx: Lex) returns (x: Primary)
    requires Real(lx) && Tree(StrictPrimary(lx)).Some?
    ensures PrimaryRead(x, lx, StrictPrimary(lx))
    decreases Fuel(lx), 1
  {
    hide Scan, ExecLoop, StrictCmd, Stream, Advance, Argv, ListTokens, ListMeans, ListOk;
    StreamHead(lx);
    if lx.tok.typ == LPAREN {
      AdvanceLess(lx);
      NextReal(lx);
      var l := ListSound(Advance(lx));
      x := Group(l);
      var c := StrictCmd(Advance(lx));
      StreamHead(c.lx);
      NextReal(c.lx);
      assert Stream(lx) == PrimaryTokens(x) + Stream(Advance(c.lx));
    } else {
      var ws := WordsSound([], lx);
      x := Words(ws);
      assert [] + Argv(ws) == Argv(ws);
    }
  }

  lemma RedirSound(lx: Lex) returns (x: RedirTree)
    requires Real(lx) && Tree(StrictRedir(lx)).Some?
    ensures RedirOk(x) && Real(StrictRedir(lx).lx)
    ensures var r := StrictRedir(lx); r.cmd == Some(RedirMeans(x)) && Stream(lx) == RedirTokens(x) + Stream(r.lx)
    decreases Fuel(lx), 2
  {
    hide Scan, StrictPrimary, RedirLoop, Stream, Advance, PrimaryTokens, PrimaryMeans, PrimaryOk, Shape;
    var p := StrictPrimary(lx);
    var b := PrimarySound(lx);
    x := RedirsSound(Base(b), p.lx);
  }

  lemma {:induction false} BinarySound(lx: Lex) returns (x: BinaryTree)
    requires Real(lx) && Tree(StrictBinary(lx)).Some?
    ensures BinaryRead(x, lx, StrictBinary(lx))
    decreases Fuel(lx), 3
  {
    hide Scan, StrictRedir, Stream, Advance, RedirTokens, RedirMeans, RedirOk;
    var l := StrictRedir(lx);
    var r := RedirSound(lx);
    if IsBinaryOp(l.lx.tok.typ) {
      StreamHead(l.lx);
      AdvanceLess(l.lx);
      NextReal(l.lx);
      var more := BinarySound(Advance(l.lx));
      x := Operation(r, l.lx.tok, more);
      hide StrictBinary, BinaryMeans, BinaryOk;
      var z := StrictBinary(Advance(l.lx));
      assert RedirTokens(r) + ([l.lx.tok] + (BinaryTokens(more) + Stream(z.lx))) == BinaryTokens(x) + Stream(z.lx);
    } else {
      x := Single(r);
    }
  }

  lemma {:induction false} ListSound(lx: Lex) returns (x: ListTree)
    requires Real(lx) && Tree(StrictCmd(lx)).Some?
    ensures ListRead(x, lx, StrictCmd(lx))
    decreases Fuel(lx), 5
  {
    hide Scan, StrictBinary, Stream, Advance, BinaryTokens, BinaryMeans, BinaryOk;
    var b := BinarySound(lx);
    var l := StrictBinary(lx);
    if IsSep(l.lx.tok) {
      StreamHead(l.lx);
      AdvanceLess(l.lx);
      NextReal(l.lx);
      var n := Advance(l.lx);
      if StartsCmd(n.tok.typ) {
        var more := ListSound(n);
        x := More(b, l.lx.tok, more);
        assert Stream(lx) == ListTokens(x) + Stream(StrictCmd(n).lx);
      } else {
        NotBegun(n);
        x := Ended(b, l.lx.tok);
        assert Stream(lx) == ListTokens(x) + Stream(n);
      }
    } else {
      x := One(b);
    }
  }

  // A text that has a tree is tidy.

  predicate TidyTokens(ts: seq<Token>, depth: nat)
    decreases |ts|
  {
    if ts == [] then depth == 0
    else
      var (t, n) := (ts[0].typ, ts[1..]);
      if IsRedirOp(t) || IsBinaryOp(t) then !Ends(Head(n)) && TidyTokens(n, depth)
      else if t == LPAREN then Head(n) != RPAREN && TidyTokens(n, depth + 1)
      else if t == RPAREN then depth > 0 && TidyTokens(n, depth - 1)
      else TidyTokens(n, depth)
  }

  lemma {:induction false} TidyIsTokens(lx: Lex, d: nat)
    ensures Tidy(lx, d) == TidyTokens(Stream(lx), d)
    decreases Fuel(lx)
  {
    hide Scan, Advance, Stream;
    StreamHead(lx);
    if lx.tok.typ != EOF {
      AdvanceLess(lx);
      StreamHead(Advance(lx));
      var t := lx.tok.typ;
      TidyIsTokens(Advance(lx), if t == LPAREN then d + 1 else if t == RPAREN && d > 0 then d - 1 else d);
    }
  }

  lemma TidyStep(t: Token, ts: seq<Token>, d: nat)
    requires t.typ != LPAREN && t.typ != RPAREN && t.typ != EOF && (IsRedirOp(t.typ) || IsBinaryOp(t.typ) ==> !Ends(Head(ts)))
    ensures TidyTokens([t] + ts, d) == TidyTokens(ts, d)
  {
    assert ([t] + ts)[1..] == ts;
  }

  lemma {:induction false} WordsPass(ws: seq<Token>, rest: seq<Token>, d: nat)
    requires forall i :: 0 <= i < |ws| ==> IsWord(ws[i])
    ensures TidyTokens(ws + rest, d) == TidyTokens(rest, d)
  {
    hide TidyTokens;
    if ws == [] {
      assert ws + rest == rest;
    } else {
      assert ws + rest == [ws[0]] + (ws[1..] + rest);
      TidyStep(ws[0], ws[1..] + rest, d);
      WordsPass(ws[1..], rest, d);
    }
  }

  lemma GroupPass(inner: seq<Token>, rest: seq<Token>, d: nat)
    requires Head(inner) != RPAREN && inner != [] && TidyTokens(inner + ([CLOSE] + rest), d + 1) == TidyTokens([CLOSE] + rest, d + 1)
    ensures TidyTokens([OPEN] + inner + [CLOSE] + rest, d) == TidyTokens(rest, d)
  {
    var all := [OPEN] + inner + [CLOSE] + rest;
    assert all[1..] == inner + ([CLOSE] + rest) && ([CLOSE] + rest)[1..] == rest;
  }

  lemma {:induction false} PrimaryPass(x: Primary, rest: seq<Token>, d: nat)
    requires PrimaryOk(x)
    ensures StartsCmd(Head(PrimaryTokens(x))) && PrimaryTokens(x) != [] && TidyTokens(PrimaryTokens(x) + rest, d) == TidyTokens(rest, d)
    decreases x
  {
    hide TidyTokens, ListTokens;
    match x
    case Words(ws) => WordsPass(ws, rest, d);
    case Group(l) =>
      ListPass(l, [CLOSE] + rest, d + 1);
      GroupPass(ListTokens(l), rest, d);
  }

  lemma {:induction false} RedirPass(x: RedirTree, rest: seq<Token>, d: nat)
    requires RedirOk(x)
    ensures StartsCmd(Head(RedirTokens(x))) && RedirTokens(x) != [] && TidyTokens(RedirTokens(x) + rest, d) == TidyTokens(rest, d)
    decreases x
  {
    hide TidyTokens, PrimaryTokens;
    match x
    case Base(p) => PrimaryPass(p, rest, d);
    case To(r, op, f) =>
      assert RedirTokens(x) + rest == RedirTokens(r) + ([op] + ([f] + rest));
      RedirPass(r, [op] + ([f] + rest), d);
      TidyStep(op, [f] + rest, d);
      TidyStep(f, rest, d);
  }

  lemma {:induction false} BinaryPass(x: BinaryTree, rest: seq<Token>, d: nat)
    requires BinaryOk(x)
    ensures StartsCmd(Head(BinaryTokens(x))) && BinaryTokens(x) != [] && TidyTokens(BinaryTokens(x) + rest, d) == TidyTokens(rest, d)
    decreases x
  {
    hide TidyTokens, RedirTokens;
    match x
    case Single(r) => RedirPass(r, rest, d);
    case Operation(l, op, b) =>
      var more := BinaryTokens(b) + rest;
      assert BinaryTokens(x) + rest == RedirTokens(l) + ([op] + more);
      RedirPass(l, [op] + more, d);
      BinaryPass(b, rest, d);
      TidyStep(op, more, d);
  }

  lemma {:induction false} ListPass(x: ListTree, rest: seq<Token>, d: nat)
    requires ListOk(x)
    ensures StartsCmd(Head(ListTokens(x))) && ListTokens(x) != [] && TidyTokens(ListTokens(x) + rest, d) == TidyTokens(rest, d)
    decreases x
  {
    hide TidyTokens, BinaryTokens;
    match x
    case One(b) => BinaryPass(b, rest, d);
    case Ended(b, sep) =>
      assert ListTokens(x) + rest == BinaryTokens(b) + ([sep] + rest);
      BinaryPass(b, [sep] + rest, d);
      TidyStep(sep, rest, d);
    case More(b, sep, more) =>
      var tail := ListTokens(more) + rest;
      assert ListTokens(x) + rest == BinaryTokens(b) + ([sep] + tail);
      BinaryPass(b, [sep] + tail, d);
      TidyStep(sep, tail, d);
      ListPass(more, rest, d);
  }

  lemma DerivedTidy(s: string, x: ListTree)
    requires ListOk(x) && Stream(Scan(s)) == ListTokens(x)
    ensures Tidy(Scan(s), 0)
  {
    hide Scan, Stream, ListTokens, Tidy;
    TidyIsTokens(Scan(s), 0);
    ListPass(x, [], 0);
    assert ListTokens(x) + [] == ListTokens(x);
  }

  /** The text has a tree that stands for `c`. */
  ghost predicate Derives(s: string, c: Cmd) {
    exists x :: ListOk(x) && Stream(Scan(s)) == ListTokens(x) && ListMeans(x) == c
  }

  /** sh_parse gives `c` on a tidy text if and only if the grammar derives it, and no
      untidy text has a derivation: what it accepts of those are the dropped tails. */
  lemma ParseIsGrammar(s: string, c: Cmd)
    ensures Derives(s, c) <==> Tidy(Scan(s), 0) && Tree(Parse(s)) == Some(c)
  {
    hide Scan, Stream, Parse, StrictCmd, ListTokens, ListMeans, ListOk, Tidy;
    DroppedTails(s);
    if Tree(Strict(s)) == Some(c) {
      ScanReal(s);
      var x := ListSound(Scan(s));
      var r := StrictCmd(Scan(s));
      StreamHead(r.lx);
      assert ListTokens(x) + [] == ListTokens(x);
    }
    if x :| ListOk(x) && Stream(Scan(s)) == ListTokens(x) && ListMeans(x) == c {
      ParseIsComplete(s, x);
      DerivedTidy(s, x);
    }
  }

  // ------------------------------------------------------------------
  // A printer that writes no needless parenthesis
  // ------------------------------------------------------------------

  /** A word that needs neither quotes nor backslashes. */
  predicate PlainWord(w: string) {
    && w != [] && w[0] != '"' && w[0] != '\'' && w[0] != '#'
    && forall i :: 0 <= i < |w| ==> !IsSpace(w[i]) && !IsSymbol(w[i]) && w[i] != '\\'
  }

  /** As it stands if it can be, otherwise with every character escaped. */
  function WordToken(w: string): (t: Token)
    ensures IsWord(t)
  {
    Token(STRING, Some(if PlainWord(w) then w else Escaped(w)))
  }

  function WordTokens(ws: seq<string>): (ts: seq<Token>)
    ensures |ts| == |ws| && forall i :: 0 <= i < |ts| ==> ts[i] == WordToken(ws[i])
  {
    if ws == [] then [] else WordTokens(ws[..|ws| - 1]) + [WordToken(ws[|ws| - 1])]
  }

  function OpToken(t: TokenType): Token { Token(t, None) }

  function RedirType(fd: int, mode: int): TokenType {
    if fd == STDIN then LT else if mode == O_WRONLY + O_CREAT then GT else GTGT
  }

  /** The level of the grammar at which a command is written without parentheses. */
  function Level(c: Cmd): nat {
    match c
    case Exec(_) => 0
    case Redir(_, _, _, _) => 1
    case Pipe(_, _) => 2
    case Binary(_, _, _) => 2
    case List(_, _) => 3
    case Back(_) => 3
  }

  /** How many levels, counted downwards and around, lie between `level` and that. */
  function Steps(c: Cmd, level: nat): nat
    requires level <= 3
  {
    (level + 4 - Level(c)) % 4
  }

  function ToList(c: Cmd): ListTree
    decreases c, Steps(c, 3)
  {
    match c
    case List(l, r) =>
      if l.Back? then More(ToBinary(l.cmd), OpToken(BACK), ToList(r)) else More(ToBinary(l), OpToken(SEMI), ToList(r))
    case Back(d) => Ended(ToBinary(d), OpToken(BACK))
    case _ => One(ToBinary(c))
  }

  function ToBinary(c: Cmd): BinaryTree
    decreases c, Steps(c, 2)
  {
    match c
    case Pipe(l, r) => Operation(ToRedir(l), OpToken(PIPE), ToBinary(r))
    case Binary(l, r, op) => Operation(ToRedir(l), OpToken(op), ToBinary(r))
    case _ => Single(ToRedir(c))
  }

  function ToRedir(c: Cmd): RedirTree
    decreases c, Steps(c, 1)
  {
    match c
    case Redir(d, fd, mode, f) => To(ToRedir(d), OpToken(RedirType(fd, mode)), WordToken(f))
    case _ => Base(ToPrimary(c))
  }

  /** Only here are parentheses written. */
  function ToPrimary(c: Cmd): Primary
    decreases c, Steps(c, 0)
  {
    match c
    case Exec(argv) => Words(WordTokens(argv))
    case _ => Group(ToList(c))
  }

  lemma {:induction false} WordsMean(ws: seq<string>)
    ensures Argv(WordTokens(ws)) == ws
  {
    if ws != [] {
      var n := |ws| - 1;
      WordsMean(ws[..n]);
      var ts := WordTokens(ws);
      assert ts[..n] == WordTokens(ws[..n]);
      WordMeans(ws[n]);
    }
  }

  lemma WordMeans(w: string)
    ensures Unescape(WordToken(w).text.value) == w
  {
    if PlainWord(w) { PlainUnescaped(w); } else { UnescapeEscaped(w); }
  }

  lemma {:induction false} PlainUnescaped(w: string)
    requires '\\' !in w
    ensures Unescape(w) == w
  {
    if w != [] { PlainUnescaped(w[1..]); }
  }

  lemma {:induction false} ListMade(c: Cmd)
    requires Shape(c)
    ensures ListOk(ToList(c)) && ListMeans(ToList(c)) == c
    decreases c, Steps(c, 3)
  {
    hide BinaryOk, BinaryMeans, ToBinary;
    match c
    case List(l, r) => BinaryMade(if l.Back? then l.cmd else l); ListMade(r);
    case Back(d) => BinaryMade(d);
    case _ => BinaryMade(c);
  }

  lemma {:induction false} BinaryMade(c: Cmd)
    requires Shape(c)
    ensures BinaryOk(ToBinary(c)) && BinaryMeans(ToBinary(c)) == c
    decreases c, Steps(c, 2)
  {
    hide RedirOk, RedirMeans, ToRedir;
    match c
    case Pipe(l, r) => RedirMade(l); BinaryMade(r);
    case Binary(l, r, op) => RedirMade(l); BinaryMade(r);
    case _ => RedirMade(c);
  }

  lemma {:induction false} RedirMade(c: Cmd)
    requires Shape(c)
    ensures RedirOk(ToRedir(c)) && RedirMeans(ToRedir(c)) == c
    decreases c, Steps(c, 1)
  {
    hide PrimaryOk, PrimaryMeans, ToPrimary, WordToken, Unescape;
    match c
    case Redir(d, _, _, f) => RedirMade(d); WordMeans(f);
    case _ => PrimaryMade(c);
  }

  lemma {:induction false} PrimaryMade(c: Cmd)
    requires Shape(c)
    ensures PrimaryOk(ToPrimary(c)) && PrimaryMeans(ToPrimary(c)) == c
    decreases c, Steps(c, 0)
  {
    hide Argv, WordToken, Unescape, ListOk, ListMeans, ToList;
    match c
    case Exec(argv) => WordsMean(argv);
    case _ => ListMade(c);
  }

  // ------------------------------------------------------------------
  // And no printer writes fewer
  // ------------------------------------------------------------------

  function PrimaryGroups(x: Primary): nat {
    match x case Group(l) => 1 + ListGroups(l) case Words(_) => 0
  }

  function RedirGroups(x: RedirTree): nat {
    match x case Base(p) => PrimaryGroups(p) case To(r, _, _) => RedirGroups(r)
  }

  function BinaryGroups(x: BinaryTree): nat {
    match x case Single(r) => RedirGroups(r) case Operation(l, _, b) => RedirGroups(l) + BinaryGroups(b)
  }

  function ListGroups(x: ListTree): nat {
    match x
    case One(b) => BinaryGroups(b)
    case Ended(b, _) => BinaryGroups(b)
    case More(b, _, rest) => BinaryGroups(b) + ListGroups(rest)
  }

  // One level down costs nothing, and from the lowest back to the top one pair.

  lemma DownList(c: Cmd)
    ensures Level(c) != 3 ==> ListGroups(ToList(c)) == BinaryGroups(ToBinary(c))
    ensures c.Back? ==> ListGroups(ToList(c)) == BinaryGroups(ToBinary(c.cmd))
  {
    hide BinaryGroups, ToBinary;
  }

  lemma DownBinary(c: Cmd)
    ensures Level(c) != 2 ==> BinaryGroups(ToBinary(c)) == RedirGroups(ToRedir(c))
  {
    hide RedirGroups, ToRedir;
  }

  lemma DownRedir(c: Cmd)
    ensures Level(c) != 1 ==> RedirGroups(ToRedir(c)) == PrimaryGroups(ToPrimary(c))
  {
    hide PrimaryGroups, ToPrimary;
  }

  lemma Around(c: Cmd)
    ensures PrimaryGroups(ToPrimary(c)) == if Level(c) == 0 then 0 else 1 + ListGroups(ToList(c))
  {
    hide ListGroups, ToList, WordTokens;
  }

  /** Going down the levels costs at most one pair of parentheses. */
  lemma LevelGroups(c: Cmd)
    ensures ListGroups(ToList(c)) <= BinaryGroups(ToBinary(c)) <= RedirGroups(ToRedir(c)) <= PrimaryGroups(ToPrimary(c))
    ensures PrimaryGroups(ToPrimary(c)) <= 1 + ListGroups(ToList(c))
    ensures c.Back? ==> ListGroups(ToList(c)) == BinaryGroups(ToBinary(c.cmd))
  {
    hide ListGroups, BinaryGroups, RedirGroups, PrimaryGroups, ToList, ToBinary, ToRedir, ToPrimary;
    DownList(c);
    DownBinary(c);
    DownRedir(c);
    Around(c);
  }

  lemma {:induction false} PrimaryFewest(x: Primary)
    requires PrimaryOk(x)
    ensures PrimaryGroups(ToPrimary(PrimaryMeans(x))) <= PrimaryGroups(x)
    decreases x
  {
    hide Argv, WordTokens, ListMeans, ListGroups, ToList;
    match x
    case Words(_) =>
    case Group(l) =>
      ListFewest(l);
      LevelGroups(ListMeans(l));
  }

  lemma {:induction false} RedirFewest(x: RedirTree)
    requires RedirOk(x)
    ensures RedirGroups(ToRedir(RedirMeans(x))) <= RedirGroups(x)
    decreases x
  {
    hide PrimaryMeans, PrimaryGroups, ToPrimary, WordToken, Unescape;
    match x
    case Base(p) =>
      PrimaryFewest(p);
      LevelGroups(PrimaryMeans(p));
    case To(r, _, _) => RedirFewest(r);
  }

  lemma {:induction false} BinaryFewest(x: BinaryTree)
    requires BinaryOk(x)
    ensures BinaryGroups(ToBinary(BinaryMeans(x))) <= BinaryGroups(x)
    decreases x
  {
    hide RedirMeans, RedirGroups, ToRedir;
    match x
    case Single(r) =>
      RedirFewest(r);
      LevelGroups(RedirMeans(r));
    case Operation(l, _, b) =>
      RedirFewest(l);
      BinaryFewest(b);
  }

  lemma {:induction false} ListFewest(x: ListTree)
    requires ListOk(x)
    ensures ListGroups(ToList(ListMeans(x))) <= ListGroups(x)
    decreases x
  {
    hide BinaryMeans, BinaryGroups, ToBinary;
    match x
    case One(b) => BinaryFewest(b); LevelGroups(BinaryMeans(b));
    case Ended(b, _) => BinaryFewest(b); LevelGroups(BinaryMeans(b));
    case More(b, _, rest) =>
      BinaryFewest(b);
      LevelGroups(BinaryMeans(b));
      ListFewest(rest);
  }

  // ------------------------------------------------------------------
  // From tokens to text
  // ------------------------------------------------------------------

  function OperatorText(t: TokenType): string {
    match t
    case GT => ">" case GTGT => ">>" case LT => "<" case LPAREN => "(" case RPAREN => ")"
    case SEMI => ";" case BACK => "&" case AND => "&&" case PIPE => "|" case OR => "||"
    case EOF => "" case STRING => ""
  }

  function TokenText(t: Token): string {
    if t.typ != STRING then OperatorText(t.typ)
    else if t.text.None? || t.text.value == [] then "\"\"" else t.text.value
  }

  /** The tokens with a space behind each. */
  function Spelled(ts: seq<Token>): string {
    if ts == [] then [] else TokenText(ts[0]) + (" " + Spelled(ts[1..]))
  }

  /** A token that this spelling brings back. */
  ghost predicate Spellable(t: Token) {
    if t.typ == STRING then t.text.Some? && (t.text.value == [] || RawWord(t.text.value)) else t.text.None? && t.typ != EOF
  }

  /** A text that the lexer takes for one word, up to the space. */
  ghost predicate RawWord(w: string) {
    && w != [] && !IsSpace(w[0]) && !IsSymbol(w[0]) && w[0] != '"' && w[0] != '\'' && w[0] != '#'
    && forall t :: WordLength(w + (" " + t)) == |w|
  }

  lemma SpelledToken(t: Token, rest: string)
    requires Spellable(t)
    ensures Scan(TokenText(t) + (" " + rest)) == Lex(t, " " + rest)
  {
    hide Scan;
    if t.typ != STRING {
      OperatorRead(t.typ, " " + rest);
    } else if t.text.value == [] {
      ScanEmptyWord(rest);
    } else {
      RawRead(t.text.value, rest);
    }
  }

  lemma OperatorRead(t: TokenType, rest: string)
    requires t != STRING && t != EOF && rest != [] && rest[0] == ' '
    ensures Scan(OperatorText(t) + rest) == Plain(t, rest)
  {
    hide Scan;
    if t == GTGT || t == AND || t == OR {
      var c := OperatorText(t)[0];
      assert OperatorText(t) == [c, c];
      ScanDouble(c, rest);
    } else {
      var c := OperatorText(t)[0];
      assert OperatorText(t) == [c];
      ScanSymbol(c, rest);
    }
  }

  lemma RawRead(w: string, rest: string)
    requires RawWord(w)
    ensures Scan(w + (" " + rest)) == Lex(Token(STRING, Some(w)), " " + rest)
  {
    var s := w + (" " + rest);
    ScanCases(s);
    hide Scan;
    assert s[0] == w[0] && SkipSpace(s) == s;
    assert WordLength(s) == |w|;
    assert s[..|w|] == w && s[|w|..] == " " + rest;
  }

  lemma {:induction false} PlainLength(w: string, t: string)
    requires forall i :: 0 <= i < |w| ==> !IsSpace(w[i]) && !IsSymbol(w[i]) && w[i] != '\\'
    ensures WordLength(w + (" " + t)) == |w|
  {
    var s := w + (" " + t);
    if w != [] {
      assert s[1..] == w[1..] + (" " + t);
      PlainLength(w[1..], t);
    }
  }

  /** Every word of the printer is brought back. */
  lemma WordSpellable(w: string)
    ensures Spellable(WordToken(w))
  {
    hide WordLength;
    if PlainWord(w) {
      forall t ensures WordLength(w + (" " + t)) == |w| { PlainLength(w, t); }
    } else if w != [] {
      forall t ensures WordLength(Escaped(w) + (" " + t)) == |Escaped(w)| { EscapedLength(w, " " + t); }
      assert RawWord(Escaped(w));
    }
  }

  lemma {:induction false} SpelledStream(ts: seq<Token>)
    requires forall i :: 0 <= i < |ts| ==> Spellable(ts[i])
    ensures Stream(Scan(Spelled(ts))) == ts
    decreases |ts|
  {
    hide Scan, TokenText, Spellable;
    if ts == [] {
      EmptyText();
    } else {
      SpelledToken(ts[0], Spelled(ts[1..]));
      ScanSpace(Spelled(ts[1..]));
      SpelledStream(ts[1..]);
      NotEof(ts[0]);
    }
  }

  lemma EmptyText()
    ensures Scan([]) == Plain(EOF, [])
  {
  }

  lemma NotEof(t: Token)
    requires Spellable(t)
    ensures t.typ != EOF
  {
  }

  ghost predicate AllSpellable(ts: seq<Token>) { forall i :: 0 <= i < |ts| ==> Spellable(ts[i]) }

  lemma {:induction false} ListSpellable(c: Cmd)
    requires Shape(c)
    ensures AllSpellable(ListTokens(ToList(c)))
    decreases c, Steps(c, 3)
  {
    hide BinaryTokens, ToBinary, Spellable;
    OperatorSpellable(BACK);
    OperatorSpellable(SEMI);
    match c
    case List(l, r) => BinarySpellable(if l.Back? then l.cmd else l); ListSpellable(r);
    case Back(d) => BinarySpellable(d);
    case _ => BinarySpellable(c);
  }

  lemma OperatorSpellable(t: TokenType)
    requires t != STRING && t != EOF
    ensures Spellable(OpToken(t))
  {
  }

  lemma {:induction false} BinarySpellable(c: Cmd)
    requires Shape(c)
    ensures AllSpellable(BinaryTokens(ToBinary(c)))
    decreases c, Steps(c, 2)
  {
    hide RedirTokens, ToRedir, Spellable;
    match c
    case Pipe(l, r) => OperatorSpellable(PIPE); RedirSpellable(l); BinarySpellable(r);
    case Binary(l, r, op) => OperatorSpellable(op); RedirSpellable(l); BinarySpellable(r);
    case _ => RedirSpellable(c);
  }

  lemma {:induction false} RedirSpellable(c: Cmd)
    requires Shape(c)
    ensures AllSpellable(RedirTokens(ToRedir(c)))
    decreases c, Steps(c, 1)
  {
    hide PrimaryTokens, ToPrimary, Spellable, WordToken;
    match c
    case Redir(d, fd, mode, f) => RedirSpellable(d); WordSpellable(f); OperatorSpellable(RedirType(fd, mode));
    case _ => PrimarySpellable(c);
  }

  lemma {:induction false} PrimarySpellable(c: Cmd)
    requires Shape(c)
    ensures AllSpellable(PrimaryTokens(ToPrimary(c)))
    decreases c, Steps(c, 0)
  {
    hide ListTokens, ToList, Spellable, WordToken;
    OperatorSpellable(LPAREN);
    OperatorSpellable(RPAREN);
    match c
    case Exec(argv) => forall i | 0 <= i < |argv| ensures Spellable(WordToken(argv[i])) { WordSpellable(argv[i]); }
    case _ => ListSpellable(c);
  }

  /** A backslash stands for the character behind it, wherever it is. */
  lemma {:induction false} UnescapeMixed(plain: string, c: char, rest: string)
    requires '\\' !in plain
    ensures Unescape(plain + (['\\', c] + rest)) == plain + ([c] + Unescape(rest))
  {
    var s := plain + (['\\', c] + rest);
    if plain == [] {
      assert s[2..] == rest;
    } else {
      assert s[1..] == plain[1..] + (['\\', c] + rest) && s[0] == plain[0];
      UnescapeMixed(plain[1..], c, rest);
    }
  }

  // What the lexer makes of comments and quotes.

  lemma {:induction false} CommentLength(text: string, rest: string)
    requires '\n' !in text && '\r' !in text
    ensures SkipComment(text + (['\n'] + rest)) == ['\n'] + rest
  {
    var s := text + (['\n'] + rest);
    if text != [] {
      assert s[1..] == text[1..] + (['\n'] + rest) && s[0] == text[0];
      CommentLength(text[1..], rest);
    }
  }

  /** A comment ends with its line. */
  lemma CommentSkipped(text: string, rest: string)
    requires '\n' !in text && '\r' !in text
    ensures Scan(['#'] + (text + (['\n'] + rest))) == Scan(rest)
  {
    var s := ['#'] + (text + (['\n'] + rest));
    ScanCases(s);
    assert SkipSpace(s) == s && s[1..] == text + (['\n'] + rest);
    CommentLength(text, rest);
    assert (['\n'] + rest)[1..] == rest;
    assert SkipSpace(['\n'] + rest) == SkipSpace(rest);
  }

  lemma {:induction false} QuotedLength(text: string, quote: char, rest: string)
    requires quote !in text && (quote == '"' ==> '\\' !in text)
    ensures QuoteLength(text + ([quote] + rest), quote) == |text| + 1
  {
    var s := text + ([quote] + rest);
    if text != [] {
      assert s[1..] == text[1..] + ([quote] + rest) && s[0] == text[0];
      QuotedLength(text[1..], quote, rest);
    }
  }

  /** Between quotes everything is one word, spaces and operators too; a backslash counts
      in double quotes only. */
  lemma QuotedWord(text: string, quote: char, rest: string)
    requires (quote == '"' || quote == '\'') && quote !in text && (quote == '"' ==> '\\' !in text)
    ensures Scan([quote] + (text + ([quote] + rest))) == Lex(Token(STRING, Some(text)), rest)
  {
    var s := [quote] + (text + ([quote] + rest));
    ScanCases(s);
    hide Scan;
    assert SkipSpace(s) == s && s[1..] == text + ([quote] + rest);
    QuotedLength(text, quote, rest);
    var n := 2 + |text|;
    assert s[1..n - 1] == text && s[n..] == rest;
  }

  function Pretty(c: Cmd): string { Spelled(ListTokens(ToList(c))) }

  /** Parsing what this printer writes gives the command back, with the input used up. */
  lemma PrettyRoundTrip(c: Cmd)
    requires Shape(c)
    ensures Parse(Pretty(c)).Got? && Parse(Pretty(c)).cmd == Some(c) && Parse(Pretty(c)).lx.tok.typ == EOF
  {
    hide Scan, Stream, Parse, ListTokens, ToList, ListMeans, ListOk, Spelled, Spellable;
    ListMade(c);
    ListSpellable(c);
    SpelledStream(ListTokens(ToList(c)));
    ParseIsComplete(Pretty(c), ToList(c));
  }
}
