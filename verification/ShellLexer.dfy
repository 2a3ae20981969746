/** The pointer-walking loops of the shell's lexer, proved against `Shell`. */
module ShellLexer {
  import opened Common
  import opened Shell

  lemma Step(buf: string, i: nat)
    requires i < |buf|
    ensures buf[i..] == [buf[i]] + buf[i + 1..] && buf[i..][1..] == buf[i + 1..]
  {
  }

  lemma Step2(buf: string, i: nat)
    requires i + 1 < |buf|
    ensures buf[i..][2..] == buf[i + 2..] && buf[i..][1] == buf[i + 1]
  {
  }

  /** The fields of `struct shell_ex` that the lexer uses. */
  class Lexer {
    const buf: string
    var p: nat
    var typ: TokenType
    var start: nat
    var len: int

    constructor (buf: string)
      ensures this.buf == buf && p == 0
    {
      this.buf, p, typ, start, len := buf, 0, EOF, 0, 0;
    }

    /** The lexer's state as the parser sees it. */
    function View(): Lex
      requires p <= |buf|
      reads this
    {
      var text := if typ == STRING && 0 <= len && start + len <= |buf|
                  then Some(buf[start..start + len]) else None;
      Lex(Token(typ, text), buf[p..])
    }

    method SkipWhitespace()
      requires p <= |buf|
      modifies this`p
      ensures p <= |buf| && buf[p..] == SkipSpace(buf[old(p)..]) && p >= old(p)
    {
      while p < |buf| && IsSpace(buf[p])
        invariant old(p) <= p <= |buf|
        invariant SkipSpace(buf[p..]) == SkipSpace(buf[old(p)..])
      {
        Step(buf, p);
        p := p + 1;
      }
    }

    method ReadString(i: nat) returns (j: nat)
      requires i <= |buf|
      ensures j == i + WordLength(buf[i..])
    {
      j := i;
      while j < |buf| && !IsSymbol(buf[j]) && !IsSpace(buf[j])
        invariant i <= j <= |buf|
        invariant j + WordLength(buf[j..]) == i + WordLength(buf[i..])
      {
        Step(buf, j);
        var ch := buf[j];
        if ch == '\\' {
          if j + 1 == |buf| {
            j := j + 1;
            break;
          }
          Step2(buf, j);
          j := j + 1;
        }
        j := j + 1;
      }
    }

    method ReadStringWithQuotes(i: nat, quote: char) returns (j: nat)
      requires i <= |buf|
      ensures j == i + QuoteLength(buf[i..], quote)
    {
      j := i;
      while j < |buf|
        invariant i <= j <= |buf|
        invariant j + QuoteLength(buf[j..], quote) == i + QuoteLength(buf[i..], quote)
      {
        Step(buf, j);
        var ch := buf[j];
        if ch == quote {
          return j + 1;
        }
        if ch == '\\' && quote == '"' {
          if j + 1 == |buf| {
            j := j + 1;
            break;
          }
          Step2(buf, j);
          j := j + 1;
        }
        j := j + 1;
      }
    }

    method SkipCommentLine()
      requires p <= |buf|
      modifies this`p
      ensures old(p) <= p <= |buf| && buf[p..] == SkipComment(buf[old(p)..])
    {
      while p < |buf| && buf[p] != '\n' && buf[p] != '\r'
        invariant old(p) <= p <= |buf|
        invariant SkipComment(buf[p..]) == SkipComment(buf[old(p)..])
      {
        Step(buf, p);
        p := p + 1;
      }
    }

    /** The operator cases of the switch in scan_tok. */
    method ScanOperator(i: nat) returns (op: TokenType, n: nat)
      requires i < |buf|
      ensures (op, n) == Operator(buf[i..])
    {
      var ch := buf[i];
      var twice := i + 1 < |buf| && buf[i + 1] == ch;
      assert buf[i..][0] == ch && (i + 1 < |buf| ==> buf[i..][1] == buf[i + 1]);
      if ch == '>' {
        if twice { op, n := GTGT, 2; } else { op, n := GT, 1; }
      } else if ch == '<' {
        op, n := LT, 1;
      } else if ch == '(' {
        op, n := LPAREN, 1;
      } else if ch == ')' {
        op, n := RPAREN, 1;
      } else if ch == '&' {
        if twice { op, n := AND, 2; } else { op, n := BACK, 1; }
      } else if ch == '|' {
        if twice { op, n := OR, 2; } else { op, n := PIPE, 1; }
      } else if ch == ';' {
        op, n := SEMI, 1;
      } else {
        op, n := EOF, 0;
      }
    }

    /** scan_tok, which also sets the peeked token. */
    method ScanTok()
      requires p <= |buf|
      modifies this
      ensures p <= |buf| && View() == Scan(buf[old(p)..])
      decreases |buf| - p
    {
      hide Operator, WordLength, QuoteLength, SkipSpace, SkipComment, Scan;
      ScanCases(buf[p..]);
      SkipWhitespace();
      if p == |buf| {
        assert buf[p..] == [];
        SetPlain(EOF, 0);
        return;
      }
      ghost var s := buf[p..];
      var op, n := ScanOperator(p);
      if n > 0 {
        SetPlain(op, n);
      } else if buf[p] == '#' {
        assert buf[p + 1..] == s[1..];
        p := p + 1;
        SkipCommentLine();
        ScanTok();
      } else if buf[p] == '"' || buf[p] == '\'' {
        ScanQuoted();
      } else {
        ScanPlainWord();
      }
    }

    /** The quote cases of scan_tok: the quotes are cut off. */
    method ScanQuoted()
      requires p < |buf|
      modifies this
      ensures p <= |buf|
      ensures var s := buf[old(p)..];
              var n := 1 + QuoteLength(s[1..], s[0]);
              View() == Lex(Token(STRING, if n >= 2 then Some(s[1..n - 1]) else None), s[n..])
    {
      hide QuoteLength;
      ghost var s := buf[p..];
      assert buf[p + 1..] == s[1..];
      var q := ReadStringWithQuotes(p + 1, buf[p]);
      assert q == p + (1 + QuoteLength(s[1..], s[0]));
      SetString(p + 1, q - p - 2, q);
    }

    /** The default case of scan_tok. */
    method ScanPlainWord()
      requires p < |buf|
      modifies this
      ensures p <= |buf|
      ensures var s := buf[old(p)..]; View() == Lex(Token(STRING, Some(s[..WordLength(s)])), s[WordLength(s)..])
    {
      hide WordLength;
      ghost var s := buf[p..];
      var q := ReadString(p);
      assert s[0..q - p] == s[..WordLength(s)];
      SetString(p, q - p, q);
    }

    method SetPlain(t: TokenType, n: nat)
      requires p + n <= |buf| && t != STRING
      modifies this
      ensures p <= |buf| && View() == Plain(t, buf[old(p)..][n..])
    {
      assert buf[p + n..] == buf[p..][n..];
      typ, len, start, p := t, n, p, p + n;
    }

    /** Record a word of `l` characters at `at` and go on at `q`. */
    method SetString(at: nat, l: int, q: nat)
      requires p <= at <= q <= |buf| && at + l <= q
      modifies this
      ensures p <= |buf|
      ensures var s := buf[old(p)..];
              var text := if l >= 0 then Some(s[at - old(p)..at - old(p) + l]) else None;
              View() == Lex(Token(STRING, text), s[q - old(p)..])
    {
      ghost var s := buf[p..];
      assert l >= 0 ==> buf[at..at + l] == s[at - p..at - p + l];
      assert buf[q..] == s[q - p..];
      typ, len, start, p := STRING, l, at, q;
    }

    /** copy_peek_string on a token whose length is not negative. */
    method CopyPeekString() returns (dst: string)
      requires 0 <= len && start + len <= |buf|
      ensures dst == Unescape(buf[start..start + len])
    {
      hide Unescape;
      dst := [];
      var src, end := start, start + len;
      while src != end
        invariant start <= src <= end
        invariant dst + Unescape(buf[src..end]) == Unescape(buf[start..end])
      {
        UnescapeStep(buf, src, end);
        var from := if buf[src] == '\\' && src + 1 != end then src + 1 else src;
        assert dst + ([buf[from]] + Unescape(buf[from + 1..end])) == dst + [buf[from]] + Unescape(buf[from + 1..end]);
        if buf[src] == '\\' && src + 1 != end {
          src := src + 1;
        }
        dst := dst + [buf[src]];
        src := src + 1;
      }
      assert buf[src..end] == [];
      UnescapeNil();
    }
  }

  lemma UnescapeNil()
    ensures Unescape([]) == []
  {
  }

  lemma UnescapeStep(buf: string, i: nat, end: nat)
    requires i < end <= |buf|
    ensures var from := if buf[i] == '\\' && i + 1 != end then i + 1 else i;
            Unescape(buf[i..end]) == [buf[from]] + Unescape(buf[from + 1..end])
  {
    var s := buf[i..end];
    assert s[1..] == buf[i + 1..end];
    assert i + 1 < end ==> s[2..] == buf[i + 2..end] && s[1] == buf[i + 1];
  }
}
