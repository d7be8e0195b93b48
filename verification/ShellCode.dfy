/** The recursive-descent parser of sh.c, with its cursor. */
module ShellCode {
  import opened ShellLex
  import opened ShellGrammar

  /** A command, or the panic that ends the shell. */
  datatype Parsed = Good(cmd: Cmd) | Bad(error: Error)

  function Outcome(r: Result<Cmd>): (p: Parsed) {
    if r.Ok? then Good(r.value) else Bad(r.error)
  }

  class Parser {
    /** the line, without its NUL */
    const buf: string
    /** *ps */
    var pos: nat
    ghost const toks: seq<Token>
    /** the number of the token at the cursor */
    ghost var k: nat

    ghost predicate Valid()
      reads this
    {
      pos <= |buf| && NoNul(buf) && toks == Lex(buf, 0) && k <= |toks| && Lex(buf, pos) == toks[k..]
    }

    constructor (buf: string)
      requires NoNul(buf)
      ensures Valid() && this.buf == buf && k == 0 && pos == 0
    {
      this.buf, this.pos := buf, 0;
      this.toks, this.k := Lex(buf, 0), 0;
    }

    /** gettoken: the token at the cursor, and the cursor behind it. */
    method GetToken() returns (kind: char, q: nat, eq: nat)
      requires Valid()
      modifies this`pos, this`k
      ensures Valid() && kind == Kind(toks, old(k))
      ensures kind == '\0' <==> old(k) == |toks|
      ensures kind == '\0' ==> k == old(k)
      ensures kind != '\0' ==> k == old(k) + 1 && toks[old(k)] == Token(kind, q, eq)
    {
      hide Lex, Skip, TokenAt, NoNul, WordChar;
      LexStep(buf, pos);
      SkipTwice(buf, pos);
      q := SkipBlanks(pos);
      if q == |buf| {
        pos := q;
        return '\0', q, q;
      }
      kind, eq := ScanToken(q);
      SkipTwice(buf, eq);
      pos := SkipBlanks(eq);
      k := k + 1;
    }

    method SkipBlanks(start: nat) returns (s: nat)
      requires start <= |buf|
      ensures s == Skip(buf, start) <= |buf|
    {
      s := start;
      while s < |buf| && Blank(buf[s])
        invariant start <= s <= |buf| && Skip(buf, s) == Skip(buf, start)
      {
        s := s + 1;
      }
    }

    /** The switch of gettoken. */
    method ScanToken(q: nat) returns (kind: char, s: nat)
      requires q < |buf| && !Blank(buf[q])
      ensures TokenAt(buf, q) == Token(kind, q, s)
    {
      kind, s := buf[q], q;
      match kind {
        case '|' | '(' | ')' | ';' | '&' | '<' =>
          s := s + 1;
        case '>' =>
          s := s + 1;
          if s < |buf| && buf[s] == '>' {
            kind, s := '+', s + 1;
          }
        case _ =>
          kind := 'a';
          while s < |buf| && !Blank(buf[s]) && !Symbol(buf[s])
            invariant q <= s <= |buf| && WordEnd(buf, s) == WordEnd(buf, q)
          {
            s := s + 1;
          }
      }
    }

    /** peek: does the token at the cursor start with one of these symbols? */
    method Peek(symbols: string) returns (yes: bool)
      requires Valid() && forall c :: c in symbols ==> Symbol(c)
      modifies this`pos
      ensures Valid() && (yes <==> Starts(Kind(toks, k), symbols))
      ensures pos < |buf| ==> !Blank(buf[pos])
    {
      hide Lex, Skip, NoNul, WordEnd;
      LexStep(buf, pos);
      SkipTwice(buf, pos);
      pos := SkipBlanks(pos);
      return pos < |buf| && buf[pos] in symbols;
    }

    /** The cursor stands where the grammar's result says; on a panic nothing is promised of it. */
    ghost predicate Follows<T>(r: Result<T>)
      reads this
    {
      Valid() && (r.Ok? ==> k == r.k)
    }

    method ParseRedirs(cmd: Cmd, ghost before: seq<Redirection>, ghost core: Cmd) returns (p: Parsed)
      requires Valid() && cmd == Wrap(core, before)
      modifies this`pos, this`k
      ensures var r := Redirs(toks, old(k));
              Follows(r) && p == if r.Ok? then Good(Wrap(core, before + r.value)) else Bad(r.error)
    {
      hide Lex, NoNul, Wrap, Redirs, RedirsSoFar;
      ghost var k0, done := k, before;
      var c := cmd;
      RedirsStart(toks, k, before);
      var more := Peek("<>");
      while more
        invariant Valid() && k0 <= k && (more <==> IsRedir(Kind(toks, k)))
        invariant c == Wrap(core, done) && RedirsSoFar(toks, k0, before, k, done)
        decreases |toks| - k
      {
        RedirsNext(toks, k0, before, k, done);
        var tok, _, _ := GetToken();
        var f, q, eq := GetToken();
        if f != 'a' {
          return Bad(MissingFile);
        }
        WrapOne(core, done, Redirection(Span(q, eq), tok != '<'));
        c := Redir(c, Span(q, eq), tok != '<');
        done := done + [Redirection(Span(q, eq), tok != '<')];
        more := Peek("<>");
      }
      RedirsEnd(toks, k0, before, k, done);
      return Good(c);
    }

    /** parseexec for a command that is no block: the words go into the exec node under the redirections. */
    method ParseSimple() returns (p: Parsed)
      requires Valid()
      modifies this`pos, this`k
      ensures Follows(SimpleExec(toks, old(k))) && p == Outcome(SimpleExec(toks, old(k)))
    {
      hide Lex, NoNul, Redirs, Words, WordsSoFar, Wrap, Fill;
      ghost var k0 := k;
      WrapNone(Exec([]));
      var ret := ParseRedirs(Exec([]), [], Exec([]));
      if ret.Bad? {
        return ret;
      }
      ghost var k1, first := k, Redirs(toks, k0).value;
      ghost var done := [] + first;
      var argv: seq<Span> := [];
      assert done == first;
      WordsStart(toks, k1, first);
      var stop := Peek("|)&;");
      while !stop
        invariant Valid() && k1 <= k && (stop <==> Starts(Kind(toks, k), "|)&;"))
        invariant ret == Good(Wrap(Exec([]), done)) && WordsSoFar(toks, k1, first, k, argv, done)
        decreases |toks| - k
      {
        ghost var k2 := k;
        var tok, q, eq := GetToken();
        if tok == '\0' {
          break;
        }
        WordsNext(toks, k1, first, k2, argv, done);
        if tok != 'a' {
          return Bad(Syntax);
        }
        argv := argv + [Span(q, eq)];
        if |argv| >= MAXARGS {
          return Bad(TooManyArgs);
        }
        ret := ParseRedirs(ret.cmd, done, Exec([]));
        if ret.Bad? {
          return ret;
        }
        done := done + Redirs(toks, k2 + 1).value;
        stop := Peek("|)&;");
      }
      WordsEnd(toks, k1, first, k, argv, done);
      FillWrap(argv, done);
      return Good(Fill(ret.cmd, argv));
    }

    /** parseblock. */
    method ParseBlock() returns (p: Parsed)
      requires Valid() && Kind(toks, k) == '('
      modifies this`pos, this`k
      ensures Follows(Block(toks, old(k))) && p == Outcome(Block(toks, old(k)))
      decreases |toks| - k, 0
    {
      hide Lex, NoNul, Redirs, Line, Wrap, Words;
      ghost var k0 := k;
      var _, _, _ := GetToken();
      p := ParseLine();
      if p.Bad? {
        return;
      }
      var close := Peek(")");
      if !close {
        return Bad(MissingParen);
      }
      var _, _, _ := GetToken();
      WrapNone(p.cmd);
      ghost var inner := p.cmd;
      p := ParseRedirs(p.cmd, [], inner);
      ghost var r := Redirs(toks, Line(toks, k0 + 1).k + 1);
      assert r.Ok? ==> [] + r.value == r.value;
    }

    /** parseexec. */
    method ParseExec() returns (p: Parsed)
      requires Valid()
      modifies this`pos, this`k
      ensures Follows(Execs(toks, old(k))) && p == Outcome(Execs(toks, old(k)))
      decreases |toks| - k, 1
    {
      hide Lex, NoNul, SimpleExec, Block;
      var open := Peek("(");
      if open {
        p := ParseBlock();
      } else {
        p := ParseSimple();
      }
    }

    /** parsepipe. */
    method ParsePipe() returns (p: Parsed)
      requires Valid()
      modifies this`pos, this`k
      ensures Follows(Pipes(toks, old(k))) && p == Outcome(Pipes(toks, old(k)))
      decreases |toks| - k, 2
    {
      hide Lex, NoNul, Execs;
      p := ParseExec();
      if p.Bad? {
        return;
      }
      var bar := Peek("|");
      if bar {
        var _, _, _ := GetToken();
        var right := ParsePipe();
        if right.Bad? {
          return right;
        }
        p := Good(Pipe(p.cmd, right.cmd));
      }
    }

    /** parseline's loop over ampersands. */
    method ParseBacks(c: Cmd) returns (r: Cmd)
      requires Valid()
      modifies this`pos, this`k
      ensures Valid() && old(k) <= k && Kind(toks, k) != '&' && Backs(toks, k, r) == Backs(toks, old(k), c)
    {
      hide Lex, NoNul;
      r := c;
      var amp := Peek("&");
      while amp
        invariant Valid() && old(k) <= k && (amp <==> Kind(toks, k) == '&')
        invariant Backs(toks, k, r) == Backs(toks, old(k), c)
        decreases |toks| - k
      {
        var _, _, _ := GetToken();
        r := Back(r);
        amp := Peek("&");
      }
    }

    /** parseline. */
    method ParseLine() returns (p: Parsed)
      requires Valid()
      modifies this`pos, this`k
      ensures Follows(Line(toks, old(k))) && p == Outcome(Line(toks, old(k)))
      decreases |toks| - k, 3
    {
      hide Lex, NoNul, Pipes;
      p := ParsePipe();
      if p.Bad? {
        return;
      }
      var c := ParseBacks(p.cmd);
      p := Good(c);
      var semi := Peek(";");
      if semi {
        var _, _, _ := GetToken();
        var right := ParseLine();
        if right.Bad? {
          return right;
        }
        p := Good(List(p.cmd, right.cmd));
      }
    }
  }

  /** parsecmd, up to nulterminate: the whole line, or a panic. */
  method ParseCmd(buf: string) returns (p: Parsed)
    requires NoNul(buf)
    ensures p == Outcome(Parse(buf))
  {
    hide Line;
    var parser := new Parser(buf);
    p := parser.ParseLine();
    if p.Bad? {
      return;
    }
    var _ := parser.Peek("");
    SkipDone(buf, parser.pos);
    LexStep(buf, parser.pos);
    if parser.pos != |buf| {
      p := Bad(Leftovers);
    }
  }

  /** The exec node under the redirections gets its words. */
  function Fill(c: Cmd, argv: seq<Span>): (r: Cmd) {
    match c
    case Exec(_) => Exec(argv)
    case Redir(cmd, file, out) => Redir(Fill(cmd, argv), file, out)
    case _ => c
  }

  lemma {:induction false} FillWrap(argv: seq<Span>, redirs: seq<Redirection>)
    ensures Fill(Wrap(Exec([]), redirs), argv) == Wrap(Exec(argv), redirs)
    decreases |redirs|
  {
    if redirs != [] {
      FillWrap(argv, redirs[..|redirs| - 1]);
    }
  }

  lemma WrapNone(c: Cmd)
    ensures Wrap(c, []) == c
  {
  }

  /** From k1 on, the grammar finds the words in argv, the redirections done since first, and what it finds from k on. */
  ghost predicate WordsSoFar(toks: seq<Token>, k1: nat, first: seq<Redirection>, k: nat, argv: seq<Span>, done: seq<Redirection>)
    requires k1 <= |toks| && k <= |toks|
  {
    && |argv| < MAXARGS
    && var w0, w := Words(toks, k1, 0), Words(toks, k, |argv|);
    if w.Ok? then w0.Ok? && w0.k == w.k && w0.value.argv == argv + w.value.argv && first + w0.value.redirs == done + w.value.redirs
    else w0.Err? && w0.error == w.error
  }

  lemma WordsStart(toks: seq<Token>, k: nat, first: seq<Redirection>)
    requires k <= |toks|
    ensures WordsSoFar(toks, k, first, k, [], first)
  {
    var w := Words(toks, k, 0);
    if w.Ok? {
      assert [] + w.value.argv == w.value.argv;
    }
  }

  lemma WordsNext(toks: seq<Token>, k1: nat, first: seq<Redirection>, k: nat, argv: seq<Span>, done: seq<Redirection>)
    requires k1 <= |toks| && k <= |toks| && WordsSoFar(toks, k1, first, k, argv, done) && !EndsExec(Kind(toks, k))
    ensures k < |toks|
    ensures Kind(toks, k) != 'a' ==> Words(toks, k1, 0) == Err(Syntax)
    ensures Kind(toks, k) == 'a' && |argv| + 1 >= MAXARGS ==> Words(toks, k1, 0) == Err(TooManyArgs)
    ensures Kind(toks, k) == 'a' && |argv| + 1 < MAXARGS ==>
              var r := Redirs(toks, k + 1);
              if r.Err? then Words(toks, k1, 0) == Err(r.error)
              else WordsSoFar(toks, k1, first, r.k, argv + [SpanOf(toks[k])], done + r.value)
  {
    hide Redirs;
    if Kind(toks, k) == 'a' && |argv| + 1 < MAXARGS && Redirs(toks, k + 1).Ok? {
      var r, s := Redirs(toks, k + 1), SpanOf(toks[k]);
      var w := Words(toks, r.k, |argv| + 1);
      if w.Ok? {
        assert argv + ([s] + w.value.argv) == (argv + [s]) + w.value.argv;
        assert done + (r.value + w.value.redirs) == (done + r.value) + w.value.redirs;
      }
    }
  }

  lemma WordsEnd(toks: seq<Token>, k1: nat, first: seq<Redirection>, k: nat, argv: seq<Span>, done: seq<Redirection>)
    requires k1 <= |toks| && k <= |toks| && WordsSoFar(toks, k1, first, k, argv, done) && EndsExec(Kind(toks, k))
    ensures var w := Words(toks, k1, 0); w.Ok? && w.k == k && w.value.argv == argv && first + w.value.redirs == done
  {
    assert argv + [] == argv && done + [] == done;
  }


  /** From k0 on, the grammar finds what is done since before and what it finds from k on. */
  ghost predicate RedirsSoFar(toks: seq<Token>, k0: nat, before: seq<Redirection>, k: nat, done: seq<Redirection>)
    requires k0 <= |toks| && k <= |toks|
  {
    var r0, r := Redirs(toks, k0), Redirs(toks, k);
    if r.Ok? then r0.Ok? && r0.k == r.k && before + r0.value == done + r.value else r0.Err? && r0.error == r.error
  }

  lemma RedirsStart(toks: seq<Token>, k: nat, before: seq<Redirection>)
    requires k <= |toks|
    ensures RedirsSoFar(toks, k, before, k, before)
  {
  }

  lemma RedirsNext(toks: seq<Token>, k0: nat, before: seq<Redirection>, k: nat, done: seq<Redirection>)
    requires k0 <= |toks| && k < |toks| && IsRedir(Kind(toks, k)) && RedirsSoFar(toks, k0, before, k, done)
    ensures if Kind(toks, k + 1) != 'a' then Redirs(toks, k0) == Err(MissingFile)
            else RedirsSoFar(toks, k0, before, k + 2, done + [Redirection(SpanOf(toks[k + 1]), Kind(toks, k) != '<')])
  {
    if Kind(toks, k + 1) == 'a' && Redirs(toks, k + 2).Ok? {
      var d, r := Redirection(SpanOf(toks[k + 1]), Kind(toks, k) != '<'), Redirs(toks, k + 2).value;
      assert done + ([d] + r) == (done + [d]) + r;
    }
  }

  lemma RedirsEnd(toks: seq<Token>, k0: nat, before: seq<Redirection>, k: nat, done: seq<Redirection>)
    requires k0 <= |toks| && k <= |toks| && !IsRedir(Kind(toks, k)) && RedirsSoFar(toks, k0, before, k, done)
    ensures Redirs(toks, k0).Ok? && Redirs(toks, k0).k == k && before + Redirs(toks, k0).value == done
  {
    assert done + [] == done;
  }

  lemma WrapOne(c: Cmd, redirs: seq<Redirection>, d: Redirection)
    ensures Wrap(c, redirs + [d]) == Redir(Wrap(c, redirs), d.file, d.out)
  {
    assert (redirs + [d])[..|redirs|] == redirs;
  }
}
