/** nulterminate, and what the strings of a parsed command read as afterwards. */
module ShellStrings {
  import opened ShellLex
  import opened ShellGrammar

  /** All counted strings of a command. */
  function Spans(c: Cmd): (s: set<Span>) {
    match c
    case Exec(argv) => set x | x in argv
    case Redir(cmd, file, _) => Spans(cmd) + {file}
    case Pipe(l, r) => Spans(l) + Spans(r)
    case List(l, r) => Spans(l) + Spans(r)
    case Back(cmd) => Spans(cmd)
  }

  /** text with a NUL at the end of every counted string of s. */
  function Cut(text: string, s: set<Span>): (r: string) {
    seq(|text|, i requires 0 <= i < |text| => if exists x :: x in s && x.eq == i then '\0' else text[i])
  }

  /** The C string that starts at q. */
  function CString(text: string, q: nat): (r: string)
    decreases |text| - q
  {
    if q < |text| && text[q] != '\0' then [text[q]] + CString(text, q + 1) else []
  }

  lemma CutTwice(text: string, s: set<Span>, t: set<Span>)
    ensures Cut(Cut(text, s), t) == Cut(text, s + t)
  {
  }

  lemma CutNone(text: string)
    ensures Cut(text, {}) == text
  {
  }

  /** nulterminate. */
  method Nulterminate(buf: array<char>, c: Cmd)
    requires forall s :: s in Spans(c) ==> s.eq < buf.Length
    modifies buf
    ensures buf[..] == Cut(old(buf[..]), Spans(c))
    decreases c
  {
    match c {
      case Exec(argv) =>
        var i := 0;
        ghost var done: set<Span> := {};
        CutNone(buf[..]);
        while i < |argv|
          invariant 0 <= i <= |argv| && done == set x | x in argv[..i]
          invariant buf[..] == Cut(old(buf[..]), done)
        {
          CutOne(buf[..], argv[i]);
          CutTwice(old(buf[..]), done, {argv[i]});
          buf[argv[i].eq] := '\0';
          assert argv[..i + 1] == argv[..i] + [argv[i]];
          done, i := done + {argv[i]}, i + 1;
        }
        assert argv[..i] == argv;
      case Redir(cmd, file, _) =>
        Nulterminate(buf, cmd);
        CutOne(buf[..], file);
        CutTwice(old(buf[..]), Spans(cmd), {file});
        buf[file.eq] := '\0';
      case Pipe(l, r) =>
        Nulterminate(buf, l);
        Nulterminate(buf, r);
        CutTwice(old(buf[..]), Spans(l), Spans(r));
      case List(l, r) =>
        Nulterminate(buf, l);
        Nulterminate(buf, r);
        CutTwice(old(buf[..]), Spans(l), Spans(r));
      case Back(cmd) =>
        Nulterminate(buf, cmd);
    }
  }

  lemma CutOne(text: string, x: Span)
    requires x.eq < |text|
    ensures text[x.eq := '\0'] == Cut(text, {x})
  {
    var r := Cut(text, {x});
    forall i | 0 <= i < |text|
      ensures text[x.eq := '\0'][i] == r[i]
    {
      assert x in {x};
    }
  }

  // Every counted string is a word token.

  predicate IsWord(toks: seq<Token>, i: nat, s: Span) {
    i < |toks| && toks[i].kind == 'a' && SpanOf(toks[i]) == s
  }

  ghost predicate WordSpan(toks: seq<Token>, s: Span) {
    exists i: nat :: IsWord(toks, i, s)
  }

  ghost predicate FromTokens(toks: seq<Token>, c: Cmd) {
    forall s :: s in Spans(c) ==> WordSpan(toks, s)
  }

  lemma {:induction false} RedirsTokens(toks: seq<Token>, k: nat)
    requires k <= |toks| && Redirs(toks, k).Ok?
    ensures forall d :: d in Redirs(toks, k).value ==> WordSpan(toks, d.file)
    decreases |toks| - k
  {
    if IsRedir(Kind(toks, k)) {
      RedirsTokens(toks, k + 2);
      assert IsWord(toks, k + 1, SpanOf(toks[k + 1]));
    }
  }

  lemma {:induction false} WordsTokens(toks: seq<Token>, k: nat, argc: nat)
    requires k <= |toks| && Words(toks, k, argc).Ok?
    ensures forall s :: s in Words(toks, k, argc).value.argv ==> WordSpan(toks, s)
    ensures forall d :: d in Words(toks, k, argc).value.redirs ==> WordSpan(toks, d.file)
    decreases |toks| - k
  {
    if !EndsExec(Kind(toks, k)) {
      assert IsWord(toks, k, SpanOf(toks[k]));
      RedirsTokens(toks, k + 1);
      WordsTokens(toks, Redirs(toks, k + 1).k, argc + 1);
    }
  }

  lemma {:induction false} WrapTokens(toks: seq<Token>, c: Cmd, redirs: seq<Redirection>)
    requires FromTokens(toks, c) && forall d :: d in redirs ==> WordSpan(toks, d.file)
    ensures FromTokens(toks, Wrap(c, redirs))
    decreases |redirs|
  {
    if redirs != [] {
      WrapTokens(toks, c, redirs[..|redirs| - 1]);
      assert redirs[|redirs| - 1] in redirs;
    }
  }

  lemma {:induction false} ExecTokens(toks: seq<Token>, k: nat)
    requires k <= |toks| && Execs(toks, k).Ok?
    ensures FromTokens(toks, Execs(toks, k).value)
    decreases |toks| - k, 1
  {
    hide WordSpan, Redirs, Words, Line, Wrap;
    if Kind(toks, k) == '(' {
      var inner := Line(toks, k + 1);
      LineTokens(toks, k + 1);
      RedirsTokens(toks, inner.k + 1);
      WrapTokens(toks, inner.value, Redirs(toks, inner.k + 1).value);
    } else {
      var first := Redirs(toks, k);
      RedirsTokens(toks, k);
      WordsTokens(toks, first.k, 0);
      var w := Words(toks, first.k, 0).value;
      WrapTokens(toks, Exec(w.argv), first.value + w.redirs);
    }
  }

  lemma {:induction false} PipeTokens(toks: seq<Token>, k: nat)
    requires k <= |toks| && Pipes(toks, k).Ok?
    ensures FromTokens(toks, Pipes(toks, k).value)
    decreases |toks| - k, 2
  {
    hide WordSpan, Execs;
    ExecTokens(toks, k);
    var left := Execs(toks, k);
    if Kind(toks, left.k) == '|' {
      PipeTokens(toks, left.k + 1);
    }
  }

  lemma {:induction false} BackTokens(toks: seq<Token>, k: nat, c: Cmd)
    requires k <= |toks| && FromTokens(toks, c)
    ensures FromTokens(toks, Backs(toks, k, c).value)
    decreases |toks| - k
  {
    if Kind(toks, k) == '&' {
      BackTokens(toks, k + 1, Back(c));
    }
  }

  lemma {:induction false} LineTokens(toks: seq<Token>, k: nat)
    requires k <= |toks| && Line(toks, k).Ok?
    ensures FromTokens(toks, Line(toks, k).value)
    decreases |toks| - k, 3
  {
    hide WordSpan, Pipes, Backs;
    var first := Pipes(toks, k);
    PipeTokens(toks, k);
    BackTokens(toks, first.k, first.value);
    var left := Backs(toks, first.k, first.value);
    if Kind(toks, left.k) == ';' {
      LineTokens(toks, left.k + 1);
    }
  }

  // Reading back.

  /** The end of a word lies in no word. */
  lemma EndOutside(buf: string, s: Span, t: Span, toks: seq<Token>)
    requires toks == Lex(buf, 0) && WordSpan(toks, s) && WordSpan(toks, t)
    ensures 0 <= s.q < s.eq <= |buf| && !(t.q <= s.eq < t.eq)
  {
    hide Lex, WordChar;
    LexInOrder(buf, 0);
    var i: nat :| IsWord(toks, i, s);
    var j: nat :| IsWord(toks, j, t);
  }

  lemma {:induction false} CStringUpTo(text: string, q: nat, eq: nat)
    requires q <= eq < |text| && text[eq] == '\0' && forall i :: q <= i < eq ==> text[i] != '\0'
    ensures CString(text, q) == text[q..eq]
    decreases eq - q
  {
    if q < eq {
      CStringUpTo(text, q + 1, eq);
    }
  }

  /** After nulterminate every word and file name of a parsed line reads as exactly its token. */
  lemma ReadsBack(buf: string, c: Cmd, s: Span)
    requires NoNul(buf) && Parse(buf).Ok? && c == Parse(buf).value && s in Spans(c)
    ensures s.q < s.eq <= |buf|
    ensures CString(Cut(buf + ['\0'], Spans(c)), s.q) == buf[s.q..s.eq]
  {
    hide Lex, Line, Spans, WordSpan;
    var toks := Lex(buf, 0);
    LineTokens(toks, 0);
    EndOutside(buf, s, s, toks);
    var text := Cut(buf + ['\0'], Spans(c));
    forall i | s.q <= i < s.eq
      ensures text[i] == buf[i]
    {
      forall x | x in Spans(c)
        ensures x.eq != i
      {
        EndOutside(buf, x, s, toks);
      }
    }
    CStringUpTo(text, s.q, s.eq);
    assert text[s.q..s.eq] == buf[s.q..s.eq];
  }
}
