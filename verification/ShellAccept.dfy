/**
 What it takes for a line to be accepted: its parentheses balance, and every
 token of it has gone into the command, once.
 */
module ShellAccept {
  import opened ShellLex
  import opened ShellGrammar
  import opened ShellStrings

  // Of tokens.

  /** ">" and ">>" both send output to a file. */
  function Class(kind: char): (c: char) {
    if kind == '+' then '>' else kind
  }

  /** How many of the tokens k .. m - 1 are of class c. */
  function Tokens(toks: seq<Token>, k: nat, m: nat, c: char): (n: nat)
    requires m <= |toks|
    decreases m
  {
    if m <= k then 0 else Tokens(toks, k, m - 1, c) + if Class(toks[m - 1].kind) == c then 1 else 0
  }

  /** How many more parentheses tokens k .. m - 1 open than they close. */
  function Level(toks: seq<Token>, k: nat, m: nat): (n: int)
    requires m <= |toks|
  {
    Tokens(toks, k, m, '(') - Tokens(toks, k, m, ')')
  }

  /** Every parenthesis of tokens k .. m - 1 has its partner. */
  ghost predicate Balanced(toks: seq<Token>, k: nat, m: nat)
    requires m <= |toks|
  {
    Level(toks, k, m) == 0 && forall i :: k <= i <= m ==> Level(toks, k, i) >= 0
  }

  /** The words among tokens k .. m - 1. */
  function WordSpans(toks: seq<Token>, k: nat, m: nat): (s: set<Span>)
    requires m <= |toks|
  {
    set i | k <= i < m && toks[i].kind == 'a' :: SpanOf(toks[i])
  }

  // Of commands.

  /** How many tokens of class c a command stands for: words, redirections, pipes, lists and background commands. */
  function Nodes(cmd: Cmd, c: char): (n: nat) {
    match cmd
    case Exec(argv) => if c == 'a' then |argv| else 0
    case Redir(inner, _, out) => Nodes(inner, c) + OfRedir(out, c)
    case Pipe(l, r) => Nodes(l, c) + Nodes(r, c) + if c == '|' then 1 else 0
    case List(l, r) => Nodes(l, c) + Nodes(r, c) + if c == ';' then 1 else 0
    case Back(inner) => Nodes(inner, c) + if c == '&' then 1 else 0
  }

  function OfRedir(out: bool, c: char): (n: nat) {
    if c == 'a' || c == (if out then '>' else '<') then 1 else 0
  }

  predicate IsParen(c: char) {
    c == '(' || c == ')'
  }

  /** Tokens k .. m - 1 balance, their words are s, and n of them are of class c, parentheses aside. */
  ghost predicate Accounts(toks: seq<Token>, k: nat, m: nat, s: set<Span>, n: nat, c: char) {
    k <= m <= |toks| && Balanced(toks, k, m) && s == WordSpans(toks, k, m) && (!IsParen(c) ==> n == Tokens(toks, k, m, c))
  }

  lemma {:induction false} TokensSplit(toks: seq<Token>, k: nat, j: nat, m: nat, c: char)
    requires k <= j <= m <= |toks|
    ensures Tokens(toks, k, m, c) == Tokens(toks, k, j, c) + Tokens(toks, j, m, c)
    decreases m
  {
    if j < m {
      TokensSplit(toks, k, j, m - 1, c);
    }
  }

  lemma LevelSplit(toks: seq<Token>, k: nat, j: nat, m: nat)
    requires k <= j <= m <= |toks|
    ensures Level(toks, k, m) == Level(toks, k, j) + Level(toks, j, m)
  {
    TokensSplit(toks, k, j, m, '(');
    TokensSplit(toks, k, j, m, ')');
  }

  lemma LevelOne(toks: seq<Token>, k: nat, c: char)
    requires k < |toks|
    ensures Level(toks, k, k) == 0
    ensures Level(toks, k, k + 1) == if toks[k].kind == '(' then 1 else if toks[k].kind == ')' then -1 else 0
    ensures Tokens(toks, k, k + 1, c) == if Class(toks[k].kind) == c then 1 else 0
  {
  }

  lemma AccountsNone(toks: seq<Token>, k: nat, c: char)
    requires k <= |toks|
    ensures Accounts(toks, k, k, {}, 0, c)
  {
  }

  /** One token that is no parenthesis. */
  lemma AccountsOne(toks: seq<Token>, k: nat, c: char)
    requires k < |toks| && !IsParen(toks[k].kind)
    ensures Accounts(toks, k, k + 1, if toks[k].kind == 'a' then {SpanOf(toks[k])} else {}, if Class(toks[k].kind) == c then 1 else 0, c)
  {
    hide Tokens, Level;
    LevelOne(toks, k, c);
    SpansOne(toks, k);
  }

  lemma SpansOne(toks: seq<Token>, k: nat)
    requires k < |toks|
    ensures WordSpans(toks, k, k + 1) == if toks[k].kind == 'a' then {SpanOf(toks[k])} else {}
  {
    if toks[k].kind == 'a' {
      assert SpanOf(toks[k]) in WordSpans(toks, k, k + 1);
    }
  }

  lemma AccountsJoin(toks: seq<Token>, k: nat, j: nat, m: nat, s: set<Span>, n: nat, s': set<Span>, n': nat, c: char)
    requires Accounts(toks, k, j, s, n, c) && Accounts(toks, j, m, s', n', c)
    ensures Accounts(toks, k, m, s + s', n + n', c)
  {
    hide Tokens, Level, WordSpans;
    TokensSplit(toks, k, j, m, c);
    LevelSplit(toks, k, j, m);
    forall i | k <= i <= m
      ensures Level(toks, k, i) >= 0
    {
      if i >= j {
        LevelSplit(toks, k, j, i);
      }
    }
    SpansSplit(toks, k, j, m);
  }

  lemma SpansSplit(toks: seq<Token>, k: nat, j: nat, m: nat)
    requires k <= j <= m <= |toks|
    ensures WordSpans(toks, k, m) == WordSpans(toks, k, j) + WordSpans(toks, j, m)
  {
    forall i | k <= i < m && toks[i].kind == 'a'
      ensures SpanOf(toks[i]) in WordSpans(toks, k, j) + WordSpans(toks, j, m)
    {
      if i < j {
        assert SpanOf(toks[i]) in WordSpans(toks, k, j);
      } else {
        assert SpanOf(toks[i]) in WordSpans(toks, j, m);
      }
    }
  }

  /** A pair of parentheses around what accounts for itself. */
  lemma AccountsParens(toks: seq<Token>, k: nat, m: nat, s: set<Span>, n: nat, c: char)
    requires k < |toks| && toks[k].kind == '(' && Accounts(toks, k + 1, m, s, n, c) && m < |toks| && toks[m].kind == ')'
    ensures Accounts(toks, k, m + 1, s, n, c)
  {
    hide Tokens, Level, WordSpans;
    LevelOne(toks, k, c);
    LevelOne(toks, m, c);
    TokensSplit(toks, k, k + 1, m + 1, c);
    TokensSplit(toks, k + 1, m, m + 1, c);
    forall i | k <= i <= m + 1
      ensures Level(toks, k, i) >= 0 && (i == m + 1 ==> Level(toks, k, i) == 0)
    {
      if k < i {
        LevelSplit(toks, k, k + 1, i);
      }
      if i == m + 1 {
        LevelSplit(toks, k + 1, m, i);
      }
    }
    SpansSplit(toks, k, k + 1, m + 1);
    SpansSplit(toks, k + 1, m, m + 1);
    SpansOne(toks, k);
    SpansOne(toks, m);
  }

  // What each parsing function takes in, it puts into its result.

  function Files(redirs: seq<Redirection>): (s: set<Span>) {
    if redirs == [] then {} else Files(redirs[..|redirs| - 1]) + {redirs[|redirs| - 1].file}
  }

  function OfRedirs(redirs: seq<Redirection>, c: char): (n: nat) {
    if redirs == [] then 0 else OfRedirs(redirs[..|redirs| - 1], c) + OfRedir(redirs[|redirs| - 1].out, c)
  }

  lemma {:induction false} RedirsJoin(a: seq<Redirection>, b: seq<Redirection>, c: char)
    ensures OfRedirs(a + b, c) == OfRedirs(a, c) + OfRedirs(b, c) && Files(a + b) == Files(a) + Files(b)
    decreases |b|
  {
    hide OfRedir;
    if b == [] {
      assert a + b == a;
    } else {
      RedirsJoin(a, b[..|b| - 1], c);
      assert (a + b)[..|a + b| - 1] == a + b[..|b| - 1];
    }
  }

  lemma OneRedir(d: Redirection, c: char)
    ensures Files([d]) == {d.file} && OfRedirs([d], c) == OfRedir(d.out, c)
  {
    assert [d][..0] == [];
  }

  lemma {:induction false} WrapNodes(cmd: Cmd, redirs: seq<Redirection>, c: char)
    ensures Nodes(Wrap(cmd, redirs), c) == Nodes(cmd, c) + OfRedirs(redirs, c)
    ensures Spans(Wrap(cmd, redirs)) == Spans(cmd) + Files(redirs)
    decreases |redirs|
  {
    hide OfRedir;
    if redirs != [] {
      WrapNodes(cmd, redirs[..|redirs| - 1], c);
    }
  }

  lemma {:induction false} RedirsAccount(toks: seq<Token>, k: nat, c: char)
    requires k <= |toks| && Redirs(toks, k).Ok?
    ensures var r := Redirs(toks, k); Accounts(toks, k, r.k, Files(r.value), OfRedirs(r.value, c), c)
    decreases |toks| - k
  {
    hide Accounts, Files, OfRedirs;
    if IsRedir(Kind(toks, k)) {
      var rest := Redirs(toks, k + 2);
      var d := Redirection(SpanOf(toks[k + 1]), Kind(toks, k) != '<');
      RedirsAccount(toks, k + 2, c);
      AccountsOne(toks, k, c);
      AccountsOne(toks, k + 1, c);
      AccountsJoin(toks, k, k + 1, k + 2, {}, if Class(toks[k].kind) == c then 1 else 0, {d.file}, if 'a' == c then 1 else 0, c);
      assert {} + {d.file} == {d.file};
      RedirsJoin([d], rest.value, c);
      OneRedir(d, c);
      AccountsJoin(toks, k, k + 2, rest.k, {d.file}, OfRedir(d.out, c), Files(rest.value), OfRedirs(rest.value, c), c);
    } else {
      AccountsNone(toks, k, c);
      assert Files([]) == {} && OfRedirs([], c) == 0 by {
        NoRedirs(c);
      }
    }
  }

  lemma NoRedirs(c: char)
    ensures Files([]) == {} && OfRedirs([], c) == 0
  {
  }

  function SimpleSpans(w: Simple): (s: set<Span>) {
    (set x | x in w.argv) + Files(w.redirs)
  }

  function SimpleNodes(w: Simple, c: char): (n: nat) {
    (if c == 'a' then |w.argv| else 0) + OfRedirs(w.redirs, c)
  }

  lemma {:induction false} WordsAccount(toks: seq<Token>, k: nat, argc: nat, c: char)
    requires k <= |toks| && Words(toks, k, argc).Ok?
    ensures var r := Words(toks, k, argc); Accounts(toks, k, r.k, SimpleSpans(r.value), SimpleNodes(r.value, c), c)
    decreases |toks| - k
  {
    hide Accounts, Files, OfRedirs, Redirs;
    if EndsExec(Kind(toks, k)) {
      AccountsNone(toks, k, c);
      NoRedirs(c);
      assert SimpleSpans(Simple([], [])) == {};
    } else {
      var redirs := Redirs(toks, k + 1);
      var rest := Words(toks, redirs.k, argc + 1);
      AccountsOne(toks, k, c);
      RedirsAccount(toks, k + 1, c);
      WordsAccount(toks, redirs.k, argc + 1, c);
      var s, n, a := SpanOf(toks[k]), if 'a' == c then 1 else 0, rest.value;
      AccountsJoin(toks, k, k + 1, redirs.k, {s}, n, Files(redirs.value), OfRedirs(redirs.value, c), c);
      AccountsJoin(toks, k, redirs.k, rest.k, {s} + Files(redirs.value), n + OfRedirs(redirs.value, c), SimpleSpans(a), SimpleNodes(a, c), c);
      RedirsJoin(redirs.value, a.redirs, c);
      assert {s} + Files(redirs.value) + SimpleSpans(a) == SimpleSpans(Simple([s] + a.argv, redirs.value + a.redirs));
    }
  }

  /** The result of a parsing function accounts for the tokens it has passed. */
  ghost predicate Complete(toks: seq<Token>, k: nat, r: Result<Cmd>, c: char) {
    r.Ok? ==> Accounts(toks, k, r.k, Spans(r.value), Nodes(r.value, c), c)
  }

  lemma SimpleComplete(toks: seq<Token>, k: nat, c: char)
    requires k <= |toks|
    ensures Complete(toks, k, SimpleExec(toks, k), c)
  {
    hide Accounts, Files, OfRedirs, Redirs, Words;
    if SimpleExec(toks, k).Ok? {
      var first := Redirs(toks, k);
      var w := Words(toks, first.k, 0);
      RedirsAccount(toks, k, c);
      WordsAccount(toks, first.k, 0, c);
      AccountsJoin(toks, k, first.k, w.k, Files(first.value), OfRedirs(first.value, c), SimpleSpans(w.value), SimpleNodes(w.value, c), c);
      RedirsJoin(first.value, w.value.redirs, c);
      WrapNodes(Exec(w.value.argv), first.value + w.value.redirs, c);
      assert Files(first.value) + SimpleSpans(w.value) == Spans(SimpleExec(toks, k).value);
    }
  }

  lemma {:induction false} BlockComplete(toks: seq<Token>, k: nat, c: char)
    requires k <= |toks| && Kind(toks, k) == '('
    ensures Complete(toks, k, Block(toks, k), c)
    decreases |toks| - k, 0
  {
    hide Accounts, Files, OfRedirs, Redirs, Line;
    if Block(toks, k).Ok? {
      var inner := Line(toks, k + 1);
      var redirs := Redirs(toks, inner.k + 1);
      LineComplete(toks, k + 1, c);
      AccountsParens(toks, k, inner.k, Spans(inner.value), Nodes(inner.value, c), c);
      RedirsAccount(toks, inner.k + 1, c);
      AccountsJoin(toks, k, inner.k + 1, redirs.k, Spans(inner.value), Nodes(inner.value, c), Files(redirs.value), OfRedirs(redirs.value, c), c);
      WrapNodes(inner.value, redirs.value, c);
    }
  }

  lemma {:induction false} PipesComplete(toks: seq<Token>, k: nat, c: char)
    requires k <= |toks|
    ensures Complete(toks, k, Pipes(toks, k), c)
    decreases |toks| - k, 2
  {
    hide Accounts, Block, SimpleExec;
    var left := Execs(toks, k);
    if Kind(toks, k) == '(' {
      BlockComplete(toks, k, c);
    } else {
      SimpleComplete(toks, k, c);
    }
    if left.Ok? && Kind(toks, left.k) == '|' && Pipes(toks, k).Ok? {
      var right := Pipes(toks, left.k + 1);
      PipesComplete(toks, left.k + 1, c);
      JoinCmds(toks, k, left, right, '|', c);
    }
  }

  /** Two commands with a separator between them. */
  lemma JoinCmds(toks: seq<Token>, k: nat, left: Result<Cmd>, right: Result<Cmd>, sep: char, c: char)
    requires left.Ok? && right.Ok? && Complete(toks, k, left, c) && left.k < |toks| && toks[left.k].kind == sep
    requires Complete(toks, left.k + 1, right, c) && (sep == '|' || sep == ';')
    ensures Accounts(toks, k, right.k, Spans(left.value) + Spans(right.value),
                     Nodes(left.value, c) + Nodes(right.value, c) + if c == sep then 1 else 0, c)
  {
    hide Accounts;
    var n := if sep == c then 1 else 0;
    AccountsOne(toks, left.k, c);
    AccountsJoin(toks, k, left.k, left.k + 1, Spans(left.value), Nodes(left.value, c), {}, n, c);
    AccountsJoin(toks, k, left.k + 1, right.k, Spans(left.value) + {}, Nodes(left.value, c) + n, Spans(right.value), Nodes(right.value, c), c);
    assert Spans(left.value) + {} == Spans(left.value);
  }

  lemma {:induction false} BacksComplete(toks: seq<Token>, k0: nat, k: nat, cmd: Cmd, c: char)
    requires k <= |toks| && Accounts(toks, k0, k, Spans(cmd), Nodes(cmd, c), c)
    ensures Complete(toks, k0, Backs(toks, k, cmd), c)
    decreases |toks| - k
  {
    hide Accounts;
    if Kind(toks, k) == '&' {
      AccountsOne(toks, k, c);
      AccountsJoin(toks, k0, k, k + 1, Spans(cmd), Nodes(cmd, c), {}, if '&' == c then 1 else 0, c);
      assert Spans(cmd) + {} == Spans(Back(cmd));
      BacksComplete(toks, k0, k + 1, Back(cmd), c);
    }
  }

  lemma {:induction false} LineComplete(toks: seq<Token>, k: nat, c: char)
    requires k <= |toks|
    ensures Complete(toks, k, Line(toks, k), c)
    decreases |toks| - k, 3
  {
    hide Accounts, Pipes, Backs;
    var first := Pipes(toks, k);
    PipesComplete(toks, k, c);
    if first.Ok? {
      var left := Backs(toks, first.k, first.value);
      BacksComplete(toks, k, first.k, first.value, c);
      if Kind(toks, left.k) == ';' && Line(toks, k).Ok? {
        LineComplete(toks, left.k + 1, c);
        JoinCmds(toks, k, left, Line(toks, left.k + 1), ';', c);
      }
    }
  }

  /**
   An accepted line: its parentheses balance, the counted strings of the command
   are exactly its words, and the command has as many words, redirections of
   either direction, pipes, lists and background commands as the line has words
   and symbols for them.
   */
  lemma Accepted(buf: string, c: char)
    requires Parse(buf).Ok?
    ensures var toks, cmd := Lex(buf, 0), Parse(buf).value;
            && Balanced(toks, 0, |toks|)
            && Spans(cmd) == WordSpans(toks, 0, |toks|)
            && (c in "a<>|;&" ==> Nodes(cmd, c) == Tokens(toks, 0, |toks|, c))
  {
    hide Line, Balanced, WordSpans, Tokens, Nodes, Spans;
    LineComplete(Lex(buf, 0), 0, c);
  }
}
