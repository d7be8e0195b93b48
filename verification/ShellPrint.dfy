/** Parsing inverts printing. */
module ShellPrint {
  import opened ShellLex
  import opened ShellGrammar

  /** A command as the user means it, with its words written out. */
  datatype Tree =
    | TExec(words: seq<string>)
    | TRedir(cmd: Tree, file: string, out: bool)
    | TPipe(left: Tree, right: Tree)
    | TList(left: Tree, right: Tree)
    | TBack(cmd: Tree)

  function Text(buf: string, s: Span): (w: string) {
    if s.q <= s.eq <= |buf| then buf[s.q..s.eq] else ""
  }

  function Texts(buf: string, argv: seq<Span>): (ws: seq<string>) {
    seq(|argv|, i requires 0 <= i < |argv| => Text(buf, argv[i]))
  }

  /** What a parsed command means on its line. */
  function TreeOf(buf: string, c: Cmd): (t: Tree) {
    match c
    case Exec(argv) => TExec(Texts(buf, argv))
    case Redir(cmd, file, out) => TRedir(TreeOf(buf, cmd), Text(buf, file), out)
    case Pipe(l, r) => TPipe(TreeOf(buf, l), TreeOf(buf, r))
    case List(l, r) => TList(TreeOf(buf, l), TreeOf(buf, r))
    case Back(cmd) => TBack(TreeOf(buf, cmd))
  }

  ghost predicate GoodWord(w: string) {
    w != "" && forall i :: 0 <= i < |w| ==> WordChar(w[i]) && w[i] != '\0'
  }

  /** Words are words, and no command has more than nine. */
  ghost predicate WfTree(t: Tree) {
    match t
    case TExec(words) => |words| < MAXARGS && forall i :: 0 <= i < |words| ==> GoodWord(words[i])
    case TRedir(cmd, file, _) => WfTree(cmd) && GoodWord(file)
    case TPipe(l, r) => WfTree(l) && WfTree(r)
    case TList(l, r) => WfTree(l) && WfTree(r)
    case TBack(cmd) => WfTree(cmd)
  }

  // Printing, first as a sequence of items.

  datatype Item = Sym(c: char) | Word(w: string)

  datatype TRedirection = TRedirection(file: string, out: bool)

  /** The command under the redirections. */
  function Core(t: Tree): (r: Tree)
    ensures !r.TRedir? && (r == t || r < t)
  {
    if t.TRedir? then Core(t.cmd) else t
  }

  /** The redirections, innermost first. */
  function Around(t: Tree): (s: seq<TRedirection>) {
    if t.TRedir? then Around(t.cmd) + [TRedirection(t.file, t.out)] else []
  }

  function RedirItems(rs: seq<TRedirection>): (s: seq<Item>) {
    if rs == [] then [] else [Sym(if rs[0].out then '>' else '<'), Word(rs[0].file)] + RedirItems(rs[1..])
  }

  function WordItems(words: seq<string>): (s: seq<Item>) {
    seq(|words|, i requires 0 <= i < |words| => Word(words[i]))
  }

  /** A line: commands one after the other. */
  function PrintLine(t: Tree): (s: seq<Item>)
    decreases t, 4
  {
    if t.TList? then PrintAny(t) else PrintBack(t)
  }

  function PrintBack(t: Tree): (s: seq<Item>)
    decreases t, 3
  {
    if t.TBack? then PrintAny(t) else PrintPipe(t)
  }

  function PrintPipe(t: Tree): (s: seq<Item>)
    decreases t, 2
  {
    if t.TPipe? then PrintAny(t) else PrintExec(t)
  }

  /** A command that can stand anywhere: in parentheses where it must be. */
  function PrintExec(t: Tree): (s: seq<Item>)
    decreases t, 1
  {
    var c := Core(t);
    (if c.TExec? then WordItems(c.words) else [Sym('(')] + PrintAny(c) + [Sym(')')]) + RedirItems(Around(t))
  }

  function PrintAny(t: Tree): (s: seq<Item>)
    decreases t, 0
  {
    match t
    case TList(l, r) => PrintBack(l) + [Sym(';')] + PrintLine(r)
    case TBack(c) => PrintBack(c) + [Sym('&')]
    case TPipe(l, r) => PrintExec(l) + [Sym('|')] + PrintPipe(r)
    case _ => []
  }

  /** Items with a blank after each. */
  function Join(items: seq<Item>): (s: string) {
    if items == [] then "" else (if items[0].Sym? then [items[0].c] else items[0].w) + " " + Join(items[1..])
  }

  function Print(t: Tree): (s: string) {
    Join(PrintLine(t))
  }

  // The tokens of a printed line are its items.

  predicate MatchAt(buf: string, t: Token, item: Item) {
    match item
    case Sym(c) => t.kind == c
    case Word(w) => t.kind == 'a' && Text(buf, SpanOf(t)) == w
  }

  /** The tokens from k on start with these items. */
  ghost predicate Matches(buf: string, toks: seq<Token>, k: nat, items: seq<Item>) {
    k + |items| <= |toks| && forall i :: 0 <= i < |items| ==> MatchAt(buf, toks[k + i], items[i])
  }

  ghost predicate GoodItem(i: Item) {
    match i
    case Sym(c) => Symbol(c)
    case Word(w) => GoodWord(w)
  }

  lemma {:induction false} WordEndAt(buf: string, pos: nat, e: nat)
    requires pos <= e < |buf| && (forall i :: pos <= i < e ==> WordChar(buf[i])) && !WordChar(buf[e])
    ensures WordEnd(buf, pos) == e
    decreases e - pos
  {
    if pos < e {
      WordEndAt(buf, pos + 1, e);
    }
  }

  /** The first item of what is left to print is the next token. */
  lemma NextItem(buf: string, pos: nat, item: Item, rest: string)
    requires GoodItem(item) && pos <= |buf|
    requires buf[pos..] == (if item.Sym? then [item.c] else item.w) + " " + rest
    ensures pos < |buf| && !Blank(buf[pos]) && var t := TokenAt(buf, pos);
            t.eq < |buf| && MatchAt(buf, t, item) && buf[t.eq] == ' ' && buf[t.eq + 1..] == rest
  {
    var w := if item.Sym? then [item.c] else item.w;
    assert |w| > 0 && |buf| == pos + |w| + 1 + |rest|;
    forall i | 0 <= i < |w|
      ensures buf[pos + i] == w[i]
    {
      assert buf[pos..][i] == (w + " " + rest)[i];
    }
    assert buf[pos + |w|] == ' ' by {
      assert buf[pos..][|w|] == (w + " " + rest)[|w|];
    }
    if item.Word? {
      forall i | pos <= i < pos + |w|
        ensures WordChar(buf[i])
      {
        assert buf[pos + (i - pos)] == w[i - pos];
      }
      WordEndAt(buf, pos, pos + |w|);
      assert buf[pos..pos + |w|] == w;
    }
    assert buf[pos + |w| + 1..] == buf[pos..][|w| + 1..] == rest;
  }

  /** A blank before the next token changes nothing. */
  lemma LexBlank(buf: string, pos: nat)
    requires pos < |buf| && buf[pos] == ' '
    ensures Lex(buf, pos) == Lex(buf, pos + 1)
  {
  }

  lemma MatchesCons(buf: string, t: Token, toks: seq<Token>, items: seq<Item>)
    requires items != [] && MatchAt(buf, t, items[0]) && Matches(buf, toks, 0, items[1..])
    ensures Matches(buf, [t] + toks, 0, items)
  {
    hide MatchAt;
    forall i | 0 <= i < |items|
      ensures MatchAt(buf, ([t] + toks)[0 + i], items[i])
    {
      if i > 0 {
        assert items[i] == items[1..][i - 1];
        assert MatchAt(buf, toks[0 + (i - 1)], items[1..][i - 1]);
      }
    }
  }

  lemma {:induction false} LexJoin(buf: string, pos: nat, items: seq<Item>)
    requires pos <= |buf| && buf[pos..] == Join(items) && forall i :: 0 <= i < |items| ==> GoodItem(items[i])
    ensures |Lex(buf, pos)| == |items| && Matches(buf, Lex(buf, pos), 0, items)
    decreases |items|
  {
    hide MatchAt, TokenAt, Blank, GoodItem, Lex, Skip, Matches;
    LexStep(buf, pos);
    if items == [] {
      MatchesNone(buf, Lex(buf, pos));
    } else {
      NextItem(buf, pos, items[0], Join(items[1..]));
      SkipDone(buf, pos);
      var t := TokenAt(buf, pos);
      LexBlank(buf, t.eq);
      LexJoin(buf, t.eq + 1, items[1..]);
      MatchesCons(buf, t, Lex(buf, t.eq + 1), items);
    }
  }

  lemma MatchesNone(buf: string, toks: seq<Token>)
    ensures Matches(buf, toks, 0, [])
  {
  }

  // The grammar gives back what was printed.

  lemma MatchesSplit(buf: string, toks: seq<Token>, k: nat, a: seq<Item>, b: seq<Item>)
    requires Matches(buf, toks, k, a + b)
    ensures Matches(buf, toks, k, a) && Matches(buf, toks, k + |a|, b)
  {
    hide MatchAt;
    var ab := a + b;
    forall i | 0 <= i < |a|
      ensures MatchAt(buf, toks[k + i], a[i])
    {
      assert MatchAt(buf, toks[k + i], ab[i]);
    }
    forall i | 0 <= i < |b|
      ensures MatchAt(buf, toks[k + |a| + i], b[i])
    {
      assert MatchAt(buf, toks[k + (|a| + i)], ab[|a| + i]);
    }
  }

  lemma MatchesSym(buf: string, toks: seq<Token>, k: nat, a: seq<Item>, c: char, b: seq<Item>)
    requires Matches(buf, toks, k, a + [Sym(c)] + b)
    ensures Matches(buf, toks, k, a) && Kind(toks, k + |a|) == c && k + |a| < |toks| && Matches(buf, toks, k + |a| + 1, b)
  {
    MatchesSplit(buf, toks, k, a + [Sym(c)], b);
    MatchesSplit(buf, toks, k, a, [Sym(c)]);
    assert MatchAt(buf, toks[k + |a| + 0], [Sym(c)][0]);
  }

  /** The redirections found are the ones meant. */
  ghost predicate SameRedirs(buf: string, ds: seq<Redirection>, rs: seq<TRedirection>) {
    |ds| == |rs| && forall i :: 0 <= i < |rs| ==> Text(buf, ds[i].file) == rs[i].file && ds[i].out == rs[i].out
  }

  lemma SameRedirsCons(buf: string, d: Redirection, ds: seq<Redirection>, rs: seq<TRedirection>)
    requires rs != [] && Text(buf, d.file) == rs[0].file && d.out == rs[0].out && SameRedirs(buf, ds, rs[1..])
    ensures SameRedirs(buf, [d] + ds, rs)
  {
    hide Text;
    forall i | 0 < i < |rs|
      ensures Text(buf, ([d] + ds)[i].file) == rs[i].file && ([d] + ds)[i].out == rs[i].out
    {
      assert rs[i] == rs[1..][i - 1];
    }
  }

  /** The first redirection is the two tokens here; the others follow. */
  lemma {:induction false} RedirFirst(buf: string, toks: seq<Token>, k: nat, rs: seq<TRedirection>)
    requires rs != [] && Matches(buf, toks, k, RedirItems(rs))
    ensures k + 1 < |toks| && IsRedir(Kind(toks, k)) && (Kind(toks, k) != '<' <==> rs[0].out)
    ensures Kind(toks, k + 1) == 'a' && Text(buf, SpanOf(toks[k + 1])) == rs[0].file
    ensures Matches(buf, toks, k + 2, RedirItems(rs[1..])) && |RedirItems(rs)| == 2 + |RedirItems(rs[1..])|
  {
    var pair := [Sym(if rs[0].out then '>' else '<'), Word(rs[0].file)];
    MatchesSplit(buf, toks, k, pair, RedirItems(rs[1..]));
    assert MatchAt(buf, toks[k + 0], pair[0]) && MatchAt(buf, toks[k + 1], pair[1]);
  }

  lemma {:induction false} RedirsBack(buf: string, toks: seq<Token>, k: nat, rs: seq<TRedirection>)
    requires Matches(buf, toks, k, RedirItems(rs)) && !IsRedir(Kind(toks, k + |RedirItems(rs)|))
    ensures var r := Redirs(toks, k); r.Ok? && r.k == k + |RedirItems(rs)| && SameRedirs(buf, r.value, rs)
    decreases |rs|
  {
    hide MatchAt, SameRedirs, Text, IsRedir, Kind;
    if rs == [] {
      NoItems(buf, toks, k);
    } else {
      RedirFirst(buf, toks, k, rs);
      RedirsBack(buf, toks, k + 2, rs[1..]);
      SameRedirsCons(buf, Redirection(SpanOf(toks[k + 1]), Kind(toks, k) != '<'), Redirs(toks, k + 2).value, rs);
    }
  }

  function TWrap(t: Tree, rs: seq<TRedirection>): (r: Tree) {
    if rs == [] then t else var last := rs[|rs| - 1]; TRedir(TWrap(t, rs[..|rs| - 1]), last.file, last.out)
  }

  lemma {:induction false} WrapMeans(buf: string, c: Cmd, ds: seq<Redirection>, rs: seq<TRedirection>)
    requires SameRedirs(buf, ds, rs)
    ensures TreeOf(buf, Wrap(c, ds)) == TWrap(TreeOf(buf, c), rs)
    decreases |rs|
  {
    if rs != [] {
      WrapMeans(buf, c, ds[..|rs| - 1], rs[..|rs| - 1]);
    }
  }

  lemma {:induction false} Rewrap(t: Tree)
    ensures TWrap(Core(t), Around(t)) == t
  {
    if t.TRedir? {
      Rewrap(t.cmd);
      assert Around(t)[..|Around(t)| - 1] == Around(t.cmd);
    }
  }

  ghost predicate SameWords(buf: string, argv: seq<Span>, words: seq<string>) {
    |argv| == |words| && forall j :: 0 <= j < |words| ==> Text(buf, argv[j]) == words[j]
  }

  lemma SameWordsCons(buf: string, s: Span, argv: seq<Span>, words: seq<string>)
    requires words != [] && Text(buf, s) == words[0] && SameWords(buf, argv, words[1..])
    ensures SameWords(buf, [s] + argv, words)
  {
    hide Text;
    forall j | 0 < j < |words|
      ensures Text(buf, ([s] + argv)[j]) == words[j]
    {
      assert words[j] == words[1..][j - 1];
    }
  }

  /** The words, and after the last one the redirections. */
  lemma {:induction false} WordsBack(buf: string, toks: seq<Token>, k: nat, argc: nat, words: seq<string>, rs: seq<TRedirection>)
    requires argc + |words| < MAXARGS && Matches(buf, toks, k, WordItems(words) + RedirItems(rs))
    requires EndsExec(Kind(toks, k + |words| + |RedirItems(rs)|))
    requires words == [] ==> rs == []
    ensures var w := Words(toks, k, argc);
            && w.Ok? && w.k == k + |words| + |RedirItems(rs)|
            && SameWords(buf, w.value.argv, words) && SameRedirs(buf, w.value.redirs, rs)
    decreases |words|
  {
    hide EndsExec, Redirs, RedirItems, Matches, SameRedirs, Text, Kind;
    if words == [] {
      NoItems(buf, toks, k);
    } else {
      WordFirst(buf, toks, k, words, RedirItems(rs));
      if |words| > 1 {
        WordFirst(buf, toks, k + 1, words[1..], RedirItems(rs));
        NoRedirs(toks, k + 1);
        WordsBack(buf, toks, k + 1, argc + 1, words[1..], rs);
        assert [] + Words(toks, k + 1, argc + 1).value.redirs == Words(toks, k + 1, argc + 1).value.redirs;
      } else {
        EndNoWord(Kind(toks, k + 1 + |RedirItems(rs)|));
        assert WordItems(words[1..]) + RedirItems(rs) == RedirItems(rs);
        RedirsBack(buf, toks, k + 1, rs);
        assert Redirs(toks, k + 1).value + [] == Redirs(toks, k + 1).value;
      }
      var rest := Words(toks, Redirs(toks, k + 1).k, argc + 1).value.argv;
      SameWordsCons(buf, SpanOf(toks[k]), rest, words);
    }
  }

  lemma NoItems(buf: string, toks: seq<Token>, k: nat)
    ensures RedirItems([]) == [] && SameRedirs(buf, [], [])
  {
  }

  lemma NoRedirs(toks: seq<Token>, k: nat)
    requires k <= |toks| && Kind(toks, k) == 'a'
    ensures Redirs(toks, k) == Ok([], k)
  {
  }

  /** The first word is the token here; the others follow. */
  lemma WordFirst(buf: string, toks: seq<Token>, k: nat, words: seq<string>, rest: seq<Item>)
    requires words != [] && Matches(buf, toks, k, WordItems(words) + rest)
    ensures k < |toks| && Kind(toks, k) == 'a' && Text(buf, SpanOf(toks[k])) == words[0] && !EndsExec('a')
    ensures Matches(buf, toks, k + 1, WordItems(words[1..]) + rest)
  {
    var items := WordItems(words) + rest;
    assert MatchAt(buf, toks[k + 0], items[0]);
    assert items == [items[0]] + (WordItems(words[1..]) + rest);
    MatchesSplit(buf, toks, k, [items[0]], WordItems(words[1..]) + rest);
  }

  lemma EndNoWord(c: char)
    requires EndsExec(c)
    ensures !IsRedir(c) && c != 'a' && c != '('
  {
  }

  /** What each level of the grammar finds at k: the tree t, in n tokens. */
  ghost predicate Finds(buf: string, r: Result<Cmd>, k: nat, t: Tree) {
    r.Ok? && r.k == k && TreeOf(buf, r.value) == t
  }

  lemma SimpleBack(buf: string, toks: seq<Token>, k: nat, t: Tree)
    requires Core(t).TExec? && |Core(t).words| < MAXARGS && Matches(buf, toks, k, PrintExec(t)) && EndsExec(Kind(toks, k + |PrintExec(t)|))
    ensures Finds(buf, Execs(toks, k), k + |PrintExec(t)|, t)
  {
    hide EndsExec, Redirs, RedirItems, Matches, SameRedirs, Text, Words, Wrap, TreeOf, Around, TWrap, Kind;
    var words, rs := Core(t).words, Around(t);
    EndNoWord(Kind(toks, k + |PrintExec(t)|));
    Rewrap(t);
    KindBound(buf, toks, k, PrintExec(t));
    if words == [] {
      NoItems(buf, toks, k);
      assert WordItems(words) + RedirItems(rs) == RedirItems(rs);
      RedirsBack(buf, toks, k, rs);
      RedirsNotParen(buf, toks, k, rs);
      var first := Redirs(toks, k);
      assert WordItems([]) + RedirItems([]) == [];
      MatchesEmpty(buf, toks, first.k);
      WordsBack(buf, toks, first.k, 0, [], []);
      var w := Words(toks, first.k, 0).value;
      SameNone(buf, w.redirs);
      assert first.value + w.redirs == first.value;
      ExecMeans(buf, w.argv, words);
      WrapMeans(buf, Exec(w.argv), first.value, rs);
    } else {
      WordFirst(buf, toks, k, words, RedirItems(rs));
      NoRedirs(toks, k);
      WordsBack(buf, toks, k, 0, words, rs);
      var w := Words(toks, k, 0).value;
      assert [] + w.redirs == w.redirs;
      ExecMeans(buf, w.argv, words);
      WrapMeans(buf, Exec(w.argv), w.redirs, rs);
    }
  }

  lemma KindBound(buf: string, toks: seq<Token>, k: nat, items: seq<Item>)
    requires Matches(buf, toks, k, items)
    ensures k + |items| <= |toks|
  {
  }

  lemma MatchesEmpty(buf: string, toks: seq<Token>, k: nat)
    requires k <= |toks|
    ensures Matches(buf, toks, k, [])
  {
  }

  lemma SameNone(buf: string, ds: seq<Redirection>)
    requires SameRedirs(buf, ds, [])
    ensures ds == []
  {
  }

  lemma RedirsNotParen(buf: string, toks: seq<Token>, k: nat, rs: seq<TRedirection>)
    requires Matches(buf, toks, k, RedirItems(rs)) && EndsExec(Kind(toks, k + |RedirItems(rs)|))
    ensures Kind(toks, k) != '('
  {
    if rs != [] {
      assert MatchAt(buf, toks[k + 0], RedirItems(rs)[0]);
    }
  }

  lemma ExecMeans(buf: string, argv: seq<Span>, words: seq<string>)
    requires SameWords(buf, argv, words)
    ensures TreeOf(buf, Exec(argv)) == TExec(words)
  {
    assert Texts(buf, argv) == words;
  }

  // The levels, from the inside out.

  predicate EndsLine(c: char) {
    c == ')' || c == '\0'
  }

  predicate EndsPipe(c: char) {
    EndsLine(c) || c == ';' || c == '&'
  }

  /** c in the background n times. */
  function Amps(c: Cmd, n: nat): (r: Cmd) {
    if n == 0 then c else Back(Amps(c, n - 1))
  }

  /** A pipeline and ampersands up to token k: together the tree t. */
  ghost predicate FindsBack(buf: string, toks: seq<Token>, k0: nat, k: nat, t: Tree)
    requires k0 <= |toks|
  {
    var r := Pipes(toks, k0);
    && r.Ok? && r.k <= k <= |toks|
    && (forall i :: r.k <= i < k ==> Kind(toks, i) == '&')
    && TreeOf(buf, Amps(r.value, k - r.k)) == t
  }

  lemma {:induction false} BacksAmps(toks: seq<Token>, k0: nat, k1: nat, k: nat, c: Cmd)
    requires k0 <= k1 <= k <= |toks| && (forall i :: k1 <= i < k ==> Kind(toks, i) == '&') && Kind(toks, k) != '&'
    ensures Backs(toks, k1, Amps(c, k1 - k0)) == Ok(Amps(c, k - k0), k)
    decreases k - k1
  {
    if k1 < k {
      BacksAmps(toks, k0, k1 + 1, k, c);
    }
  }

  lemma BackIsLine(buf: string, toks: seq<Token>, k0: nat, k: nat, t: Tree)
    requires k0 <= |toks| && FindsBack(buf, toks, k0, k, t) && EndsLine(Kind(toks, k))
    ensures Finds(buf, Line(toks, k0), k, t)
  {
    var r := Pipes(toks, k0);
    BacksAmps(toks, r.k, r.k, k, r.value);
  }

  lemma {:induction false} AnyPipe(buf: string, toks: seq<Token>, k: nat, t: Tree)
    requires WfTree(t) && t.TPipe? && Matches(buf, toks, k, PrintAny(t)) && EndsPipe(Kind(toks, k + |PrintAny(t)|))
    ensures k <= |toks| && Finds(buf, Pipes(toks, k), k + |PrintAny(t)|, t)
    decreases t, 0
  {
    hide Matches, Kind, Execs;
    var a, b := PrintExec(t.left), PrintPipe(t.right);
    MatchesSym(buf, toks, k, a, '|', b);
    ExecBack(buf, toks, k, t.left);
    PipeBack(buf, toks, k + |a| + 1, t.right);
  }

  lemma {:induction false} AnyBack(buf: string, toks: seq<Token>, k: nat, t: Tree)
    requires WfTree(t) && t.TBack? && Matches(buf, toks, k, PrintAny(t))
    ensures k <= |toks| && FindsBack(buf, toks, k, k + |PrintAny(t)|, t)
    decreases t, 0
  {
    hide Matches, Kind, Pipes;
    var a := PrintBack(t.cmd);
    assert PrintAny(t) == a + [Sym('&')] + [];
    MatchesSym(buf, toks, k, a, '&', []);
    BackBack(buf, toks, k, t.cmd);
  }

  lemma {:induction false} AnyList(buf: string, toks: seq<Token>, k: nat, t: Tree)
    requires WfTree(t) && t.TList? && Matches(buf, toks, k, PrintAny(t)) && EndsLine(Kind(toks, k + |PrintAny(t)|))
    ensures k <= |toks| && Finds(buf, Line(toks, k), k + |PrintAny(t)|, t)
    decreases t, 0
  {
    hide Matches, Kind, Pipes;
    var a, b := PrintBack(t.left), PrintLine(t.right);
    MatchesSym(buf, toks, k, a, ';', b);
    BackBack(buf, toks, k, t.left);
    var r := Pipes(toks, k);
    BacksAmps(toks, r.k, r.k, k + |a|, r.value);
    LineBack(buf, toks, k + |a| + 1, t.right);
  }

  /** What stands in parentheses is found as a line. */
  lemma {:induction false} AnyLine(buf: string, toks: seq<Token>, k: nat, t: Tree)
    requires WfTree(t) && !t.TExec? && !t.TRedir? && Matches(buf, toks, k, PrintAny(t)) && EndsLine(Kind(toks, k + |PrintAny(t)|))
    ensures k <= |toks| && Finds(buf, Line(toks, k), k + |PrintAny(t)|, t)
    decreases t, 1
  {
    hide Matches, Kind, Pipes, Line;
    var e := k + |PrintAny(t)|;
    match t {
      case TList(_, _) =>
        AnyList(buf, toks, k, t);
      case TBack(_) =>
        AnyBack(buf, toks, k, t);
        BackIsLine(buf, toks, k, e, t);
      case TPipe(_, _) =>
        AnyPipe(buf, toks, k, t);
        BackIsLine(buf, toks, k, e, t);
    }
  }

  lemma {:induction false} CoreWf(t: Tree)
    requires WfTree(t)
    ensures WfTree(Core(t))
  {
    if t.TRedir? {
      CoreWf(t.cmd);
    }
  }

  lemma {:induction false} ExecBack(buf: string, toks: seq<Token>, k: nat, t: Tree)
    requires WfTree(t) && Matches(buf, toks, k, PrintExec(t)) && EndsExec(Kind(toks, k + |PrintExec(t)|))
    ensures k <= |toks| && Finds(buf, Execs(toks, k), k + |PrintExec(t)|, t)
    decreases t, 2
  {
    hide Matches, Kind, Line, Redirs, Wrap, RedirItems, EndsExec, SameRedirs, TWrap, Around;
    CoreWf(t);
    KindBound(buf, toks, k, PrintExec(t));
    var c, rs := Core(t), RedirItems(Around(t));
    if c.TExec? {
      SimpleBack(buf, toks, k, t);
    } else {
      var inner := PrintAny(c);
      assert PrintExec(t) == [] + [Sym('(')] + (inner + [Sym(')')] + rs);
      MatchesSym(buf, toks, k, [], '(', inner + [Sym(')')] + rs);
      MatchesSym(buf, toks, k + 1, inner, ')', rs);
      AnyLine(buf, toks, k + 1, c);
      EndNoWord(Kind(toks, k + |PrintExec(t)|));
      RedirsBack(buf, toks, k + 1 + |inner| + 1, Around(t));
      Rewrap(t);
      WrapMeans(buf, Line(toks, k + 1).value, Redirs(toks, k + 1 + |inner| + 1).value, Around(t));
    }
  }

  lemma {:induction false} PipeBack(buf: string, toks: seq<Token>, k: nat, t: Tree)
    requires WfTree(t) && Matches(buf, toks, k, PrintPipe(t)) && EndsPipe(Kind(toks, k + |PrintPipe(t)|))
    ensures k <= |toks| && Finds(buf, Pipes(toks, k), k + |PrintPipe(t)|, t)
    decreases t, 3
  {
    hide Matches, Kind, Execs, PrintAny, PrintExec;
    if t.TPipe? {
      AnyPipe(buf, toks, k, t);
    } else {
      ExecBack(buf, toks, k, t);
    }
  }

  lemma {:induction false} BackBack(buf: string, toks: seq<Token>, k: nat, t: Tree)
    requires WfTree(t) && Matches(buf, toks, k, PrintBack(t)) && EndsPipe(Kind(toks, k + |PrintBack(t)|))
    ensures k <= |toks| && FindsBack(buf, toks, k, k + |PrintBack(t)|, t)
    decreases t, 4
  {
    hide Matches, Kind, Pipes, PrintAny, PrintPipe;
    if t.TBack? {
      AnyBack(buf, toks, k, t);
    } else {
      PipeBack(buf, toks, k, t);
    }
  }

  lemma {:induction false} LineBack(buf: string, toks: seq<Token>, k: nat, t: Tree)
    requires WfTree(t) && Matches(buf, toks, k, PrintLine(t)) && EndsLine(Kind(toks, k + |PrintLine(t)|))
    ensures k <= |toks| && Finds(buf, Line(toks, k), k + |PrintLine(t)|, t)
    decreases t, 5
  {
    hide Matches, Kind, Line, PrintAny, PrintBack, FindsBack;
    if t.TList? {
      AnyList(buf, toks, k, t);
    } else {
      BackBack(buf, toks, k, t);
      BackIsLine(buf, toks, k, k + |PrintLine(t)|, t);
    }
  }

  // Printed items are good items, so the line lexes into them.

  ghost predicate GoodItems(s: seq<Item>) {
    forall i :: 0 <= i < |s| ==> GoodItem(s[i])
  }

  lemma {:induction false} RedirsGood(rs: seq<TRedirection>)
    requires forall i :: 0 <= i < |rs| ==> GoodWord(rs[i].file)
    ensures GoodItems(RedirItems(rs))
    decreases |rs|
  {
    if rs != [] {
      RedirsGood(rs[1..]);
    }
  }

  lemma {:induction false} AroundGood(t: Tree)
    requires WfTree(t)
    ensures forall i :: 0 <= i < |Around(t)| ==> GoodWord(Around(t)[i].file)
  {
    hide GoodWord;
    if t.TRedir? {
      AroundGood(t.cmd);
    }
  }

  lemma {:induction false} ExecGood(t: Tree)
    requires WfTree(t)
    ensures GoodItems(PrintExec(t))
    decreases t, 1
  {
    hide GoodWord;
    AroundGood(t);
    RedirsGood(Around(t));
    CoreWf(t);
    if !Core(t).TExec? {
      AnyGood(Core(t));
    }
  }

  lemma {:induction false} AnyGood(t: Tree)
    requires WfTree(t)
    ensures GoodItems(PrintAny(t))
    decreases t, 0
  {
    hide GoodWord, PrintBack, PrintLine, PrintExec, PrintPipe;
    match t {
      case TList(l, r) =>
        LineGood(l);
        LineGood(r);
      case TBack(c) =>
        LineGood(c);
      case TPipe(l, r) =>
        LineGood(l);
        LineGood(r);
      case _ =>
    }
  }

  lemma {:induction false} LineGood(t: Tree)
    requires WfTree(t)
    ensures GoodItems(PrintLine(t)) && GoodItems(PrintBack(t)) && GoodItems(PrintPipe(t)) && GoodItems(PrintExec(t))
    decreases t, 2
  {
    hide PrintAny, PrintExec, GoodItems;
    AnyGood(t);
    ExecGood(t);
    assert GoodItems(PrintPipe(t));
    assert GoodItems(PrintBack(t));
  }

  lemma {:induction false} JoinNoNul(items: seq<Item>)
    requires GoodItems(items)
    ensures NoNul(Join(items))
    decreases |items|
  {
    if items != [] {
      JoinNoNul(items[1..]);
      var w := if items[0].Sym? then [items[0].c] else items[0].w;
      assert GoodItem(items[0]);
      assert NoNul(w);
    }
  }

  /** Parsing a printed command gives the command back, for every command with at most nine words at a time. */
  lemma RoundTrip(t: Tree)
    requires WfTree(t)
    ensures NoNul(Print(t)) && Parse(Print(t)).Ok? && TreeOf(Print(t), Parse(Print(t)).value) == t
  {
    hide GoodItem, Lex, Join, PrintLine, NoNul, Line, TreeOf;
    var items, buf := PrintLine(t), Print(t);
    LineGood(t);
    JoinNoNul(items);
    LexJoin(buf, 0, items);
    LineBack(buf, Lex(buf, 0), 0, t);
  }

  lemma {:induction false} WordsTooMany(buf: string, toks: seq<Token>, k: nat, argc: nat, words: seq<string>)
    requires argc < MAXARGS <= argc + |words| && k <= |toks| && Matches(buf, toks, k, WordItems(words) + [])
    ensures Words(toks, k, argc) == Err(TooManyArgs)
    decreases |words|
  {
    hide Matches, Kind, Text, EndsExec;
    WordFirst(buf, toks, k, words, []);
    if argc + 1 < MAXARGS {
      WordFirst(buf, toks, k + 1, words[1..], []);
      NoRedirs(toks, k + 1);
      WordsTooMany(buf, toks, k + 1, argc + 1, words[1..]);
    }
  }

  /** Nine words are the most a command can have. */
  lemma WordLimit(words: seq<string>)
    requires forall i :: 0 <= i < |words| ==> GoodWord(words[i])
    ensures Parse(Print(TExec(words))).Ok? <==> |words| < 10
    ensures |words| >= 10 ==> Parse(Print(TExec(words))) == Err(TooManyArgs)
  {
    hide GoodWord, Lex, Join, Words, Redirs;
    var t := TExec(words);
    if |words| < MAXARGS {
      RoundTrip(t);
    } else {
      var buf, items := Print(t), WordItems(words);
      assert PrintExec(t) == items;
      assert PrintPipe(t) == items;
      assert PrintLine(t) == items;
      LexJoin(buf, 0, items);
      var toks := Lex(buf, 0);
      assert items == items + [];
      WordFirst(buf, toks, 0, words, []);
      NoRedirs(toks, 0);
      WordsTooMany(buf, toks, 0, 0, words);
      assert Execs(toks, 0) == Err(TooManyArgs);
      assert Pipes(toks, 0) == Err(TooManyArgs);
    }
  }
}
