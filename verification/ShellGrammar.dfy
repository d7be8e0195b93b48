/** The grammar of the shell over tokens: what each parsing function accepts, and the command it builds. */
module ShellGrammar {
  import opened ShellLex

  const MAXARGS: nat := 10

  /** A counted string of the line. */
  datatype Span = Span(q: nat, eq: nat)

  datatype Cmd =
    | Exec(argv: seq<Span>)
    | Redir(cmd: Cmd, file: Span, out: bool)
    | Pipe(left: Cmd, right: Cmd)
    | List(left: Cmd, right: Cmd)
    | Back(cmd: Cmd)

  datatype Redirection = Redirection(file: Span, out: bool)

  datatype Error = MissingFile | Syntax | TooManyArgs | MissingParen | Leftovers

  /** A value and the number of the next token, or a panic. */
  datatype Result<T> = Ok(value: T, k: nat) | Err(error: Error)

  predicate IsRedir(c: char) {
    c == '<' || c == '>' || c == '+'
  }

  /** Tokens that end the words of a command. */
  predicate EndsExec(c: char) {
    c == '|' || c == ')' || c == '&' || c == ';' || c == '\0'
  }

  function SpanOf(t: Token): (s: Span) {
    Span(t.q, t.eq)
  }

  /** Later redirections go around earlier ones. */
  function Wrap(c: Cmd, redirs: seq<Redirection>): (r: Cmd) {
    if redirs == [] then c else
      var last := redirs[|redirs| - 1];
      Redir(Wrap(c, redirs[..|redirs| - 1]), last.file, last.out)
  }

  function Redirs(toks: seq<Token>, k: nat): (r: Result<seq<Redirection>>)
    requires k <= |toks|
    ensures r.Ok? ==> k <= r.k <= |toks|
    decreases |toks| - k
  {
    if !IsRedir(Kind(toks, k)) then Ok([], k)
    else if Kind(toks, k + 1) != 'a' then Err(MissingFile)
    else
      var rest := Redirs(toks, k + 2);
      if rest.Err? then rest
      else Ok([Redirection(SpanOf(toks[k + 1]), Kind(toks, k) != '<')] + rest.value, rest.k)
  }

  datatype Simple = Simple(argv: seq<Span>, redirs: seq<Redirection>)

  /** The words of a command, and the redirections between them, with argc words seen before. */
  function Words(toks: seq<Token>, k: nat, argc: nat): (r: Result<Simple>)
    requires k <= |toks|
    ensures r.Ok? ==> k <= r.k <= |toks|
    decreases |toks| - k
  {
    if EndsExec(Kind(toks, k)) then Ok(Simple([], []), k)
    else if Kind(toks, k) != 'a' then Err(Syntax)
    else if argc + 1 >= MAXARGS then Err(TooManyArgs)
    else
      var redirs := Redirs(toks, k + 1);
      if redirs.Err? then Err(redirs.error)
      else
        var rest := Words(toks, redirs.k, argc + 1);
        if rest.Err? then rest
        else Ok(Simple([SpanOf(toks[k])] + rest.value.argv, redirs.value + rest.value.redirs), rest.k)
  }

  function SimpleExec(toks: seq<Token>, k: nat): (r: Result<Cmd>)
    requires k <= |toks|
    ensures r.Ok? ==> k <= r.k <= |toks|
  {
    var first := Redirs(toks, k);
    if first.Err? then Err(first.error)
    else
      var w := Words(toks, first.k, 0);
      if w.Err? then Err(w.error) else Ok(Wrap(Exec(w.value.argv), first.value + w.value.redirs), w.k)
  }

  function Block(toks: seq<Token>, k: nat): (r: Result<Cmd>)
    requires k <= |toks| && Kind(toks, k) == '('
    ensures r.Ok? ==> k <= r.k <= |toks|
    decreases |toks| - k, 0
  {
    var inner := Line(toks, k + 1);
    if inner.Err? then inner
    else if Kind(toks, inner.k) != ')' then Err(MissingParen)
    else
      var redirs := Redirs(toks, inner.k + 1);
      if redirs.Err? then Err(redirs.error) else Ok(Wrap(inner.value, redirs.value), redirs.k)
  }

  function Execs(toks: seq<Token>, k: nat): (r: Result<Cmd>)
    requires k <= |toks|
    ensures r.Ok? ==> k <= r.k <= |toks|
    decreases |toks| - k, 1
  {
    if Kind(toks, k) == '(' then Block(toks, k) else SimpleExec(toks, k)
  }

  function Pipes(toks: seq<Token>, k: nat): (r: Result<Cmd>)
    requires k <= |toks|
    ensures r.Ok? ==> k <= r.k <= |toks|
    decreases |toks| - k, 2
  {
    var left := Execs(toks, k);
    if left.Err? || Kind(toks, left.k) != '|' then left
    else
      var right := Pipes(toks, left.k + 1);
      if right.Err? then right else Ok(Pipe(left.value, right.value), right.k)
  }

  /** Ampersands put what is before them into the background, again and again. */
  function Backs(toks: seq<Token>, k: nat, c: Cmd): (r: Result<Cmd>)
    requires k <= |toks|
    ensures r.Ok? && k <= r.k <= |toks|
    decreases |toks| - k
  {
    if Kind(toks, k) == '&' then Backs(toks, k + 1, Back(c)) else Ok(c, k)
  }

  function Line(toks: seq<Token>, k: nat): (r: Result<Cmd>)
    requires k <= |toks|
    ensures r.Ok? ==> k <= r.k <= |toks|
    decreases |toks| - k, 3
  {
    var first := Pipes(toks, k);
    if first.Err? then first
    else
      var left := Backs(toks, first.k, first.value);
      if Kind(toks, left.k) != ';' then left
      else
        var right := Line(toks, left.k + 1);
        if right.Err? then right else Ok(List(left.value, right.value), right.k)
  }

  /** A whole line. */
  function Parse(buf: string): (r: Result<Cmd>) {
    var toks := Lex(buf, 0);
    var line := Line(toks, 0);
    if line.Ok? && line.k != |toks| then Err(Leftovers) else line
  }
}
