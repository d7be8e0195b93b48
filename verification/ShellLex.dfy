/** Tokens of the shell: what gettoken and peek see in a line. */
module ShellLex {
  /** A token: its kind as gettoken returns it ('a' for a word, '+' for >>), and where it starts and ends. */
  datatype Token = Token(kind: char, q: nat, eq: nat)

  predicate Blank(c: char) {
    c == ' ' || c == '\t' || c == '\r' || c == '\n' || c == 11 as char
  }

  predicate Symbol(c: char) {
    c == '<' || c == '|' || c == '>' || c == '&' || c == ';' || c == '(' || c == ')'
  }

  predicate WordChar(c: char) {
    !Blank(c) && !Symbol(c)
  }

  ghost predicate NoNul(buf: string) {
    forall i :: 0 <= i < |buf| ==> buf[i] != '\0'
  }

  function Skip(buf: string, pos: nat): (s: nat)
    ensures pos <= |buf| ==> pos <= s <= |buf| && (s < |buf| ==> !Blank(buf[s]))
    decreases |buf| - pos
  {
    if pos < |buf| && Blank(buf[pos]) then Skip(buf, pos + 1) else pos
  }

  function WordEnd(buf: string, pos: nat): (e: nat)
    requires pos <= |buf|
    ensures pos <= e <= |buf| && (forall i :: pos <= i < e ==> WordChar(buf[i])) && (e < |buf| ==> !WordChar(buf[e]))
    decreases |buf| - pos
  {
    if pos < |buf| && WordChar(buf[pos]) then WordEnd(buf, pos + 1) else pos
  }

  /** The token that starts at s. */
  function TokenAt(buf: string, s: nat): (t: Token)
    requires s < |buf| && !Blank(buf[s])
    ensures t.q == s < t.eq <= |buf|
    ensures t.kind == 'a' ==> (forall i :: s <= i < t.eq ==> WordChar(buf[i])) && (t.eq < |buf| ==> !WordChar(buf[t.eq]))
    ensures t.kind != 'a' ==> Symbol(buf[s]) && (t.kind == buf[s] || (buf[s] == '>' && t.kind == '+'))
  {
    if buf[s] == '>' && s + 1 < |buf| && buf[s + 1] == '>' then Token('+', s, s + 2)
    else if Symbol(buf[s]) then Token(buf[s], s, s + 1)
    else Token('a', s, WordEnd(buf, s))
  }

  /** The tokens from pos on. */
  function Lex(buf: string, pos: nat): (toks: seq<Token>)
    requires pos <= |buf|
    decreases |buf| - pos
  {
    var s := Skip(buf, pos);
    if s == |buf| then [] else var t := TokenAt(buf, s); [t] + Lex(buf, t.eq)
  }

  /** The kind of token k, 0 at the end of the line. */
  function Kind(toks: seq<Token>, k: nat): (c: char) {
    if k < |toks| then toks[k].kind else '\0'
  }

  lemma {:induction false} SkipTwice(buf: string, pos: nat)
    requires pos <= |buf|
    ensures Skip(buf, Skip(buf, pos)) == Skip(buf, pos)
    ensures Lex(buf, Skip(buf, pos)) == Lex(buf, pos)
  {
    SkipDone(buf, Skip(buf, pos));
  }

  lemma LexStep(buf: string, pos: nat)
    requires pos <= |buf|
    ensures var s := Skip(buf, pos);
            && pos <= s <= |buf| && (s < |buf| ==> !Blank(buf[s]))
            && Lex(buf, pos) == if s == |buf| then [] else [TokenAt(buf, s)] + Lex(buf, TokenAt(buf, s).eq)
  {
  }

  /** Does a token of kind c start with one of these symbols? */
  predicate Starts(c: char, symbols: string) {
    c != '\0' && c != 'a' && (if c == '+' then '>' in symbols else c in symbols)
  }

  lemma SkipDone(buf: string, s: nat)
    requires s <= |buf| && (s < |buf| ==> !Blank(buf[s]))
    ensures Skip(buf, s) == s
  {
  }

  /** Tokens are in order and apart: each is non-empty, ends before the next starts, and a word is followed by no word character. */
  predicate InOrder(buf: string, pos: nat, toks: seq<Token>) {
    && (forall i :: 0 <= i < |toks| ==> pos <= toks[i].q < toks[i].eq <= |buf|)
    && (forall i, j :: 0 <= i < j < |toks| ==> toks[i].eq <= toks[j].q)
    && (forall i, c :: 0 <= i < |toks| && toks[i].kind == 'a' && toks[i].q <= c < toks[i].eq ==> WordChar(buf[c]))
    && (forall i :: 0 <= i < |toks| && toks[i].kind == 'a' && toks[i].eq < |buf| ==> !WordChar(buf[toks[i].eq]))
  }

  lemma {:induction false} LexInOrder(buf: string, pos: nat)
    requires pos <= |buf|
    ensures InOrder(buf, pos, Lex(buf, pos))
    decreases |buf| - pos
  {
    var s := Skip(buf, pos);
    if s < |buf| {
      var t := TokenAt(buf, s);
      LexInOrder(buf, t.eq);
    }
  }

  // The same without the predicates above.

  ghost predicate Covers(toks: seq<Token>, i: nat) {
    exists k :: 0 <= k < |toks| && toks[k].q <= i < toks[k].eq
  }

  lemma CoversCons(t: Token, rest: seq<Token>, i: nat)
    ensures Covers([t] + rest, i) <==> t.q <= i < t.eq || Covers(rest, i)
  {
    var toks := [t] + rest;
    if Covers(toks, i) {
      var k :| 0 <= k < |toks| && toks[k].q <= i < toks[k].eq;
      assert k > 0 ==> rest[k - 1] == toks[k];
    }
    if t.q <= i < t.eq {
      assert toks[0] == t;
    }
    if Covers(rest, i) {
      var k :| 0 <= k < |rest| && rest[k].q <= i < rest[k].eq;
      assert toks[k + 1] == rest[k];
    }
  }

  /** The characters outside all tokens are exactly the spaces, tabs, carriage returns, newlines and vertical tabs. */
  lemma {:induction false} BlanksOutside(buf: string, pos: nat, i: nat)
    requires pos <= i < |buf|
    ensures Covers(Lex(buf, pos), i) <==> !(buf[i] in " \t\r\n" || buf[i] == 11 as char)
    decreases |buf| - pos
  {
    var s := Skip(buf, pos);
    Skipped(buf, pos, i);
    if s < |buf| {
      var t := TokenAt(buf, s);
      CoversCons(t, Lex(buf, t.eq), i);
      if i >= t.eq {
        BlanksOutside(buf, t.eq, i);
      } else {
        LaterTokens(buf, t.eq, i);
      }
    }
  }

  lemma {:induction false} Skipped(buf: string, pos: nat, i: nat)
    requires pos <= i < |buf|
    ensures i < Skip(buf, pos) ==> Blank(buf[i])
    decreases |buf| - pos
  {
    if Blank(buf[pos]) && i > pos {
      Skipped(buf, pos + 1, i);
    }
  }

  lemma LaterTokens(buf: string, pos: nat, i: nat)
    requires i < pos <= |buf|
    ensures !Covers(Lex(buf, pos), i)
  {
    LexInOrder(buf, pos);
  }

  /** A token as its characters tell: a word without symbols that ends where it must, ">>", or a single symbol. */
  predicate Plain(buf: string, t: Token) {
    && t.q < t.eq <= |buf|
    && if t.kind == 'a' then
         && (forall i :: t.q <= i < t.eq ==> buf[i] !in "<|>&;()")
         && (t.eq < |buf| ==> buf[t.eq] in " \t\r\n<|>&;()" || buf[t.eq] == 11 as char)
       else if t.kind == '+' then buf[t.q..t.eq] == ">>"
       else t.eq == t.q + 1 && buf[t.q] == t.kind && t.kind in "<|>&;()" && !(t.kind == '>' && t.eq < |buf| && buf[t.eq] == '>')
  }

  lemma {:induction false} TokensPlain(buf: string, pos: nat, k: nat)
    requires pos <= |buf| && k < |Lex(buf, pos)|
    ensures Plain(buf, Lex(buf, pos)[k])
    decreases |buf| - pos
  {
    var s := Skip(buf, pos);
    if k > 0 {
      TokensPlain(buf, TokenAt(buf, s).eq, k - 1);
    }
  }
}
