/** The matcher of grep, against the language its patterns stand for. */
module Grep {
  /** One character, or any number of it; '.' is any character. */
  datatype Atom = One(c: char) | Star(c: char)

  /** What a C string holds at k. */
  function At(s: string, k: nat): (c: char) {
    if k < |s| then s[k] else '\0'
  }

  ghost predicate NoNul(s: string) {
    forall k :: 0 <= k < |s| ==> s[k] != '\0'
  }

  /** The atoms of the pattern from r on; a $ at the very end is none. */
  function Atoms(re: string, r: nat): (s: seq<Atom>)
    decreases |re| - r
  {
    if r >= |re| then []
    else if At(re, r + 1) == '*' then [Star(re[r])] + Atoms(re, r + 2)
    else if re[r] == '$' && r + 1 == |re| then []
    else [One(re[r])] + Atoms(re, r + 1)
  }

  /** The pattern from r on ends in an anchor. */
  function ToEnd(re: string, r: nat): (b: bool)
    decreases |re| - r
  {
    if r >= |re| then false
    else if At(re, r + 1) == '*' then ToEnd(re, r + 2)
    else (re[r] == '$' && r + 1 == |re|) || ToEnd(re, r + 1)
  }

  predicate Fits(c: char, x: char) {
    c == '.' || c == x
  }

  /** text[i..j] belongs to the atom. */
  predicate Piece(a: Atom, text: string, i: nat, j: nat) {
    i <= j <= |text| && (a.One? ==> j == i + 1) && forall k :: i <= k < j ==> Fits(a.c, text[k])
  }

  /** The cuts divide a stretch of the text into one piece for each atom. */
  ghost predicate Splits(atoms: seq<Atom>, text: string, cuts: seq<nat>) {
    |cuts| == |atoms| + 1 && cuts[0] <= |text| && forall k :: 0 <= k < |atoms| ==> Piece(atoms[k], text, cuts[k], cuts[k + 1])
  }

  /** Some stretch of the text that starts at i belongs to the atoms, and ends with the text if it has to. */
  ghost predicate From(atoms: seq<Atom>, toEnd: bool, text: string, i: nat) {
    exists cuts :: Splits(atoms, text, cuts) && cuts[0] == i && (toEnd ==> cuts[|atoms|] == |text|)
  }

  /** The pattern matches the text: a leading ^ ties it to the start, a trailing $ to the end. */
  ghost predicate Matches(re: string, text: string) {
    if At(re, 0) == '^' then From(Atoms(re, 1), ToEnd(re, 1), text, 0)
    else exists i: nat :: From(Atoms(re, 0), ToEnd(re, 0), text, i)
  }

  lemma FromNone(toEnd: bool, text: string, i: nat)
    ensures From([], toEnd, text, i) <==> i <= |text| && (toEnd ==> i == |text|)
  {
    if i <= |text| && (toEnd ==> i == |text|) {
      assert Splits([], text, [i]);
    }
  }

  /** A match of an atom and more is a piece for the atom and a match of the rest behind it. */
  lemma FromCons(a: Atom, rest: seq<Atom>, toEnd: bool, text: string, i: nat)
    ensures From([a] + rest, toEnd, text, i) <==> exists j: nat :: Piece(a, text, i, j) && From(rest, toEnd, text, j)
  {
    hide Piece;
    var atoms := [a] + rest;
    if From(atoms, toEnd, text, i) {
      var cuts :| Splits(atoms, text, cuts) && cuts[0] == i && (toEnd ==> cuts[|atoms|] == |text|);
      assert Piece(atoms[0], text, cuts[0], cuts[0 + 1]);
      PieceEnd(a, text, i, cuts[1]);
      forall k | 0 <= k < |rest|
        ensures Piece(rest[k], text, cuts[1..][k], cuts[1..][k + 1])
      {
        assert Piece(atoms[k + 1], text, cuts[k + 1], cuts[k + 1 + 1]);
      }
      assert Splits(rest, text, cuts[1..]) && cuts[1..][|rest|] == cuts[|atoms|];
      assert From(rest, toEnd, text, cuts[1]);
    }
    if j: nat :| Piece(a, text, i, j) && From(rest, toEnd, text, j) {
      var cuts :| Splits(rest, text, cuts) && cuts[0] == j && (toEnd ==> cuts[|rest|] == |text|);
      var all := [i] + cuts;
      PieceEnd(a, text, i, j);
      forall k | 0 <= k < |atoms|
        ensures Piece(atoms[k], text, all[k], all[k + 1])
      {
        if k > 0 {
          assert Piece(rest[k - 1], text, cuts[k - 1], cuts[k - 1 + 1]);
        }
      }
      assert Splits(atoms, text, all) && all[0] == i && all[|atoms|] == cuts[|rest|];
    }
  }

  lemma PieceEnd(a: Atom, text: string, i: nat, j: nat)
    requires Piece(a, text, i, j)
    ensures i <= j <= |text|
  {
  }

  lemma FromOne(c: char, rest: seq<Atom>, toEnd: bool, text: string, i: nat)
    ensures From([One(c)] + rest, toEnd, text, i) <==> i < |text| && Fits(c, text[i]) && From(rest, toEnd, text, i + 1)
  {
    hide From;
    FromCons(One(c), rest, toEnd, text, i);
    if i < |text| && Fits(c, text[i]) {
      assert Piece(One(c), text, i, i + 1);
    }
  }

  /** A star gives up at once, or takes a character and goes on. */
  lemma FromStar(c: char, rest: seq<Atom>, toEnd: bool, text: string, i: nat)
    requires i <= |text|
    ensures var atoms := [Star(c)] + rest;
            From(atoms, toEnd, text, i) <==>
              From(rest, toEnd, text, i) || (i < |text| && Fits(c, text[i]) && From(atoms, toEnd, text, i + 1))
  {
    hide From;
    FromCons(Star(c), rest, toEnd, text, i);
    FromCons(Star(c), rest, toEnd, text, i + 1);
    assert Piece(Star(c), text, i, i);
    forall j: nat | i < j
      ensures Piece(Star(c), text, i, j) <==> i < |text| && Fits(c, text[i]) && Piece(Star(c), text, i + 1, j)
    {
    }
  }

  /** matchhere. */
  method MatchHere(re: string, r: nat, text: string, i: nat) returns (yes: bool)
    requires NoNul(re) && NoNul(text) && r <= |re| && i <= |text|
    ensures yes <==> From(Atoms(re, r), ToEnd(re, r), text, i)
    decreases |re| - r, 0
  {
    hide From, NoNul;
    FromNone(ToEnd(re, r), text, i);
    if r == |re| {
      return true;
    }
    if At(re, r + 1) == '*' {
      yes := MatchStar(re[r], re, r + 2, text, i);
      return;
    }
    if re[r] == '$' && r + 1 == |re| {
      return i == |text|;
    }
    FromOne(re[r], Atoms(re, r + 1), ToEnd(re, r + 1), text, i);
    if i < |text| && (re[r] == '.' || re[r] == text[i]) {
      yes := MatchHere(re, r + 1, text, i + 1);
      return;
    }
    return false;
  }

  /** matchstar: c any number of times, then the pattern from r on. */
  method MatchStar(c: char, re: string, r: nat, text: string, start: nat) returns (yes: bool)
    requires NoNul(re) && NoNul(text) && r <= |re| && start <= |text|
    ensures yes <==> From([Star(c)] + Atoms(re, r), ToEnd(re, r), text, start)
    decreases |re| - r, 1
  {
    hide From, NoNul, Atoms, ToEnd;
    var i := start;
    while true
      invariant start <= i <= |text|
      invariant From([Star(c)] + Atoms(re, r), ToEnd(re, r), text, start) <==> From([Star(c)] + Atoms(re, r), ToEnd(re, r), text, i)
      decreases |text| - i
    {
      FromStar(c, Atoms(re, r), ToEnd(re, r), text, i);
      yes := MatchHere(re, r, text, i);
      if yes {
        return;
      }
      if i == |text| || !(text[i] == c || c == '.') {
        return false;
      }
      i := i + 1;
    }
  }

  /** match: true exactly when the text, or for an open pattern some stretch of it, belongs to the pattern. */
  method Match(re: string, text: string) returns (yes: bool)
    requires NoNul(re) && NoNul(text)
    ensures yes <==> Matches(re, text)
  {
    hide From, NoNul, Atoms, ToEnd;
    if At(re, 0) == '^' {
      yes := MatchHere(re, 1, text, 0);
      return;
    }
    var i := 0;
    while true
      invariant 0 <= i <= |text| && forall k: nat :: k < i ==> !From(Atoms(re, 0), ToEnd(re, 0), text, k)
      decreases |text| - i
    {
      yes := MatchHere(re, 0, text, i);
      if yes {
        return;
      }
      if i == |text| {
        NotBeyond(Atoms(re, 0), ToEnd(re, 0), text);
        return false;
      }
      i := i + 1;
    }
  }

  lemma NotBeyond(atoms: seq<Atom>, toEnd: bool, text: string)
    ensures forall i: nat :: i > |text| ==> !From(atoms, toEnd, text, i)
  {
  }

  // The language by its laws, one character of the pattern at a time.

  lemma AtShift(a: string, re: string, r: nat)
    ensures At(a + re, |a| + r) == At(re, r) && (r < |re| ==> (a + re)[|a| + r] == re[r])
  {
  }

  lemma {:induction false} AtomsShift(a: string, re: string, r: nat)
    requires r <= |re|
    ensures Atoms(a + re, |a| + r) == Atoms(re, r)
    decreases |re| - r
  {
    hide At;
    AtShift(a, re, r);
    AtShift(a, re, r + 1);
    if r < |re| {
      if At(re, r + 1) == '*' {
        StarInside(re, r);
        AtomsShift(a, re, r + 2);
      } else {
        AtomsShift(a, re, r + 1);
      }
    }
  }

  lemma {:induction false} EndShift(a: string, re: string, r: nat)
    requires r <= |re|
    ensures ToEnd(a + re, |a| + r) == ToEnd(re, r)
    decreases |re| - r
  {
    hide At;
    AtShift(a, re, r);
    AtShift(a, re, r + 1);
    if r < |re| {
      if At(re, r + 1) == '*' {
        StarInside(re, r);
        EndShift(a, re, r + 2);
      } else {
        EndShift(a, re, r + 1);
      }
    }
  }

  lemma StarInside(re: string, r: nat)
    requires At(re, r + 1) == '*'
    ensures r + 2 <= |re|
  {
  }

  lemma {:induction false} FromShift(atoms: seq<Atom>, toEnd: bool, text: string, i: nat)
    requires i <= |text|
    ensures From(atoms, toEnd, text, i) <==> From(atoms, toEnd, text[i..], 0)
    decreases |atoms|
  {
    hide From;
    if atoms == [] {
      FromNone(toEnd, text, i);
      FromNone(toEnd, text[i..], 0);
    } else {
      var a, rest := atoms[0], atoms[1..];
      assert atoms == [a] + rest;
      FromCons(a, rest, toEnd, text, i);
      FromCons(a, rest, toEnd, text[i..], 0);
      forall j: nat | i <= j <= |text|
        ensures Piece(a, text, i, j) && From(rest, toEnd, text, j) <==> Piece(a, text[i..], 0, j - i) && From(rest, toEnd, text[i..], j - i)
      {
        PieceShift(a, text, i, j);
        FromShift(rest, toEnd, text, j);
        FromShift(rest, toEnd, text[i..], j - i);
        assert text[i..][j - i..] == text[j..];
      }
      if j: nat :| Piece(a, text, i, j) && From(rest, toEnd, text, j) {
        assert Piece(a, text[i..], 0, j - i) && From(rest, toEnd, text[i..], j - i);
      }
      if k: nat :| Piece(a, text[i..], 0, k) && From(rest, toEnd, text[i..], k) {
        assert i + k - i == k;
        assert Piece(a, text, i, i + k) && From(rest, toEnd, text, i + k);
      }
    }
  }

  lemma PieceShift(a: Atom, text: string, i: nat, j: nat)
    requires i <= j <= |text|
    ensures Piece(a, text, i, j) <==> Piece(a, text[i..], 0, j - i)
  {
    if Piece(a, text[i..], 0, j - i) {
      forall k | i <= k < j
        ensures Fits(a.c, text[k])
      {
        assert text[i..][k - i] == text[k];
      }
    }
  }

  /** The pattern matches at the very start of the text. */
  ghost predicate Here(re: string, text: string) {
    Matches("^" + re, text)
  }

  lemma HereIs(re: string, text: string)
    ensures Here(re, text) <==> From(Atoms(re, 0), ToEnd(re, 0), text, 0)
  {
    AtomsShift("^", re, 0);
    EndShift("^", re, 0);
  }

  /** The empty pattern matches anywhere, and "$" only at the end. */
  lemma EmptyLaw(text: string)
    ensures Here("", text) && (Here("$", text) <==> text == "")
  {
    HereIs("", text);
    HereIs("$", text);
    FromNone(false, text, 0);
    FromNone(true, text, 0);
  }

  /** A character of the pattern matches itself, and a period anything; the rest matches behind it. */
  lemma CharLaw(c: char, rest: string, text: string)
    requires (rest == "" || rest[0] != '*') && !(c == '$' && rest == "")
    ensures Here([c] + rest, text) <==> text != "" && (c == '.' || c == text[0]) && Here(rest, text[1..])
  {
    hide From, Atoms, ToEnd;
    var re := [c] + rest;
    HereIs(re, text);
    CharAtoms(c, rest);
    AtomsShift([c], rest, 0);
    EndShift([c], rest, 0);
    FromOne(c, Atoms(rest, 0), ToEnd(rest, 0), text, 0);
    if text != "" {
      FromShift(Atoms(rest, 0), ToEnd(rest, 0), text, 1);
      HereIs(rest, text[1..]);
    }
  }

  lemma CharAtoms(c: char, rest: string)
    requires (rest == "" || rest[0] != '*') && !(c == '$' && rest == "")
    ensures Atoms([c] + rest, 0) == [One(c)] + Atoms([c] + rest, 1) && ToEnd([c] + rest, 0) == ToEnd([c] + rest, 1)
  {
  }

  /** A starred character matches nothing, or one character and then again. */
  lemma StarLaw(c: char, rest: string, text: string)
    ensures var re := [c, '*'] + rest;
            Here(re, text) <==> Here(rest, text) || (text != "" && (c == '.' || c == text[0]) && Here(re, text[1..]))
  {
    hide From, Atoms, ToEnd;
    var re := [c, '*'] + rest;
    HereIs(re, text);
    HereIs(rest, text);
    StarAtoms(c, rest);
    AtomsShift([c, '*'], rest, 0);
    EndShift([c, '*'], rest, 0);
    FromStar(c, Atoms(rest, 0), ToEnd(rest, 0), text, 0);
    if text != "" {
      FromShift(Atoms(re, 0), ToEnd(re, 0), text, 1);
      HereIs(re, text[1..]);
    }
  }

  lemma StarAtoms(c: char, rest: string)
    ensures var re := [c, '*'] + rest; Atoms(re, 0) == [Star(c)] + Atoms(re, 2) && ToEnd(re, 0) == ToEnd(re, 2)
  {
  }

  /** A pattern without a leading "^" matches where some tail of the text matches from its start. */
  lemma AnywhereLaw(re: string, text: string)
    requires re == "" || re[0] != '^'
    ensures Matches(re, text) <==> exists i :: 0 <= i <= |text| && Here(re, text[i..])
  {
    hide From, Atoms, ToEnd, Here;
    NotBeyond(Atoms(re, 0), ToEnd(re, 0), text);
    forall i: nat | i <= |text|
      ensures Here(re, text[i..]) <==> From(Atoms(re, 0), ToEnd(re, 0), text, i)
    {
      HereIs(re, text[i..]);
      FromShift(Atoms(re, 0), ToEnd(re, 0), text, i);
    }
  }
}
