/** Kernel command lines as lists of words: the quote-aware lexer, the printer
    that joins words with single spaces, and that each undoes the other. */
module CmdlineTokens {

  // ----- Lexer -----

  /** First position at or after `i` that is not a space. */
  function Skip(s: string, i: nat): (p: nat)
    requires i <= |s|
    ensures i <= p <= |s|
    ensures p < |s| ==> s[p] != ' '
    decreases |s| - i
  {
    if i < |s| && s[i] == ' ' then Skip(s, i + 1) else i
  }

  /** End of the word that covers `i`; -1 if a quote is left open. Inside quotes
      a space does not end the word. */
  function Cut(s: string, i: nat, inQuote: bool): (e: int)
    requires i <= |s|
    ensures e == -1 || i <= e <= |s|
    decreases |s| - i
  {
    if i == |s| then if inQuote then -1 else i
    else if !inQuote && s[i] == ' ' then i
    else Cut(s, i + 1, inQuote != (s[i] == '"'))
  }

  /** Words up to the end of the line or to the first one with an open quote. */
  datatype Lexed = Lexed(words: seq<string>, ok: bool)

  function LexFrom(s: string, i: nat): Lexed
    requires i <= |s|
    decreases |s| - i
  {
    var p := Skip(s, i);
    if p == |s| then Lexed([], true)
    else
      var e := Cut(s, p, false);
      if e < 0 then Lexed([], false)
      else
        var rest := LexFrom(s, e);
        Lexed([s[p..e]] + rest.words, rest.ok)
  }

  function Lex(s: string): Lexed { LexFrom(s, 0) }

  /** A whole word: not empty, quotes closed, no space outside quotes. */
  predicate Word(w: string) { w != "" && Cut(w, 0, false) == |w| }

  predicate Words(ws: seq<string>) { forall i :: 0 <= i < |ws| ==> Word(ws[i]) }

  // ----- Names and values -----

  /** End of the part before the first `=` outside quotes. */
  function NameEnd(w: string, i: nat, inQuote: bool): (n: nat)
    requires i <= |w|
    ensures i <= n <= |w|
    ensures n < |w| ==> w[n] == '='
    decreases |w| - i
  {
    if i == |w| || (!inQuote && w[i] == '=') then i
    else NameEnd(w, i + 1, inQuote != (w[i] == '"'))
  }

  function Name(w: string): string { w[..NameEnd(w, 0, false)] }

  /** An argument name: a word without an `=` outside quotes, and not ending in a
      quote, which a lookup would take for that of a value. */
  predicate ArgName(a: string) {
    Word(a) && NameEnd(a, 0, false) == |a| && a[|a| - 1] != '"'
  }

  /** A part of a word that keeps its quotes closed is passed over. */
  lemma {:induction false} CutSkips(a: string, i: nat, inQuote: bool, w: string)
    requires i <= |a| && Cut(a, i, inQuote) == |a| && a <= w
    ensures Cut(w, i, inQuote) == Cut(w, |a|, false)
    decreases |a| - i
  {
    if i < |a| { CutSkips(a, i + 1, inQuote != (a[i] == '"'), w); }
  }

  lemma {:induction false} NameEndSkips(a: string, i: nat, inQuote: bool, w: string)
    requires i <= |a| && Cut(a, i, inQuote) == |a| && NameEnd(a, i, inQuote) == |a| && a <= w
    ensures NameEnd(w, i, inQuote) == NameEnd(w, |a|, false)
    decreases |a| - i
  {
    if i < |a| { NameEndSkips(a, i + 1, inQuote != (a[i] == '"'), w); }
  }

  /** The `=` after a name is outside quotes. */
  lemma {:induction false} CutAfterName(w: string, i: nat, inQuote: bool)
    requires i <= |w| && Cut(w, i, inQuote) == |w|
    ensures var n := NameEnd(w, i, inQuote);
            n < |w| ==> Cut(w, n + 1, false) == |w|
    decreases |w| - i
  {
    if i < |w| && !(!inQuote && w[i] == '=') { CutAfterName(w, i + 1, inQuote != (w[i] == '"')); }
  }

  /** A quote that closes a value was opened inside the value. */
  lemma ValueInQuotes(w: string)
    requires Word(w)
    ensures var n := NameEnd(w, 0, false);
            n < |w| && w[|w| - 1] == '"' ==> n + 2 <= |w| - 1
  {
    CutAfterName(w, 0, false);
  }

  /** The text after `=`, less one character at each end when the word ends in a
      quote; empty if there is no `=`. */
  function Value(w: string): string
    requires Word(w)
  {
    ValueInQuotes(w);
    var n := NameEnd(w, 0, false);
    if n == |w| then ""
    else if w[|w| - 1] == '"' then w[n + 2..|w| - 1]
    else w[n + 1..]
  }

  // ----- Printer -----

  function Join(ws: seq<string>): string {
    if |ws| == 0 then "" else if |ws| == 1 then ws[0] else ws[0] + " " + Join(ws[1..])
  }

  lemma {:induction false} JoinSnoc(ws: seq<string>, w: string)
    ensures Join(ws + [w]) == if ws == [] then w else Join(ws) + " " + w
  {
    if |ws| == 1 {
      assert (ws + [w])[1..] == [w];
    } else if |ws| > 1 {
      JoinSnoc(ws[1..], w);
      assert (ws + [w])[1..] == ws[1..] + [w];
    }
  }

  lemma {:induction false} JoinLonger(ws: seq<string>, vs: seq<string>)
    ensures |Join(ws)| <= |Join(ws + vs)|
  {
    if vs == [] {
      assert ws + vs == ws;
    } else {
      JoinLonger(ws, vs[..|vs| - 1]);
      JoinSnoc(ws + vs[..|vs| - 1], vs[|vs| - 1]);
      assert ws + vs == ws + vs[..|vs| - 1] + [vs[|vs| - 1]];
    }
  }

  // ----- Lexing what was printed -----

  /** A copy of a word inside a line is cut where the word ends. */
  lemma {:induction false} CutCopy(w: string, i: nat, inQuote: bool, line: string, at: nat)
    requires i <= |w| && at + |w| <= |line| && line[at..at + |w|] == w
    requires Cut(w, i, inQuote) == |w|
    requires at + |w| < |line| ==> line[at + |w|] == ' '
    ensures Cut(line, at + i, inQuote) == at + |w|
    decreases |w| - i
  {
    if i < |w| {
      assert line[at + i] == w[i];
      CutCopy(w, i + 1, inQuote != (w[i] == '"'), line, at);
    }
  }

  lemma LexCopy(w: string, line: string, at: nat)
    requires Word(w) && at + |w| <= |line| && line[at..at + |w|] == w
    requires at + |w| < |line| ==> line[at + |w|] == ' '
    ensures LexFrom(line, at) == Lexed([w] + LexFrom(line, at + |w|).words, LexFrom(line, at + |w|).ok)
  {
    assert w[0] != ' ' && line[at] == w[0];
    CutCopy(w, 0, false, line, at);
  }

  lemma LexSpace(line: string, i: nat)
    requires i < |line| && line[i] == ' '
    ensures LexFrom(line, i) == LexFrom(line, i + 1)
  {
    assert Skip(line, i) == Skip(line, i + 1);
  }

  /** Where the rest of some joined words starts. */
  lemma TailOfJoin(line: string, at: nat, ws: seq<string>) returns (n: nat)
    requires at <= |line| && line[at..] == Join(ws) && |ws| > 0
    ensures var w := ws[0];
            && at + |w| <= n <= |line| && line[at..at + |w|] == w && line[n..] == Join(ws[1..])
            && if n == at + |w| then n == |line| else n == at + |w| + 1 && line[at + |w|] == ' '
  {
    var w := ws[0];
    assert line[at..at + |w|] == line[at..][..|w|];
    n := at + |w|;
    if |ws| > 1 {
      n := n + 1;
      assert line[at + |w|] == line[at..][|w|];
      assert line[n..] == line[at..][|w| + 1..];
    }
  }

  lemma WordsRest(ws: seq<string>)
    requires Words(ws) && |ws| > 0
    ensures Word(ws[0]) && Words(ws[1..]) && ws == [ws[0]] + ws[1..]
  {
  }

  /** A word and the space after it, if more follows. */
  lemma LexFirst(line: string, at: nat, w: string, n: nat)
    requires Word(w) && at + |w| <= n <= |line| && line[at..at + |w|] == w
    requires if n == at + |w| then n == |line| else n == at + |w| + 1 && line[at + |w|] == ' '
    ensures LexFrom(line, at) == Lexed([w] + LexFrom(line, n).words, LexFrom(line, n).ok)
  {
    LexCopy(w, line, at);
    hide LexFrom, Word;
    if n > at + |w| { LexSpace(line, at + |w|); }
  }

  lemma {:induction false} LexJoinFrom(line: string, at: nat, ws: seq<string>)
    requires Words(ws) && at <= |line| && line[at..] == Join(ws)
    ensures LexFrom(line, at) == Lexed(ws, true)
    decreases |ws|
  {
    if |ws| > 0 {
      var n := TailOfJoin(line, at, ws);
      WordsRest(ws);
      hide LexFrom, Join, Words, Word;
      LexFirst(line, at, ws[0], n);
      LexJoinFrom(line, n, ws[1..]);
    }
  }

  /** Printing a list of words and lexing the line gives the list back. */
  lemma LexJoin(ws: seq<string>)
    requires Words(ws)
    ensures Lex(Join(ws)) == Lexed(ws, true)
  {
    LexJoinFrom(Join(ws), 0, ws);
  }

  // ----- What the lexer gives -----

  /** The part of a line up to a cut is cut at its own end. */
  lemma {:induction false} CutWithin(s: string, p: nat, i: nat, inQuote: bool)
    requires p <= i <= |s| && Cut(s, i, inQuote) >= 0
    ensures var e := Cut(s, i, inQuote);
            && Cut(s[p..e], i - p, inQuote) == e - p
            && (e < |s| ==> s[e] == ' ')
    decreases |s| - i
  {
    if i < |s| && (inQuote || s[i] != ' ') { CutWithin(s, p, i + 1, inQuote != (s[i] == '"')); }
  }

  lemma {:induction false} LexFromGivesWords(s: string, i: nat)
    requires i <= |s|
    ensures Words(LexFrom(s, i).words)
    decreases |s| - i
  {
    var p := Skip(s, i);
    if p < |s| && Cut(s, p, false) >= 0 {
      CutWithin(s, p, p, false);
      LexFromGivesWords(s, Cut(s, p, false));
    }
  }

  lemma LexGivesWords(s: string)
    ensures Words(Lex(s).words)
  {
    LexFromGivesWords(s, 0);
  }
}
