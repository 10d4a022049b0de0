/** Setting, deleting and looking up arguments, first on lists of words and
    then on whole command lines with a bounded result buffer. */
module CmdlineEdits {
  import opened CStrings
  import opened Wrappers
  import opened CmdlineTokens

  /** What to do with an argument: remove it, give it no value, or give it one. */
  datatype Change = Delete | Bare | Assign(value: string)

  function Quoted(v: string): string { if ' ' in v then "\"" + v + "\"" else v }

  /** The word for an argument that is kept. */
  function Render(name: string, c: Change): string
    requires !c.Delete?
  {
    if c.Bare? then name else name + "=" + Quoted(c.value)
  }

  predicate Plain(c: Change) { c.Assign? ==> '"' !in c.value }

  // ----- Edits on words -----

  function EditWord(w: string, name: string, c: Change): seq<string> {
    if Name(w) != name then [w] else if c.Delete? then [] else [Render(name, c)]
  }

  function FlatMap(ws: seq<string>, f: string -> seq<string>): seq<string> {
    if ws == [] then [] else f(ws[0]) + FlatMap(ws[1..], f)
  }

  function Editor(name: string, c: Change): string -> seq<string> { w => EditWord(w, name, c) }

  /** Every word of that name is changed; the others stay. */
  function Edit(ws: seq<string>, name: string, c: Change): seq<string> { FlatMap(ws, Editor(name, c)) }

  predicate HasName(ws: seq<string>, name: string) { exists i :: 0 <= i < |ws| && Name(ws[i]) == name }

  /** The edited list; an argument that was not there is added at the end. */
  function Applied(ws: seq<string>, name: string, c: Change): seq<string> {
    if HasName(ws, name) || c.Delete? then Edit(ws, name, c) else ws + [Render(name, c)]
  }

  /** A word without `=` that ends in a quote: a lookup of it comes out as -2. */
  predicate BareQuoted(w: string)
    requires Word(w)
  {
    NameEnd(w, 0, false) == |w| && w[|w| - 1] == '"'
  }

  /** What a lookup finds: the value of the first word of that name. */
  function Lookup(ws: seq<string>, name: string): Option<string>
    requires Words(ws)
  {
    if ws == [] then None
    else if Name(ws[0]) == name then if BareQuoted(ws[0]) then None else Some(Value(ws[0]))
    else Lookup(ws[1..], name)
  }

  lemma FlatMapCons(w: string, ws: seq<string>, f: string -> seq<string>)
    ensures FlatMap([w] + ws, f) == f(w) + FlatMap(ws, f)
  {
    assert ([w] + ws)[1..] == ws;
  }

  lemma {:induction false} FlatMapAppend(ws: seq<string>, vs: seq<string>, f: string -> seq<string>)
    ensures FlatMap(ws + vs, f) == FlatMap(ws, f) + FlatMap(vs, f)
  {
    if ws == [] {
      assert ws + vs == vs;
    } else {
      var w, rest := ws[0], ws[1..];
      assert ws == [w] + rest && ws + vs == [w] + (rest + vs);
      hide FlatMap;
      FlatMapAppend(rest, vs, f);
      FlatMapCons(w, rest, f);
      FlatMapCons(w, rest + vs, f);
    }
  }

  lemma EditAppend(ws: seq<string>, vs: seq<string>, name: string, c: Change)
    ensures Edit(ws + vs, name, c) == Edit(ws, name, c) + Edit(vs, name, c)
  {
    FlatMapAppend(ws, vs, Editor(name, c));
  }

  lemma EditSnoc(ws: seq<string>, w: string, name: string, c: Change)
    ensures Edit(ws + [w], name, c) == Edit(ws, name, c) + EditWord(w, name, c)
  {
    var f := Editor(name, c);
    FlatMapAppend(ws, [w], f);
    assert FlatMap([w], f) == f(w) + FlatMap([w][1..], f);
  }

  lemma {:induction false} EditAbsent(ws: seq<string>, name: string, c: Change)
    requires !HasName(ws, name)
    ensures Edit(ws, name, c) == ws
  {
    if ws != [] {
      var rest := ws[1..];
      assert ws == [ws[0]] + rest;
      assert !HasName(rest, name) by {
        assert forall i :: 0 <= i < |rest| ==> rest[i] == ws[i + 1];
      }
      EditAbsent(rest, name, c);
    }
  }

  // ----- What was rendered reads back -----

  lemma {:induction false} CutInQuotes(w: string, i: nat, e: nat)
    requires i <= e < |w| && '"' !in w[i..e] && w[e] == '"'
    ensures Cut(w, i, true) == Cut(w, e + 1, false)
    decreases e - i
  {
    if i < e {
      assert w[i] == w[i..e][0];
      assert w[i + 1..e] == w[i..e][1..];
      CutInQuotes(w, i + 1, e);
    }
  }

  function ChangeValue(c: Change): string { if c.Assign? then c.value else "" }

  lemma BareReadsBack(name: string)
    requires ArgName(name)
    ensures Word(name) && Name(name) == name && Value(name) == "" && !BareQuoted(name)
  {
  }

  lemma NameOfAssigned(name: string, rest: string, w: string)
    requires ArgName(name) && w == name + "=" + rest
    ensures NameEnd(w, 0, false) == |name| && Name(w) == name
    ensures Cut(w, 0, false) == Cut(w, |name| + 1, false)
  {
    assert name <= w && w[|name|] == '=';
    NameEndSkips(name, 0, false, w);
    CutSkips(name, 0, false, w);
  }

  /** Characters that neither end a word nor change its quoting. */
  lemma {:induction false} CutPlain(w: string, i: nat)
    requires i <= |w| && ' ' !in w[i..] && '"' !in w[i..]
    ensures Cut(w, i, false) == |w|
    decreases |w| - i
  {
    if i < |w| {
      assert w[i] == w[i..][0];
      assert w[i + 1..] == w[i..][1..];
      CutPlain(w, i + 1);
    }
  }

  lemma CutOfValue(v: string, w: string, k: nat)
    requires '"' !in v && k <= |w| && w[k..] == Quoted(v)
    ensures Cut(w, k, false) == |w|
  {
    if ' ' in v {
      assert w[k] == w[k..][0] == '"' && w[|w| - 1] == w[k..][|w| - 1 - k] == '"';
      assert w[k + 1..|w| - 1] == w[k..][1..|w| - 1 - k] == v;
      CutInQuotes(w, k + 1, |w| - 1);
    } else {
      CutPlain(w, k);
    }
  }

  lemma AssignedWord(name: string, v: string, w: string)
    requires ArgName(name) && '"' !in v && w == name + "=" + Quoted(v)
    ensures Word(w) && NameEnd(w, 0, false) == |name| && Name(w) == name
  {
    NameOfAssigned(name, Quoted(v), w);
    assert w[|name| + 1..] == Quoted(v);
    CutOfValue(v, w, |name| + 1);
  }

  lemma InsideQuotes(w: string, k: nat, v: string)
    requires k <= |w| && w[k..] == "\"" + v + "\""
    ensures k + 2 <= |w| && w[k + 1..|w| - 1] == v && w[|w| - 1] == '"'
  {
    SubSlice(w, k, |w|, k + 1, |w| - 1);
    assert w[|w| - 1] == w[k..][|w| - 1 - k];
    assert w[k..][1..|w| - 1 - k] == v;
  }

  lemma AfterEquals(name: string, rest: string, w: string)
    requires w == name + "=" + rest
    ensures |name| + 1 <= |w| && w[|name| + 1..] == rest
  {
  }

  lemma ValueIs(w: string, k: nat)
    requires Word(w) && 1 <= k <= |w| && NameEnd(w, 0, false) == k - 1
    ensures w[|w| - 1] == '"' ==> k + 2 <= |w| && Value(w) == w[k + 1..|w| - 1]
    ensures w[|w| - 1] != '"' ==> Value(w) == w[k..]
  {
    ValueInQuotes(w);
  }

  /** The value that follows the `=` is read back without its quotes. */
  lemma AssignedValue(v: string, w: string, k: nat)
    requires Word(w) && 1 <= k <= |w| && NameEnd(w, 0, false) == k - 1
    requires '"' !in v && w[k..] == Quoted(v)
    ensures Value(w) == v
  {
    ValueIs(w, k);
    LastIs(w, k, v);
    hide Word, NameEnd, Value;
    if ' ' in v { InsideQuotes(w, k, v); }
  }

  lemma LastIs(w: string, k: nat, v: string)
    requires 1 <= k <= |w| && w[k - 1] == '=' && '"' !in v && w[k..] == Quoted(v)
    ensures w[|w| - 1] == '"' <==> ' ' in v
  {
    if k < |w| { assert w[|w| - 1] == w[k..][|w| - 1 - k]; }
  }

  /** The word for an argument has its name and, unquoted, its value. */
  lemma RenderReadsBack(name: string, c: Change)
    requires ArgName(name) && !c.Delete? && Plain(c)
    ensures Word(Render(name, c)) && Name(Render(name, c)) == name
    ensures Value(Render(name, c)) == ChangeValue(c) && !BareQuoted(Render(name, c))
  {
    if c.Bare? {
      BareReadsBack(name);
    } else {
      AssignedWord(name, c.value, Render(name, c));
      AfterEquals(name, Quoted(c.value), Render(name, c));
      AssignedValue(c.value, Render(name, c), |name| + 1);
    }
  }

  lemma {:induction false} EditGivesWords(ws: seq<string>, name: string, c: Change)
    requires Words(ws) && ArgName(name) && Plain(c)
    ensures Words(Edit(ws, name, c))
    ensures !c.Delete? ==> Words(Applied(ws, name, c))
  {
    if !c.Delete? { RenderReadsBack(name, c); }
    if ws != [] { EditGivesWords(ws[1..], name, c); }
  }

  // ----- Laws of edits on words -----

  lemma {:induction false} LookupAppend(ws: seq<string>, vs: seq<string>, name: string)
    requires Words(ws) && Words(vs) && ArgName(name)
    ensures Words(ws + vs)
    ensures Lookup(ws + vs, name) == if Lookup(ws, name).Some? then Lookup(ws, name) else Lookup(vs, name)
  {
    if ws == [] {
      assert ws + vs == vs;
    } else {
      LookupAppend(ws[1..], vs, name);
      assert (ws + vs)[1..] == ws[1..] + vs;
    }
  }

  lemma LookupOne(w: string, name: string)
    requires Word(w) && ArgName(name)
    ensures Lookup([w], name) == if Name(w) == name then Some(Value(w)) else None
    ensures Name(w) == name ==> !BareQuoted(w)
  {
    assert [w][1..] == [];
  }

  lemma {:induction false} LookupAbsent(ws: seq<string>, name: string)
    requires Words(ws) && ArgName(name)
    ensures Lookup(ws, name).None? <==> !HasName(ws, name)
  {
    if ws != [] {
      var rest := ws[1..];
      LookupAbsent(rest, name);
      assert HasName(ws, name) <==> Name(ws[0]) == name || HasName(rest, name) by {
        assert forall i :: 0 <= i < |rest| ==> rest[i] == ws[i + 1];
      }
    }
  }

  lemma EditCons(ws: seq<string>, name: string, c: Change)
    requires ws != []
    ensures Edit(ws, name, c) == EditWord(ws[0], name, c) + Edit(ws[1..], name, c)
  {
  }

  /** The words of one name after an edit, seen through a lookup of any name. */
  lemma {:induction false} LookupEdit(ws: seq<string>, name: string, c: Change, other: string)
    requires Words(ws) && ArgName(name) && ArgName(other) && Plain(c)
    ensures Words(Edit(ws, name, c))
    ensures Lookup(Edit(ws, name, c), other)
            == if other != name then Lookup(ws, other)
               else if c.Delete? || !HasName(ws, name) then None
               else Some(ChangeValue(c))
  {
    EditGivesWords(ws, name, c);
    LookupAbsent(ws, other);
    if ws != [] {
      var w, rest := ws[0], ws[1..];
      LookupEdit(rest, name, c, other);
      LookupAbsent(rest, other);
      EditCons(ws, name, c);
      if !c.Delete? { RenderReadsBack(name, c); LookupOne(Render(name, c), other); }
      LookupOne(w, other);
      LookupAppend(EditWord(w, name, c), Edit(rest, name, c), other);
    }
  }

  /** Setting an argument makes a lookup report the new value, deleting it makes
      the lookup fail, and every other argument reads as before. */
  lemma LookupApplied(ws: seq<string>, name: string, c: Change, other: string)
    requires Words(ws) && ArgName(name) && ArgName(other) && Plain(c)
    ensures Words(Applied(ws, name, c))
    ensures Lookup(Applied(ws, name, c), other)
            == if other != name then Lookup(ws, other)
               else if c.Delete? then None
               else Some(ChangeValue(c))
  {
    EditGivesWords(ws, name, c);
    LookupEdit(ws, name, c, other);
    if !HasName(ws, name) && !c.Delete? {
      LookupAbsent(ws, name);
      RenderReadsBack(name, c);
      LookupOne(Render(name, c), other);
      LookupAppend(ws, [Render(name, c)], other);
    }
  }

  lemma {:induction false} EditTwice(ws: seq<string>, name: string, c1: Change, c2: Change)
    requires ArgName(name) && Plain(c1) && !c1.Delete?
    ensures Edit(Edit(ws, name, c1), name, c2) == Edit(ws, name, c2)
    ensures HasName(Edit(ws, name, c1), name) <==> HasName(ws, name)
  {
    if ws != [] {
      var w, rest := ws[0], ws[1..];
      EditTwice(rest, name, c1, c2);
      RenderReadsBack(name, c1);
      EditCons(ws, name, c1);
      EditCons(ws, name, c2);
      var w1 := EditWord(w, name, c1)[0];
      var es := [w1] + Edit(rest, name, c1);
      assert es[1..] == Edit(rest, name, c1);
      EditCons(es, name, c2);
      HasNameCons(ws, name);
      HasNameCons(es, name);
    }
  }

  lemma HasNameCons(ws: seq<string>, name: string)
    requires ws != []
    ensures HasName(ws, name) <==> Name(ws[0]) == name || HasName(ws[1..], name)
  {
    assert forall i :: 0 <= i < |ws| - 1 ==> ws[1..][i] == ws[i + 1];
  }

  /** A second change of the same argument makes the first one irrelevant; in
      particular deleting an argument that was only just added restores the list. */
  lemma AppliedTwice(ws: seq<string>, name: string, c1: Change, c2: Change)
    requires ArgName(name) && Plain(c1) && !c1.Delete?
    ensures HasName(Applied(ws, name, c1), name)
    ensures Applied(Applied(ws, name, c1), name, c2) == Applied(ws, name, c2)
  {
    RenderReadsBack(name, c1);
    if HasName(ws, name) {
      EditTwice(ws, name, c1, c2);
    } else {
      var r1 := Render(name, c1);
      assert (ws + [r1])[|ws|] == r1;
      EditAbsent(ws, name, c2);
      EditSnoc(ws, r1, name, c2);
      assert c2.Delete? ==> ws + [] == ws;
    }
  }

  // ----- Whole command lines -----

  const ENOENT: int := -2
  const E2BIG: int := -7
  const EBADF: int := -9
  const EINVAL: int := -22

  datatype Outcome = Done(line: string) | Failed(code: int)

  /** The line fits a buffer of `maxlen` characters with its terminating NUL. */
  predicate FitsIn(line: string, maxlen: int) { |line| + 1 <= maxlen }

  /** Text with a word added, after a space unless the text is empty. */
  function Added(text: string, w: string): string { if text == "" then w else text + " " + w }

  /** Text with a word of the line added, or its replacement, or nothing. */
  function AddEdited(text: string, w: string, name: string, c: Change): string {
    if Name(w) != name then Added(text, w) else if c.Delete? then text else Added(text, Render(name, c))
  }

  /** The text of all words, edited. */
  function Edited(ws: seq<string>, name: string, c: Change): string {
    if ws == [] then "" else AddEdited(Edited(ws[..|ws| - 1], name, c), ws[|ws| - 1], name, c)
  }

  /** Text with a new argument at the end, after a space unless there is one. */
  function Extended(text: string, name: string, c: Change): string
    requires !c.Delete?
  {
    (if text == "" || text[|text| - 1] == ' ' then text else text + " ") + Render(name, c)
  }

  /** Text without its last character if that is a space. */
  function Stripped(text: string): string {
    if text != "" && text[|text| - 1] == ' ' then text[..|text| - 1] else text
  }

  /** Result of changing one argument of a line, whatever its name. An open quote
      is only noticed once the words before it have been written out. */
  function SetOutcome(s: string, name: string, c: Change, maxlen: int): Outcome {
    var lexed := Lex(s);
    var text := Edited(lexed.words, name, c);
    if !Plain(c) then Failed(EBADF)
    else if s != "" && !FitsIn(text, maxlen) then Failed(E2BIG)
    else if !lexed.ok then Failed(EINVAL)
    else if HasName(lexed.words, name) then Done(Stripped(text))
    else if c.Delete? then Failed(ENOENT)
    else if !FitsIn(Extended(text, name, c), maxlen) then Failed(E2BIG)
    else Done(Stripped(Extended(text, name, c)))
  }

  lemma EditedNext(ws: seq<string>, w: string, name: string, c: Change)
    ensures Edited(ws + [w], name, c) == AddEdited(Edited(ws, name, c), w, name, c)
  {
    assert (ws + [w])[..|ws|] == ws;
  }

  lemma {:induction false} EditedLonger(ws: seq<string>, vs: seq<string>, name: string, c: Change)
    ensures |Edited(ws, name, c)| <= |Edited(ws + vs, name, c)|
  {
    if vs == [] {
      assert ws + vs == ws;
    } else {
      var vs', v := vs[..|vs| - 1], vs[|vs| - 1];
      EditedLonger(ws, vs', name, c);
      EditedNext(ws + vs', v, name, c);
      assert ws + vs == ws + vs' + [v];
    }
  }

  // ----- Names that are read back -----

  lemma AddedJoin(ws: seq<string>, w: string)
    requires Words(ws)
    ensures Join(ws + [w]) == Added(Join(ws), w)
  {
    JoinSnoc(ws, w);
    if ws != [] { JoinEnd(ws); }
  }

  lemma {:induction false} WordEnd(w: string, i: nat, inQuote: bool)
    requires i < |w| && Cut(w, i, inQuote) == |w|
    ensures w[|w| - 1] != ' '
    decreases |w| - i
  {
    if i + 1 < |w| { WordEnd(w, i + 1, inQuote != (w[i] == '"')); }
  }

  lemma {:induction false} JoinEnd(ws: seq<string>)
    requires Words(ws) && ws != []
    ensures Join(ws) != "" && Join(ws)[|Join(ws)| - 1] != ' '
  {
    if |ws| == 1 { WordEnd(ws[0], 0, false); } else { JoinEnd(ws[1..]); }
  }

  /** With such a name the edited text is the join of the edited words. */
  lemma {:induction false} EditedIsJoin(ws: seq<string>, name: string, c: Change)
    requires Words(ws) && ArgName(name) && Plain(c)
    ensures Edited(ws, name, c) == Join(Edit(ws, name, c))
  {
    if ws != [] {
      var vs, w := ws[..|ws| - 1], ws[|ws| - 1];
      EditedIsJoin(vs, name, c);
      EditGivesWords(vs, name, c);
      EditSnoc(vs, w, name, c);
      assert ws == vs + [w];
      hide Edit, Join, Words;
      if Name(w) != name {
        AddedJoin(Edit(vs, name, c), w);
      } else if c.Delete? {
        assert Edit(vs, name, c) + [] == Edit(vs, name, c);
      } else {
        AddedJoin(Edit(vs, name, c), Render(name, c));
      }
    }
  }

  /** Joined words need no stripping. */
  lemma StrippedJoin(ws: seq<string>)
    requires Words(ws)
    ensures Stripped(Join(ws)) == Join(ws)
  {
    if ws != [] { JoinEnd(ws); }
  }

  lemma ExtendedJoin(ws: seq<string>, name: string, c: Change)
    requires Words(ws) && !c.Delete?
    ensures Extended(Join(ws), name, c) == Join(ws + [Render(name, c)])
  {
    AddedJoin(ws, Render(name, c));
    if ws != [] { JoinEnd(ws); }
  }

  /** What changing an argument comes to when its name is one that is read back. */
  lemma SetOutcomeIs(s: string, name: string, c: Change, maxlen: int)
    requires ArgName(name)
    ensures SetOutcome(s, name, c, maxlen) ==
            var lexed := Lex(s);
            if !Plain(c) then Failed(EBADF)
            else if s != "" && !FitsIn(Join(Edit(lexed.words, name, c)), maxlen) then Failed(E2BIG)
            else if !lexed.ok then Failed(EINVAL)
            else if c.Delete? && !HasName(lexed.words, name) then Failed(ENOENT)
            else if !FitsIn(Join(Applied(lexed.words, name, c)), maxlen) then Failed(E2BIG)
            else Done(Join(Applied(lexed.words, name, c)))
  {
    if Plain(c) {
      var ws := Lex(s).words;
      LexGivesWords(s);
      EditedIsJoin(ws, name, c);
      EditGivesWords(ws, name, c);
      if HasName(ws, name) {
        NamedIsNotEmpty(s, name);
        StrippedJoin(Edit(ws, name, c));
      } else {
        EditAbsent(ws, name, c);
        if !c.Delete? {
          ExtendedJoin(ws, name, c);
          StrippedJoin(Applied(ws, name, c));
        }
      }
    }
  }

  lemma NamedIsNotEmpty(s: string, name: string)
    requires HasName(Lex(s).words, name)
    ensures s != ""
  {
  }

  /** The value a lookup on a line reports. */
  function Get(s: string, name: string): Option<string> {
    LexGivesWords(s);
    Lookup(Lex(s).words, name)
  }

  predicate WellFormed(s: string) { Lex(s).ok }

  /** On a well-formed line a set, or a delete of a present argument, fails only
      for want of space, and exactly when its own result does not fit. */
  lemma SetFitsIff(s: string, name: string, c: Change, maxlen: int)
    requires WellFormed(s) && ArgName(name) && Plain(c)
    requires c.Delete? ==> HasName(Lex(s).words, name)
    ensures var line := Join(Applied(Lex(s).words, name, c));
            SetOutcome(s, name, c, maxlen) == if FitsIn(line, maxlen) then Done(line) else Failed(E2BIG)
  {
    hide SetOutcome;
    SetOutcomeIs(s, name, c, maxlen);
    var ws := Lex(s).words;
    if !HasName(ws, name) {
      EditAbsent(ws, name, c);
      JoinLonger(ws, [Render(name, c)]);
    }
  }

  /** A finished change: the new line lexes to the edited words. */
  lemma SetLexes(s: string, name: string, c: Change, maxlen: int)
    requires ArgName(name) && SetOutcome(s, name, c, maxlen).Done?
    ensures Lex(SetOutcome(s, name, c, maxlen).line) == Lexed(Applied(Lex(s).words, name, c), true)
  {
    hide SetOutcome;
    SetOutcomeIs(s, name, c, maxlen);
    var ws := Lex(s).words;
    LexGivesWords(s);
    EditGivesWords(ws, name, c);
    LexJoin(Applied(ws, name, c));
  }

  lemma GetFromWords(s: string, ws: seq<string>, name: string)
    requires ArgName(name) && Words(ws) && Lex(s).words == ws
    ensures Get(s, name) == Lookup(ws, name)
  {
  }

  /** After a finished change a lookup reports the new value, and every other
      argument reads as before. */
  lemma SetThenGet(s: string, name: string, c: Change, maxlen: int, other: string)
    requires ArgName(name) && ArgName(other)
    requires SetOutcome(s, name, c, maxlen).Done?
    ensures Get(SetOutcome(s, name, c, maxlen).line, other)
            == if other != name then Get(s, other)
               else if c.Delete? then None
               else Some(ChangeValue(c))
  {
    var ws := Lex(s).words;
    LexGivesWords(s);
    SetLexes(s, name, c, maxlen);
    LookupApplied(ws, name, c, other);
    GetFromWords(s, ws, other);
    GetFromWords(SetOutcome(s, name, c, maxlen).line, Applied(ws, name, c), other);
  }

  /** Changing an argument that was just set gives what changing it in the
      first place would have given, in the same buffer, errors included. */
  lemma SetOverwrites(s: string, name: string, c1: Change, c2: Change, maxlen: int)
    requires ArgName(name) && !c1.Delete? && Plain(c2)
    requires SetOutcome(s, name, c1, maxlen).Done?
    requires c2.Delete? ==> HasName(Lex(s).words, name)
    ensures SetOutcome(SetOutcome(s, name, c1, maxlen).line, name, c2, maxlen)
            == SetOutcome(s, name, c2, maxlen)
  {
    hide SetOutcome, Join, Edit, LexFrom;
    SetOutcomeIs(s, name, c1, maxlen);
    var ws, line := Lex(s).words, SetOutcome(s, name, c1, maxlen).line;
    SetLexes(s, name, c1, maxlen);
    AppliedTwice(ws, name, c1, c2);
    SetFitsIff(s, name, c2, maxlen);
    SetFitsIff(line, name, c2, maxlen);
  }

  lemma SetIsIdempotent(s: string, name: string, c: Change, maxlen: int)
    requires ArgName(name) && !c.Delete?
    requires SetOutcome(s, name, c, maxlen).Done?
    ensures SetOutcome(SetOutcome(s, name, c, maxlen).line, name, c, maxlen) == SetOutcome(s, name, c, maxlen)
  {
    SetOverwrites(s, name, c, c, maxlen);
  }

  /** Adding an argument and deleting it again squeezes the spaces of the
      original and changes nothing else. */
  lemma SetThenDelete(s: string, name: string, c: Change, maxlen: int)
    requires ArgName(name) && !c.Delete? && !HasName(Lex(s).words, name)
    requires SetOutcome(s, name, c, maxlen).Done?
    ensures SetOutcome(SetOutcome(s, name, c, maxlen).line, name, Delete, maxlen) == Done(Join(Lex(s).words))
  {
    hide SetOutcome, Join, Edit, LexFrom;
    SetOutcomeIs(s, name, c, maxlen);
    var ws, line := Lex(s).words, SetOutcome(s, name, c, maxlen).line;
    SetLexes(s, name, c, maxlen);
    AppliedTwice(ws, name, c, Delete);
    EditAbsent(ws, name, Delete);
    SetFitsIff(line, name, Delete, maxlen);
    JoinLonger(ws, [Render(name, c)]);
  }

  // ----- Which names are read back -----

  lemma {:induction false} LookupFindsWord(ws: seq<string>, name: string) returns (k: nat)
    requires Words(ws) && Lookup(ws, name).Some?
    ensures k < |ws| && Name(ws[k]) == name && !BareQuoted(ws[k])
  {
    if Name(ws[0]) == name {
      k := 0;
    } else {
      k := LookupFindsWord(ws[1..], name);
      k := k + 1;
    }
  }

  lemma {:induction false} WordWithin(s: string, i: nat, k: nat)
    requires i <= |s| && k < |LexFrom(s, i).words|
    ensures |LexFrom(s, i).words[k]| <= |s| - i
    decreases |s| - i
  {
    if k > 0 { WordWithin(s, Cut(s, Skip(s, i), false), k - 1); }
  }

  /** A name that is found on a line no longer than itself is the whole line. */
  lemma OnlyWord(line: string, name: string)
    requires |line| <= |name| && Get(line, name).Some?
    ensures ArgName(name)
  {
    LexGivesWords(line);
    var k := LookupFindsWord(Lex(line).words, name);
    var w := Lex(line).words[k];
    WordWithin(line, 0, k);
    assert w == name;
  }

  /** A name is read back with every value it is given, on every line, if and only
      if it is an argument name. */
  lemma SetThenGetIff(name: string)
    ensures ArgName(name) <==>
            forall s, c, maxlen :: SetOutcome(s, name, c, maxlen).Done? && !c.Delete? ==>
              Get(SetOutcome(s, name, c, maxlen).line, name) == Some(ChangeValue(c))
  {
    hide SetOutcome, Get;
    if ArgName(name) {
      forall s, c, maxlen | SetOutcome(s, name, c, maxlen).Done? && !c.Delete?
        ensures Get(SetOutcome(s, name, c, maxlen).line, name) == Some(ChangeValue(c))
      {
        SetThenGet(s, name, c, maxlen, name);
      }
    } else {
      SetAlone(name);
      var r := SetOutcome("", name, Bare, |name| + 1);
      if Get(r.line, name).Some? { OnlyWord(r.line, name); }
      assert Get(r.line, name) != Some(ChangeValue(Bare));
    }
  }

  lemma SetAlone(name: string)
    ensures SetOutcome("", name, Bare, |name| + 1) == Done(Stripped(name))
  {
    assert Lex("") == Lexed([], true);
  }

  /** A quoted name without a value stands on this line, and is not found on it. */
  lemma QuotedNameIsMissed()
    ensures var name := "\"a\"";
            HasName(Lex(name).words, name) && Get(name, name) == None
  {
    var name := "\"a\"";
    assert Cut(name, 2, true) == 3 && Cut(name, 1, true) == 3;
    assert NameEnd(name, 2, true) == 3 && NameEnd(name, 1, true) == 3;
    assert Word(name) && Name(name) == name && BareQuoted(name);
    LexJoin([name]);
    assert Lex(name).words[0] == name;
  }
}
