/** What the fold over the lines of a BLS entry means, key by key, and which
    entries are accepted. */
module BlsLaws {
  import opened Wrappers
  import opened BlsText

  // ----- What an entry holds -----

  /** The lines that carry a key and a value, in file order. */
  function LinesFrom(s: string, i: nat): seq<Line>
    requires i <= |s|
    decreases |s| - i
  {
    if i == |s| then []
    else
      (match ReadLine(LineText(s, i)) case None => [] case Some(l) => [l]) + LinesFrom(s, NextLine(s, i))
  }

  function Lines(s: string): seq<Line> { LinesFrom(s, 0) }

  /** Values given for one token, in file order. */
  function Values(ls: seq<Line>, token: nat): seq<string> {
    if ls == [] then []
    else (if Token(ls[0].key) == token then [ls[0].value] else []) + Values(ls[1..], token)
  }

  function Latest(before: Option<string>, vs: seq<string>): Option<string> {
    if vs == [] then before else Some(vs[|vs| - 1])
  }

  function JoinSpaced(vs: seq<string>): string {
    if |vs| == 0 then "" else if |vs| == 1 then vs[0] else JoinSpaced(vs[..|vs| - 1]) + " " + vs[|vs| - 1]
  }

  /** The single-valued fields, by token. */
  function Field(e: Entry, token: nat): Option<string> {
    if token == TOK_TITLE then e.title
    else if token == TOK_VERSION then e.version
    else if token == TOK_LINUX then e.kernel
    else if token == TOK_FIT then e.fit
    else if token == TOK_DEVICETREE then e.devicetree
    else if token == TOK_DEVICETREE_OVERLAY then e.dtOverlays
    else if token == TOK_ARCHITECTURE then e.architecture
    else if token == TOK_MACHINE_ID then e.machineId
    else if token == TOK_SORT_KEY then e.sortKey
    else None
  }

  predicate Single(token: nat) { token < TOK_COUNT && token != TOK_OPTIONS && token != TOK_INITRD }

  function TakeAll(e: Entry, ls: seq<Line>): Entry
    decreases |ls|
  {
    if ls == [] then e else TakeAll(Take(e, ls[0]), ls[1..])
  }

  lemma {:induction false} FoldIsTakeAll(s: string, i: nat, e: Entry)
    requires i <= |s|
    ensures FoldFrom(s, i, e) == TakeAll(e, LinesFrom(s, i))
    decreases |s| - i
  {
    if i < |s| {
      var rest := LinesFrom(s, NextLine(s, i));
      match ReadLine(LineText(s, i)) {
        case None =>
          FoldIsTakeAll(s, NextLine(s, i), e);
          assert LinesFrom(s, i) == [] + rest == rest;
        case Some(l) =>
          FoldIsTakeAll(s, NextLine(s, i), Take(e, l));
          assert ([l] + rest)[1..] == rest;
      }
    }
  }

  lemma FieldTaken(e: Entry, t: nat, v: string, token: nat)
    requires Single(token)
    ensures Field(TakeToken(e, t, v), token) == if t == token then Some(v) else Field(e, token)
  {
  }

  lemma ListsTaken(e: Entry, t: nat, v: string)
    ensures TakeToken(e, t, v).initrds == e.initrds + if t == TOK_INITRD then [v] else []
    ensures TakeToken(e, t, v).options == if t == TOK_OPTIONS then AppendOption(e.options, v) else e.options
  {
  }

  /** The first line, then the others. */
  lemma TakeFirst(e: Entry, ls: seq<Line>, token: nat)
    requires ls != []
    ensures var (t, v) := (Token(ls[0].key), ls[0].value);
            && TakeAll(e, ls) == TakeAll(TakeToken(e, t, v), ls[1..])
            && Values(ls, token) == (if t == token then [v] else []) + Values(ls[1..], token)
  {
    hide TakeToken, TokenFrom;
  }

  lemma {:induction false} SingleTaken(e: Entry, ls: seq<Line>, token: nat)
    requires Single(token)
    ensures Field(TakeAll(e, ls), token) == Latest(Field(e, token), Values(ls, token))
    decreases |ls|
  {
    if ls != [] {
      var t, v := Token(ls[0].key), ls[0].value;
      TakeFirst(e, ls, token);
      FieldTaken(e, t, v, token);
      hide TakeToken, TokenFrom, Field, Values, TakeAll;
      SingleTaken(TakeToken(e, t, v), ls[1..], token);
    }
  }

  lemma {:induction false} InitrdsTaken(e: Entry, ls: seq<Line>)
    ensures TakeAll(e, ls).initrds == e.initrds + Values(ls, TOK_INITRD)
    decreases |ls|
  {
    if ls != [] {
      var t, v := Token(ls[0].key), ls[0].value;
      TakeFirst(e, ls, TOK_INITRD);
      ListsTaken(e, t, v);
      hide TakeToken, TokenFrom, Values, TakeAll;
      InitrdsTaken(TakeToken(e, t, v), ls[1..]);
    }
  }

  function Joined(before: Option<string>, vs: seq<string>): Option<string> {
    if vs == [] then before else AppendOption(Joined(before, vs[..|vs| - 1]), vs[|vs| - 1])
  }

  lemma {:induction false} JoinedCons(before: Option<string>, v: string, vs: seq<string>)
    ensures Joined(before, [v] + vs) == Joined(AppendOption(before, v), vs)
  {
    var all := [v] + vs;
    if vs == [] {
      assert all[..0] == [] && all[0] == v;
      assert Joined(before, all) == AppendOption(Joined(before, []), v);
    } else {
      JoinedCons(before, v, vs[..|vs| - 1]);
      assert all[..|all| - 1] == [v] + vs[..|vs| - 1];
    }
  }

  lemma {:induction false} OptionsTaken(e: Entry, ls: seq<Line>)
    ensures TakeAll(e, ls).options == Joined(e.options, Values(ls, TOK_OPTIONS))
    decreases |ls|
  {
    if ls != [] {
      var t, v := Token(ls[0].key), ls[0].value;
      var rest := Values(ls[1..], TOK_OPTIONS);
      TakeFirst(e, ls, TOK_OPTIONS);
      ListsTaken(e, t, v);
      hide TakeToken, TokenFrom, Values, TakeAll, AppendOption, Joined;
      OptionsTaken(TakeToken(e, t, v), ls[1..]);
      JoinedCons(e.options, v, rest);
      assert [] + rest == rest;
    }
  }

  lemma {:induction false} JoinedFromNone(vs: seq<string>)
    ensures Joined(None, vs) == if vs == [] then None else Some(JoinSpaced(vs))
  {
    if vs != [] {
      JoinedFromNone(vs[..|vs| - 1]);
      assert |vs| == 1 ==> vs[..0] == [];
    }
  }

  /** What the fold leaves, token by token. */
  lemma FoldByToken(s: string)
    ensures forall token :: Single(token) ==> Field(Fold(s), token) == Latest(None, Values(Lines(s), token))
    ensures Fold(s).initrds == Values(Lines(s), TOK_INITRD)
    ensures var vs := Values(Lines(s), TOK_OPTIONS);
            Fold(s).options == if vs == [] then None else Some(JoinSpaced(vs))
  {
    var ls := Lines(s);
    FoldIsTakeAll(s, 0, EmptyEntry);
    forall token | Single(token)
      ensures Field(Fold(s), token) == Latest(None, Values(ls, token))
    {
      SingleTaken(EmptyEntry, ls, token);
    }
    InitrdsTaken(EmptyEntry, ls);
    OptionsTaken(EmptyEntry, ls);
    JoinedFromNone(Values(ls, TOK_OPTIONS));
  }

  lemma {:induction false} ValuesEmpty(ls: seq<Line>, token: nat)
    ensures Values(ls, token) == [] <==> forall i :: 0 <= i < |ls| ==> Token(ls[i].key) != token
  {
    if ls != [] {
      var rest := ls[1..];
      ValuesEmpty(rest, token);
      assert forall i :: 0 <= i < |rest| ==> rest[i] == ls[i + 1];
      assert forall i :: 1 <= i < |ls| ==> ls[i] == rest[i - 1];
    }
  }

  lemma TokenOfName(t: nat)
    requires t < TOK_COUNT
    ensures Token(TOKENS[t]) == t
  {
    var r := Token(TOKENS[t]);
    assert r <= t;
    assert forall j, k :: 0 <= j < k < TOK_COUNT ==> TOKENS[j] != TOKENS[k];
  }

  /** Values of the lines with that key, in file order. */
  function ValuesOf(ls: seq<Line>, key: string): seq<string> {
    if ls == [] then [] else (if ls[0].key == key then [ls[0].value] else []) + ValuesOf(ls[1..], key)
  }

  lemma TokenIffName(key: string, t: nat)
    requires t < TOK_COUNT
    ensures Token(key) == t <==> key == TOKENS[t]
  {
    TokenOfName(t);
  }

  lemma {:induction false} ValuesByName(ls: seq<Line>, t: nat)
    requires t < TOK_COUNT
    ensures Values(ls, t) == ValuesOf(ls, TOKENS[t])
  {
    hide TokenFrom;
    if ls != [] {
      TokenIffName(ls[0].key, t);
      ValuesByName(ls[1..], t);
    }
  }

  function LastOf(vs: seq<string>): Option<string> { if vs == [] then None else Some(vs[|vs| - 1]) }

  lemma FieldByName(s: string, t: nat)
    requires Single(t)
    ensures Field(Fold(s), t) == LastOf(ValuesOf(Lines(s), TOKENS[t]))
  {
    hide Fold, Lines, Field, Values, ValuesOf;
    FoldByToken(s);
    ValuesByName(Lines(s), t);
  }

  /** What an entry holds, by the words in the file: a single-valued key its last
      value, `initrd` all of its values in order, and `options` the single-space
      join of all of its values. */
  lemma FoldMeaning(s: string)
    ensures var (e, ls) := (Fold(s), Lines(s));
            && e.title == LastOf(ValuesOf(ls, "title"))
            && e.version == LastOf(ValuesOf(ls, "version"))
            && e.kernel == LastOf(ValuesOf(ls, "linux"))
            && e.fit == LastOf(ValuesOf(ls, "fit"))
            && e.devicetree == LastOf(ValuesOf(ls, "devicetree"))
            && e.dtOverlays == LastOf(ValuesOf(ls, "devicetree-overlay"))
            && e.architecture == LastOf(ValuesOf(ls, "architecture"))
            && e.machineId == LastOf(ValuesOf(ls, "machine-id"))
            && e.sortKey == LastOf(ValuesOf(ls, "sort-key"))
            && e.initrds == ValuesOf(ls, "initrd")
            && e.options == (if ValuesOf(ls, "options") == [] then None
                             else Some(JoinSpaced(ValuesOf(ls, "options"))))
  {
    hide Fold, Lines, Values, ValuesOf, LastOf, JoinSpaced;
    FieldByName(s, TOK_TITLE); FieldByName(s, TOK_VERSION); FieldByName(s, TOK_LINUX);
    FieldByName(s, TOK_FIT); FieldByName(s, TOK_DEVICETREE); FieldByName(s, TOK_DEVICETREE_OVERLAY);
    FieldByName(s, TOK_ARCHITECTURE); FieldByName(s, TOK_MACHINE_ID); FieldByName(s, TOK_SORT_KEY);
    FoldByToken(s);
    ValuesByName(Lines(s), TOK_INITRD);
    ValuesByName(Lines(s), TOK_OPTIONS);
  }

  /** An entry is accepted exactly when a `linux` or a `fit` line occurs. */
  lemma UsableIff(s: string)
    ensures Usable(Fold(s)) <==>
            exists i :: 0 <= i < |Lines(s)| && (Lines(s)[i].key == "linux" || Lines(s)[i].key == "fit")
  {
    var ls := Lines(s);
    FoldByToken(s);
    assert Field(Fold(s), TOK_LINUX) == Latest(None, Values(ls, TOK_LINUX));
    assert Field(Fold(s), TOK_FIT) == Latest(None, Values(ls, TOK_FIT));
    ValuesEmpty(ls, TOK_LINUX);
    ValuesEmpty(ls, TOK_FIT);
    TokenOfName(TOK_LINUX);
    TokenOfName(TOK_FIT);
    forall i | 0 <= i < |ls|
      ensures Token(ls[i].key) == TOK_LINUX <==> ls[i].key == "linux"
      ensures Token(ls[i].key) == TOK_FIT <==> ls[i].key == "fit"
    {
      assert TOKENS[TOK_LINUX] == "linux" && TOKENS[TOK_FIT] == "fit";
    }
  }

  // ----- Characters -----

  /** Which characters end a key: the white space of the C library, as bytes. */
  lemma Separators(c: char)
    ensures ReadLine("fit" + [c] + "x") ==
            if c in {'\t', '\n', '\U{B}', '\U{C}', '\r', ' ', '\U{A0}'} then Some(Line("fit", "x")) else None
  {
    var t := "fit" + [c] + "x";
    assert t[0] == 'f' && t[1] == 'i' && t[2] == 't' && t[3] == c && t[4] == 'x';
    assert SkipSpace(t, 0) == 0;
    if IsSpace(c) {
      assert SkipWord(t, 0) == 3 && SkipSpace(t, 4) == 4;
      assert t[0..3] == "fit" && t[4..5] == "x";
    } else {
      assert SkipWord(t, 0) == 5;
    }
  }

  /** A line stops at a NUL. */
  lemma NulEndsLine(a: string, b: string)
    requires '\n' !in a && '\0' !in a && '\n' !in b
    ensures LineText(a + "\0" + b, 0) == a
  {
    var s := a + "\0" + b;
    assert forall i :: 0 <= i < |a| ==> s[i] == a[i];
    assert IndexOf(s, '\n', 0) == |s| && s[0..|s|] == s;
    assert s[|a|] == '\0' && IndexOf(s, '\0', 0) == |a|;
  }
}
