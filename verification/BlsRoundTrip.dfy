/** Printing a BLS entry, with any other lines in between, and parsing it back. */
module BlsRoundTrip {
  import opened Wrappers
  import opened BlsText
  import opened BlsLaws

  // ----- Documents -----

  /** A line of a file: a known key with its value, or one of the kinds of line
      that the parser passes over. The last is a key that is not known or has no value. */
  datatype Item =
    | Known(indent: string, token: nat, gap: string, value: string, trail: string)
    | Blank(space: string)
    | Comment(indent: string, text: string)
    | Useless(indent: string, key: string, rest: string)

  predicate Spaces(s: string) { forall k :: 0 <= k < |s| ==> IsSpace(s[k]) }

  predicate NoSpaces(s: string) { forall k :: 0 <= k < |s| ==> !IsSpace(s[k]) }

  /** A value that survives trimming. */
  predicate Trimmed(v: string) { v != "" && !IsSpace(v[0]) && !IsSpace(v[|v| - 1]) }

  /** Fits on one line of a C string. */
  predicate OneLine(s: string) { '\n' !in s && '\0' !in s }

  function Text(it: Item): string
    requires it.Known? ==> it.token < TOK_COUNT
  {
    match it
    case Known(indent, token, gap, value, trail) => indent + TOKENS[token] + gap + value + trail
    case Blank(space) => space
    case Comment(indent, text) => indent + "#" + text
    case Useless(indent, key, rest) => indent + key + rest
  }

  predicate Valid(it: Item) {
    && (it.Known? ==> it.token < TOK_COUNT)
    && OneLine(Text(it))
    && match it
       case Known(indent, token, gap, value, trail) =>
         Spaces(indent) && Spaces(gap) && gap != "" && Trimmed(value) && Spaces(trail)
       case Blank(space) => Spaces(space)
       case Comment(indent, text) => Spaces(indent)
       case Useless(indent, key, rest) =>
         && Spaces(indent) && NoSpaces(key) && key != "" && key[0] != '#'
         && (rest == "" || IsSpace(rest[0])) && (key !in TOKENS || Spaces(rest))
  }

  predicate ValidDoc(items: seq<Item>) { forall i :: 0 <= i < |items| ==> Valid(items[i]) }

  function Print(items: seq<Item>): string
    requires ValidDoc(items)
  {
    if items == [] then "" else Text(items[0]) + "\n" + Print(items[1..])
  }

  // ----- Reading one printed line -----

  lemma SkipSpaceIs(t: string, i: nat, p: nat)
    requires i <= p <= |t| && (forall k :: i <= k < p ==> IsSpace(t[k])) && (p < |t| ==> !IsSpace(t[p]))
    ensures SkipSpace(t, i) == p
  {
  }

  lemma SkipWordIs(t: string, i: nat, p: nat)
    requires i <= p <= |t| && (forall k :: i <= k < p ==> !IsSpace(t[k])) && (p < |t| ==> IsSpace(t[p]))
    ensures SkipWord(t, i) == p
  {
  }

  lemma TrimEndIs(t: string, lo: nat, e: nat)
    requires lo < e <= |t| && !IsSpace(t[e - 1]) && (forall k :: e <= k < |t| ==> IsSpace(t[k]))
    ensures TrimEnd(t, lo, |t|) == e
  {
  }

  /** Words of the table have no white space and do not start a comment. */
  lemma TokensPlain(token: nat)
    requires token < TOK_COUNT
    ensures NoSpaces(TOKENS[token]) && TOKENS[token] != "" && TOKENS[token][0] != '#'
  {
  }

  /** A line read by the positions of its parts. */
  lemma ReadParts(t: string, k: nat, ke: nat, v: nat, ve: nat)
    requires k < ke < v < ve <= |t| && t[k] != '#' && !IsSpace(t[v]) && !IsSpace(t[ve - 1])
    requires forall j :: 0 <= j < k || ke <= j < v || ve <= j < |t| ==> IsSpace(t[j])
    requires forall j :: k <= j < ke ==> !IsSpace(t[j])
    ensures ReadLine(t) == Some(Line(t[k..ke], t[v..ve]))
  {
    hide IsSpace;
    SkipSpaceIs(t, 0, k);
    SkipWordIs(t, k, ke);
    SkipSpaceIs(t, ke + 1, v);
    TrimEndIs(t, v, ve);
  }

  /** `t` is made of these parts. */
  predicate MadeOf(indent: string, key: string, gap: string, value: string, trail: string, t: string) {
    var k := |indent|;
    var ke := k + |key|;
    var v := ke + |gap|;
    var ve := v + |value|;
    && |t| == ve + |trail| && t[k..ke] == key && t[v..ve] == value
    && (forall j :: 0 <= j < k ==> t[j] == indent[j])
    && (forall j :: ke <= j < v ==> t[j] == gap[j - ke])
    && (forall j :: ve <= j < |t| ==> t[j] == trail[j - ve])
  }

  lemma JoinedIsMadeOf(indent: string, key: string, gap: string, value: string, trail: string)
    ensures MadeOf(indent, key, gap, value, trail, indent + key + gap + value + trail)
  {
  }

  lemma ReadField(indent: string, key: string, gap: string, value: string, trail: string, t: string)
    requires MadeOf(indent, key, gap, value, trail, t)
    requires Spaces(indent) && NoSpaces(key) && key != "" && key[0] != '#'
    requires Spaces(gap) && gap != "" && Trimmed(value) && Spaces(trail)
    ensures ReadLine(t) == Some(Line(key, value))
  {
    hide IsSpace, ReadLine;
    var k := |indent|;
    var ke := k + |key|;
    var v := ke + |gap|;
    var ve := v + |value|;
    assert forall j :: k <= j < ke ==> t[j] == t[k..ke][j - k];
    assert t[v] == t[v..ve][0] && t[ve - 1] == t[v..ve][|value| - 1];
    ReadParts(t, k, ke, v, ve);
  }

  lemma ReadBlank(t: string)
    requires Spaces(t)
    ensures ReadLine(t) == None
  {
    SkipSpaceIs(t, 0, |t|);
  }

  lemma ReadComment(indent: string, text: string)
    requires Spaces(indent)
    ensures ReadLine(indent + "#" + text) == None
  {
    var t := indent + "#" + text;
    assert forall j :: 0 <= j < |indent| ==> t[j] == indent[j];
    assert t[|indent|] == '#';
    SkipSpaceIs(t, 0, |indent|);
  }

  lemma ReadUseless(indent: string, key: string, rest: string)
    requires Spaces(indent) && NoSpaces(key) && key != "" && key[0] != '#'
    requires rest == "" || IsSpace(rest[0])
    ensures match ReadLine(indent + key + rest) case None => true case Some(l) => l.key == key && !Spaces(rest)
  {
    var t := indent + key + rest;
    var k := |indent|;
    var ke := k + |key|;
    assert t[k..ke] == key;
    assert forall j :: 0 <= j < k ==> t[j] == indent[j];
    assert forall j :: k <= j < ke ==> t[j] == key[j - k];
    assert rest != "" ==> t[ke] == rest[0];
    SkipSpaceIs(t, 0, k);
    SkipWordIs(t, k, ke);
    if rest != "" && Spaces(rest) {
      assert forall j :: ke <= j < |t| ==> t[j] == rest[j - ke];
      SkipSpaceIs(t, ke + 1, |t|);
    }
  }

  /** What one printed line contributes for a token. */
  function ItemValues(it: Item, token: nat): seq<string> {
    if it.Known? && it.token == token then [it.value] else []
  }

  function LineValues(r: Option<Line>, token: nat): seq<string> {
    if r.Some? && Token(r.value.key) == token then [r.value.value] else []
  }

  lemma ReadItem(it: Item, token: nat)
    requires Valid(it) && token < TOK_COUNT
    ensures LineValues(ReadLine(Text(it)), token) == ItemValues(it, token)
  {
    match it {
      case Known(indent, tok, gap, value, trail) =>
        TokensPlain(tok);
        TokenOfName(tok);
        JoinedIsMadeOf(indent, TOKENS[tok], gap, value, trail);
        ReadField(indent, TOKENS[tok], gap, value, trail, Text(it));
      case Blank(space) => ReadBlank(space);
      case Comment(indent, text) => ReadComment(indent, text);
      case Useless(indent, key, rest) => ReadUseless(indent, key, rest);
    }
  }

  // ----- Reading a printed document -----

  function DocValues(items: seq<Item>, token: nat): seq<string> {
    if items == [] then [] else ItemValues(items[0], token) + DocValues(items[1..], token)
  }

  lemma IndexOfIs(s: string, c: char, i: nat, p: nat)
    requires i <= p <= |s| && (forall k :: i <= k < p ==> s[k] != c) && (p < |s| ==> s[p] == c)
    ensures IndexOf(s, c, i) == p
  {
  }

  lemma PrintedLine(s: string, at: nat, t: string, rest: string)
    requires at <= |s| && OneLine(t) && s[at..] == t + "\n" + rest
    ensures at < |s| && LineText(s, at) == t && NextLine(s, at) == at + |t| + 1
    ensures s[at + |t| + 1..] == rest
  {
    var e := at + |t|;
    assert forall k :: at <= k < |s| ==> s[k] == s[at..][k - at];
    assert s[at..e] == t;
    IndexOfIs(s, '\n', at, e);
    IndexOfIs(t, '\0', 0, |t|);
    assert t[..|t|] == t;
    assert s[e + 1..] == s[at..][|t| + 1..] == rest;
  }

  lemma ValuesOfLines(s: string, i: nat, token: nat)
    requires i < |s|
    ensures Values(LinesFrom(s, i), token)
            == LineValues(ReadLine(LineText(s, i)), token) + Values(LinesFrom(s, NextLine(s, i)), token)
  {
    var rest := LinesFrom(s, NextLine(s, i));
    match ReadLine(LineText(s, i)) {
      case None => assert LinesFrom(s, i) == [] + rest == rest;
      case Some(l) => assert ([l] + rest)[1..] == rest;
    }
  }

  lemma {:induction false} PrintedValues(s: string, at: nat, items: seq<Item>, token: nat)
    requires ValidDoc(items) && at <= |s| && s[at..] == Print(items) && token < TOK_COUNT
    ensures Values(LinesFrom(s, at), token) == DocValues(items, token)
    decreases |items|
  {
    if items != [] {
      var it, rest := items[0], items[1..];
      PrintedLine(s, at, Text(it), Print(rest));
      PrintedValues(s, at + |Text(it)| + 1, rest, token);
      ReadItem(it, token);
      ValuesOfLines(s, at, token);
    }
  }

  // ----- Round trip -----

  /** The values an entry holds for a token. */
  function EntryValues(e: Entry, token: nat): seq<string> {
    if token == TOK_INITRD then e.initrds
    else
      var f := if token == TOK_OPTIONS then e.options else Field(e, token);
      if f.Some? then [f.value] else []
  }

  /** The lines give each key of `e` its values, in order; the options may be
      spread over several lines. */
  predicate Gives(items: seq<Item>, e: Entry) {
    && (forall token :: 0 <= token < TOK_COUNT && token != TOK_OPTIONS ==>
          DocValues(items, token) == EntryValues(e, token))
    && var vs := DocValues(items, TOK_OPTIONS);
       e.options == if vs == [] then None else Some(JoinSpaced(vs))
  }

  /** Any file that gives `e` its values, with blank lines, comments and unknown
      keys anywhere between, parses back to `e`. */
  lemma ParsedBack(e: Entry, items: seq<Item>)
    requires ValidDoc(items) && Gives(items, e)
    ensures Fold(Print(items)) == e
  {
    var s := Print(items);
    FoldByToken(s);
    forall token | 0 <= token < TOK_COUNT
      ensures Values(Lines(s), token) == DocValues(items, token)
    {
      PrintedValues(s, 0, items, token);
    }
    forall token | Single(token)
      ensures Field(Fold(s), token) == Field(e, token)
    {
      assert Values(Lines(s), token) == EntryValues(e, token);
    }
    assert Values(Lines(s), TOK_INITRD) == EntryValues(e, TOK_INITRD);
    assert Values(Lines(s), TOK_OPTIONS) == DocValues(items, TOK_OPTIONS);
    SameFields(Fold(s), e);
  }

  lemma SameFields(a: Entry, b: Entry)
    requires forall token :: Single(token) ==> Field(a, token) == Field(b, token)
    requires a.options == b.options && a.initrds == b.initrds
    ensures a == b
  {
    assert Field(a, TOK_TITLE) == Field(b, TOK_TITLE);
    assert Field(a, TOK_VERSION) == Field(b, TOK_VERSION);
    assert Field(a, TOK_LINUX) == Field(b, TOK_LINUX);
    assert Field(a, TOK_FIT) == Field(b, TOK_FIT);
    assert Field(a, TOK_DEVICETREE) == Field(b, TOK_DEVICETREE);
    assert Field(a, TOK_DEVICETREE_OVERLAY) == Field(b, TOK_DEVICETREE_OVERLAY);
    assert Field(a, TOK_ARCHITECTURE) == Field(b, TOK_ARCHITECTURE);
    assert Field(a, TOK_MACHINE_ID) == Field(b, TOK_MACHINE_ID);
    assert Field(a, TOK_SORT_KEY) == Field(b, TOK_SORT_KEY);
  }

  /** The plain way to print an entry: `key value`, one line per value. */
  function PlainLines(token: nat, vs: seq<string>): seq<Item> {
    if vs == [] then [] else [Known("", token, " ", vs[0], "")] + PlainLines(token, vs[1..])
  }

  function PlainFrom(e: Entry, token: nat): seq<Item>
    requires token <= TOK_COUNT
    decreases TOK_COUNT - token
  {
    if token == TOK_COUNT then [] else PlainLines(token, EntryValues(e, token)) + PlainFrom(e, token + 1)
  }

  predicate Printable(v: string) { Trimmed(v) && OneLine(v) }

  predicate PrintableEntry(e: Entry) {
    forall token, i :: 0 <= token < TOK_COUNT && 0 <= i < |EntryValues(e, token)| ==>
      Printable(EntryValues(e, token)[i])
  }

  lemma PlainItem(token: nat, v: string)
    requires token < TOK_COUNT && Printable(v)
    ensures Valid(Known("", token, " ", v, ""))
  {
    var it := Known("", token, " ", v, "");
    assert OneLine(TOKENS[token]);
    assert Text(it) == TOKENS[token] + " " + v;
  }

  lemma {:induction false} PlainLinesValid(token: nat, vs: seq<string>)
    requires token < TOK_COUNT && forall i :: 0 <= i < |vs| ==> Printable(vs[i])
    ensures ValidDoc(PlainLines(token, vs))
  {
    if vs != [] {
      PlainLinesValid(token, vs[1..]);
      PlainItem(token, vs[0]);
    }
  }

  lemma {:induction false} PlainLinesValues(token: nat, vs: seq<string>, other: nat)
    ensures DocValues(PlainLines(token, vs), other) == if other == token then vs else []
  {
    if vs != [] {
      PlainLinesValues(token, vs[1..], other);
      var it := Known("", token, " ", vs[0], "");
      DocValuesCons(it, PlainLines(token, vs[1..]), other);
    }
  }

  lemma DocValuesCons(it: Item, items: seq<Item>, token: nat)
    ensures DocValues([it] + items, token) == ItemValues(it, token) + DocValues(items, token)
  {
    assert ([it] + items)[1..] == items;
  }

  lemma {:induction false} DocValuesAppend(a: seq<Item>, b: seq<Item>, token: nat)
    ensures DocValues(a + b, token) == DocValues(a, token) + DocValues(b, token)
  {
    if a == [] {
      assert a + b == b;
    } else {
      assert a == [a[0]] + a[1..] && a + b == [a[0]] + (a[1..] + b);
      hide DocValues;
      DocValuesCons(a[0], a[1..], token);
      DocValuesCons(a[0], a[1..] + b, token);
      DocValuesAppend(a[1..], b, token);
    }
  }

  lemma {:induction false} PlainFromValid(e: Entry, token: nat)
    requires PrintableEntry(e) && token <= TOK_COUNT
    ensures ValidDoc(PlainFrom(e, token))
    decreases TOK_COUNT - token
  {
    if token < TOK_COUNT {
      PlainLinesValid(token, EntryValues(e, token));
      PlainFromValid(e, token + 1);
    }
  }

  lemma {:induction false} PlainFromValues(e: Entry, token: nat, other: nat)
    requires token <= TOK_COUNT && other < TOK_COUNT
    ensures DocValues(PlainFrom(e, token), other) == if other >= token then EntryValues(e, other) else []
    decreases TOK_COUNT - token
  {
    if token < TOK_COUNT {
      var vs := EntryValues(e, token);
      var head, tail := PlainLines(token, vs), PlainFrom(e, token + 1);
      PlainLinesValues(token, vs, other);
      PlainFromValues(e, token + 1, other);
      DocValuesAppend(head, tail, other);
      assert PlainFrom(e, token) == head + tail;
      if other == token {
        assert vs + [] == vs;
      } else {
        assert [] + DocValues(tail, other) == DocValues(tail, other);
      }
    }
  }

  lemma PlainGives(e: Entry)
    ensures Gives(PlainFrom(e, 0), e)
  {
    hide PlainFrom, DocValues, Field;
    forall token | 0 <= token < TOK_COUNT
      ensures DocValues(PlainFrom(e, 0), token) == EntryValues(e, token)
    {
      PlainFromValues(e, 0, token);
    }
  }

  /** Printing an entry plainly and parsing the text gives the entry back. */
  lemma PrintThenParse(e: Entry)
    requires PrintableEntry(e)
    ensures ValidDoc(PlainFrom(e, 0)) && Fold(Print(PlainFrom(e, 0))) == e
  {
    hide PrintableEntry, Gives, Fold, Print, PlainFrom, ValidDoc;
    PlainFromValid(e, 0);
    PlainGives(e);
    ParsedBack(e, PlainFrom(e, 0));
  }
}
