/** Boot Loader Specification Type #1 entries as text: how one line is read, and
    the fold over all lines that gives an entry. */
module BlsText {
  import opened Wrappers

  // ----- Characters and lines -----

  /** The characters the C library's isspace() accepts, as Latin-1 bytes. */
  predicate IsSpace(c: char) { '\t' <= c <= '\r' || c == ' ' || c == '\U{A0}' }

  /** First position at or after `i` whose character is not white space. */
  function SkipSpace(t: string, i: nat): (p: nat)
    requires i <= |t|
    ensures i <= p <= |t|
    ensures p < |t| ==> !IsSpace(t[p])
    ensures forall k :: i <= k < p ==> IsSpace(t[k])
    decreases |t| - i
  {
    if i < |t| && IsSpace(t[i]) then SkipSpace(t, i + 1) else i
  }

  /** First position at or after `i` whose character is white space. */
  function SkipWord(t: string, i: nat): (p: nat)
    requires i <= |t|
    ensures i <= p <= |t|
    ensures p < |t| ==> IsSpace(t[p])
    ensures forall k :: i <= k < p ==> !IsSpace(t[k])
    decreases |t| - i
  {
    if i < |t| && !IsSpace(t[i]) then SkipWord(t, i + 1) else i
  }

  /** End of the text once trailing white space is dropped, not below `lo`. */
  function TrimEnd(t: string, lo: nat, hi: nat): (e: nat)
    requires lo <= hi <= |t|
    ensures lo <= e <= hi
    ensures e > lo ==> !IsSpace(t[e - 1])
    ensures forall k :: e <= k < hi ==> IsSpace(t[k])
  {
    if hi > lo && IsSpace(t[hi - 1]) then TrimEnd(t, lo, hi - 1) else hi
  }

  /** Position of the first `c` at or after `i`, the length if there is none. */
  function IndexOf(s: string, c: char, i: nat): (p: nat)
    requires i <= |s|
    ensures i <= p <= |s|
    ensures p < |s| ==> s[p] == c
    ensures forall k :: i <= k < p ==> s[k] != c
    decreases |s| - i
  {
    if i < |s| && s[i] != c then IndexOf(s, c, i + 1) else i
  }

  /** The line starting at `i`, as a C string: it stops at a newline or a NUL. */
  function LineText(s: string, i: nat): string
    requires i <= |s|
  {
    var e := IndexOf(s, '\n', i);
    var line := s[i..e];
    line[..IndexOf(line, '\0', 0)]
  }

  function NextLine(s: string, i: nat): (j: nat)
    requires i < |s|
    ensures i < j <= |s|
  {
    var e := IndexOf(s, '\n', i);
    if e < |s| then e + 1 else e
  }

  datatype Line = Line(key: string, value: string)

  /** A line is a key, white space, and a value running to the end of the line.
      Blank lines, comments and keys without a value give nothing. */
  function ReadLine(t: string): Option<Line> {
    var k := SkipSpace(t, 0);
    if k == |t| || t[k] == '#' then None
    else
      var ke := SkipWord(t, k);
      if ke == |t| then None
      else
        var v := SkipSpace(t, ke + 1);
        if v == |t| then None else Some(Line(t[k..ke], t[v..TrimEnd(t, v, |t|)]))
  }

  // ----- Entries -----

  datatype Entry = Entry(title: Option<string>, version: Option<string>, kernel: Option<string>,
                         fit: Option<string>, options: Option<string>, initrds: seq<string>,
                         devicetree: Option<string>, dtOverlays: Option<string>,
                         architecture: Option<string>, machineId: Option<string>, sortKey: Option<string>)

  const EmptyEntry := Entry(None, None, None, None, None, [], None, None, None, None, None)

  /** The value a repeated option line leaves behind. */
  function AppendOption(old_: Option<string>, v: string): Option<string> {
    if old_.None? then Some(v) else Some(old_.value + " " + v)
  }

  /** The known keys, in token order. */
  const TOKENS: seq<string> := ["title", "version", "linux", "fit", "options", "initrd", "devicetree",
                                "devicetree-overlay", "architecture", "machine-id", "sort-key"]
  const TOK_TITLE: nat := 0
  const TOK_VERSION: nat := 1
  const TOK_LINUX: nat := 2
  const TOK_FIT: nat := 3
  const TOK_OPTIONS: nat := 4
  const TOK_INITRD: nat := 5
  const TOK_DEVICETREE: nat := 6
  const TOK_DEVICETREE_OVERLAY: nat := 7
  const TOK_ARCHITECTURE: nat := 8
  const TOK_MACHINE_ID: nat := 9
  const TOK_SORT_KEY: nat := 10
  const TOK_COUNT: nat := 11

  /** Token of a key, looking from table position `i` on. */
  function TokenFrom(key: string, i: nat): (t: nat)
    requires i <= TOK_COUNT
    ensures i <= t <= TOK_COUNT
    ensures t < TOK_COUNT ==> TOKENS[t] == key
    ensures forall k :: i <= k < t ==> TOKENS[k] != key
    decreases TOK_COUNT - i
  {
    if i == TOK_COUNT || TOKENS[i] == key then i else TokenFrom(key, i + 1)
  }

  function Token(key: string): nat { TokenFrom(key, 0) }

  /** One line's effect: a single-valued key replaces, `options` joins with a
      space, `initrd` collects, an unknown key does nothing. */
  function TakeToken(e: Entry, token: nat, v: string): Entry {
    if token == TOK_TITLE then e.(title := Some(v))
    else if token == TOK_VERSION then e.(version := Some(v))
    else if token == TOK_LINUX then e.(kernel := Some(v))
    else if token == TOK_FIT then e.(fit := Some(v))
    else if token == TOK_OPTIONS then e.(options := AppendOption(e.options, v))
    else if token == TOK_INITRD then e.(initrds := e.initrds + [v])
    else if token == TOK_DEVICETREE then e.(devicetree := Some(v))
    else if token == TOK_DEVICETREE_OVERLAY then e.(dtOverlays := Some(v))
    else if token == TOK_ARCHITECTURE then e.(architecture := Some(v))
    else if token == TOK_MACHINE_ID then e.(machineId := Some(v))
    else if token == TOK_SORT_KEY then e.(sortKey := Some(v))
    else e
  }

  function Take(e: Entry, l: Line): Entry { TakeToken(e, Token(l.key), l.value) }

  function TakeText(e: Entry, t: string): Entry {
    match ReadLine(t)
    case None => e
    case Some(l) => Take(e, l)
  }

  /** All lines of `s` from position `i` on, taken in order. */
  function FoldFrom(s: string, i: nat, e: Entry): Entry
    requires i <= |s|
    decreases |s| - i
  {
    if i == |s| then e else FoldFrom(s, NextLine(s, i), TakeText(e, LineText(s, i)))
  }

  function Fold(s: string): Entry { FoldFrom(s, 0, EmptyEntry) }

  predicate Usable(e: Entry) { e.kernel.Some? || e.fit.Some? }
}
