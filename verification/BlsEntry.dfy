/** Filling a BLS entry: every field points into the buffer the parser is
    changing, and still reads its own line's value at the end. */
module BlsEntry {
  import opened CStrings
  import opened Wrappers
  import opened BlsText
  import opened BlsParse

  // ----- Helpers -----

  method LookupToken(key: string) returns (t: nat)
    ensures t == Token(key)
    ensures if key in TOKENS then t < TOK_COUNT && TOKENS[t] == key else t == TOK_COUNT
  {
    for i := 0 to TOK_COUNT
      invariant Token(key) == TokenFrom(key, i)
    {
      if key == TOKENS[i] { return i; }
    }
    t := TOK_COUNT;
  }

  /** A copy of the C string at `at`. */
  method StrDup(buf: array<char>, at: nat, ghost text: string) returns (s: string)
    requires StringAt(buf[..], at, text)
    ensures s == text
  {
    StringShows(buf[..], at, text);
    s := "";
    var p := at;
    assert text != "" ==> buf[..][at + 0] == text[0];
    while buf[p] != '\0'
      invariant p == at + |s| <= at + |text| && s == text[..|s|]
      invariant buf[p] == if p < at + |text| then text[p - at] else '\0'
      decreases at + |text| - p
    {
      s := s + [buf[p]];
      p := p + 1;
      assert p < at + |text| ==> buf[..][at + (p - at)] == text[p - at];
    }
  }

  // ----- The entry -----

  /** A field is set when its value is, and points at that value's string. The
      string ends before `line`, where the parser will go on writing, unless
      there is nothing left to write. */
  ghost predicate Reads(b: seq<char>, line: nat, size: nat, p: Option<nat>, v: Option<string>) {
    match v
    case None => p.None?
    case Some(text) =>
      p.Some? && StringAt(b, p.value, text) && (p.value + |text| < line || line == size)
  }

  lemma ReadsKept(b: seq<char>, b': seq<char>, line: nat, line': nat, size: nat, p: Option<nat>, v: Option<string>)
    requires Reads(b, line, size, p, v) && line < size && line <= line' && size <= |b| == |b'|
    requires forall i :: 0 <= i < line ==> b[i] == b'[i]
    ensures Reads(b', line', size, p, v)
  {
    if v.Some? { StringKept(b, b', p.value, v.value); }
  }

  class BlsEntry {
    var title: Option<nat>
    var version: Option<nat>
    var kernel: Option<nat>
    var fit: Option<nat>
    var options: Option<string>
    var initrds: seq<nat>
    var devicetree: Option<nat>
    var dtOverlays: Option<nat>
    var architecture: Option<nat>
    var machineId: Option<nat>
    var sortKey: Option<nat>

    /** The entry, read through its pointers, is `e`. */
    ghost predicate Holds(b: seq<char>, line: nat, size: nat, e: Entry)
      reads this
    {
      && Reads(b, line, size, title, e.title)
      && Reads(b, line, size, version, e.version)
      && Reads(b, line, size, kernel, e.kernel)
      && Reads(b, line, size, fit, e.fit)
      && options == e.options
      && |initrds| == |e.initrds|
      && (forall k :: 0 <= k < |initrds| ==> Reads(b, line, size, Some(initrds[k]), Some(e.initrds[k])))
      && Reads(b, line, size, devicetree, e.devicetree)
      && Reads(b, line, size, dtOverlays, e.dtOverlays)
      && Reads(b, line, size, architecture, e.architecture)
      && Reads(b, line, size, machineId, e.machineId)
      && Reads(b, line, size, sortKey, e.sortKey)
    }

    lemma HoldsKept(b: seq<char>, b': seq<char>, line: nat, line': nat, size: nat, e: Entry)
      requires Holds(b, line, size, e) && line < size && line <= line' && size <= |b| == |b'|
      requires forall i :: 0 <= i < line ==> b[i] == b'[i]
      ensures Holds(b', line', size, e)
    {
      ReadsKept(b, b', line, line', size, title, e.title);
      ReadsKept(b, b', line, line', size, version, e.version);
      ReadsKept(b, b', line, line', size, kernel, e.kernel);
      ReadsKept(b, b', line, line', size, fit, e.fit);
      ReadsKept(b, b', line, line', size, devicetree, e.devicetree);
      ReadsKept(b, b', line, line', size, dtOverlays, e.dtOverlays);
      ReadsKept(b, b', line, line', size, architecture, e.architecture);
      ReadsKept(b, b', line, line', size, machineId, e.machineId);
      ReadsKept(b, b', line, line', size, sortKey, e.sortKey);
      hide Reads;
      forall k | 0 <= k < |initrds|
        ensures Reads(b', line', size, Some(initrds[k]), Some(e.initrds[k]))
      {
        ReadsKept(b, b', line, line', size, Some(initrds[k]), Some(e.initrds[k]));
      }
    }

    method Clear()
      modifies this
      ensures forall b, line, size :: Holds(b, line, size, EmptyEntry)
    {
      title, version, kernel, fit, options, initrds := None, None, None, None, None, [];
      devicetree, dtOverlays, architecture, machineId, sortKey := None, None, None, None, None;
    }

    /** Join another options line to what is there. */
    method AppendStr(value: string)
      modifies this`options
      ensures options == AppendOption(old(options), value)
    {
      if options.None? { options := Some(value); } else { options := Some(options.value + " " + value); }
    }

    /** Point the field for `key` at the string at `value`. */
    method Put(buf: array<char>, key: string, value: nat, ghost line: nat, ghost size: nat, ghost e: Entry,
               ghost v: string)
      requires Holds(buf[..], line, size, e)
      requires Reads(buf[..], line, size, Some(value), Some(v))
      modifies this
      ensures Holds(buf[..], line, size, Take(e, Line(key, v)))
    {
      assert StringAt(buf[..], value, v);
      hide Reads, TokenFrom;
      var token := LookupToken(key);
      if token == TOK_OPTIONS {
        var text := StrDup(buf, value, v);
        AppendStr(text);
      } else {
        SetPointer(token, value, buf[..], line, size, e, v);
      }
    }

    /** The fields that only point into the buffer. */
    method SetPointer(token: nat, value: nat, ghost b: seq<char>, ghost line: nat, ghost size: nat, ghost e: Entry,
                      ghost v: string)
      requires Holds(b, line, size, e) && token != TOK_OPTIONS
      requires Reads(b, line, size, Some(value), Some(v))
      modifies this
      ensures Holds(b, line, size, TakeToken(e, token, v))
    {
      hide Reads;
      if token == TOK_TITLE { title := Some(value); }
      else if token == TOK_VERSION { version := Some(value); }
      else if token == TOK_LINUX { kernel := Some(value); }
      else if token == TOK_FIT { fit := Some(value); }
      else if token == TOK_INITRD { initrds := initrds + [value]; }
      else if token == TOK_DEVICETREE { devicetree := Some(value); }
      else if token == TOK_DEVICETREE_OVERLAY { dtOverlays := Some(value); }
      else if token == TOK_ARCHITECTURE { architecture := Some(value); }
      else if token == TOK_MACHINE_ID { machineId := Some(value); }
      else if token == TOK_SORT_KEY { sortKey := Some(value); }
    }
  }

  // ----- The whole file -----

  /** Once the newline is a NUL, the line is a C string of its own. */
  lemma LineIsString(b: seq<char>, s: string, line: nat)
    requires line < |s| < |b|
    requires forall i :: line <= i < IndexOf(s, '\n', line) ==> b[i] == s[i]
    requires b[IndexOf(s, '\n', line)] == '\0'
    ensures StringAt(b, line, LineText(s, line))
    ensures line + |LineText(s, line)| <= IndexOf(s, '\n', line)
  {
    var e := IndexOf(s, '\n', line);
    var whole := s[line..e];
    var text := LineText(s, line);
    assert text == whole[..|text|];
    assert b[line..e] == whole;
    assert b[line..line + |text|] == b[line..e][..|text|];
    if |text| < |whole| { assert b[line + |text|] == whole[|text|]; }
    forall k | 0 <= k < |text|
      ensures text[k] != '\0'
    {
      assert whole[k] == text[k];
    }
  }

  /** First newline from `line` on, or `size`. */
  method FindNewline(buf: array<char>, line: nat, size: nat, ghost s: string) returns (e: nat)
    requires line <= size == |s| <= buf.Length
    requires forall i :: line <= i < size ==> buf[i] == s[i]
    ensures e == IndexOf(s, '\n', line)
  {
    e := line;
    while e < size && buf[e] != '\n'
      invariant line <= e <= size && IndexOf(s, '\n', line) == IndexOf(s, '\n', e)
    {
      e := e + 1;
    }
  }

  /** Put a NUL over the line's newline, if it has one. */
  method EndLine(buf: array<char>, line: nat, size: nat, ghost s: string) returns (next: nat)
    requires line < size == |s| < buf.Length && buf[size] == '\0'
    requires forall i :: line <= i < size ==> buf[i] == s[i]
    modifies buf
    ensures next == NextLine(s, line)
    ensures forall i :: 0 <= i < buf.Length && !(line <= i < next) ==> buf[i] == old(buf[i])
    ensures StringAt(buf[..], line, LineText(s, line))
    ensures line + |LineText(s, line)| < next || line + |LineText(s, line)| <= next == size
  {
    next := FindNewline(buf, line, size, s);
    if next < size {
      buf[next] := '\0';
      next := next + 1;
    }
    LineIsString(buf[..], s, line);
  }

  /** End the line, split it, and hand it to the entry; `next` is where the
      following line starts. */
  method ParseOne(buf: array<char>, line: nat, size: nat, entry: BlsEntry, ghost s: string, ghost e: Entry)
    returns (next: nat)
    requires line < size == |s| < buf.Length && buf[size] == '\0'
    requires forall i :: line <= i < size ==> buf[i] == s[i]
    requires entry.Holds(buf[..], line, size, e)
    modifies buf, entry
    ensures next == NextLine(s, line)
    ensures forall i :: next <= i < buf.Length ==> buf[i] == old(buf[i])
    ensures entry.Holds(buf[..], next, size, TakeText(e, LineText(s, line)))
  {
    hide ReadLine, LineText, Take, StringAt, NextLine;
    ghost var was := buf[..];
    ghost var text := LineText(s, line);
    next := EndLine(buf, line, size, s);
    var ret, key, value := ParseLine(buf, line, text);
    entry.HoldsKept(was, buf[..], line, next, size, e);
    if ret != 0 { return; }
    ghost var l := ReadLine(text).value;
    var name := StrDup(buf, key, l.key);
    assert Reads(buf[..], next, size, Some(value), Some(l.value));
    entry.Put(buf, name, value, next, size, e, l.value);
  }

  /** Parse `size` bytes of `buf` into `entry`. */
  method ParseEntry(buf: array<char>, size: nat, entry: BlsEntry) returns (ret: int)
    requires size < buf.Length && buf[size] == '\0'
    modifies buf, entry
    ensures forall i :: size <= i < buf.Length ==> buf[i] == old(buf[i])
    ensures entry.Holds(buf[..], size, size, Fold(old(buf[..size])))
    ensures ret == if Usable(Fold(old(buf[..size]))) then 0 else EINVAL
  {
    hide TakeText, LineText, NextLine, StringAt;
    ghost var s := buf[..size];
    entry.Clear();
    var line := 0;
    ghost var e := EmptyEntry;
    while line < size
      invariant line <= size
      invariant forall i :: line <= i < buf.Length ==> buf[i] == old(buf[i])
      invariant entry.Holds(buf[..], line, size, e)
      invariant Fold(s) == FoldFrom(s, line, e)
    {
      ghost var text := LineText(s, line);
      line := ParseOne(buf, line, size, entry, s, e);
      e := TakeText(e, text);
    }
    if entry.kernel.None? && entry.fit.None? { return EINVAL; }
    ret := 0;
  }
}
