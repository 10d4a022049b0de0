/** The command-line editor as it runs: one pass over the line that copies or
    changes each word into a bounded buffer. */
module CmdlineBuffer {
  import opened CStrings
  import opened Wrappers
  import opened CmdlineTokens
  import opened CmdlineEdits

  /** The name ends inside the word at the same place as inside the line. */
  lemma NameEndWithin(s: string, p: nat, e: nat, i: nat, inQuote: bool)
    requires p <= i < e <= |s|
    ensures var w := s[p..e];
            NameEnd(w, i - p, inQuote) == if !inQuote && s[i] == '=' then i - p
                                          else NameEnd(w, i - p + 1, inQuote != (s[i] == '"'))
  {
  }

  /** Find the end of the word at `from` and of its name. */
  method ScanWord(s: string, from: nat) returns (ok: bool, argEnd: nat, valEnd: nat)
    requires from < |s| && s[from] != ' '
    ensures ok <==> Cut(s, from, false) >= 0
    ensures ok ==> from < valEnd == Cut(s, from, false) <= |s|
    ensures ok ==> argEnd == from + NameEnd(s[from..valEnd], 0, false)
  {
    ghost var n := Cut(s, from, false);
    ghost var e := if n < 0 then |s| else n;
    ghost var w := s[from..e];
    var found := false;
    var inQuote := false;
    var p := from;
    argEnd, valEnd := from, from;
    while true
      invariant from <= p <= e
      invariant n == Cut(s, p, inQuote)
      invariant !found ==> NameEnd(w, 0, false) == NameEnd(w, p - from, inQuote)
      invariant found ==> argEnd == from + NameEnd(w, 0, false) < p
      decreases |s| - p
    {
      if p < e { NameEndWithin(s, from, e, p, inQuote); }
      if inQuote {
        if p == |s| { return false, argEnd, valEnd; }
        if s[p] == '"' { inQuote := false; }
        p := p + 1;
        continue;
      }
      if p < |s| && s[p] == '=' && !found {
        argEnd, found := p, true;
      } else if p < |s| && s[p] == '"' {
        inQuote := true;
      } else if p == |s| || s[p] == ' ' {
        valEnd := p;
        if !found { argEnd := p; }
        break;
      }
      p := p + 1;
    }
    ok := true;
  }

  method MemCpy(buf: array<char>, at: nat, src: string)
    requires at + |src| <= buf.Length
    modifies buf
    ensures buf[..at + |src|] == old(buf[..at]) + src
    ensures forall i :: at + |src| <= i < buf.Length ==> buf[i] == old(buf[i])
  {
    for i := 0 to |src|
      invariant buf[..at + i] == old(buf[..at]) + src[..i]
      invariant forall k :: at + i <= k < buf.Length ==> buf[k] == old(buf[k])
    {
      buf[at + i] := src[i];
      assert buf[..at + i + 1] == buf[..at + i] + [src[i]];
      assert src[..i + 1] == src[..i] + [src[i]];
    }
    assert src[..|src|] == src;
  }

  /** Write an argument and its new value at `to`. */
  method CopyIn(buf: array<char>, to: nat, end: int, name: string, c: Change) returns (ret: int)
    requires to <= buf.Length && end <= buf.Length && !c.Delete?
    modifies buf
    ensures KeptFrom(buf, end)
    ensures ret == if to + |Render(name, c)| < end then |Render(name, c)| else E2BIG
    ensures ret >= 0 ==> buf[..to + ret] == old(buf[..to]) + Render(name, c)
  {
    if to + |name| >= end { return E2BIG; }
    MemCpy(buf, to, name);
    var at := to + |name|;
    if c.Assign? {
      ret := CopyValue(buf, at, end, c.value);
      if ret < 0 { return ret; }
      at := at + ret;
    }
    ret := at - to;
  }

  /** The `=` sign and the value, in quotes if it holds a space. */
  method CopyValue(buf: array<char>, at0: nat, end: int, value: string) returns (ret: int)
    requires at0 <= buf.Length && end <= buf.Length
    modifies buf
    ensures KeptFrom(buf, end)
    ensures ret == if at0 + 1 + |Quoted(value)| < end then 1 + |Quoted(value)| else E2BIG
    ensures ret >= 0 ==> buf[..at0 + ret] == old(buf[..at0]) + "=" + Quoted(value)
  {
    var at := at0;
    var needQuote := ' ' in value;
    var len := |value|;
    if at + 1 + (if needQuote then 2 else 0) + len >= end { return E2BIG; }
    ghost var pre := buf[..at];
    MemCpy(buf, at, "=");
    at := at + 1;
    ghost var led := pre + "=";
    if needQuote {
      MemCpy(buf, at, "\"");
      at := at + 1;
      led := led + "\"";
    }
    assert buf[..at] == led;
    MemCpy(buf, at, value);
    at := at + len;
    if needQuote {
      MemCpy(buf, at, "\"");
      at := at + 1;
      assert buf[..at] == (led + value) + "\"" == pre + "=" + ("\"" + value + "\"");
    }
    ret := at - at0;
  }

  /** A separating space, unless the buffer is still empty. */
  method PutSpace(buf: array<char>, to0: nat) returns (to: nat)
    requires to0 < buf.Length
    modifies buf
    ensures to == to0 + if to0 == 0 then 0 else 1
    ensures buf[..to] == old(buf[..to0]) + if to0 == 0 then "" else " "
    ensures forall i :: to <= i < buf.Length ==> buf[i] == old(buf[i])
  {
    to := to0;
    if to != 0 {
      MemCpy(buf, to, " ");
      to := to + 1;
    }
  }

  /** Write out one word of the line, or its replacement, or nothing. */
  method PutWord(buf: array<char>, to0: nat, end: int, w: string, isTarget: bool, name: string, c: Change,
                 ghost text: string)
    returns (ret: int)
    requires isTarget == (Name(w) == name)
    requires to0 < end <= buf.Length && buf[..to0] == text
    modifies buf
    ensures KeptFrom(buf, end)
    ensures ret == if FitsIn(AddEdited(text, w, name, c), end) then |AddEdited(text, w, name, c)| else E2BIG
    ensures ret >= 0 ==> buf[..ret] == AddEdited(text, w, name, c)
  {
    ghost var goal := AddEdited(text, w, name, c);
    hide Name, Render;
    var to := PutSpace(buf, to0);
    ghost var led := buf[..to];
    if isTarget {
      if c.Delete? {
        if to != 0 { to := to - 1; }
        assert buf[..to] == led[..to] == goal;
        return to;
      }
      assert goal == led + Render(name, c);
      ret := CopyIn(buf, to, end, name, c);
      if ret < 0 { return ret; }
      ret := to + ret;
    } else {
      assert goal == led + w;
      if to + |w| >= end { return E2BIG; }
      MemCpy(buf, to, w);
      ret := to + |w|;
    }
  }

  // ----- The pass over the line -----

  /** `done` are the words before `from`; the rest is still to be lexed. */
  ghost predicate Progress(s: string, from: nat, done: seq<string>)
    requires from <= |s|
  {
    Lex(s) == Lexed(done + LexFrom(s, from).words, LexFrom(s, from).ok) && Words(done)
  }

  method SkipSpaces(s: string, from0: nat) returns (from: nat)
    requires from0 <= |s|
    ensures from == Skip(s, from0)
  {
    from := from0;
    while from < |s| && s[from] == ' '
      invariant from0 <= from <= |s| && Skip(s, from0) == Skip(s, from)
    {
      from := from + 1;
    }
  }

  lemma NextWord(s: string, from: nat, p: nat, end: nat, done: seq<string>)
    requires from <= |s| && Progress(s, from, done)
    requires p == Skip(s, from) < end == Cut(s, p, false) <= |s|
    ensures Word(s[p..end]) && Progress(s, end, done + [s[p..end]])
    ensures end < |s| ==> s[end] == ' '
  {
    CutWithin(s, p, p, false);
    var w, rest := s[p..end], LexFrom(s, end);
    assert LexFrom(s, from) == Lexed([w] + rest.words, rest.ok);
    assert done + ([w] + rest.words) == done + [w] + rest.words;
  }

  /** Where the pass goes on: a deleted word takes the space after it along. */
  method ResumeAt(s: string, valEnd: nat, deleted: bool, ghost done: seq<string>) returns (from: nat)
    requires valEnd <= |s| && Progress(s, valEnd, done)
    ensures valEnd <= from <= |s| && Progress(s, from, done)
  {
    from := valEnd;
    if deleted && from < |s| && s[from] == ' ' {
      LexSpace(s, from);
      from := from + 1;
    }
  }

  lemma OpenQuote(s: string, from: nat, p: nat, done: seq<string>)
    requires from <= |s| && Progress(s, from, done)
    requires p == Skip(s, from) < |s| && Cut(s, p, false) < 0
    ensures Lex(s) == Lexed(done, false)
  {
    assert done + [] == done;
  }

  lemma EndOfLine(s: string, from: nat, done: seq<string>)
    requires from <= |s| && Progress(s, from, done) && Skip(s, from) == |s|
    ensures Lex(s) == Lexed(done, true)
  {
    assert done + [] == done;
  }

  /** What the scan finds next: the end of the line, a word, or an open quote. */
  datatype Next = End | Arg(p: nat, argEnd: nat, valEnd: nat) | Open

  ghost predicate IsNext(s: string, done: seq<string>, n: Next) {
    match n
    case End => Lex(s) == Lexed(done, true)
    case Open => Lex(s) == Lexed(done, false)
    case Arg(p, argEnd, valEnd) =>
      && p < valEnd <= |s| && Word(s[p..valEnd]) && argEnd == p + NameEnd(s[p..valEnd], 0, false)
      && p <= argEnd <= valEnd && s[p..argEnd] == Name(s[p..valEnd])
      && Progress(s, valEnd, done + [s[p..valEnd]])
  }

  /** Find the next argument from `from` on. */
  method NextArg(s: string, from: nat, ghost done: seq<string>) returns (n: Next)
    requires from <= |s| && Progress(s, from, done)
    ensures IsNext(s, done, n) && (n.Arg? ==> from < n.valEnd)
  {
    hide NameEnd, Name, Word, LexFrom, Progress;
    var p := SkipSpaces(s, from);
    if p == |s| {
      EndOfLine(s, from, done);
      return End;
    }
    var ok, argEnd, valEnd := ScanWord(s, p);
    if !ok {
      OpenQuote(s, from, p, done);
      return Open;
    }
    NextWord(s, from, p, valEnd, done);
    NameInLine(s, p, argEnd, valEnd);
    n := Arg(p, argEnd, valEnd);
  }

  /** Once the words so far do not fit, neither does the whole result. */
  lemma TooBig(s: string, done: seq<string>, rest: seq<string>, name: string, c: Change, maxlen: int)
    requires s != "" && Plain(c) && Lex(s).words == done + rest
    requires !FitsIn(Edited(done, name, c), maxlen)
    ensures SetOutcome(s, name, c, maxlen) == Failed(E2BIG)
  {
    EditedLonger(done, rest, name, c);
  }

  lemma HasNameSnoc(ws: seq<string>, w: string, name: string)
    ensures HasName(ws + [w], name) <==> HasName(ws, name) || Name(w) == name
  {
    assert (ws + [w])[|ws|] == w;
    assert forall i :: 0 <= i < |ws| ==> (ws + [w])[i] == ws[i];
  }

  /** What the pass keeps: the buffer holds the edited words so far. */
  ghost predicate Written(text: string, done: seq<string>, found: bool, name: string, c: Change, maxlen: int) {
    && text == Edited(done, name, c)
    && (text == "" || FitsIn(text, maxlen))
    && found == HasName(done, name)
  }

  /** The part of the line before `argEnd` is the word's name. */
  lemma NameInLine(s: string, p: nat, argEnd: nat, valEnd: nat)
    requires p <= valEnd <= |s| && argEnd == p + NameEnd(s[p..valEnd], 0, false)
    ensures p <= argEnd <= valEnd && s[p..argEnd] == Name(s[p..valEnd])
  {
    SubSlice(s, p, valEnd, p, argEnd);
  }

  /** Copy or change the word from `p` to `valEnd`. */
  method CopyWord(buf: array<char>, maxlen: int, cmdline: string, to: nat, p: nat, argEnd: nat, valEnd: nat,
                  found: bool, name: string, c: Change, ghost done: seq<string>)
    returns (ret: int, isTarget: bool)
    requires to < maxlen <= buf.Length && p < valEnd <= |cmdline|
    requires argEnd == p + NameEnd(cmdline[p..valEnd], 0, false)
    requires Plain(c) && Written(buf[..to], done, found, name, c, maxlen)
    requires cmdline != "" && Progress(cmdline, valEnd, done + [cmdline[p..valEnd]])
    modifies buf
    ensures KeptFrom(buf, maxlen)
    ensures isTarget == (Name(cmdline[p..valEnd]) == name)
    ensures ret < 0 ==> SetOutcome(cmdline, name, c, maxlen) == Failed(ret)
    ensures ret >= 0 ==> ret <= buf.Length
    ensures ret >= 0 ==> Written(buf[..ret], done + [cmdline[p..valEnd]], found || isTarget, name, c, maxlen)
  {
    NameInLine(cmdline, p, argEnd, valEnd);
    hide Name, NameEnd, Edited, AddEdited, LexFrom, SetOutcome, HasName;
    var w := cmdline[p..valEnd];
    isTarget := cmdline[p..argEnd] == name;
    ret := PutWord(buf, to, maxlen, w, isTarget, name, c, buf[..to]);
    EditedNext(done, w, name, c);
    if ret < 0 {
      TooBig(cmdline, done + [w], LexFrom(cmdline, valEnd).words, name, c, maxlen);
    } else {
      HasNameSnoc(done, w, name);
    }
  }

  /** Copy all words; `ret` is the length so far or an error. */
  method EditWords(buf: array<char>, maxlen: int, cmdline: string, name: string, c: Change)
    returns (ret: int, found: bool)
    requires maxlen <= buf.Length && Plain(c)
    modifies buf
    ensures KeptFrom(buf, maxlen)
    ensures ret < 0 ==> SetOutcome(cmdline, name, c, maxlen) == Failed(ret)
    ensures ret >= 0 ==> ret <= buf.Length && Lex(cmdline).ok && (maxlen <= 0 ==> cmdline == "")
    ensures ret >= 0 ==> Written(buf[..ret], Lex(cmdline).words, found, name, c, maxlen)
  {
    var from, to, isTarget := 0, 0, false;
    found := false;
    ghost var done: seq<string> := [];
    assert done + Lex(cmdline).words == Lex(cmdline).words;
    while from < |cmdline|
      invariant from <= |cmdline| && 0 <= to <= buf.Length
      invariant from > 0 ==> maxlen > 0
      invariant Progress(cmdline, from, done)
      invariant Written(buf[..to], done, found, name, c, maxlen)
      invariant KeptFrom(buf, maxlen)
    {
      if to >= maxlen {
        TooBig(cmdline, done, LexFrom(cmdline, from).words, name, c, maxlen);
        return E2BIG, found;
      }
      var n := NextArg(cmdline, from, done);
      if n.End? { return to, found; }
      if n.Open? { return EINVAL, found; }
      ret, isTarget := CopyWord(buf, maxlen, cmdline, to, n.p, n.argEnd, n.valEnd, found, name, c, done);
      if ret < 0 { return; }
      to, found := ret, found || isTarget;
      done := done + [cmdline[n.p..n.valEnd]];
      from := ResumeAt(cmdline, n.valEnd, isTarget && c.Delete?, done);
    }
    EndOfLine(cmdline, from, done);
    ret := to;
  }

  /** Add the argument at the end of the words already written. */
  method PutNew(buf: array<char>, to0: nat, end: int, name: string, c: Change, ghost text: string)
    returns (ret: int)
    requires to0 < end <= buf.Length && !c.Delete? && buf[..to0] == text
    modifies buf
    ensures KeptFrom(buf, end)
    ensures ret == if FitsIn(Extended(text, name, c), end) then |Extended(text, name, c)| else E2BIG
    ensures ret >= 0 ==> buf[..ret] == Extended(text, name, c)
  {
    hide Render;
    var to := to0;
    assert to != 0 ==> buf[to - 1] == text[to - 1];
    if to != 0 && buf[to - 1] != ' ' {
      MemCpy(buf, to, " ");
      to := to + 1;
    }
    ret := CopyIn(buf, to, end, name, c);
    if ret >= 0 { ret := to + ret; }
  }

  /** Remove a trailing space, if there is one, and end the string. */
  method Finish(buf: array<char>, to0: nat, end: int, ghost text: string) returns (ret: int)
    requires to0 < end <= buf.Length && buf[..to0] == text
    modifies buf
    ensures KeptFrom(buf, end)
    ensures ret == |Stripped(text)| + 1 <= end && buf[..ret] == Stripped(text) + "\0"
  {
    var to := to0;
    assert to > 0 ==> buf[to - 1] == text[to - 1];
    if to > 0 && buf[to - 1] == ' ' { to := to - 1; }
    assert buf[..to] == text[..to] == Stripped(text);
    MemCpy(buf, to, "\0");
    ret := to + 1;
  }

  /** Set or delete one argument of `cmdline`, leaving the result in `buf`. */
  method SetArg(buf: array<char>, maxlen: int, cmdline: string, name: string, c: Change) returns (ret: int)
    requires maxlen <= buf.Length
    modifies buf
    ensures KeptFrom(buf, maxlen)
    ensures match SetOutcome(cmdline, name, c, maxlen)
            case Failed(code) => ret == code
            case Done(line) => ret == |line| + 1 <= maxlen && buf[..ret] == line + "\0"
  {
    if c.Assign? && '"' in c.value { return EBADF; }
    hide LexFrom, Edited, Extended, Stripped;
    var found;
    ret, found := EditWords(buf, maxlen, cmdline, name, c);
    if ret < 0 { return; }
    var to := ret;
    ghost var text := Edited(Lex(cmdline).words, name, c);
    if !found {
      if c.Delete? { return ENOENT; }
      if to >= maxlen {
        ExtendedLonger(text, name, c);
        return E2BIG;
      }
      ret := PutNew(buf, to, maxlen, name, c, text);
      if ret < 0 { return; }
      to, text := ret, Extended(text, name, c);
    } else {
      NamedIsNotEmpty(cmdline, name);
    }
    ret := Finish(buf, to, maxlen, text);
  }

  lemma ExtendedLonger(text: string, name: string, c: Change)
    requires !c.Delete?
    ensures |text| <= |Extended(text, name, c)|
  {
  }

  // ----- Reading an argument -----

  /** Words before the first one of that name play no part in a lookup. */
  lemma {:induction false} LookupFound(done: seq<string>, w: string, rest: seq<string>, name: string)
    requires Words(done + [w] + rest) && Word(w) && Name(w) == name && !HasName(done, name)
    ensures Lookup(done + [w] + rest, name) == if BareQuoted(w) then None else Some(Value(w))
  {
    var ws := done + [w] + rest;
    if done == [] {
      assert ws[0] == w;
    } else {
      assert ws[0] == done[0] && Name(done[0]) != name;
      assert ws[1..] == done[1..] + [w] + rest;
      assert !HasName(done[1..], name) by { assert forall i :: 0 <= i < |done| - 1 ==> done[1..][i] == done[i + 1]; }
      LookupFound(done[1..], w, rest, name);
    }
  }

  lemma {:induction false} LookupMissing(ws: seq<string>, name: string)
    requires Words(ws) && !HasName(ws, name)
    ensures Lookup(ws, name) == None
  {
    if ws != [] {
      assert Name(ws[0]) != name;
      assert !HasName(ws[1..], name) by { assert forall i :: 0 <= i < |ws| - 1 ==> ws[1..][i] == ws[i + 1]; }
      LookupMissing(ws[1..], name);
    }
  }

  /** A value without quotes stands in the line from `argEnd + 1` on. */
  lemma PlainValueInLine(s: string, p: nat, argEnd: nat, valEnd: nat)
    requires p <= argEnd < valEnd <= |s| && Word(s[p..valEnd]) && argEnd == p + NameEnd(s[p..valEnd], 0, false)
    requires s[p..valEnd][valEnd - p - 1] != '"'
    ensures s[argEnd + 1..valEnd] == Value(s[p..valEnd])
  {
    SubSlice(s, p, valEnd, argEnd + 1, valEnd);
  }

  /** A value in quotes stands in the line without its first and last character. */
  lemma QuotedValueInLine(s: string, p: nat, argEnd: nat, valEnd: nat)
    requires p <= argEnd < valEnd <= |s| && Word(s[p..valEnd]) && argEnd == p + NameEnd(s[p..valEnd], 0, false)
    requires s[p..valEnd][valEnd - p - 1] == '"'
    ensures argEnd + 2 <= valEnd - 1 && s[argEnd + 2..valEnd - 1] == Value(s[p..valEnd])
  {
    ValueInQuotes(s[p..valEnd]);
    SubSlice(s, p, valEnd, argEnd + 2, valEnd - 1);
  }

  lemma BareValue(w: string)
    requires Word(w)
    ensures NameEnd(w, 0, false) == |w| ==> Value(w) == ""
  {
  }

  /** Place and length of a word's value, without its quotes. A word without `=`
      that ends in a quote gives a length of -2. */
  method ValueSpan(s: string, p: nat, argEnd: nat, valEnd: nat) returns (pos: nat, len: int)
    requires p < valEnd <= |s| && Word(s[p..valEnd]) && argEnd == p + NameEnd(s[p..valEnd], 0, false)
    ensures if BareQuoted(s[p..valEnd]) then len == ENOENT
            else 0 <= len && pos + len <= |s| && s[pos..pos + len] == Value(s[p..valEnd])
  {
    assert s[p..valEnd][valEnd - p - 1] == s[valEnd - 1];
    var quote := if s[valEnd - 1] == '"' then 1 else 0;
    var val := if argEnd == valEnd then valEnd else argEnd + 1;
    pos := val + quote;
    len := valEnd - val - 2 * quote;
    BareValue(s[p..valEnd]);
    hide NameEnd, Word, Value;
    if argEnd < valEnd {
      if quote == 1 {
        QuotedValueInLine(s, p, argEnd, valEnd);
      } else {
        PlainValueInLine(s, p, argEnd, valEnd);
      }
    }
  }

  lemma ProgressWords(s: string, from: nat, done: seq<string>)
    requires from <= |s| && Progress(s, from, done)
    ensures Words(LexFrom(s, from).words) && Lex(s).words == done + LexFrom(s, from).words
  {
    LexFromGivesWords(s, from);
  }

  /** The word in hand is the first of that name, so the lookup is decided. */
  lemma GetFound(s: string, from: nat, done: seq<string>, w: string, name: string)
    requires from <= |s| && Progress(s, from, done + [w]) && Word(w) && Name(w) == name && !HasName(done, name)
    ensures HasName(Lex(s).words, name)
    ensures Get(s, name) == if BareQuoted(w) then None else Some(Value(w))
  {
    var rest := LexFrom(s, from).words;
    ProgressWords(s, from, done + [w]);
    LexGivesWords(s);
    LookupFound(done, w, rest, name);
    assert (done + [w] + rest)[|done|] == w;
  }

  /** What reading an argument gives: where its value is, or that there is none.
      A line with an open quote is only refused when the scan gets that far. */
  ghost predicate Reports(s: string, name: string, ret: int, pos: int) {
    match Get(s, name)
    case Some(v) => 0 <= pos && 0 <= ret && pos + ret <= |s| && s[pos..pos + ret] == v
    case None => ret == if HasName(Lex(s).words, name) || WellFormed(s) then ENOENT else EINVAL
  }

  lemma NotThere(s: string, done: seq<string>, ok: bool, name: string, pos: int)
    requires Lex(s) == Lexed(done, ok) && !HasName(done, name)
    ensures Reports(s, name, if ok then ENOENT else EINVAL, pos)
  {
    LexGivesWords(s);
    LookupMissing(Lex(s).words, name);
  }

  method ReportValue(cmdline: string, n: Next, name: string, ghost done: seq<string>) returns (ret: int, pos: int)
    requires n.Arg? && IsNext(cmdline, done, n) && Name(cmdline[n.p..n.valEnd]) == name && !HasName(done, name)
    ensures Reports(cmdline, name, ret, pos)
  {
    hide Get, LexFrom, NameEnd, Name, HasName, Word, Value, Progress;
    GetFound(cmdline, n.valEnd, done, cmdline[n.p..n.valEnd], name);
    pos, ret := ValueSpan(cmdline, n.p, n.argEnd, n.valEnd);
  }

  lemma NextIs(s: string, done: seq<string>, n: Next)
    requires IsNext(s, done, n) && n.Arg?
    ensures n.p < n.valEnd <= |s| && n.p <= n.argEnd <= n.valEnd
    ensures s[n.p..n.argEnd] == Name(s[n.p..n.valEnd])
    ensures Progress(s, n.valEnd, done + [s[n.p..n.valEnd]])
  {
  }

  /** Find the value of an argument: its length is returned, its place in `pos`. */
  method GetArg(cmdline: string, name: string) returns (ret: int, pos: int)
    ensures Reports(cmdline, name, ret, pos)
  {
    var from := 0;
    ghost var done: seq<string> := [];
    assert done + Lex(cmdline).words == Lex(cmdline).words;
    NoneNamed(name);
    while true
      invariant from <= |cmdline| && Progress(cmdline, from, done) && !HasName(done, name)
      decreases |cmdline| - from
    {
      hide Reports, Lex, Name, HasName, Progress;
      var n := NextArg(cmdline, from, done);
      if !n.Arg? {
        NotThere(cmdline, done, n.End?, name, 0);
        return if n.End? then ENOENT else EINVAL, 0;
      }
      NextIs(cmdline, done, n);
      hide IsNext;
      if cmdline[n.p..n.argEnd] == name {
        ret, pos := ReportValue(cmdline, n, name, done);
        return;
      }
      HasNameSnoc(done, cmdline[n.p..n.valEnd], name);
      done := done + [cmdline[n.p..n.valEnd]];
      from := n.valEnd;
    }
  }

  lemma NoneNamed(name: string)
    ensures !HasName([], name)
  {
  }
}
