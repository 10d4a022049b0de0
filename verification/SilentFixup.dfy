/** Silencing the Linux console: rewriting a command line inside the buffer that
    holds it, with its source moved to the far end first. */
module SilentFixup {
  import opened Wrappers
  import opened CStrings

  const ENOSPC: int := -28
  const CONSOLE_ARG: string := "console="
  const NULL_CONSOLE: string := "console=ttynull"
  const CONSOLE_ARG_SIZE: nat := 16

  // ----- The result, as a function of the line -----

  predicate OccursAt(s: string, pat: string, i: int) { 0 <= i && i + |pat| <= |s| && s[i..i + |pat|] == pat }

  /** First place at or after `i` where `pat` occurs, -1 if none. */
  function Find(s: string, pat: string, i: nat): (r: int)
    requires i <= |s|
    ensures r == -1 || (i <= r && OccursAt(s, pat, r))
    ensures forall j :: i <= j && (r == -1 || j < r) ==> !OccursAt(s, pat, j)
    decreases |s| - i
  {
    if i + |pat| > |s| then -1
    else if OccursAt(s, pat, i) then i
    else if i == |s| then -1
    else Find(s, pat, i + 1)
  }

  /** First space at or after `i`, or the end. */
  function SpaceAfter(s: string, i: nat): (r: nat)
    requires i <= |s|
    ensures i <= r <= |s|
    ensures ' ' !in s[i..r] && (r < |s| ==> s[r] == ' ')
    decreases |s| - i
  {
    if i == |s| || s[i] == ' ' then i
    else
      var r := SpaceAfter(s, i + 1);
      assert s[i..r] == [s[i]] + s[i + 1..r];
      r
  }

  /** The silenced line: the first `console=` run replaced, or the argument added. */
  function Silenced(s: string): string {
    var i := Find(s, CONSOLE_ARG, 0);
    if s == "" then NULL_CONSOLE
    else if i < 0 then s + " " + NULL_CONSOLE
    else s[..i] + NULL_CONSOLE + s[SpaceAfter(s, i)..]
  }

  /** An environment variable as a setting: -1 if unset, 1 for yes, 0 for no. */
  function YesNo(setting: Option<string>): int {
    if setting.None? then -1
    else if setting.value != "" && setting.value[0] in "1yYtT" then 1
    else 0
  }

  /** The `silent_linux` variable: no, yes, or unset and left to the console flag. */
  predicate Wanted(silentLinux: Option<string>, consoleSilent: bool) {
    YesNo(silentLinux) != 0 && (YesNo(silentLinux) != -1 || consoleSilent)
  }

  /** The new line has room below the old one. */
  predicate NewFits(s: string, maxlen: int) {
    if s == "" then CONSOLE_ARG_SIZE <= maxlen
    else |s| + 1 + CONSOLE_ARG_SIZE <= maxlen && |Silenced(s)| < maxlen - (|s| + 1)
  }

  /** Exactly when the rewrite has room. */
  predicate Room(s: string, wanted: bool, maxlen: int) {
    (|s| + 1) * 2 <= maxlen && (wanted ==> NewFits(s, maxlen))
  }

  // ----- Copying in a buffer -----

  method StrLen(buf: array<char>, at: nat, ghost text: string) returns (n: nat)
    requires StringAt(buf[..], at, text)
    ensures n == |text|
  {
    n := 0;
    assert forall k :: 0 <= k < |text| ==> buf[..][at..at + |text|][k] == text[k] != '\0';
    while buf[at + n] != '\0'
      invariant 0 <= n <= |text|
      decreases |text| - n
    {
      n := n + 1;
    }
  }

  /** Copy `n` bytes forward, one at a time. */
  method CopyBytes(buf: array<char>, dst: nat, src: nat, n: nat)
    requires dst <= src && src + n <= buf.Length
    modifies buf
    ensures buf[..][dst..dst + n] == old(buf[..])[src..src + n]
    ensures forall i :: 0 <= i < buf.Length && !(dst <= i < dst + n) ==> buf[i] == old(buf[i])
  {
    ghost var was := buf[..];
    for i := 0 to n
      invariant forall k :: dst <= k < dst + i ==> buf[k] == was[k + (src - dst)]
      invariant forall k :: 0 <= k < buf.Length && !(dst <= k < dst + i) ==> buf[k] == was[k]
    {
      buf[dst + i] := buf[src + i];
    }
    SameSlice(buf[..], dst, was, src, n);
  }

  /** Write a string constant and its NUL. */
  method Put(buf: array<char>, dst: nat, text: string)
    requires dst + |text| < buf.Length && '\0' !in text
    modifies buf
    ensures StringAt(buf[..], dst, text)
    ensures forall i :: 0 <= i < buf.Length && !(dst <= i <= dst + |text|) ==> buf[i] == old(buf[i])
  {
    for i := 0 to |text|
      invariant forall k :: dst <= k < dst + i ==> buf[k] == text[k - dst]
      invariant forall k :: 0 <= k < buf.Length && !(dst <= k < dst + i) ==> buf[k] == old(buf[k])
    {
      buf[dst + i] := text[i];
    }
    buf[dst + |text|] := '\0';
    SameSlice(buf[..], dst, text, 0, |text|);
    assert text[0..|text|] == text;
  }

  /** Copy a string down within the buffer; source and destination may overlap. */
  method StrCpy(buf: array<char>, dst: nat, src: nat, ghost text: string)
    requires dst < src && StringAt(buf[..], src, text)
    modifies buf
    ensures StringAt(buf[..], dst, text)
    ensures forall i :: 0 <= i < buf.Length && !(dst <= i <= dst + |text|) ==> buf[i] == old(buf[i])
  {
    ghost var was := buf[..];
    assert forall k :: src <= k < src + |text| ==> was[k] == was[src..src + |text|][k - src] == text[k - src];
    var i := 0;
    while buf[src + i] != '\0'
      invariant 0 <= i <= |text|
      invariant forall k :: dst <= k < dst + i ==> buf[k] == was[k + (src - dst)]
      invariant forall k :: 0 <= k < buf.Length && !(dst <= k < dst + i) ==> buf[k] == was[k]
      decreases |text| - i
    {
      buf[dst + i] := buf[src + i];
      i := i + 1;
    }
    buf[dst + i] := '\0';
    assert i == |text|;
    SameSlice(buf[..], dst, was, src, |text|);
  }

  /** Move `n` bytes up to a place that does not overlap them. */
  method MoveUp(buf: array<char>, dst: nat, src: nat, n: nat)
    requires src + n <= dst && dst + n <= buf.Length
    modifies buf
    ensures buf[..][dst..dst + n] == old(buf[..])[src..src + n]
    ensures forall i :: 0 <= i < buf.Length && !(dst <= i < dst + n) ==> buf[i] == old(buf[i])
  {
    ghost var was := buf[..];
    for i := 0 to n
      invariant forall k :: dst <= k < dst + i ==> buf[k] == was[k + (src - dst)]
      invariant forall k :: 0 <= k < buf.Length && !(dst <= k < dst + i) ==> buf[k] == was[k]
    {
      buf[dst + i] := buf[src + i];
    }
    SameSlice(buf[..], dst, was, src, n);
  }

  /** Place of the first `console=` in the string at `at`, -1 if none. */
  method FindConsole(buf: array<char>, at: nat, ghost text: string) returns (r: int)
    requires StringAt(buf[..], at, text)
    ensures r == Find(text, CONSOLE_ARG, 0)
  {
    var n := StrLen(buf, at, text);
    var i := 0;
    while i + |CONSOLE_ARG| <= n
      invariant 0 <= i <= n
      invariant Find(text, CONSOLE_ARG, 0) == Find(text, CONSOLE_ARG, i)
    {
      SliceOf(buf[..], at, text, i, i + |CONSOLE_ARG|);
      assert buf[at + i..at + i + |CONSOLE_ARG|] == buf[..][at + i..at + i + |CONSOLE_ARG|];
      if buf[at + i..at + i + |CONSOLE_ARG|] == CONSOLE_ARG { return i; }
      i := i + 1;
    }
    r := -1;
  }

  /** Place of the first space at or after `i`, the string's length if none. */
  method FindSpace(buf: array<char>, at: nat, i: nat, ghost text: string) returns (r: nat)
    requires StringAt(buf[..], at, text) && i <= |text|
    ensures r == SpaceAfter(text, i)
  {
    var n := StrLen(buf, at, text);
    assert forall k :: 0 <= k < |text| ==> buf[..][at..at + |text|][k] == text[k];
    r := i;
    while r < n && buf[at + r] != ' '
      invariant i <= r <= n && SpaceAfter(text, i) == SpaceAfter(text, r)
    {
      r := r + 1;
    }
  }

  lemma ConsoleRun(s: string, i: nat, head: string)
    requires i == Find(s, CONSOLE_ARG, 0) && head == s[..i] + NULL_CONSOLE
    ensures i < |s| && i + |CONSOLE_ARG| <= SpaceAfter(s, i) <= |s|
    ensures SpaceAfter(s, i) < |s| ==> s[SpaceAfter(s, i)] == ' '
    ensures Silenced(s) == head + s[SpaceAfter(s, i)..] && |head| + 1 == i + CONSOLE_ARG_SIZE
  {
    assert forall k :: i <= k < i + |CONSOLE_ARG| ==> s[k] == s[i..i + |CONSOLE_ARG|][k - i];
  }

  /** The text before the `console=` run, then the null console. */
  method PutHead(buf: array<char>, at: nat, start: nat, ghost s: string, ghost head: string)
    requires StringAt(buf[..], at, s) && start <= |s| < at && start + CONSOLE_ARG_SIZE <= buf.Length
    requires head == s[..start] + NULL_CONSOLE
    modifies buf
    ensures StringAt(buf[..], 0, head)
    ensures KeptFrom(buf, start + CONSOLE_ARG_SIZE)
  {
    PartOf(buf[..], at, s, start);
    CopyBytes(buf, 0, at, start);
    ghost var mid := buf[..];
    assert mid[0..start] == s[..start];
    Put(buf, start, NULL_CONSOLE);
    assert buf[..][0..start] == mid[0..start];
    JoinParts(buf[..], 0, s[..start], NULL_CONSOLE);
  }

  /** The text after the run, copied down behind what is there already. */
  method PutTail(buf: array<char>, dst: nat, src: nat, ghost head: string, ghost tail: string)
    requires dst == |head| < src && StringAt(buf[..], 0, head) && StringAt(buf[..], src, tail)
    modifies buf
    ensures StringAt(buf[..], 0, head + tail)
    ensures KeptFrom(buf, src + |tail|)
  {
    ghost var mid := buf[..];
    StrCpy(buf, dst, src, tail);
    assert buf[..][0..dst] == mid[0..dst];
    JoinParts(buf[..], 0, head, tail);
  }

  method PutNul(buf: array<char>, i: nat, ghost text: string)
    requires |text| < i < buf.Length && StringAt(buf[..], 0, text)
    modifies buf
    ensures StringAt(buf[..], 0, text) && KeptFrom(buf, i + 1)
  {
    ghost var was := buf[..];
    buf[i] := '\0';
    assert buf[..][0..|text|] == was[0..|text|];
  }

  /** The rest of the line behind the new head, or a NUL if there is none. */
  method PutRest(buf: array<char>, dst: nat, src: nat, ghost head: string, ghost tail: string, ghost end: nat)
    requires |head| == dst && dst + 1 < end <= buf.Length && dst < src && src + |tail| < end
    requires StringAt(buf[..], 0, head) && StringAt(buf[..], src, tail) && (tail != "" ==> tail[0] == ' ')
    modifies buf
    ensures KeptFrom(buf, end)
    ensures StringAt(buf[..], 0, head + tail)
  {
    hide StringAt;
    FirstChar(buf[..], src, tail);
    if buf[src] == ' ' {
      PutTail(buf, dst, src, head, tail);
    } else {
      PutNul(buf, dst + 1, head);
      assert head + tail == head;
    }
  }

  /** The new head is written, and the rest of the old line, further up in the
      same buffer, is still there. */
  method ReplaceHead(buf: array<char>, at: nat, start: nat, end: nat, ghost s: string, ghost head: string)
    requires StringAt(buf[..], at, s) && start <= end <= |s| < at && start + CONSOLE_ARG_SIZE <= at + end
    requires head == s[..start] + NULL_CONSOLE
    modifies buf
    ensures StringAt(buf[..], 0, head) && StringAt(buf[..], at + end, s[end..])
    ensures KeptFrom(buf, at + end)
  {
    PartOf(buf[..], at, s, end);
    ghost var was := buf[..];
    PutHead(buf, at, start, s, head);
    StringKept(was, buf[..], at + end, s[end..]);
  }

  /** Replace the first `console=` run while copying down from `at`. */
  method Replace(buf: array<char>, maxlen: nat, at: nat, start: nat, ghost s: string)
    requires maxlen <= buf.Length && at + |s| + 1 == maxlen && |s| < at
    requires |s| + 1 + CONSOLE_ARG_SIZE <= maxlen
    requires StringAt(buf[..], at, s) && start == Find(s, CONSOLE_ARG, 0)
    modifies buf
    ensures KeptFrom(buf, maxlen)
    ensures StringAt(buf[..], 0, Silenced(s))
  {
    hide StringAt, Find, SpaceAfter, Silenced;
    ghost var head := s[..start] + NULL_CONSOLE;
    ConsoleRun(s, start, head);
    var end := FindSpace(buf, at, start, s);
    ReplaceHead(buf, at, start, end, s, head);
    PutRest(buf, start + CONSOLE_ARG_SIZE - 1, at + end, head, s[end..], maxlen);
  }

  /** Append the console argument while copying down from `at`. */
  method Append(buf: array<char>, maxlen: nat, at: nat, ghost s: string)
    requires maxlen <= buf.Length && at + |s| + 1 == maxlen && |s| < at
    requires |s| + 1 + CONSOLE_ARG_SIZE <= maxlen
    requires StringAt(buf[..], at, s) && s != "" && Find(s, CONSOLE_ARG, 0) < 0
    modifies buf
    ensures KeptFrom(buf, maxlen)
    ensures StringAt(buf[..], 0, Silenced(s))
  {
    var n := StrLen(buf, at, s);
    CopyBytes(buf, 0, at, n);
    assert buf[..][0..n] == s;
    Put(buf, n, " " + NULL_CONSOLE);
    assert buf[..][0..n] == s;
    JoinParts(buf[..], 0, s, " " + NULL_CONSOLE);
    assert s + (" " + NULL_CONSOLE) == s + " " + NULL_CONSOLE;
  }

  /** A second copy of the line at the far end of the buffer. */
  method CopyToEnd(buf: array<char>, at: nat, size: nat, ghost s: string)
    requires StringAt(buf[..], 0, s) && size == |s| + 1 <= at && at + size <= buf.Length
    modifies buf
    ensures StringAt(buf[..], 0, s) && StringAt(buf[..], at, s) && KeptFrom(buf, at + size)
  {
    ghost var was := buf[..];
    MoveUp(buf, at, 0, size);
    StringKept(was, buf[..], 0, s);
    assert buf[at + |s|] == buf[..][at..at + size][|s|] == was[0..size][|s|];
    assert buf[..][at..at + |s|] == buf[..][at..at + size][..|s|] == was[0..size][..|s|] == was[0..|s|];
  }

  /** Write the silenced line at the start of the buffer. */
  method Rewrite(buf: array<char>, maxlen: nat, at: nat, ghost s: string) returns (ret: int)
    requires maxlen <= buf.Length && at + |s| + 1 == maxlen && |s| < at && StringAt(buf[..], at, s)
    modifies buf
    ensures KeptFrom(buf, maxlen)
    ensures ret == if NewFits(s, maxlen) then 0 else ENOSPC
    ensures ret == 0 ==> StringAt(buf[..], 0, Silenced(s))
  {
    assert s == "" ==> Silenced(s) == NULL_CONSOLE;
    hide StringAt, Find, Silenced, SpaceAfter;
    FirstChar(buf[..], at, s);
    NoNul(buf[..], at, s);
    if buf[at] != '\0' {
      var start := FindConsole(buf, at, s);
      if maxlen - at + CONSOLE_ARG_SIZE > maxlen { return ENOSPC; }
      if start >= 0 { Replace(buf, maxlen, at, start, s); } else { Append(buf, maxlen, at, s); }
      var len := StrLen(buf, 0, Silenced(s));
      if len >= at { return ENOSPC; }
    } else {
      if maxlen < CONSOLE_ARG_SIZE { return ENOSPC; }
      Put(buf, 0, NULL_CONSOLE);
    }
    ret := 0;
  }

  method Fixup(buf: array<char>, maxlen: int, silentLinux: Option<string>, consoleSilent: bool, ghost s: string)
    returns (ret: int)
    requires |s| < maxlen <= buf.Length && StringAt(buf[..], 0, s)
    modifies buf
    ensures KeptFrom(buf, maxlen)
    ensures ret == if Room(s, Wanted(silentLinux, consoleSilent), maxlen) then 0 else ENOSPC
    ensures ret == 0 ==>
              StringAt(buf[..], 0, if Wanted(silentLinux, consoleSilent) then Silenced(s) else s)
  {
    hide StringAt, Silenced, NewFits;
    var n := StrLen(buf, 0, s);
    var size := n + 1;
    if size * 2 > maxlen { return ENOSPC; }
    var at := maxlen - size;
    CopyToEnd(buf, at, size, s);
    var wantSilent := YesNo(silentLinux);
    if wantSilent == 0 { return 0; }
    if wantSilent == -1 && !consoleSilent { return 0; }
    ret := Rewrite(buf, maxlen, at, s);
  }

  // ----- Silencing twice -----

  lemma OccursChar(s: string, pat: string, i: int, k: nat)
    requires OccursAt(s, pat, i) && k < |pat|
    ensures s[i + k] == pat[k]
  {
    assert s[i..i + |pat|][k] == pat[k];
  }

  lemma OccursLonger(s: string, t: string, pat: string, i: int)
    requires s <= t && 0 <= i && i + |pat| <= |s|
    ensures OccursAt(s, pat, i) <==> OccursAt(t, pat, i)
  {
    assert t[i..i + |pat|] == s[i..i + |pat|];
  }

  lemma FirstConsoleFound(pre: string, rest: string, t: string)
    requires forall j :: !OccursAt(pre, CONSOLE_ARG, j)
    requires CONSOLE_ARG <= rest && t == pre + rest
    ensures Find(t, CONSOLE_ARG, 0) == |pre|
  {
    var i := |pre|;
    forall j | 0 <= j < i
      ensures !OccursAt(t, CONSOLE_ARG, j)
    {
      if j + |CONSOLE_ARG| <= i {
        OccursLonger(pre, t, CONSOLE_ARG, j);
      } else if OccursAt(t, CONSOLE_ARG, j) {
        OccursChar(t, CONSOLE_ARG, j, i - j);
      }
    }
    assert t[i..i + |CONSOLE_ARG|] == rest[..|CONSOLE_ARG|];
    assert OccursAt(t, CONSOLE_ARG, i);
  }

  lemma ConsoleEnds(pre: string, val: string, tail: string, t: string)
    requires ' ' !in val && (tail == "" || tail[0] == ' ')
    requires t == pre + CONSOLE_ARG + val + tail
    ensures SpaceAfter(t, |pre|) == |pre| + |CONSOLE_ARG| + |val|
  {
    var (i, arg) := (|pre|, CONSOLE_ARG + val);
    var r := SpaceAfter(t, i);
    assert t == pre + arg + tail;
    assert forall k :: 0 <= k < |CONSOLE_ARG| ==> CONSOLE_ARG[k] != ' ';
    assert forall k :: i <= k < i + |arg| ==> t[k] == arg[k - i] != ' ';
    assert forall k :: i <= k < r ==> t[k] == t[i..r][k - i] != ' ';
    assert tail != "" ==> t[i + |arg|] == ' ';
  }

  /** The first `console=` argument, whatever its value, gives way to the null console;
      the text before it and after it stays. */
  lemma ConsoleReplaced(pre: string, val: string, tail: string)
    requires forall j :: !OccursAt(pre, CONSOLE_ARG, j)
    requires ' ' !in val && (tail == "" || tail[0] == ' ')
    ensures Silenced(pre + "console=" + val + tail) == pre + "console=ttynull" + tail
  {
    var t := pre + CONSOLE_ARG + val + tail;
    assert t == pre + (CONSOLE_ARG + val + tail);
    FirstConsoleFound(pre, CONSOLE_ARG + val + tail, t);
    ConsoleEnds(pre, val, tail, t);
    assert t[..|pre|] == pre && t[|pre| + |CONSOLE_ARG| + |val|..] == tail;
  }

  /** A line without `console=` gets the argument at its end. */
  lemma ConsoleAdded(s: string)
    requires forall j :: !OccursAt(s, CONSOLE_ARG, j)
    ensures Silenced(s) == if s == "" then "console=ttynull" else s + " console=ttynull"
  {
    assert s + " " + NULL_CONSOLE == s + " console=ttynull";
  }

  /** Whether a line is silenced: as the variable says if it is set, else as the console is. */
  lemma WantedIff(silentLinux: Option<string>, consoleSilent: bool)
    ensures Wanted(silentLinux, consoleSilent) <==>
            match silentLinux
            case None => consoleSilent
            case Some(v) => |v| > 0 && (v[0] == '1' || v[0] == 'y' || v[0] == 'Y' || v[0] == 't' || v[0] == 'T')
  {
  }

  /** How much room a line without `console=` needs: itself twice, and what is added. */
  lemma RoomToAdd(s: string, maxlen: int)
    requires forall j :: !OccursAt(s, CONSOLE_ARG, j)
    ensures Room(s, false, maxlen) <==> maxlen >= 2 * |s| + 2
    ensures Room(s, true, maxlen) <==> maxlen >= if s == "" then 16 else 2 * |s| + 18
  {
    ConsoleAdded(s);
  }

  /** How much room replacing needs, where the new argument may be longer or shorter. */
  lemma RoomToReplace(pre: string, val: string, tail: string, maxlen: int)
    requires forall j :: !OccursAt(pre, CONSOLE_ARG, j)
    requires ' ' !in val && (tail == "" || tail[0] == ' ')
    ensures var s := pre + "console=" + val + tail;
            Room(s, true, maxlen) <==>
            maxlen >= 2 * |s| + 2 && maxlen >= |s| + 17 && maxlen >= 2 * |s| + 9 - |val|
  {
    hide Silenced, Find;
    ConsoleReplaced(pre, val, tail);
  }

  lemma SilencedForm(pre: string, tail: string)
    requires forall j :: !OccursAt(pre, CONSOLE_ARG, j)
    requires tail == "" || tail[0] == ' '
    ensures Silenced(pre + NULL_CONSOLE + tail) == pre + NULL_CONSOLE + tail
  {
    ConsoleReplaced(pre, "ttynull", tail);
    assert pre + "console=" + "ttynull" == pre + NULL_CONSOLE;
  }

  /** Silencing a silenced line changes nothing. */
  lemma SilencedTwice(s: string)
    ensures Silenced(Silenced(s)) == Silenced(s)
  {
    var i := Find(s, CONSOLE_ARG, 0);
    if s == "" {
      SilencedForm("", "");
    } else if i < 0 {
      NoConsoleWithSpace(s);
      SilencedForm(s + " ", "");
      assert s + " " + NULL_CONSOLE + "" == Silenced(s);
    } else {
      var pre, tail := s[..i], s[SpaceAfter(s, i)..];
      forall j
        ensures !OccursAt(pre, CONSOLE_ARG, j)
      {
        if 0 <= j && j + |CONSOLE_ARG| <= i { OccursLonger(pre, s, CONSOLE_ARG, j); }
      }
      SilencedForm(pre, tail);
    }
  }

  lemma NoConsoleWithSpace(s: string)
    requires Find(s, CONSOLE_ARG, 0) < 0
    ensures forall j :: !OccursAt(s + " ", CONSOLE_ARG, j)
  {
    var t := s + " ";
    forall j
      ensures !OccursAt(t, CONSOLE_ARG, j)
    {
      if 0 <= j && j + |CONSOLE_ARG| <= |s| {
        OccursLonger(s, t, CONSOLE_ARG, j);
      } else if OccursAt(t, CONSOLE_ARG, j) {
        OccursChar(t, CONSOLE_ARG, j, |CONSOLE_ARG| - 1);
      }
    }
  }
}
