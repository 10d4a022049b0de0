/** The destructive parser: it ends strings inside the buffer it reads and
    returns pointers into that buffer. */
module BlsParse {
  import opened CStrings
  import opened Wrappers
  import opened BlsText

  const EINVAL: int := -22

  /** Character by character, the part `lo .. hi` of `text` stands at `at`. */
  ghost predicate Shows(b: seq<char>, at: nat, text: string, lo: nat, hi: nat) {
    lo <= hi <= |text| && at + hi <= |b| && forall k :: lo <= k < hi ==> b[at + k] == text[k]
  }

  lemma StringShows(b: seq<char>, at: nat, text: string)
    requires StringAt(b, at, text)
    ensures Shows(b, at, text, 0, |text|)
    ensures forall k :: 0 <= k < |text| ==> text[k] != '\0'
  {
    forall k | 0 <= k < |text|
      ensures b[at + k] == text[k]
    {
      assert b[at..at + |text|][k] == text[k];
    }
  }

  lemma ShownPart(b: seq<char>, at: nat, text: string, lo: nat, hi: nat)
    requires Shows(b, at, text, lo, hi) && at + hi < |b| && b[at + hi] == '\0'
    requires forall k :: 0 <= k < |text| ==> text[k] != '\0'
    ensures StringAt(b, at + lo, text[lo..hi])
  {
    var part := text[lo..hi];
    forall k | 0 <= k < |part|
      ensures b[at + lo..at + hi][k] == part[k]
    {
      assert b[at + (lo + k)] == text[lo + k];
    }
    assert b[at + lo..at + hi] == part;
  }

  // ----- One line -----

  /** Advance over white space inside the C string `text` at `at`. */
  method SkipSpaceAt(buf: array<char>, p0: nat, ghost at: nat, ghost text: string) returns (p: nat)
    requires at <= p0 <= at + |text| < buf.Length
    requires Shows(buf[..], at, text, p0 - at, |text|) && buf[at + |text|] == '\0'
    requires forall k :: 0 <= k < |text| ==> text[k] != '\0'
    ensures p == at + SkipSpace(text, p0 - at)
    ensures buf[p] == if p < at + |text| then text[p - at] else '\0'
  {
    p := p0;
    assert p < at + |text| ==> buf[..][at + (p - at)] == text[p - at];
    while buf[p] != '\0' && IsSpace(buf[p])
      invariant p0 <= p <= at + |text|
      invariant SkipSpace(text, p0 - at) == SkipSpace(text, p - at)
      invariant buf[p] == if p < at + |text| then text[p - at] else '\0'
      decreases at + |text| - p
    {
      p := p + 1;
      assert p < at + |text| ==> buf[..][at + (p - at)] == text[p - at];
    }
  }

  method SkipWordAt(buf: array<char>, p0: nat, ghost at: nat, ghost text: string) returns (p: nat)
    requires at <= p0 <= at + |text| < buf.Length
    requires Shows(buf[..], at, text, p0 - at, |text|) && buf[at + |text|] == '\0'
    requires forall k :: 0 <= k < |text| ==> text[k] != '\0'
    ensures p == at + SkipWord(text, p0 - at)
    ensures buf[p] == if p < at + |text| then text[p - at] else '\0'
  {
    p := p0;
    assert p < at + |text| ==> buf[..][at + (p - at)] == text[p - at];
    while buf[p] != '\0' && !IsSpace(buf[p])
      invariant p0 <= p <= at + |text|
      invariant SkipWord(text, p0 - at) == SkipWord(text, p - at)
      invariant buf[p] == if p < at + |text| then text[p - at] else '\0'
      decreases at + |text| - p
    {
      p := p + 1;
      assert p < at + |text| ==> buf[..][at + (p - at)] == text[p - at];
    }
  }

  method StrLen(buf: array<char>, p: nat, ghost at: nat, ghost text: string) returns (n: nat)
    requires at <= p <= at + |text| < buf.Length
    requires Shows(buf[..], at, text, p - at, |text|) && buf[at + |text|] == '\0'
    requires forall k :: 0 <= k < |text| ==> text[k] != '\0'
    ensures p + n == at + |text|
  {
    n := 0;
    assert p < at + |text| ==> buf[..][at + (p - at)] == text[p - at];
    while buf[p + n] != '\0'
      invariant p + n <= at + |text|
      invariant buf[p + n] == if p + n < at + |text| then text[p + n - at] else '\0'
      decreases at + |text| - p - n
    {
      n := n + 1;
      assert p + n < at + |text| ==> buf[..][at + (p + n - at)] == text[p + n - at];
    }
  }

  lemma TrimStep(text: string, lo: nat, hi: nat)
    requires lo < hi <= |text|
    ensures TrimEnd(text, lo, hi) == if IsSpace(text[hi - 1]) then TrimEnd(text, lo, hi - 1) else hi
  {
  }

  /** Overwrite trailing white space with NULs, from the end back to `value`. */
  method TrimAt(buf: array<char>, value: nat, ghost at: nat, ghost text: string)
    requires at <= value < at + |text| < buf.Length
    requires Shows(buf[..], at, text, value - at, |text|) && buf[at + |text|] == '\0'
    requires forall k :: 0 <= k < |text| ==> text[k] != '\0'
    requires !IsSpace(text[value - at])
    modifies buf
    ensures StringAt(buf[..], value, text[value - at..TrimEnd(text, value - at, |text|)])
    ensures forall i :: 0 <= i < buf.Length && !(value <= i < at + |text|) ==> buf[i] == old(buf[i])
  {
    hide IsSpace, TrimEnd;
    var n := StrLen(buf, value, at, text);
    var p := value + n - 1;
    ghost var was := buf[..];
    while p >= value && IsSpace(buf[p])
      invariant value <= p < value + n
      invariant buf[p + 1] == '\0'
      invariant TrimEnd(text, value - at, |text|) == TrimEnd(text, value - at, p + 1 - at)
      invariant forall i :: 0 <= i < buf.Length && !(p < i < at + |text|) ==> buf[i] == was[i]
      decreases p
    {
      assert was[at + (p - at)] == text[p - at];
      assert p > value by { assert was[at + (value - at)] == text[value - at]; }
      TrimStep(text, value - at, p + 1 - at);
      buf[p] := '\0';
      p := p - 1;
    }
    ghost var e := p + 1 - at;
    assert was[at + (p - at)] == text[p - at];
    TrimStep(text, value - at, e);
    assert e == TrimEnd(text, value - at, |text|);
    assert Shows(buf[..], at, text, value - at, e);
    ShownPart(buf[..], at, text, value - at, e);
  }

  /** Find the key and end it with a NUL; `p` is the position after that. */
  method ParseKey(buf: array<char>, line: nat, ghost text: string) returns (ok: bool, key: nat, p: nat)
    requires StringAt(buf[..], line, text)
    modifies buf
    ensures forall i :: 0 <= i < buf.Length && !(line <= i < line + |text|) ==> buf[i] == old(buf[i])
    ensures var k := SkipSpace(text, 0);
            var ke := SkipWord(text, k);
            if k == |text| || text[k] == '#' || ke == |text| then !ok
            else
              && ok && key == line + k && p == line + ke + 1
              && StringAt(buf[..], key, text[k..ke])
              && Shows(buf[..], line, text, ke + 1, |text|)
  {
    StringShows(buf[..], line, text);
    ghost var was := buf[..];
    p := SkipSpaceAt(buf, line, line, text);
    key := p;
    if buf[p] == '\0' || buf[p] == '#' { return false, key, p; }
    p := SkipWordAt(buf, p, line, text);
    if buf[p] == '\0' { return false, key, p; }
    buf[p] := '\0';
    ghost var k, ke := key - line, p - line;
    p := p + 1;
    ok := true;
    assert Shows(buf[..], line, text, k, ke);
    ShownPart(buf[..], line, text, k, ke);
  }

  lemma ReadLineIs(text: string, k: nat, ke: nat, v: nat)
    requires k == SkipSpace(text, 0) < |text| && text[k] != '#'
    requires ke == SkipWord(text, k) < |text| && v == SkipSpace(text, ke + 1)
    ensures ReadLine(text) == if v == |text| then None
                              else Some(Line(text[k..ke], text[v..TrimEnd(text, v, |text|)]))
  {
  }

  /** Key and value of `l` stand as strings inside the line's `len` characters. */
  ghost predicate SplitAt(b: seq<char>, line: nat, len: nat, key: nat, value: nat, l: Line) {
    && line <= key && StringAt(b, key, l.key)
    && line <= value && value + |l.value| <= line + len && StringAt(b, value, l.value)
  }

  /** Find the value after the key and trim it. */
  method ParseValue(buf: array<char>, p: nat, ghost line: nat, ghost text: string)
    returns (ok: bool, value: nat, ghost val: string)
    requires line <= p <= line + |text| < buf.Length
    requires Shows(buf[..], line, text, p - line, |text|) && buf[line + |text|] == '\0'
    requires forall k :: 0 <= k < |text| ==> text[k] != '\0'
    modifies buf
    ensures forall i :: 0 <= i < buf.Length && !(p <= i < line + |text|) ==> buf[i] == old(buf[i])
    ensures ok <==> SkipSpace(text, p - line) < |text|
    ensures ok ==> var v := SkipSpace(text, p - line); val == text[v..TrimEnd(text, v, |text|)]
    ensures ok ==> line <= value && value + |val| <= line + |text| && StringAt(buf[..], value, val)
  {
    value := SkipSpaceAt(buf, p, line, text);
    ok := buf[value] != '\0';
    val := "";
    if ok {
      val := text[value - line..TrimEnd(text, value - line, |text|)];
      TrimAt(buf, value, line, text);
    }
  }

  /** Split the C string at `line` into key and value, in place. */
  method ParseLine(buf: array<char>, line: nat, ghost text: string) returns (ret: int, key: nat, value: nat)
    requires StringAt(buf[..], line, text)
    modifies buf
    ensures forall i :: 0 <= i < buf.Length && !(line <= i < line + |text|) ==> buf[i] == old(buf[i])
    ensures ReadLine(text).None? ==> ret == EINVAL
    ensures ReadLine(text).Some? ==> ret == 0 && SplitAt(buf[..], line, |text|, key, value, ReadLine(text).value)
  {
    hide IsSpace, TrimEnd, SkipWord;
    StringShows(buf[..], line, text);
    var ok, p;
    ok, key, p := ParseKey(buf, line, text);
    value := p;
    if !ok { return EINVAL, key, value; }
    ghost var k, ke := key - line, p - 1 - line;
    ghost var name, mid := text[k..ke], buf[..];
    assert StringAt(mid, key, name) && key + |name| == p - 1;
    ReadLineIs(text, k, ke, SkipSpace(text, ke + 1));
    ghost var val;
    ok, value, val := ParseValue(buf, p, line, text);
    if !ok { return EINVAL, key, value; }
    assert ReadLine(text) == Some(Line(name, val));
    StringKept(mid, buf[..], key, name);
    assert SplitAt(buf[..], line, |text|, key, value, Line(name, val));
    ret := 0;
  }
}
