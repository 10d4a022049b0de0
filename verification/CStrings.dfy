/** C strings and slices of character buffers. */
module CStrings {

  /** `text` and its terminating NUL stand at `at`. */
  ghost predicate StringAt(b: seq<char>, at: nat, text: string) {
    at + |text| < |b| && b[at..at + |text|] == text && b[at + |text|] == '\0' && '\0' !in text
  }

  /** Nothing at or past `end` changed. */
  twostate predicate KeptFrom(buf: array<char>, end: int)
    reads buf
  {
    forall i :: 0 <= i < buf.Length && end <= i ==> buf[i] == old(buf[i])
  }

  /** Two slices that agree character by character, `k` characters in. */
  lemma SameSlice(a: seq<char>, i: nat, b: seq<char>, j: nat, n: nat)
    requires i + n <= |a| && j + n <= |b|
    requires forall k :: i <= k < i + n ==> a[k] == b[k + (j - i)]
    ensures a[i..i + n] == b[j..j + n]
  {
    var x, y := a[i..i + n], b[j..j + n];
    forall k | 0 <= k < n
      ensures x[k] == y[k]
    {
      assert a[i + k] == b[i + k + (j - i)];
    }
  }

  lemma StringKept(b: seq<char>, b': seq<char>, at: nat, text: string)
    requires StringAt(b, at, text) && |b'| == |b| && forall i :: at <= i <= at + |text| ==> b'[i] == b[i]
    ensures StringAt(b', at, text)
  {
    SameSlice(b', at, b, at, |text|);
  }

  /** A string and its rest from `n` on. */
  lemma PartOf(b: seq<char>, at: nat, s: string, n: nat)
    requires StringAt(b, at, s) && n <= |s|
    ensures b[at..at + n] == s[..n] && StringAt(b, at + n, s[n..])
  {
    assert b[at..at + n] == b[at..at + |s|][..n];
    assert b[at + n..at + |s|] == b[at..at + |s|][n..];
  }

  lemma SliceOf(b: seq<char>, at: nat, s: string, i: nat, j: nat)
    requires StringAt(b, at, s) && i <= j <= |s|
    ensures b[at + i..at + j] == s[i..j]
  {
    forall k | at + i <= k < at + j
      ensures b[k] == s[k + (i - (at + i))]
    {
      assert b[at..at + |s|][k - at] == s[k - at];
    }
    SameSlice(b, at + i, s, i, j - i);
  }

  /** Characters followed by a string are a string. */
  lemma JoinParts(b: seq<char>, at: nat, x: string, y: string)
    requires at + |x| + |y| < |b| && b[at..at + |x|] == x && '\0' !in x && StringAt(b, at + |x|, y)
    ensures StringAt(b, at, x + y)
  {
    assert b[at..at + |x + y|] == b[at..at + |x|] + b[at + |x|..at + |x| + |y|];
  }

  lemma FirstChar(b: seq<char>, at: nat, s: string)
    requires StringAt(b, at, s)
    ensures at + |s| < |b| && b[at] == if s == "" then '\0' else s[0]
  {
    assert s != "" ==> b[at..at + |s|][0] == s[0];
  }

  lemma NoNul(b: seq<char>, at: nat, s: string)
    requires StringAt(b, at, s)
    ensures s != "" ==> s[0] != '\0'
  {
  }

  /** A slice of a slice. */
  lemma SubSlice(s: seq<char>, p: nat, e: nat, i: nat, j: nat)
    requires p <= i <= j <= e <= |s|
    ensures s[p..e][i - p..j - p] == s[i..j]
  {
    var x, y := s[p..e][i - p..j - p], s[i..j];
    forall k | 0 <= k < j - i
      ensures x[k] == y[k]
    {
      assert s[p..e][i - p + k] == s[i + k];
    }
  }
}
