/** Trimmed C strings: the text of a command written to the device. */
module Strings {

  /** isspace of the kernel, whose character table follows Latin-1 */
  predicate IsSpace(c: char) {
    c == ' ' || '\t' <= c <= '\r' || c == '\U{A0}'
  }

  /** The C string in a buffer. */
  function CString(s: string): string {
    if s == [] || s[0] == '\0' then [] else [s[0]] + CString(s[1..])
  }

  function TrimLeft(s: string): string {
    if s != [] && IsSpace(s[0]) then TrimLeft(s[1..]) else s
  }

  function TrimRight(s: string): string {
    if s != [] && IsSpace(s[|s| - 1]) then TrimRight(s[..|s| - 1]) else s
  }

  /** smith_strim and strim */
  function Trim(s: string): string {
    TrimLeft(TrimRight(s))
  }

  // ----- In place

  lemma {:induction false} CStringEnds(s: string, n: nat)
    requires n <= |s| && '\0' !in s[..n] && (n < |s| ==> s[n] == '\0')
    ensures CString(s) == s[..n]
  {
    if n > 0 {
      assert s[0] == s[..n][0] && s[1..][..n - 1] == s[..n][1..];
      CStringEnds(s[1..], n - 1);
    }
  }

  lemma TrimRightStep(s: string, n: nat)
    requires 0 < n <= |s|
    ensures TrimRight(s[..n]) == if IsSpace(s[n - 1]) then TrimRight(s[..n - 1]) else s[..n]
  {
    assert s[..n][..n - 1] == s[..n - 1];
  }

  lemma TrimLeftStep(s: string, n: nat)
    requires n < |s|
    ensures TrimLeft(s[n..]) == if IsSpace(s[n]) then TrimLeft(s[n + 1..]) else s[n..]
  {
    assert s[n..][1..] == s[n + 1..];
  }

  method StrLen(buf: array<char>) returns (n: nat)
    requires '\0' in buf[..]
    ensures n < buf.Length && buf[n] == '\0' && '\0' !in buf[..n] && CString(buf[..]) == buf[..n]
  {
    n := 0;
    while buf[n] != '\0'
      invariant n < buf.Length && '\0' !in buf[..n] && '\0' in buf[n..]
      decreases buf.Length - n
    {
      n := n + 1;
    }
    CStringEnds(buf[..], n);
    assert buf[..][..n] == buf[..n];
  }

  /** memmove to the start of the buffer */
  method MemMove(buf: array<char>, first: nat, n: nat)
    requires first + n <= buf.Length
    modifies buf
    ensures buf[..n] == old(buf[first..first + n])
  {
    var k := 0;
    while k < n
      invariant 0 <= k <= n
      invariant forall j :: 0 <= j < k ==> buf[j] == old(buf[first + j])
      invariant forall j :: first + k <= j < buf.Length ==> buf[j] == old(buf[j])
    {
      buf[k] := buf[first + k];
      k := k + 1;
    }
  }

  /** smith_strim: the buffer then holds the trimmed string. */
  method Strim(buf: array<char>)
    requires '\0' in buf[..]
    modifies buf
    ensures '\0' in buf[..] && CString(buf[..]) == Trim(old(CString(buf[..])))
  {
    hide CString, TrimLeft, TrimRight;
    var size := StrLen(buf);
    ghost var s := buf[..size];
    if size == 0 {
      NothingToTrim();
      return;
    }
    var end: int := size;
    assert s[..end] == s;
    while end > 0 && IsSpace(buf[end - 1])
      invariant 0 <= end <= size && buf[..] == old(buf[..]) && TrimRight(s) == TrimRight(s[..end])
    {
      TrimRightStep(s, end);
      end := end - 1;
    }
    assert TrimRight(s) == s[..end] by {
      if end > 0 { TrimRightStep(s, end); } else { NothingToTrim(); }
    }
    buf[end] := '\0';
    ghost var r := s[..end];
    var first := 0;
    while IsSpace(buf[first])
      invariant 0 <= first <= end && buf[end] == '\0' && buf[..end] == r && TrimLeft(r) == TrimLeft(r[first..])
      decreases end - first
    {
      TrimLeftStep(r, first);
      first := first + 1;
    }
    assert TrimLeft(r) == r[first..] by {
      if first < end { TrimLeftStep(r, first); } else { NothingToTrim(); }
    }
    MemMove(buf, first, end + 1 - first);
    var n := end - first;
    assert buf[..n + 1] == r[first..] + ['\0'];
    assert buf[..n] == buf[..n + 1][..n] == r[first..] && buf[n] == buf[..n + 1][n] == '\0';
    assert '\0' !in r[first..] by { assert forall c <- r[first..] :: c in s; }
    assert buf[..][n] == buf[n] && buf[..][..n] == buf[..n];
    CStringEnds(buf[..], n);
  }

  lemma NothingToTrim()
    ensures TrimLeft([]) == [] == TrimRight([])
  {
  }

  // ----- What is trimmed

  const SPACES := {' ', '\t', '\n', '\U{0B}', '\U{0C}', '\r', '\U{A0}'}

  ghost predicate Blank(s: string) {
    forall c <- s :: c in SPACES
  }

  /** Neither the first nor the last character is a space. */
  ghost predicate Bare(text: string) {
    text != [] ==> text[0] !in SPACES && text[|text| - 1] !in SPACES
  }

  lemma {:induction false} LeftTrimmed(left: string, s: string)
    requires Blank(left) && (s != [] ==> s[0] !in SPACES)
    ensures TrimLeft(left + s) == s
  {
    if left == [] {
      assert left + s == s;
    } else {
      assert (left + s)[0] in left && (left + s)[1..] == left[1..] + s;
      LeftTrimmed(left[1..], s);
    }
  }

  lemma {:induction false} RightTrimmed(s: string, right: string)
    requires Blank(right) && (s != [] ==> s[|s| - 1] !in SPACES)
    ensures TrimRight(s + right) == s
  {
    if right == [] {
      assert s + right == s;
    } else {
      var n := |right| - 1;
      assert (s + right)[|s| + n] in right && (s + right)[..|s| + n] == s + right[..n];
      RightTrimmed(s, right[..n]);
    }
  }

  /** Spaces around a text are trimmed, and nothing else. */
  lemma TrimExact(left: string, text: string, right: string)
    requires Blank(left) && Blank(right) && Bare(text)
    ensures Trim(left + text + right) == text
  {
    if text == [] {
      assert left + text + right == [] + (left + right);
      RightTrimmed([], left + right);
    } else {
      RightTrimmed(left + text, right);
      LeftTrimmed(left, text);
    }
  }

  lemma {:induction false} LeftRest(s: string) returns (left: string)
    ensures Blank(left) && s == left + TrimLeft(s) && (TrimLeft(s) != [] ==> TrimLeft(s)[0] !in SPACES)
  {
    left := [];
    if s != [] && IsSpace(s[0]) {
      left := LeftRest(s[1..]);
      left := [s[0]] + left;
    }
  }

  lemma {:induction false} RightRest(s: string) returns (right: string)
    ensures Blank(right) && s == TrimRight(s) + right && (TrimRight(s) != [] ==> TrimRight(s)[|TrimRight(s)| - 1] !in SPACES)
  {
    right := [];
    if s != [] && IsSpace(s[|s| - 1]) {
      right := RightRest(s[..|s| - 1]);
      right := right + [s[|s| - 1]];
    }
  }

  /** Every string is its trimmed form between spaces. */
  lemma TrimForm(s: string) returns (left: string, right: string)
    ensures Blank(left) && Blank(right) && Bare(Trim(s)) && s == left + Trim(s) + right
  {
    right := RightRest(s);
    left := LeftRest(TrimRight(s));
    var r, t := TrimRight(s), Trim(s);
    assert r == left + t;
    if t != [] { assert r[|r| - 1] == t[|t| - 1]; }
  }

  lemma {:induction false} CStringForm(s: string)
    ensures var t := CString(s); |t| <= |s| && s[..|t|] == t && '\0' !in t && (|t| < |s| ==> s[|t|] == '\0')
  {
    if s != [] && s[0] != '\0' { CStringForm(s[1..]); }
  }
}
