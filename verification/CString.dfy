/** C strings: a character buffer stands for the characters before its first NUL. */
module CString {
  const NUL: char := '\0'

  /** White space in the C locale. */
  predicate IsSpace(c: char) {
    c == ' ' || '\t' <= c <= '\r'
  }

  const WHITE_SPACE: string := " \t\n\U{0B}\U{0C}\r"

  lemma SpaceIs(c: char)
    ensures IsSpace(c) <==> c in WHITE_SPACE
  {
  }

  function SkipSpace(s: string): (t: string)
    ensures |t| <= |s|
    ensures t != "" ==> !IsSpace(t[0])
  {
    if s != "" && IsSpace(s[0]) then SkipSpace(s[1..]) else s
  }

  /** Buffers that hold a terminator somewhere. */
  predicate Terminated(b: seq<char>) {
    NUL in b
  }

  /** Position n holds the first terminator. */
  predicate EndsAt(b: seq<char>, n: nat) {
    n < |b| && b[n] == NUL && NUL !in b[..n]
  }

  lemma FirstTerminator(b: seq<char>) returns (n: nat)
    requires Terminated(b)
    ensures EndsAt(b, n)
  {
    if b[0] == NUL {
      n := 0;
    } else {
      n := FirstTerminator(b[1..]);
      n := n + 1;
      assert b[..n] == [b[0]] + b[1..][..n - 1];
    }
  }

  ghost function StrLen(b: seq<char>): (n: nat)
    requires Terminated(b)
    ensures EndsAt(b, n)
  {
    assert exists n: nat :: EndsAt(b, n) by {
      var n := FirstTerminator(b);
    }
    var n: nat :| EndsAt(b, n);
    n
  }

  /** The C string a buffer holds. */
  ghost function Str(b: seq<char>): (s: string)
    requires Terminated(b)
    ensures NUL !in s && |s| < |b| && s == b[..|s|] && b[|s|] == NUL
  {
    b[..StrLen(b)]
  }

  lemma StrIs(b: seq<char>, n: nat)
    requires n < |b| && b[n] == NUL && NUL !in b[..n]
    ensures Terminated(b) && Str(b) == b[..n]
  {
    var m := StrLen(b);
    assert n <= m ==> NUL !in b[..m];
    assert n == m;
  }

  method Strlen(b: array<char>) returns (n: nat)
    requires Terminated(b[..])
    ensures n == |Str(b[..])|
  {
    n := 0;
    while b[n] != NUL
      invariant n <= StrLen(b[..])
      decreases b.Length - n
    {
      n := n + 1;
    }
  }

  /** Copies a string into a whole buffer and forces the last character to NUL. */
  method CopyTerminated(dst: array<char>, src: string)
    requires dst.Length > 0 && NUL !in src
    modifies dst
    ensures Terminated(dst[..])
    ensures Str(dst[..]) == if |src| < dst.Length then src else src[..dst.Length - 1]
  {
    var n := dst.Length;
    var i := 0;
    while i < n
      invariant 0 <= i <= n
      invariant forall k :: 0 <= k < i ==> dst[k] == if k < |src| then src[k] else NUL
    {
      dst[i] := if i < |src| then src[i] else NUL;
      i := i + 1;
    }
    dst[n - 1] := NUL;
    var m := if |src| < n then |src| else n - 1;
    assert dst[..][..m] == src[..m];
    StrIs(dst[..], m);
  }

  /** The length of the C string that starts at a position. */
  method StrlenFrom(b: array<char>, pos: nat) returns (n: nat)
    requires pos <= b.Length && Terminated(b[pos..])
    ensures n == |Str(b[pos..])|
  {
    n := 0;
    while b[pos + n] != NUL
      invariant n <= StrLen(b[pos..])
      decreases b.Length - n
    {
      n := n + 1;
    }
  }

  /** Appends the C string at a position of another buffer. */
  method Strcat(dst: array<char>, src: array<char>, pos: nat)
    requires dst != src && pos <= src.Length && Terminated(dst[..]) && Terminated(src[pos..])
    requires |Str(dst[..])| + |Str(src[pos..])| < dst.Length
    modifies dst
    ensures Terminated(dst[..]) && Str(dst[..]) == old(Str(dst[..])) + Str(src[pos..])
  {
    ghost var head, tail := Str(dst[..]), Str(src[pos..]);
    var d := Strlen(dst);
    var n := StrlenFrom(src, pos);
    var i := 0;
    while i < n
      invariant 0 <= i <= n
      invariant dst[..d + i] == head + tail[..i]
    {
      dst[d + i] := src[pos + i];
      i := i + 1;
    }
    dst[d + n] := NUL;
    assert dst[..][..d + n] == head + tail;
    StrIs(dst[..], d + n);
  }
}
