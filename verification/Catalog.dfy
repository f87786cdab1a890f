/**
 The catalog lexer's hand-written helpers: quoted strings with C escapes, comments and text
 blocks, read from a byte stream with pushback; and the printer of quoted strings.
 */
module Catalog {
  import opened Bytes
  import opened Wrappers

  const MYEOF: byte := 0
  const NEWLINE: byte := 10
  const DQUOTE: byte := 34
  const SLASH: byte := 47
  const STAR: byte := 42
  const BACKSLASH: byte := 92
  const RBRACE: byte := 125

  const MAXSTRLEN: nat := 10 * 1024
  const STRSLOP: nat := 10

  predicate IsOctal(c: byte) {
    48 <= c <= 55
  }

  /** Printable in the C locale. */
  predicate IsPrint(c: byte) {
    32 <= c < 127
  }

  function Newlines(s: seq<byte>): nat {
    if s == [] then 0 else Newlines(s[..|s| - 1]) + if s[|s| - 1] == NEWLINE then 1 else 0
  }

  /** The letter of a simple escape, or 0. */
  function EscapeLetter(c: byte): byte {
    match c
    case 92 => 92
    case 34 => 34
    case 63 => 63
    case 7 => 97
    case 8 => 98
    case 12 => 102
    case 10 => 110
    case 13 => 114
    case 9 => 116
    case 11 => 118
    case _ => 0
  }

  /** A character with no simple escape that is not printable is printed in octal. */
  predicate OctalEscaped(c: byte) {
    EscapeLetter(c) == 0 && !IsPrint(c)
  }

  /** sprintf %o: no leading zeros. */
  function Octal(c: byte): (s: seq<byte>)
    ensures 1 <= |s| <= 3 && forall i :: 0 <= i < |s| ==> IsOctal(s[i])
  {
    if c < 8 then [48 + c]
    else if c < 64 then [48 + c / 8, 48 + c % 8]
    else [48 + c / 64, 48 + c / 8 % 8, 48 + c % 8]
  }

  function Escape(c: byte): (s: seq<byte>)
    ensures s != []
  {
    if EscapeLetter(c) != 0 then [BACKSLASH, EscapeLetter(c)]
    else if IsPrint(c) then [c]
    else [BACKSLASH] + Octal(c)
  }

  function AddEscapes(s: seq<byte>): seq<byte> {
    if s == [] then [] else Escape(s[0]) + AddEscapes(s[1..])
  }

  lemma {:induction false} AddEscapesConcat(s: seq<byte>, t: seq<byte>)
    ensures AddEscapes(s + t) == AddEscapes(s) + AddEscapes(t)
  {
    if s == [] {
      assert s + t == t;
    } else {
      FirstEscape(s, t);
      AddEscapesConcat(s[1..], t);
    }
  }

  lemma FirstEscape(s: seq<byte>, t: seq<byte>)
    requires s != []
    ensures AddEscapes(s + t) == Escape(s[0]) + AddEscapes(s[1..] + t)
  {
    var both := s + t;
    assert both[0] == s[0] && both[1..] == s[1..] + t;
  }

  lemma AddEscapesSnoc(s: seq<byte>, i: nat)
    requires i < |s|
    ensures AddEscapes(s[..i + 1]) == AddEscapes(s[..i]) + Escape(s[i])
  {
    AddEscapesConcat(s[..i], [s[i]]);
    assert s[..i + 1] == s[..i] + [s[i]];
    assert AddEscapes([s[i]]) == Escape(s[i]) + AddEscapes([]);
  }

  /** The printer. */
  method PrintEscapes(s: seq<byte>) returns (es: seq<byte>)
    ensures es == AddEscapes(s)
  {
    es := [];
    var i := 0;
    while i < |s|
      invariant 0 <= i <= |s|
      invariant es == AddEscapes(s[..i])
    {
      AddEscapesSnoc(s, i);
      var c := s[i];
      if EscapeLetter(c) != 0 {
        es := es + [BACKSLASH, EscapeLetter(c)];
      } else if IsPrint(c) {
        es := es + [c];
      } else {
        es := es + ([BACKSLASH] + Octal(c));
      }
      i := i + 1;
    }
    assert s[..i] == s;
  }

  /** What each character is printed as: a letter, itself, or its octal digits. */
  lemma PrintedForms(c: byte)
    ensures c == 7 ==> AddEscapes([c]) == [92, 97]
    ensures c == 8 ==> AddEscapes([c]) == [92, 98]
    ensures c == 9 ==> AddEscapes([c]) == [92, 116]
    ensures c == 10 ==> AddEscapes([c]) == [92, 110]
    ensures c == 11 ==> AddEscapes([c]) == [92, 118]
    ensures c == 12 ==> AddEscapes([c]) == [92, 102]
    ensures c == 13 ==> AddEscapes([c]) == [92, 114]
    ensures c in {34, 63, 92} ==> AddEscapes([c]) == [92, c]
    ensures 32 <= c <= 126 && c !in {34, 63, 92} ==> AddEscapes([c]) == [c]
    ensures c < 7 ==> AddEscapes([c]) == [92, 48 + c]
    ensures 14 <= c <= 31 ==> AddEscapes([c]) == [92, 48 + c / 8, 48 + c % 8]
    ensures c == 127 ==> AddEscapes([c]) == [92, 49, 55, 55]
    ensures 128 <= c ==> AddEscapes([c]) == [92, 48 + c / 64, 48 + c / 8 % 8, 48 + c % 8]
  {
    assert AddEscapes([c]) == Escape(c) + AddEscapes([]) == Escape(c);
  }

  /** What a simple escape stands for; None for an escaped newline, which is dropped. */
  function GetCharEscape(c: byte): Option<byte> {
    match c
    case 97 => Some(7)
    case 98 => Some(8)
    case 102 => Some(12)
    case 110 => Some(10)
    case 114 => Some(13)
    case 116 => Some(9)
    case 118 => Some(11)
    case 10 => None
    case _ => Some(c)
  }

  function Digit(c: byte): nat
    requires IsOctal(c)
  {
    var n: int := c;
    n - 48
  }

  /** The number written by the first three digits. */
  function OctalValue(digits: seq<byte>): nat
    requires forall i :: 0 <= i < |digits| ==> IsOctal(digits[i])
  {
    var d := if |digits| > 3 then digits[..3] else digits;
    if d == [] then 0 else OctalValue(d[..|d| - 1]) * 8 + Digit(d[|d| - 1])
  }

  method GetOctalEscape(digits: seq<byte>, isCharConst: bool) returns (n: nat)
    requires forall i :: 0 <= i < |digits| ==> IsOctal(digits[i])
    ensures n == if isCharConst && |digits| > 3 then 256 else OctalValue(digits)
  {
    n := 0;
    var i := 0;
    while i < |digits|
      invariant 0 <= i <= |digits| && i <= 3
      invariant n == OctalValue(digits[..i])
      invariant i == 3 ==> isCharConst
    {
      assert digits[..i + 1][..i] == digits[..i];
      n := n * 8 + Digit(digits[i]);
      i := i + 1;
      if i == 3 && !isCharConst {
        assert |digits| > 3 ==> OctalValue(digits) == OctalValue(digits[..3]);
        assert |digits| == 3 ==> digits[..3] == digits;
        return;
      } else if i > 3 && isCharConst {
        return 256;
      }
    }
    assert digits[..i] == digits;
  }

  // Reading one element of a string.

  datatype Piece =
    | End(last: seq<byte>, rest: seq<byte>)
    | Eof(rest: seq<byte>)
    | Char(value: byte, rest: seq<byte>, lines: nat)
    | Dropped(rest: seq<byte>)

  function Head(input: seq<byte>): byte {
    if input == [] then MYEOF else input[0]
  }

  function Tail(input: seq<byte>): seq<byte> {
    if input == [] then [] else input[1..]
  }

  /** How many of the first n characters are octal digits in a row. */
  function OctalRun(input: seq<byte>, n: nat): (k: nat)
    ensures k <= n && k <= |input|
    ensures forall i :: 0 <= i < k ==> IsOctal(input[i])
    ensures k < n && k < |input| ==> !IsOctal(input[k])
  {
    if n == 0 || input == [] || !IsOctal(input[0]) then 0 else 1 + OctalRun(input[1..], n - 1)
  }

  lemma RunIs(input: seq<byte>, k: nat, n: nat)
    requires k <= n && k <= |input| && forall i :: 0 <= i < k ==> IsOctal(input[i])
    requires k == n || k == |input| || !IsOctal(input[k])
    ensures OctalRun(input, n) == k
  {
  }

  /** What is left after reading k digits of at most n: the character that stopped the run is pushed back. */
  function AfterRun(input: seq<byte>, k: nat, n: nat): seq<byte>
    requires k <= |input|
  {
    if k < n && k == |input| then [MYEOF] else input[k..]
  }

  function NextPiece(input: seq<byte>, quoted: bool): (p: Piece)
    ensures p.Char? || p.Dropped? ==> |p.rest| < |input|
    ensures p.End? ==> p.last == [] || p.last == [BACKSLASH]
  {
    var c, rest := Head(input), Tail(input);
    if c == (if quoted then DQUOTE else MYEOF) then End([], rest)
    else if c == MYEOF then Eof(rest)
    else if c != BACKSLASH then Char(c, rest, if c == NEWLINE then 1 else 0)
    else
      var d, rest' := Head(rest), Tail(rest);
      if d == MYEOF then if quoted then Eof(rest') else End([BACKSLASH], rest')
      else if IsOctal(d) then
        var k := OctalRun(rest', 3);
        assert forall i :: 0 <= i < |rest'[..k]| ==> IsOctal(rest'[..k][i]);
        Char(OctalValue([d] + rest'[..k]) % 256, AfterRun(rest', k, 3), 0)
      else
        match GetCharEscape(d)
        case Some(v) => Char(v, rest', 0)
        case None => Dropped(rest')
  }

  /** The characters read, if the string ended properly; what is left; and the newlines counted. */
  datatype Outcome = Outcome(text: Option<seq<byte>>, rest: seq<byte>, lines: nat)

  /** Puts a character and a line count before what follows. */
  function Before(s: seq<byte>, lines: nat, o: Outcome): Outcome {
    Outcome(if o.text.Some? then Some(s + o.text.value) else None, o.rest, lines + o.lines)
  }

  /** Reading a string when nc characters have been collected. */
  function StringFrom(input: seq<byte>, quoted: bool, nc: nat): Outcome
    decreases |input|, 1
  {
    GoOn(NextPiece(input, quoted), quoted, nc)
  }

  lemma BeforeNothing(o: Outcome)
    ensures Before([], 0, o) == o
  {
    assert o.text.Some? ==> [] + o.text.value == o.text.value;
  }

  /** Reading goes on after an element when nc characters have been collected. */
  function GoOn(p: Piece, quoted: bool, nc: nat): Outcome
    decreases if p.Char? || p.Dropped? then |p.rest| + 1 else 0, 0
  {
    match p
    case End(last, rest) => Outcome(Some(last), rest, 0)
    case Eof(rest) => Outcome(None, rest, 0)
    case Dropped(rest) => Before([], 1, StringFrom(rest, quoted, nc))
    case Char(v, rest, lines) =>
      if nc + 1 > MAXSTRLEN then Outcome(None, rest, lines) else Before([v], lines, StringFrom(rest, quoted, nc + 1))
  }

  /** The character an element adds, if any. */
  function PieceText(p: Piece): seq<byte> {
    if p.Char? then [p.value] else []
  }

  /** Newlines counted in an element. */
  function PieceLines(p: Piece): nat {
    match p
    case Char(_, _, lines) => lines
    case Dropped(_) => 1
    case _ => 0
  }

  lemma BeforeTwice(s: seq<byte>, l: nat, t: seq<byte>, l': nat, o: Outcome)
    ensures Before(s, l, Before(t, l', o)) == Before(s + t, l + l', o)
  {
    assert o.text.Some? ==> s + t + o.text.value == s + (t + o.text.value);
  }

  // Comments and text blocks.

  /** The two characters a, b appear at position k. */
  predicate PairAt(s: seq<byte>, k: nat, a: byte, b: byte) {
    k + 1 < |s| && s[k] == a && s[k + 1] == b
  }

  /** The first n characters hold neither an end of input nor the pair. */
  predicate Clear(s: seq<byte>, n: nat, a: byte, b: byte) {
    n <= |s| && MYEOF !in s[..n] && forall k: nat :: k + 1 < n ==> !PairAt(s, k, a, b)
  }

  /** The pair appears at k, before any end of input, and nowhere earlier. */
  predicate FirstPair(s: seq<byte>, k: nat, a: byte, b: byte) {
    PairAt(s, k, a, b) && MYEOF !in s[..k] && forall j: nat :: j < k ==> !PairAt(s, j, a, b)
  }

  function TrimLeft(s: seq<byte>): seq<byte> {
    if s != [] && IsSpace(s[0]) then TrimLeft(s[1..]) else s
  }

  function TrimRight(s: seq<byte>): (t: seq<byte>)
    ensures t <= s
  {
    if s != [] && IsSpace(s[|s| - 1]) then TrimRight(s[..|s| - 1]) else s
  }

  lemma TrimLeftSnoc(s: seq<byte>, c: byte)
    ensures TrimLeft(s + [c]) == if TrimLeft(s) == [] && IsSpace(c) then [] else TrimLeft(s) + [c]
  {
    if s != [] && IsSpace(s[0]) {
      assert (s + [c])[1..] == s[1..] + [c];
      TrimLeftSnoc(s[1..], c);
    } else if s == [] {
      assert s + [c] == [c];
    }
  }

  lemma NewlinesSnoc(s: seq<byte>, n: nat)
    requires n < |s|
    ensures Newlines(s[..n + 1]) == Newlines(s[..n]) + if s[n] == NEWLINE then 1 else 0
  {
    assert s[..n + 1][..n] == s[..n];
  }

  lemma NothingAfterEof(s: seq<byte>, n: nat, a: byte, b: byte)
    requires Clear(s, n, a, b) && (n < |s| ==> s[n] == MYEOF) && a != MYEOF && b != MYEOF
    ensures forall k: nat :: !FirstPair(s, k, a, b)
  {
    forall k: nat
      ensures !FirstPair(s, k, a, b)
    {
      if n < k < |s| {
        assert s[..k][n] == MYEOF;
      }
    }
  }

  lemma ClearGrows(s: seq<byte>, n: nat, a: byte, b: byte)
    requires Clear(s, n, a, b) && n < |s| && s[n] != MYEOF && (n > 0 ==> !PairAt(s, n - 1, a, b))
    ensures Clear(s, n + 1, a, b)
  {
    assert s[..n + 1] == s[..n] + [s[n]];
  }

  lemma TrimRightSnoc(s: seq<byte>, c: byte)
    ensures TrimRight(s + [c]) == if IsSpace(c) then TrimRight(s) else s + [c]
  {
    assert (s + [c])[..|s|] == s;
  }

  /** Trimming one more character of s. */
  lemma TrimSnoc(s: seq<byte>, n: nat)
    requires n < |s|
    ensures var text := TrimLeft(s[..n]);
            var t := if text == [] && IsSpace(s[n]) then [] else text + [s[n]];
            TrimLeft(s[..n + 1]) == t && TrimRight(t) == if IsSpace(s[n]) then TrimRight(text) else t
  {
    TrimLeftSnoc(s[..n], s[n]);
    TrimRightSnoc(TrimLeft(s[..n]), s[n]);
    assert s[..n + 1] == s[..n] + [s[n]];
  }

  predicate WhiteByte(c: byte) {
    c == 32 || c == 9 || c == 10 || c == 11 || c == 12 || c == 13
  }

  /** The text from a to b has white space around it, and none at its ends. */
  predicate StandsAlone(s: seq<byte>, a: nat, b: nat) {
    a <= b <= |s| && (forall k :: 0 <= k < |s| && !(a <= k < b) ==> WhiteByte(s[k])) &&
    (a < b ==> !WhiteByte(s[a]) && !WhiteByte(s[b - 1]))
  }

  /** What is left of a text without the white space around it. */
  lemma {:induction false} TextIsTrimmed(s: seq<byte>) returns (a: nat, b: nat)
    ensures StandsAlone(s, a, b) && TrimRight(TrimLeft(s)) == s[a..b]
    decreases |s|
  {
    a, b := 0, |s|;
    if s != [] && IsSpace(s[0]) {
      var rest := s[1..];
      var c, d := TextIsTrimmed(rest);
      a, b := c + 1, d + 1;
      RestShifts(s, rest, c, d);
    } else if s != [] {
      b := EndIsTrimmed(s);
    }
  }

  lemma RestShifts(s: seq<byte>, rest: seq<byte>, a: nat, b: nat)
    requires s != [] && rest == s[1..] && WhiteByte(s[0]) && StandsAlone(rest, a, b)
    ensures rest[a..b] == s[a + 1..b + 1] && StandsAlone(s, a + 1, b + 1)
  {
    assert forall k :: 0 < k < |s| ==> s[k] == rest[k - 1];
  }

  lemma {:induction false} EndIsTrimmed(s: seq<byte>) returns (b: nat)
    requires s != [] && !IsSpace(s[0])
    ensures 0 < b <= |s| && TrimRight(s) == s[..b] && !WhiteByte(s[b - 1])
    ensures forall k :: b <= k < |s| ==> WhiteByte(s[k])
    decreases |s|
  {
    b := |s|;
    if IsSpace(s[|s| - 1]) {
      var init := s[..|s| - 1];
      b := EndIsTrimmed(init);
      assert init[..b] == s[..b];
    } else {
      assert s[..b] == s;
    }
  }

  class Parser {
    var input: seq<byte>
    var lineno: int
    const strbuf: array<byte>

    predicate Valid() {
      strbuf.Length == MAXSTRLEN + STRSLOP
    }

    constructor (input: seq<byte>)
      ensures Valid() && fresh(strbuf) && this.input == input && lineno == 1
    {
      this.input := input;
      lineno := 1;
      strbuf := new byte[MAXSTRLEN + STRSLOP](_ => 0);
    }

    method Input() returns (c: byte)
      modifies this`input
      ensures c == Head(old(input)) && input == Tail(old(input))
    {
      if input == [] {
        return MYEOF;
      }
      c := input[0];
      input := input[1..];
    }

    method Unput(c: byte)
      modifies this`input
      ensures input == [c] + old(input)
    {
      input := [c] + input;
    }

    method CollectOctalDigits(first: byte) returns (digits: seq<byte>)
      requires IsOctal(first)
      modifies this`input
      ensures var k := OctalRun(old(input), 3);
              digits == [first] + old(input)[..k] && input == AfterRun(old(input), k, 3)
    {
      digits := [first];
      ghost var before := input;
      ghost var k := 0;
      while |digits| <= 3
        invariant 0 <= k <= 3 && k <= |before| && |digits| == k + 1
        invariant forall i :: 0 <= i < k ==> IsOctal(before[i])
        invariant digits == [first] + before[..k] && input == before[k..]
      {
        var c := Input();
        if IsOctal(c) {
          digits := digits + [c];
          k := k + 1;
        } else {
          Unput(c);
          RunIs(before, k, 3);
          return;
        }
      }
      RunIs(before, k, 3);
    }

    /** Reads one element of a string and counts the newline it may hold. */
    method ReadPiece(quoted: bool) returns (p: Piece)
      modifies this`input, this`lineno
      ensures p == NextPiece(old(input), quoted) && input == p.rest
      ensures lineno == old(lineno) + if p.Char? then p.lines else if p.Dropped? then 1 else 0
    {
      var endOfString := if quoted then DQUOTE else MYEOF;
      var c := Input();
      if c == endOfString {
        return End([], input);
      } else if c == MYEOF {
        return Eof(input);
      } else if c == BACKSLASH {
        c := Input();
        if c == MYEOF {
          return if quoted then Eof(input) else End([BACKSLASH], input);
        } else if IsOctal(c) {
          var digits := CollectOctalDigits(c);
          var n := GetOctalEscape(digits, false);
          return Char(n % 256, input, 0);
        }
        var ce := GetCharEscape(c);
        if ce.None? {
          lineno := lineno + 1;
          return Dropped(input);
        }
        return Char(ce.value, input, 0);
      }
      if c == NEWLINE {
        lineno := lineno + 1;
      }
      return Char(c, input, if c == NEWLINE then 1 else 0);
    }

    /** The same, as a step of reading a whole string. */
    method ReadNext(quoted: bool, ghost nc: nat) returns (p: Piece)
      modifies this`input, this`lineno
      ensures StringFrom(old(input), quoted, nc) == GoOn(p, quoted, nc)
      ensures input == p.rest && lineno == old(lineno) + PieceLines(p)
      ensures |input| <= |old(input)| && (p.Char? || p.Dropped? ==> |input| < |old(input)|)
      ensures p.End? ==> p.last == [] || p.last == [BACKSLASH]
    {
      p := ReadPiece(quoted);
    }

    /** What reading the string will have produced, given what is collected and the element in hand. */
    ghost function Pending(quoted: bool, nc: nat, lines: nat, p: Piece): Outcome
      requires Valid() && nc <= MAXSTRLEN
      reads strbuf
    {
      Before(strbuf[..nc], lines, GoOn(p, quoted, nc))
    }

    /** Stores an element and reads the next one. */
    method Advance(quoted: bool, nc: nat, p: Piece, ghost lines: nat) returns (nc': nat, p': Piece)
      requires Valid() && nc <= MAXSTRLEN && input == p.rest && (p.Char? || p.Dropped?)
      modifies this`input, this`lineno, strbuf
      ensures nc' <= MAXSTRLEN + 1 && |input| <= |old(input)| && input == p'.rest
      ensures if nc' > MAXSTRLEN then
                old(Pending(quoted, nc, lines, p)) == Outcome(None, input, lines + PieceLines(p)) &&
                p' == p && lineno == old(lineno)
              else
                old(Pending(quoted, nc, lines, p)) == Pending(quoted, nc', lines + PieceLines(p), p') &&
                lineno == old(lineno) + PieceLines(p') &&
                (p'.Char? || p'.Dropped? ==> |input| < |old(input)|) &&
                (p'.End? ==> p'.last == [] || p'.last == [BACKSLASH])
    {
      ghost var text := strbuf[..nc];
      nc' := Store(nc, p);
      p' := p;
      if nc' <= MAXSTRLEN {
        BeforeTwice(text, lines, PieceText(p), PieceLines(p), StringFrom(input, quoted, nc'));
        p' := ReadNext(quoted, nc');
      }
    }

    /** Collects characters in strbuf until the string ends or grows too long. */
    method Collect(quoted: bool) returns (nc: nat, piece: Piece)
      requires Valid()
      modifies this`input, this`lineno, strbuf
      ensures nc <= MAXSTRLEN + 1 && lineno >= old(lineno) && (nc <= MAXSTRLEN ==> piece.End? || piece.Eof?)
      ensures piece.End? ==> piece.last == [] || piece.last == [BACKSLASH]
      ensures StringFrom(old(input), quoted, 0) ==
              Outcome(if nc > MAXSTRLEN || piece.Eof? then None else Some(strbuf[..nc] + piece.last),
                      input, lineno - old(lineno))
    {
      nc := 0;
      ghost var lines: nat := 0;
      piece := ReadNext(quoted, nc);
      BeforeNothing(GoOn(piece, quoted, 0));
      while piece.Char? || piece.Dropped?
        invariant nc <= MAXSTRLEN && input == piece.rest
        invariant lineno == old(lineno) + lines + PieceLines(piece)
        invariant StringFrom(old(input), quoted, 0) == Pending(quoted, nc, lines, piece)
        invariant piece.End? ==> piece.last == [] || piece.last == [BACKSLASH]
        decreases |input| + if piece.Char? || piece.Dropped? then 1 else 0
      {
        ghost var more := PieceLines(piece);
        nc, piece := Advance(quoted, nc, piece, lines);
        if nc > MAXSTRLEN {
          return;
        }
        lines := lines + more;
      }
    }

    /** Puts the character of an element into strbuf. */
    method Store(nc: nat, p: Piece) returns (nc': nat)
      requires Valid() && nc <= MAXSTRLEN
      modifies strbuf
      ensures nc' == nc + |PieceText(p)| && strbuf[..nc'] == old(strbuf[..nc]) + PieceText(p)
    {
      nc' := nc;
      if p.Char? {
        strbuf[nc] := p.value;
        nc' := nc + 1;
      }
    }

    /** Reads a string whose opening quote has been eaten, up to and including the closing one. */
    method GetString(quoted: bool) returns (r: Option<seq<byte>>)
      requires Valid()
      modifies this`input, this`lineno, strbuf
      ensures var o := StringFrom(old(input), quoted, 0);
              input == o.rest && lineno == old(lineno) + o.lines &&
              r == if o.text.Some? then Some(CutAtNul(o.text.value)) else None
    {
      var nc, piece := Collect(quoted);
      if nc > MAXSTRLEN || piece.Eof? {
        return None;
      }
      ghost var text := strbuf[..nc] + piece.last;
      if piece.last != [] {
        strbuf[nc] := BACKSLASH;
        nc := nc + 1;
      }
      assert strbuf[..nc] == text;
      strbuf[nc] := 0;
      var copy := strbuf[..nc];
      assert copy == text;
      r := Some(CutAtNul(copy));
    }

    /** n characters of s have been read and the last one is c; no comment has ended. */
    ghost predicate InComment(s: seq<byte>, n: nat, c: byte, line: int)
      reads this
    {
      1 <= n <= |s| && Clear(s, n, STAR, SLASH) && c == s[n - 1] && input == s[n..] &&
      lineno == line + Newlines(s[..n])
    }

    /** The comment has ended at its first star (42) and slash (47), and its newlines have been counted. */
    ghost predicate CommentClosed(s: seq<byte>, line: int)
      reads this
    {
      exists k: nat ::
        FirstPair(s, k, 42, 47) && input == s[k + 2..] && lineno == line + Newlines(s[..k + 2])
    }

    /** The input ended first: everything up to there has been read. */
    ghost predicate CommentOpen(s: seq<byte>, line: int)
      reads this
    {
      (forall k: nat :: !FirstPair(s, k, 42, 47)) &&
      exists n: nat ::
        n <= |s| && MYEOF !in s[..n] && (n < |s| ==> s[n] == MYEOF) &&
        input == Tail(s[n..]) && lineno == line + Newlines(s[..n])
    }

    /** Reads a character that does not end a comment, and counts it when it is a newline. */
    method ReadInComment(ghost s: seq<byte>, ghost n: nat, ghost line: int) returns (c: byte)
      requires n <= |s| && Clear(s, n, STAR, SLASH) && input == s[n..] && lineno == line + Newlines(s[..n])
      modifies this`input, this`lineno
      ensures c == Head(s[n..])
      ensures c == MYEOF ==> CommentOpen(s, line)
      ensures c != MYEOF && !(n > 0 && PairAt(s, n - 1, STAR, SLASH)) ==> InComment(s, n + 1, c, line)
      ensures n > 0 && PairAt(s, n - 1, STAR, SLASH) ==> CommentClosed(s, line)
    {
      c := Input();
      if c == MYEOF {
        NothingAfterEof(s, n, STAR, SLASH);
        return;
      }
      NewlinesSnoc(s, n);
      if n > 0 && PairAt(s, n - 1, STAR, SLASH) {
        assert s[..n - 1] == s[..n][..n - 1];
        assert FirstPair(s, n - 1, STAR, SLASH);
      } else {
        ClearGrows(s, n, STAR, SLASH);
      }
      if c == NEWLINE {
        lineno := lineno + 1;
      }
    }

    /** Skips a comment whose opening has been eaten: 0 when it is closed, -1 at the end of input. */
    method SkipComment() returns (rc: int)
      modifies this`input, this`lineno
      ensures rc == 0 || rc == -1
      ensures rc == 0 ==> CommentClosed(old(input), old(lineno))
      ensures rc == -1 ==> CommentOpen(old(input), old(lineno))
    {
      ghost var s, n, line := input, 0, lineno;
      var c := ReadInComment(s, n, line);
      while c != MYEOF
        invariant c == MYEOF ==> CommentOpen(s, line)
        invariant c != MYEOF ==> InComment(s, n + 1, c, line)
        decreases |s| - n
      {
        n := n + 1;
        var again := true;
        while again
          invariant InComment(s, n, c, line) && (!again ==> c != STAR)
          decreases |s| - n, again
        {
          again := false;
          var ended;
          c, n, ended := SkipStars(c, s, n, line);
          if ended {
            return 0;
          } else if c == MYEOF {
            return -1;
          }
          c, n, again := SkipSlashes(c, s, n, line);
          if c == MYEOF {
            return -1;
          }
        }
        c := ReadInComment(s, n, line);
      }
      return -1;
    }

    /** Reads on while the last character is a star. */
    method SkipStars(c0: byte, ghost s: seq<byte>, ghost n0: nat, ghost line: int)
      returns (c: byte, ghost n: nat, ended: bool)
      requires InComment(s, n0, c0, line)
      modifies this`input, this`lineno
      ensures ended ==> CommentClosed(s, line)
      ensures !ended && c == MYEOF ==> CommentOpen(s, line)
      ensures !ended && c != MYEOF ==> n0 <= n && InComment(s, n, c, line) && c != STAR
    {
      c, n, ended := c0, n0, false;
      while c == STAR
        invariant n0 <= n && InComment(s, n, c, line)
        decreases |s| - n
      {
        c := ReadInComment(s, n, line);
        if c == SLASH {
          ended := true;
          return;
        } else if c == MYEOF {
          return;
        }
        n := n + 1;
      }
      assert s[..n][n - 1] == c;
    }

    /** Reads on while the last character is a slash; a star after one starts over with the stars. */
    method SkipSlashes(c0: byte, ghost s: seq<byte>, ghost n0: nat, ghost line: int)
      returns (c: byte, ghost n: nat, again: bool)
      requires InComment(s, n0, c0, line) && c0 != STAR && c0 != MYEOF
      modifies this`input, this`lineno
      ensures c == MYEOF ==> CommentOpen(s, line)
      ensures c != MYEOF ==> n0 <= n && InComment(s, n, c, line) && (again <==> c == STAR) && (again ==> n0 < n)
    {
      c, n, again := c0, n0, false;
      while c == SLASH && !again
        invariant n0 <= n && InComment(s, n, c, line) && c != MYEOF
        invariant (again <==> c == STAR) && (again ==> n0 < n)
        decreases |s| - n
      {
        c := ReadInComment(s, n, line);
        if c == MYEOF {
          return;
        }
        n := n + 1;
        again := c == STAR;
      }
    }

    /** n characters of s have been read, the block goes on, and strbuf holds what they leave. */
    ghost predicate InBlock(s: seq<byte>, n: nat, nc: nat, last: int, line: int)
      requires Valid()
      reads this, strbuf
    {
      n <= |s| && Clear(s, n, RBRACE, RBRACE) && (n > 0 && s[n - 1] == RBRACE ==> Head(s[n..]) != RBRACE) &&
      (input == s[n..] || (n == |s| && input == [MYEOF])) && lineno == line + Newlines(s[..n]) &&
      nc <= MAXSTRLEN + 1 && strbuf[..nc] == TrimLeft(s[..n]) &&
      last == |TrimRight(strbuf[..nc])| - 1 && (nc > 0 ==> last >= 0)
    }

    /** Reads a character of a text block, and the next one too when it may end the block. */
    method ReadInBlock(ghost s: seq<byte>, ghost n: nat, ghost nc: nat, ghost last: int, ghost line: int)
      returns (c: byte, ended: bool)
      requires Valid() && InBlock(s, n, nc, last, line)
      modifies this`input
      ensures c == MYEOF ==> forall k: nat :: !FirstPair(s, k, RBRACE, RBRACE)
      ensures c != MYEOF && ended ==> FirstPair(s, n, RBRACE, RBRACE) && input == s[n + 2..]
      ensures c != MYEOF && !ended ==>
                n < |s| && c == s[n] && (input == s[n + 1..] || (n + 1 == |s| && input == [MYEOF])) &&
                (c == RBRACE ==> Head(input) != RBRACE)
    {
      c := Input();
      ended := false;
      if c == MYEOF {
        NothingAfterEof(s, n, RBRACE, RBRACE);
      } else if c == RBRACE {
        var d := Input();
        if d == RBRACE {
          ended := true;
        } else {
          Unput(d);
        }
      }
    }

    /** Stores the next character of a text block. */
    method StoreInBlock(c: byte, nc0: nat, last0: int, ghost s: seq<byte>, ghost n: nat, ghost line: int)
      returns (nc: nat, last: int)
      requires Valid() && n < |s| && c == s[n] != MYEOF && nc0 <= MAXSTRLEN
      requires (input == s[n + 1..] || (n + 1 == |s| && input == [MYEOF])) && (c == RBRACE ==> Head(input) != RBRACE)
      requires Clear(s, n, RBRACE, RBRACE) && (n > 0 && s[n - 1] == RBRACE ==> c != RBRACE)
      requires lineno == line + Newlines(s[..n]) && strbuf[..nc0] == TrimLeft(s[..n])
      requires last0 == |TrimRight(strbuf[..nc0])| - 1 && (nc0 > 0 ==> last0 >= 0)
      modifies this`lineno, strbuf
      ensures InBlock(s, n + 1, nc, last, line)
    {
      ghost var text := strbuf[..nc0];
      nc, last := nc0, last0;
      if IsSpace(c) {
        if c == NEWLINE {
          lineno := lineno + 1;
        }
        if last >= 0 {
          strbuf[nc] := c;
          nc := nc + 1;
        }
      } else {
        last := nc;
        strbuf[nc] := c;
        nc := nc + 1;
      }
      assert strbuf[..nc] == if text == [] && IsSpace(c) then [] else text + [c];
      NewlinesSnoc(s, n);
      ClearGrows(s, n, RBRACE, RBRACE);
      TrimSnoc(s, n);
    }

    /** The block ended at its first closing pair, and r is its text without the white space around it. */
    ghost predicate BlockRead(s: seq<byte>, line: int, r: seq<byte>)
      reads this
    {
      exists k: nat ::
        FirstPair(s, k, 125, 125) && |TrimLeft(s[..k])| <= MAXSTRLEN &&
        r == TrimRight(TrimLeft(s[..k])) && input == s[k + 2..] && lineno == line + Newlines(s[..k])
    }

    /** Reads a text block whose opening has been eaten, without the white space around it. */
    method GetTextBlock() returns (r: Option<seq<byte>>)
      requires Valid()
      modifies this`input, this`lineno, strbuf
      ensures r.Some? ==> BlockRead(old(input), old(lineno), r.value)
      ensures r.None? ==> forall k: nat ::
                FirstPair(old(input), k, 125, 125) ==> |TrimLeft(old(input)[..k])| > MAXSTRLEN
    {
      ghost var s, n, line := input, 0, lineno;
      var nc: nat, lastNonSpace: int := 0, -1;
      while true
        invariant InBlock(s, n, nc, lastNonSpace, line) && nc <= MAXSTRLEN
        decreases |s| - n
      {
        var c, ended := ReadInBlock(s, n, nc, lastNonSpace, line);
        if c == MYEOF {
          return None;
        } else if ended {
          break;
        }
        nc, lastNonSpace := StoreInBlock(c, nc, lastNonSpace, s, n, line);
        n := n + 1;
        if nc > MAXSTRLEN {
          TooLong(s, n);
          return None;
        }
      }
      var text := EndBlock(nc, lastNonSpace);
      return Some(text);
    }

    /** Drops the trailing white space of a finished block. */
    method EndBlock(nc: nat, last: int) returns (text: seq<byte>)
      requires Valid() && nc <= MAXSTRLEN && last == |TrimRight(strbuf[..nc])| - 1
      modifies strbuf
      ensures text == old(TrimRight(strbuf[..nc]))
    {
      if last < 0 {
        return [];
      }
      strbuf[last + 1] := 0;
      text := strbuf[..last + 1];
      assert text == old(strbuf[..nc])[..last + 1];
    }
  }

  /** Text that is too long already stays too long up to the end of the block. */
  lemma TooLong(s: seq<byte>, n: nat)
    requires Clear(s, n, RBRACE, RBRACE) && (n > 0 && s[n - 1] == RBRACE ==> Head(s[n..]) != RBRACE)
    requires |TrimLeft(s[..n])| > MAXSTRLEN
    ensures forall k: nat :: FirstPair(s, k, RBRACE, RBRACE) ==> |TrimLeft(s[..k])| > MAXSTRLEN
  {
    forall k: nat | FirstPair(s, k, RBRACE, RBRACE)
      ensures |TrimLeft(s[..k])| > MAXSTRLEN
    {
      if k + 1 >= n {
        TrimLeftGrows(s, n, k);
      }
    }
  }

  lemma {:induction false} TrimLeftGrows(s: seq<byte>, n: nat, k: nat)
    requires n <= k <= |s|
    ensures |TrimLeft(s[..n])| <= |TrimLeft(s[..k])|
    decreases k
  {
    if n < k {
      TrimLeftGrows(s, n, k - 1);
      assert s[..k] == s[..k - 1] + [s[k - 1]];
      TrimLeftSnoc(s[..k - 1], s[k - 1]);
    }
  }

  // Reading back what was printed.

  /** No octal digit follows a character that is printed in octal. */
  predicate NoDigitAfterOctal(s: seq<byte>) {
    forall i :: 0 <= i < |s| - 1 && (s[i] < 7 || 14 <= s[i] <= 31 || s[i] > 126) ==> !(48 <= s[i + 1] <= 55)
  }

  lemma PrintedInOctal(c: byte)
    ensures OctalEscaped(c) <==> c < 7 || 14 <= c <= 31 || c > 126
  {
  }

  /** How many of the characters after the first are read as digits of its octal escape. */
  function Swallowed(s: seq<byte>): (k: nat)
    requires s != []
    ensures k < |s|
  {
    if OctalEscaped(s[0]) then OctalRun(s[1..], 4 - |Octal(s[0])|) else 0
  }

  /** What reading the printed form of s yields. */
  function ReadAs(s: seq<byte>): seq<byte> {
    if s == [] then [] else [FirstValue(s)] + ReadAs(AfterSwallowed(s))
  }

  function AfterSwallowed(s: seq<byte>): (rest: seq<byte>)
    requires s != []
    ensures |s| == 1 + Swallowed(s) + |rest|
  {
    s[1 + Swallowed(s)..]
  }

  function FirstValue(s: seq<byte>): byte
    requires s != []
  {
    if OctalEscaped(s[0]) then OctalValue(Octal(s[0]) + s[1..1 + Swallowed(s)]) % 256 else s[0]
  }

  lemma ShortOctals(a: byte, b: byte, d: byte)
    requires IsOctal(a) && IsOctal(b) && IsOctal(d)
    ensures OctalValue([a]) == Digit(a) && OctalValue([a, b]) == Digit(a) * 8 + Digit(b)
    ensures OctalValue([a, b, d]) == (Digit(a) * 8 + Digit(b)) * 8 + Digit(d)
  {
    assert [a, b][..1] == [a] && [a, b, d][..2] == [a, b];
  }

  lemma OctalIsExact(c: byte)
    ensures OctalValue(Octal(c)) == c
  {
    var s := Octal(c);
    ShortOctals(s[0], if |s| > 1 then s[1] else s[0], if |s| > 2 then s[2] else s[0]);
    var high := c / 8;
    assert c / 64 == high / 8;
  }

  /** A printed string, its closing quote, and what follows. */
  function Quoted(s: seq<byte>, tail: seq<byte>): seq<byte> {
    AddEscapes(s) + [DQUOTE] + tail
  }

  lemma QuotedStep(s: seq<byte>, tail: seq<byte>)
    requires s != []
    ensures Quoted(s, tail) == Escape(s[0]) + Quoted(s[1..], tail)
  {
  }

  lemma {:induction false} DigitsPrintPlain(d: seq<byte>)
    requires forall i :: 0 <= i < |d| ==> IsOctal(d[i])
    ensures AddEscapes(d) == d
  {
    if d != [] {
      var rest := d[1..];
      DigitsPrintPlain(rest);
      assert Escape(d[0]) == [d[0]] && d == [d[0]] + rest;
    }
  }

  lemma QuotedHead(s: seq<byte>, tail: seq<byte>)
    ensures Quoted(s, tail) != []
    ensures s == [] || !IsOctal(s[0]) ==> !IsOctal(Quoted(s, tail)[0])
  {
    if s != [] {
      assert Quoted(s, tail)[0] == Escape(s[0])[0];
    }
  }

  lemma QuotedConcat(d: seq<byte>, s: seq<byte>, tail: seq<byte>)
    requires AddEscapes(d) == d
    ensures Quoted(d + s, tail) == d + Quoted(s, tail)
  {
    AddEscapesConcat(d, s);
  }

  /** Digits are printed as themselves, so the run of digits after an escape is the run in s. */
  lemma PrintedRun(s: seq<byte>, tail: seq<byte>, n: nat)
    ensures var k, rest := OctalRun(s, n), Quoted(s[OctalRun(s, n)..], tail);
            Quoted(s, tail) == s[..k] + rest && rest != [] && (k < n ==> !IsOctal(rest[0]))
  {
    var k := OctalRun(s, n);
    DigitsPrintPlain(s[..k]);
    QuotedConcat(s[..k], s[k..], tail);
    assert s == s[..k] + s[k..];
    QuotedHead(s[k..], tail);
  }

  /** An octal escape is read together with the digits that follow it. */
  lemma OctalPiece(s: seq<byte>, tail: seq<byte>)
    requires s != [] && OctalEscaped(s[0])
    ensures var k := Swallowed(s);
            NextPiece(Quoted(s, tail), true) ==
            Char(OctalValue(Octal(s[0]) + s[1..1 + k]) % 256, Quoted(s[1 + k..], tail), 0)
  {
    var o, k := Octal(s[0]), Swallowed(s);
    var d, rest := s[1..1 + k], Quoted(s[1 + k..], tail);
    assert Quoted(s[1..], tail) == d + rest && rest != [] && (k < 4 - |o| ==> !IsOctal(rest[0])) by {
      PrintedRun(s[1..], tail, 4 - |o|);
      assert s[1..][..k] == d && s[1..][k..] == s[1 + k..];
    }
    QuotedOctal(s, tail);
    assert Quoted(s, tail) == [BACKSLASH] + (o + (d + rest));
    DigitsPiece(Quoted(s, tail), o, d, rest);
  }

  lemma QuotedOctal(s: seq<byte>, tail: seq<byte>)
    requires s != [] && OctalEscaped(s[0])
    ensures Quoted(s, tail) == [BACKSLASH] + (Octal(s[0]) + Quoted(s[1..], tail))
  {
    QuotedStep(s, tail);
  }

  /** A backslash and a run of digits are one element. */
  lemma RunPiece(input: seq<byte>, quoted: bool, first: byte, more: seq<byte>, r: nat)
    requires IsOctal(first) && input == [BACKSLASH] + ([first] + more) && OctalRun(more, 3) == r < |more|
    ensures forall i :: 0 <= i < |[first] + more[..r]| ==> IsOctal(([first] + more[..r])[i])
    ensures NextPiece(input, quoted) == Char(OctalValue([first] + more[..r]) % 256, more[r..], 0)
  {
    assert Tail(input) == [first] + more && Tail(Tail(input)) == more;
  }

  /** A backslash, the digits o and the digits d that follow are one element. */
  lemma DigitsPiece(input: seq<byte>, o: seq<byte>, d: seq<byte>, rest: seq<byte>)
    requires 1 <= |o| <= 3 && (forall i :: 0 <= i < |o| ==> IsOctal(o[i])) && rest != []
    requires forall i :: 0 <= i < |d| ==> IsOctal(d[i])
    requires |d| <= 4 - |o| && (|d| < 4 - |o| ==> !IsOctal(rest[0]))
    requires input == [BACKSLASH] + (o + (d + rest))
    ensures forall i :: 0 <= i < |o + d| ==> IsOctal((o + d)[i])
    ensures NextPiece(input, true) == Char(OctalValue(o + d) % 256, rest, 0)
  {
    var more, r := o[1..] + d + rest, |o| - 1 + |d|;
    HeadTail(o, d, rest);
    RunAcross(o, d, rest);
    RunPiece(input, true, o[0], more, r);
  }

  lemma RunAcross(o: seq<byte>, d: seq<byte>, rest: seq<byte>)
    requires 1 <= |o| <= 3 && (forall i :: 0 <= i < |o| ==> IsOctal(o[i])) && rest != []
    requires forall i :: 0 <= i < |d| ==> IsOctal(d[i])
    requires |d| <= 4 - |o| && (|d| < 4 - |o| ==> !IsOctal(rest[0]))
    ensures OctalRun(o[1..] + d + rest, 3) == |o| - 1 + |d|
  {
    RunIs(o[1..] + d + rest, |o| - 1 + |d|, 3);
  }

  lemma HeadTail(o: seq<byte>, d: seq<byte>, rest: seq<byte>)
    requires o != []
    ensures var more, r := o[1..] + d + rest, |o| - 1 + |d|;
            o + (d + rest) == o + d + rest == [o[0]] + more &&
            more[r..] == rest && [o[0]] + more[..r] == o + d
  {
    assert o == [o[0]] + o[1..];
    assert (o[1..] + d + rest)[..|o| - 1 + |d|] == o[1..] + d;
  }

  lemma PrintedPiece(s: seq<byte>, tail: seq<byte>)
    requires s != [] && !OctalEscaped(s[0])
    ensures NextPiece(Quoted(s, tail), true) ==
            Char(s[0], Quoted(s[1..], tail), 0)
  {
    var x, input, l := Quoted(s[1..], tail), Quoted(s, tail), EscapeLetter(s[0]);
    QuotedStep(s, tail);
    if l != 0 {
      assert input == [BACKSLASH, l] + x;
      assert Tail(input) == [l] + x && Tail(Tail(input)) == x;
      assert !IsOctal(l) && GetCharEscape(l) == Some(s[0]);
    } else {
      assert input == [s[0]] + x && Tail(input) == x;
    }
  }

  /** The input is read piece by piece as the characters d, up to a closing quote. */
  predicate ReadsAs(input: seq<byte>, d: seq<byte>, tail: seq<byte>)
    decreases |d|
  {
    if d == [] then NextPiece(input, true) == End([], tail)
    else
      var p := NextPiece(input, true);
      p.Char? && p.value == d[0] && p.lines == 0 && ReadsAs(p.rest, d[1..], tail)
  }

  lemma {:induction false} PrintedReads(s: seq<byte>, tail: seq<byte>)
    ensures ReadsAs(Quoted(s, tail), ReadAs(s), tail)
    decreases |s|
  {
    if s == [] {
      var input := Quoted(s, tail);
      assert Tail(input) == tail;
    } else {
      if OctalEscaped(s[0]) {
        OctalPiece(s, tail);
      } else {
        PrintedPiece(s, tail);
      }
      var rest := AfterSwallowed(s);
      PrintedReads(rest, tail);
      assert ReadAs(s)[1..] == ReadAs(rest);
    }
  }

  /** The outcome of reading d up to its closing quote, when nc characters came before it. */
  predicate Yields(o: Outcome, d: seq<byte>, tail: seq<byte>, nc: nat) {
    o.lines == 0 &&
    if nc + |d| <= MAXSTRLEN then o.text == Some(d) && o.rest == tail else o.text == None
  }

  lemma YieldsOneMore(o: Outcome, d: seq<byte>, tail: seq<byte>, nc: nat)
    requires d != [] && Yields(o, d[1..], tail, nc + 1)
    ensures Yields(Before([d[0]], 0, o), d, tail, nc)
  {
    assert d == [d[0]] + d[1..];
  }

  lemma {:induction false} ReadingYields(input: seq<byte>, d: seq<byte>, tail: seq<byte>, nc: nat)
    requires nc <= MAXSTRLEN && ReadsAs(input, d, tail)
    ensures Yields(StringFrom(input, true, nc), d, tail, nc)
    decreases |d|
  {
    if d != [] && nc + 1 <= MAXSTRLEN {
      var rest := NextPiece(input, true).rest;
      ReadingYields(rest, d[1..], tail, nc + 1);
      YieldsOneMore(StringFrom(rest, true, nc + 1), d, tail, nc);
    }
  }

  /** Nothing printed in octal has a digit after it, told from the front. */
  predicate NothingLost(s: seq<byte>) {
    |s| <= 1 || (!(OctalEscaped(s[0]) && IsOctal(s[1])) && NothingLost(s[1..]))
  }

  lemma {:induction false} NothingIsLost(s: seq<byte>)
    ensures NothingLost(s) <==> NoDigitAfterOctal(s)
  {
    if |s| > 1 {
      var rest := s[1..];
      NothingIsLost(rest);
      PrintedInOctal(s[0]);
      assert forall i :: 0 <= i < |rest| ==> rest[i] == s[i + 1];
      if NoDigitAfterOctal(rest) && !(OctalEscaped(s[0]) && IsOctal(s[1])) {
        forall i | 0 <= i < |s| - 1 && (s[i] < 7 || 14 <= s[i] <= 31 || s[i] > 126)
          ensures !(48 <= s[i + 1] <= 55)
        {
          if i > 0 {
            assert rest[i - 1] == s[i];
          }
        }
      }
    }
  }

  lemma {:induction false} ReadingLoses(s: seq<byte>)
    ensures |ReadAs(s)| <= |s|
    ensures if NothingLost(s) then ReadAs(s) == s else |ReadAs(s)| < |s|
  {
    if s != [] {
      var rest := AfterSwallowed(s);
      ReadingLoses(rest);
      LossStep(s, rest);
    }
  }

  /** A loss in the first character, or in the rest. */
  lemma LossStep(s: seq<byte>, rest: seq<byte>)
    requires s != [] && rest == AfterSwallowed(s)
    ensures Swallowed(s) > 0 ==> !NothingLost(s)
    ensures Swallowed(s) == 0 ==>
              FirstValue(s) == s[0] && s == [s[0]] + rest && (NothingLost(s) <==> NothingLost(rest))
  {
    SwallowsNone(s);
    if Swallowed(s) == 0 {
      FirstIsExact(s);
      assert rest == s[1..];
    }
  }

  /** Reading never yields more characters than were printed, and the same ones exactly when none is swallowed. */
  lemma ReadAsIsExact(s: seq<byte>)
    ensures |ReadAs(s)| <= |s|
    ensures NoDigitAfterOctal(s) ==> ReadAs(s) == s
    ensures !NoDigitAfterOctal(s) ==> |ReadAs(s)| < |s|
  {
    NothingIsLost(s);
    ReadingLoses(s);
  }

  lemma FirstIsExact(s: seq<byte>)
    requires s != [] && Swallowed(s) == 0
    ensures FirstValue(s) == s[0]
  {
    if OctalEscaped(s[0]) {
      OctalIsExact(s[0]);
      assert Octal(s[0]) + s[1..1] == Octal(s[0]);
    }
  }

  lemma SwallowsNone(s: seq<byte>)
    requires s != []
    ensures Swallowed(s) == 0 <==> |s| == 1 || !OctalEscaped(s[0]) || !IsOctal(s[1])
  {
    var more := s[1..];
    if more != [] {
      assert more[0] == s[1];
    }
  }

  /** What get_string returns for an input. */
  function ReadString(input: seq<byte>): Option<seq<byte>> {
    var o := StringFrom(input, true, 0);
    if o.text.Some? then Some(CutAtNul(o.text.value)) else None
  }

  /**
   A printed string, closed by a quote, is read back exactly when it is short enough, holds no
   NUL and has no octal digit right after a character that is printed in octal; the input is then
   consumed up to the closing quote, and no line is counted.
   */
  lemma QuotedStringRoundTrip(s: seq<byte>, tail: seq<byte>)
    ensures ReadString(Quoted(s, tail)) == Some(s) <==>
            |s| <= 10240 && 0 !in s && NoDigitAfterOctal(s)
    ensures ReadString(Quoted(s, tail)) == Some(s) ==>
              StringFrom(Quoted(s, tail), true, 0) == Outcome(Some(s), tail, 0)
  {
    PrintedReads(s, tail);
    ReadingYields(Quoted(s, tail), ReadAs(s), tail, 0);
    ReadAsIsExact(s);
  }

  /** A string with a digit after a character printed in octal, at any place, is not read back. */
  lemma DigitAfterOctalIsLost(s: seq<byte>, i: nat, tail: seq<byte>)
    requires i + 1 < |s| && (s[i] < 7 || 14 <= s[i] <= 31 || s[i] > 126) && 48 <= s[i + 1] <= 55
    ensures ReadString(Quoted(s, tail)) != Some(s)
  {
    QuotedStringRoundTrip(s, tail);
  }

  // Strings as they are written in a catalog.

  /** A character, a backslash and a letter, a backslash and octal digits, or a backslash before a newline. */
  datatype Element = Plain(c: byte) | Letter(c: byte) | Code(digits: seq<byte>) | Joined

  predicate GoodElement(e: Element, quoted: bool) {
    match e
    case Plain(c) => c != 0 && c != 92 && (quoted ==> c != 34)
    case Letter(c) => c != 0 && c != 10 && !(48 <= c <= 55)
    case Code(digits) => 1 <= |digits| <= 4 && forall i :: 0 <= i < |digits| ==> 48 <= digits[i] <= 55
    case Joined => true
  }

  function ElementText(e: Element): (t: seq<byte>)
    ensures t != []
  {
    match e
    case Plain(c) => [c]
    case Letter(c) => [92, c]
    case Code(digits) => [92] + digits
    case Joined => [92, 10]
  }

  function CodeNumber(d: seq<byte>): nat
    requires d != [] && forall i :: 0 <= i < |d| ==> 48 <= d[i] <= 55
  {
    var a: nat := d[0] - 48;
    if |d| == 1 then a
    else
      var b: nat := d[1] - 48;
      if |d| == 2 then a * 8 + b
      else
        var c: nat := d[2] - 48;
        a * 64 + b * 8 + c
  }

  /** What an element stands for: of a code, the first three digits count. */
  function ElementValue(e: Element): seq<byte>
    requires GoodElement(e, false)
  {
    match e
    case Plain(c) => [c]
    case Letter(c) =>
      var letters: map<byte, byte> := map[97 := 7, 98 := 8, 102 := 12, 110 := 10, 114 := 13, 116 := 9, 118 := 11];
      [if c in letters then letters[c] else c]
    case Code(digits) => [CodeNumber(digits) % 256]
    case Joined => []
  }

  /** A code of fewer than four digits is not followed by one more. */
  predicate GoodElements(es: seq<Element>, quoted: bool) {
    (forall i :: 0 <= i < |es| ==> GoodElement(es[i], quoted)) &&
    forall i :: 0 <= i < |es| - 1 && es[i].Code? && |es[i].digits| < 4 && es[i + 1].Plain? ==> !IsOctal(es[i + 1].c)
  }

  function ElementsText(es: seq<Element>): seq<byte> {
    if es == [] then [] else ElementText(es[0]) + ElementsText(es[1..])
  }

  function ElementsValue(es: seq<Element>): seq<byte>
    requires forall i :: 0 <= i < |es| ==> GoodElement(es[i], false)
  {
    if es == [] then [] else ElementValue(es[0]) + ElementsValue(es[1..])
  }

  /** An element is read from the front of the input as one piece. */
  lemma ElementIsRead(e: Element, quoted: bool, rest: seq<byte>)
    requires GoodElement(e, quoted) && rest != [] && (e.Code? && |e.digits| < 4 ==> !IsOctal(rest[0]))
    ensures NextPiece(ElementText(e) + rest, quoted) ==
            match e
            case Plain(c) => Char(c, rest, if c == 10 then 1 else 0)
            case Joined => Dropped(rest)
            case _ => Char(ElementValue(e)[0], rest, 0)
  {
    var input := ElementText(e) + rest;
    match e
    case Plain(c) =>
      assert input[1..] == rest;
    case Letter(c) =>
      assert Tail(input) == [c] + rest && Tail(Tail(input)) == rest;
    case Joined =>
      assert Tail(input) == [10] + rest && Tail(Tail(input)) == rest;
    case Code(d) =>
      CodeIsRead(d, quoted, rest, input);
  }

  lemma CodeIsRead(d: seq<byte>, quoted: bool, rest: seq<byte>, input: seq<byte>)
    requires GoodElement(Code(d), quoted) && rest != [] && (|d| < 4 ==> !IsOctal(rest[0]))
    requires input == [92] + d + rest
    ensures NextPiece(input, quoted) == Char(ElementValue(Code(d))[0], rest, 0)
  {
    var first, later, k := [d[0]], d[1..], |d| - 1;
    var more := later + rest;
    assert d == first + later;
    assert more[..k] == later && more[k..] == rest;
    RunIs(more, k, 3);
    assert input == [92] + (first + more);
    RunPiece(input, quoted, d[0], more, k);
    CodeValue(d);
  }

  lemma CodeValue(d: seq<byte>)
    requires GoodElement(Code(d), false)
    ensures OctalValue(d) == CodeNumber(d)
  {
    if |d| == 1 {
      ShortOctals(d[0], 48, 48);
      assert d == [d[0]];
    } else if |d| == 2 {
      ShortOctals(d[0], d[1], 48);
      assert d == [d[0], d[1]];
    } else {
      var first := d[..3];
      ShortOctals(d[0], d[1], d[2]);
      assert first == [d[0], d[1], d[2]];
      assert |d| == 3 ==> d == first;
    }
  }

  lemma {:induction false} NewlinesFirst(c: byte, s: seq<byte>)
    ensures Newlines([c] + s) == (if c == 10 then 1 else 0) + Newlines(s)
    decreases |s|
  {
    var t := [c] + s;
    if s == [] {
      assert t[..0] == [];
    } else {
      assert t[..|s|] == [c] + s[..|s| - 1] && t[|s|] == s[|s| - 1];
      NewlinesFirst(c, s[..|s| - 1]);
    }
  }

  lemma {:induction false} NewlinesConcat(s: seq<byte>, t: seq<byte>)
    ensures Newlines(s + t) == Newlines(s) + Newlines(t)
    decreases |s|
  {
    if s == [] {
      assert s + t == t;
    } else {
      var rest := s[1..];
      assert s == [s[0]] + rest && s + t == [s[0]] + (rest + t);
      NewlinesFirst(s[0], rest);
      NewlinesFirst(s[0], rest + t);
      NewlinesConcat(rest, t);
    }
  }

  lemma {:induction false} NoNewlines(s: seq<byte>)
    requires 10 !in s
    ensures Newlines(s) == 0
  {
    if s != [] {
      NoNewlines(s[..|s| - 1]);
    }
  }

  /** The lines counted in an element are those of the input it takes. */
  lemma PieceCountsNewlines(input: seq<byte>, quoted: bool)
    ensures var p := NextPiece(input, quoted); PieceLines(p) + Newlines(p.rest) == Newlines(input)
  {
    var c, rest := Head(input), Tail(input);
    HeadCounts(input);
    if c == BACKSLASH {
      HeadCounts(rest);
      if IsOctal(Head(rest)) {
        RunCounts(Tail(rest), OctalRun(Tail(rest), 3));
      }
    }
  }

  lemma HeadCounts(input: seq<byte>)
    ensures Newlines(input) == (if Head(input) == 10 then 1 else 0) + Newlines(Tail(input))
  {
    if input != [] {
      assert input == [input[0]] + input[1..];
      NewlinesFirst(input[0], input[1..]);
    }
  }

  lemma RunCounts(input: seq<byte>, k: nat)
    requires k <= |input| && forall i :: 0 <= i < k ==> IsOctal(input[i])
    ensures Newlines(AfterRun(input, k, 3)) == Newlines(input)
  {
    assert input == input[..k] + input[k..];
    NewlinesConcat(input[..k], input[k..]);
    NoNewlines(input[..k]);
    NoNewlines([MYEOF]);
  }

  /** Whatever the input, the lines counted in reading a string are the newlines it takes. */
  lemma {:induction false} StringCountsNewlines(input: seq<byte>, quoted: bool, nc: nat)
    ensures var o := StringFrom(input, quoted, nc); o.lines + Newlines(o.rest) == Newlines(input)
    decreases |input|
  {
    PieceCountsNewlines(input, quoted);
    match NextPiece(input, quoted)
    case Char(_, rest, _) => StringCountsNewlines(rest, quoted, nc + 1);
    case Dropped(rest) => StringCountsNewlines(rest, quoted, nc);
    case _ =>
  }

  /** How the elements after the first go on. */
  lemma LaterElements(es: seq<Element>, quoted: bool, close: seq<byte>)
    requires es != [] && GoodElements(es, quoted) && close != [] && !IsOctal(close[0])
    ensures GoodElements(es[1..], quoted)
    ensures var rest := ElementsText(es[1..]) + close;
            rest != [] && (es[0].Code? && |es[0].digits| < 4 ==> !IsOctal(rest[0]))
    ensures ElementsText(es) + close == ElementText(es[0]) + (ElementsText(es[1..]) + close)
  {
    var more := es[1..];
    assert forall i :: 0 <= i < |more| ==> more[i] == es[i + 1];
    ConcatAssociates(ElementText(es[0]), ElementsText(more), close);
    if more != [] {
      assert (ElementsText(more) + close)[0] == ElementText(more[0])[0];
    }
  }

  lemma OneMoreElement(e: Element, quoted: bool, rest: seq<byte>, nc: nat, n: nat)
    requires GoodElement(e, quoted) && rest != [] && (e.Code? && |e.digits| < 4 ==> !IsOctal(rest[0]))
    requires nc <= MAXSTRLEN && n == nc + |ElementValue(e)|
    ensures var o, more := StringFrom(ElementText(e) + rest, quoted, nc), StringFrom(rest, quoted, n);
            if n > MAXSTRLEN then o.text == None
            else
              o.rest == more.rest &&
              o.text == if more.text.Some? then Some(ElementValue(e) + more.text.value) else None
  {
    ElementIsRead(e, quoted, rest);
  }

  /**
   A string as it is written is read as the values of its elements, when they are not too many; an escaped
   newline stands for nothing. The input is consumed up to the closing character and its newlines counted.
   */
  lemma {:induction false} WrittenStringIsRead(es: seq<Element>, quoted: bool, tail: seq<byte>, nc: nat)
    requires GoodElements(es, quoted) && nc <= MAXSTRLEN
    ensures var closed := [if quoted then 34 else 0] + tail;
            var o := StringFrom(ElementsText(es) + closed, quoted, nc);
            if nc + |ElementsValue(es)| <= MAXSTRLEN then o.text == Some(ElementsValue(es)) && o.rest == tail
            else o.text == None
    decreases |es|
  {
    var closed := [if quoted then 34 else 0] + tail;
    if es == [] {
      assert ElementsText(es) + closed == closed && Tail(closed) == tail;
    } else {
      var rest := ElementsText(es[1..]) + closed;
      LaterElements(es, quoted, closed);
      var n := nc + |ElementValue(es[0])|;
      OneMoreElement(es[0], quoted, rest, nc, n);
      if n <= MAXSTRLEN {
        WrittenStringIsRead(es[1..], quoted, tail, n);
      }
    }
  }

  /** A quoted string that is not closed fails. */
  lemma {:induction false} UnclosedStringFails(input: seq<byte>, nc: nat)
    requires 34 !in input
    ensures StringFrom(input, true, nc).text == None
    decreases |input|
  {
    match NextPiece(input, true)
    case Char(_, rest, _) => UnclosedStringFails(rest, nc + 1);
    case Dropped(rest) => UnclosedStringFails(rest, nc);
    case _ =>
  }
}
