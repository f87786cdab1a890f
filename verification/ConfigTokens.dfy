/** The tokens of a configuration file, told from its characters. */
module ConfigTokens {
  import opened Config
  import opened ConfigGrammar
  import opened Wrappers

  /**
   What a file is made of, character by character: words, blanks and tabs, braces, equals signs and
   newlines, quoted strings, and the two ways to skip the rest of a line.
   */
  datatype Piece =
    | Word(text: string)
    | Blank(c: char)
    | Special(c: char)
    | Quoted(text: string)
    | Comment(text: string)
    | Continued(text: string)

  predicate GoodPiece(p: Piece) {
    match p
    case Word(text) => text != "" && forall k :: 0 <= k < |text| ==> text[k] !in "#\\ \t\n{}=\""
    case Blank(c) => c in " \t"
    case Special(c) => c in "{}=\n"
    case Quoted(text) => '"' !in text && '\n' !in text
    case Comment(text) => '\n' !in text
    case Continued(text) => '\n' !in text
  }

  function PieceText(p: Piece): string {
    match p
    case Word(text) => text
    case Blank(c) => [c]
    case Special(c) => [c]
    case Quoted(text) => "\"" + text + "\""
    case Comment(text) => "#" + text + "\n"
    case Continued(text) => "\\" + text + "\n"
  }

  /** A word is a token, and so is a special character; a quoted string keeps its first quote. */
  function PieceTokens(p: Piece): seq<string> {
    match p
    case Word(text) => [text]
    case Special(c) => [[c]]
    case Quoted(text) => ["\"" + text]
    case _ => []
  }

  /** A word ends before something that is neither a word nor a comment, and tail is what comes after the pieces. */
  predicate GoodPieces(ps: seq<Piece>, tail: string) {
    ps != [] ==> GoodPiece(ps[0]) && (ps[0].Word? ==> EndsWord(ps[1..], tail)) && GoodPieces(ps[1..], tail)
  }

  predicate EndsWord(ps: seq<Piece>, tail: string) {
    if ps == [] then tail != "" && tail[0] in "\\ \t\n{}=\"" else !ps[0].Word? && !ps[0].Comment?
  }

  /** The pieces, and what comes after them. */
  function Text(ps: seq<Piece>, tail: string): string {
    if ps == [] then tail else PieceText(ps[0]) + Text(ps[1..], tail)
  }

  function TokensOf(ps: seq<Piece>): seq<string> {
    if ps == [] then [] else PieceTokens(ps[0]) + TokensOf(ps[1..])
  }

  /** Newlines counted: those of special characters, comments and continued lines. */
  function LinesOf(ps: seq<Piece>): nat {
    if ps == [] then 0 else PieceLines(ps[0]) + LinesOf(ps[1..])
  }

  function PieceLines(p: Piece): nat {
    if p.Comment? || p.Continued? || p == Special('\n') then 1 else 0
  }

  /** The tokens from pos on are these, and then those from next on. */
  ghost predicate Gives(b: string, pos: nat, line: nat, ts: seq<string>, next: nat, line': nat) {
    forall rest :: rest == TokensFrom(b, next, line') ==> TokensFrom(b, pos, line) == After(ts, rest)
  }

  function After(ts: seq<string>, rest: Tokens): Tokens {
    Tokens(ts + rest.list, rest.cut)
  }

  lemma SkippedGives(b: string, pos: nat, line: nat, next: nat, line': nat)
    requires ScanFrom(b, pos, None, line) == ScanFrom(b, next, None, line')
    ensures Gives(b, pos, line, [], next, line')
  {
    var rest := TokensFrom(b, next, line');
    assert TokensFrom(b, pos, line) == rest == After([], rest);
  }

  lemma TokenGives(b: string, pos: nat, line: nat, t: string, next: nat, line': nat)
    requires ScanFrom(b, pos, None, line) == Token(t, next, line')
    ensures Gives(b, pos, line, [t], next, line')
  {
    assert TokensFrom(b, pos, line) == After([t], TokensFrom(b, next, line'));
  }

  lemma ThenGives(
      b: string, pos: nat, line: nat, ts: seq<string>, next: nat, line': nat, end: nat, line'': nat)
    requires Gives(b, pos, line, ts, next, line') && Gives(b, end, line'', [], next, line')
    ensures Gives(b, pos, line, ts, end, line'')
  {
    var rest, there := TokensFrom(b, next, line'), TokensFrom(b, end, line'');
    assert TokensFrom(b, pos, line) == After(ts, rest) && there == After([], rest) == rest;
  }

  lemma {:induction false} LineEnds(b: string, pos: nat, end: nat)
    requires pos <= end < |b| && b[end] == '\n' && forall k :: pos <= k < end ==> b[k] != '\n'
    ensures NextLine(b, pos) == end + 1
    decreases end - pos
  {
    if pos < end {
      LineEnds(b, pos + 1, end);
    }
  }

  lemma {:induction false} QuoteEnds(b: string, pos: nat, end: nat)
    requires pos <= end < |b| && b[end] == '"' && forall k :: pos <= k < end ==> b[k] != '\n' && b[k] != '"'
    ensures QuoteEnd(b, pos) == end
    decreases end - pos
  {
    if pos < end {
      QuoteEnds(b, pos + 1, end);
    }
  }

  lemma {:induction false} WordGoesOn(b: string, start: nat, pos: nat, end: nat, line: nat)
    requires start < pos <= end < |b| && forall k :: pos <= k < end ==> PlainChar(b[k])
    ensures ScanFrom(b, pos, Some(start), line) == ScanFrom(b, end, Some(start), line)
    decreases end - pos
  {
    if pos < end {
      WordGoesOn(b, start, pos + 1, end, line);
    }
  }

  lemma WordGives(b: string, pos: nat, end: nat, line: nat)
    requires pos < end < |b| && forall k :: pos <= k < end ==> PlainChar(b[k])
    requires Delimiter(b[end])
    ensures Gives(b, pos, line, [b[pos..end]], end, line)
  {
    WordGoesOn(b, pos, pos + 1, end, line);
    assert PlainChar(b[pos]);
    var text := b[pos..end];
    if b[end] == '\\' {
      TokenGives(b, pos, line, text, NextLine(b, end), line + 1);
      SkippedGives(b, end, line, NextLine(b, end), line + 1);
      ThenGives(b, pos, line, [text], NextLine(b, end), line + 1, end, line);
    } else if b[end] == ' ' || b[end] == '\t' {
      TokenGives(b, pos, line, text, end + 1, line);
      SkippedGives(b, end, line, end + 1, line);
      ThenGives(b, pos, line, [text], end + 1, line, end, line);
    } else {
      TokenGives(b, pos, line, text, end, line);
    }
  }

  /** A piece at pos gives its tokens. */
  lemma PieceGives(b: string, pos: nat, next: nat, p: Piece, line: nat)
    requires GoodPiece(p) && next == pos + |PieceText(p)| <= |b| && b[pos..next] == PieceText(p)
    requires p.Word? ==> next < |b| && Delimiter(b[next])
    ensures Gives(b, pos, line, PieceTokens(p), next, line + PieceLines(p))
  {
    match p
    case Word(text) =>
      assert forall k :: pos <= k < next ==> b[k] == text[k - pos];
      WordGives(b, pos, next, line);
    case Blank(c) =>
      assert b[pos] == b[pos..next][0];
      SkippedGives(b, pos, line, next, line);
    case Special(c) =>
      assert b[pos] == b[pos..next][0];
      TokenGives(b, pos, line, [c], next, line + PieceLines(p));
    case Quoted(text) =>
      QuotedGives(b, pos, next, text, line);
    case Comment(text) =>
      LineIsSkipped(b, pos, next, text, '#', line);
    case Continued(text) =>
      LineIsSkipped(b, pos, next, text, '\\', line);
  }

  lemma QuotedGives(b: string, pos: nat, next: nat, text: string, line: nat)
    requires '"' !in text && '\n' !in text
    requires next == pos + |text| + 2 <= |b| && b[pos..next] == "\"" + text + "\""
    ensures Gives(b, pos, line, ["\"" + text], next, line)
  {
    var t := b[pos..next];
    assert t[1..|text| + 1] == text;
    Inside(b, pos, next, text);
    assert b[pos] == t[0] && b[next - 1] == t[|t| - 1];
    QuoteEnds(b, pos + 1, next - 1);
    assert b[pos..next - 1] == t[..|t| - 1] == "\"" + text;
    TokenGives(b, pos, line, "\"" + text, next, line);
  }

  /** The characters between the first and the last. */
  lemma Inside(b: string, pos: nat, next: nat, text: string)
    requires next == pos + |text| + 2 <= |b| && b[pos..next][1..|text| + 1] == text
    ensures forall k :: pos < k < next - 1 ==> b[k] in text
  {
    forall k | pos < k < next - 1
      ensures b[k] in text
    {
      assert b[k] == b[pos..next][1..|text| + 1][k - pos - 1];
    }
  }

  lemma LineIsSkipped(b: string, pos: nat, next: nat, text: string, c: char, line: nat)
    requires c == '#' || c == '\\'
    requires '\n' !in text && next == pos + |text| + 2 <= |b| && b[pos..next] == [c] + text + "\n"
    ensures Gives(b, pos, line, [], next, line + 1)
  {
    var t := b[pos..next];
    assert t[1..|text| + 1] == text;
    Inside(b, pos, next, text);
    assert b[pos] == t[0] && b[next - 1] == t[|t| - 1];
    LineEnds(b, pos, next - 1);
    SkippedGives(b, pos, line, next, line + 1);
  }

  lemma AfterWord(ps: seq<Piece>, tail: string, rest: string)
    requires EndsWord(ps, tail) && GoodPieces(ps, tail) && rest == Text(ps, tail)
    ensures rest != "" && Delimiter(rest[0])
  {
    if ps != [] {
      var t := PieceText(ps[0]);
      assert t != "" && rest[0] == t[0];
    }
  }

  /** What is left of the buffer after its first part. */
  lemma AfterPart(b: string, pos: nat, t: string, rest: string, next: nat)
    requires pos <= |b| && b[pos..] == t + rest && next == pos + |t|
    ensures next <= |b| && b[pos..next] == t && b[next..] == rest
  {
    assert b[pos..next] == b[pos..][..|t|] && b[next..] == b[pos..][|t|..];
  }

  lemma {:induction false} PiecesGive(b: string, pos: nat, ps: seq<Piece>, tail: string, line: nat, end: nat, last: nat)
    requires pos <= |b| && GoodPieces(ps, tail) && b[pos..] == Text(ps, tail)
    requires end <= |b| && b[end..] == tail && last == line + LinesOf(ps)
    ensures Gives(b, pos, line, TokensOf(ps), end, last)
    decreases |ps|
  {
    if ps == [] {
      assert |b[pos..]| == |b[end..]|;
      SkippedGives(b, pos, line, pos, line);
    } else {
      var next, line' := FirstPieceGives(b, pos, ps, tail, line);
      PiecesGive(b, next, ps[1..], tail, line', end, last);
      GivesMore(b, pos, line, ps, next, line', end, last);
    }
  }

  lemma FirstPieceGives(b: string, pos: nat, ps: seq<Piece>, tail: string, line: nat) returns (next: nat, line': nat)
    requires pos <= |b| && ps != [] && GoodPieces(ps, tail) && b[pos..] == Text(ps, tail)
    ensures next <= |b| && GoodPieces(ps[1..], tail) && b[next..] == Text(ps[1..], tail)
    ensures line' + LinesOf(ps[1..]) == line + LinesOf(ps)
    ensures Gives(b, pos, line, PieceTokens(ps[0]), next, line')
  {
    var p, more := ps[0], ps[1..];
    var rest := Text(more, tail);
    next, line' := pos + |PieceText(p)|, line + PieceLines(p);
    AfterPart(b, pos, PieceText(p), rest, next);
    if p.Word? {
      AfterWord(more, tail, rest);
      assert b[next] == b[next..][0];
    }
    PieceGives(b, pos, next, p, line);
  }

  lemma GivesMore(b: string, pos: nat, line: nat, ps: seq<Piece>, next: nat, line': nat, end: nat, last: nat)
    requires ps != [] && Gives(b, pos, line, PieceTokens(ps[0]), next, line')
    requires Gives(b, next, line', TokensOf(ps[1..]), end, last)
    ensures Gives(b, pos, line, TokensOf(ps), end, last)
  {
    AfterTwice(PieceTokens(ps[0]), TokensOf(ps[1..]), TokensFrom(b, end, last));
  }

  lemma AfterTwice(ts: seq<string>, more: seq<string>, rest: Tokens)
    ensures After(ts, After(more, rest)) == After(ts + more, rest)
  {
    ConcatAssociates(ts, more, rest.list);
  }

  /** How a file may end: after a piece, with a word the program never gets to see, or in a quoted string. */
  datatype Ending = Clean | LostWord(word: string) | OpenQuote(text: string) | CutQuote(text: string, rest: string)

  predicate GoodEnding(e: Ending) {
    match e
    case Clean => true
    case LostWord(word) => PlainWord(word)
    case OpenQuote(text) => '"' !in text && '\n' !in text
    case CutQuote(text, _) => '"' !in text && '\n' !in text
  }

  function EndingText(e: Ending): string {
    match e
    case Clean => ""
    case LostWord(word) => word
    case OpenQuote(text) => "\"" + text
    case CutQuote(text, rest) => "\"" + (text + ("\n" + rest))
  }

  function EndingTokens(e: Ending): seq<string> {
    if e.OpenQuote? then ["\"" + e.text] else []
  }

  /**
   A file made of pieces has the tokens of its pieces, in order. A word at the very end is lost, a quoted
   string that is still open there is one more token, and one that meets a newline ends the tokens with an
   error.
   */
  lemma FileTokens(ps: seq<Piece>, e: Ending)
    requires GoodEnding(e) && GoodPieces(ps, EndingText(e))
    ensures TokensFrom(Text(ps, EndingText(e)), 0, 1) == Tokens(TokensOf(ps) + EndingTokens(e), e.CutQuote?)
  {
    var tail := EndingText(e);
    var b := Text(ps, tail);
    assert b[0..] == b;
    var end := TextHasTail(ps, tail);
    var last := 1 + LinesOf(ps);
    PiecesGive(b, 0, ps, tail, 1, end, last);
    EndingGives(b, end, e, last);
    assert TokensFrom(b, 0, 1) == After(TokensOf(ps), Tokens(EndingTokens(e), e.CutQuote?));
  }

  lemma {:induction false} TextHasTail(ps: seq<Piece>, tail: string) returns (end: nat)
    ensures end <= |Text(ps, tail)| && Text(ps, tail)[end..] == tail
    decreases |ps|
  {
    end := 0;
    if ps != [] {
      end := TextHasTail(ps[1..], tail);
      end := |PieceText(ps[0])| + end;
    }
  }

  lemma EndingGives(b: string, pos: nat, e: Ending, line: nat)
    requires GoodEnding(e) && pos <= |b| && b[pos..] == EndingText(e)
    ensures TokensFrom(b, pos, line) == Tokens(EndingTokens(e), e.CutQuote?)
  {
    match e
    case Clean =>
    case LostWord(word) =>
      assert forall k :: pos <= k < |b| ==> b[k] == word[k - pos];
      WordRunsOut(b, pos, pos + 1, line);
      assert PlainChar(b[pos]);
    case OpenQuote(text) =>
      QuoteEndsAt(b, pos, text, "");
      assert b[pos..|b|] == b[pos..];
    case CutQuote(text, rest) =>
      QuoteEndsAt(b, pos, text, "\n" + rest);
  }

  /** A quoted string goes on to a newline or to the end of the file. */
  lemma QuoteEndsAt(b: string, pos: nat, text: string, rest: string)
    requires pos <= |b| && b[pos..] == "\"" + (text + rest) && (rest != "" ==> rest[0] == '\n')
    requires '"' !in text && '\n' !in text
    ensures var end := pos + 1 + |text|;
            end <= |b| && b[pos] == '"' && QuoteEnd(b, pos + 1) == end && (end < |b| <==> rest != "") &&
            (end < |b| ==> b[end] == '\n')
  {
    var t, end := b[pos..], pos + 1 + |text|;
    assert b[pos] == t[0];
    assert t[1..|text| + 1] == text;
    forall k | pos < k < end
      ensures b[k] != '\n' && b[k] != '"'
    {
      assert b[k] == t[1..|text| + 1][k - pos - 1];
    }
    assert end < |b| ==> b[end] == t[|text| + 1] == rest[0];
    QuoteIsCut(b, pos + 1, end);
  }

  lemma {:induction false} QuoteIsCut(b: string, pos: nat, end: nat)
    requires pos <= end <= |b| && (end < |b| ==> b[end] == '\n')
    requires forall k :: pos <= k < end ==> b[k] != '\n' && b[k] != '"'
    ensures QuoteEnd(b, pos) == end
    decreases end - pos
  {
    if pos < end {
      QuoteIsCut(b, pos + 1, end);
    }
  }
}
