/** The log writer's wrapping of long messages at 80 columns, done in the message buffer. */
module Reformat {
  import opened CString
  import opened Wrappers

  const WIDTH: nat := 80
  const LP_ERROR_LOG_MAX: nat := 4096

  predicate IsBreak(c: char) {
    c == ' ' || c == '\n'
  }

  /** The greatest position from 1 to n that holds a blank or a newline; 0 when there is none. */
  function LastBreak(t: string, n: nat): (j: nat)
    requires n < |t|
    ensures j <= n
    ensures j > 0 ==> IsBreak(t[j])
    ensures forall i :: j < i <= n ==> !IsBreak(t[i])
  {
    if n == 0 then 0 else if IsBreak(t[n]) then n else LastBreak(t, n - 1)
  }

  function Wrap(t: string): string {
    if |t| <= WIDTH then t
    else
      var j := LastBreak(t, WIDTH);
      if j > 0 then t[..j] + "\n" + Wrap(t[j + 1..])
      else t[..WIDTH - 1] + "\n" + Wrap(t[WIDTH - 1..])
  }

  /** The newlines put inside words that are longer than a line. */
  function ForcedBreaks(t: string): nat {
    if |t| <= WIDTH then 0
    else
      var j := LastBreak(t, WIDTH);
      if j > 0 then ForcedBreaks(t[j + 1..]) else 1 + ForcedBreaks(t[WIDTH - 1..])
  }

  function Reformatted(t: string): string {
    (if |t| < WIDTH then t else Wrap(t)) + "\n"
  }

  /** Long text is broken at its last blank or newline up to column 80, and after 79 characters when there is none. */
  lemma FirstLineIs(t: string, j: nat)
    requires |t| > 80 && j <= 80 && forall i :: j < i <= 80 ==> t[i] != ' ' && t[i] != '\n'
    ensures j > 0 && (t[j] == ' ' || t[j] == '\n') ==> Wrap(t) == t[..j] + "\n" + Wrap(t[j + 1..])
    ensures j == 0 ==> Wrap(t) == t[..79] + "\n" + Wrap(t[79..])
  {
  }

  // No line is too long.

  /** Every stretch of more than 80 characters holds a newline. */
  predicate LinesFit(out: string) {
    forall i, j :: 0 <= i && i + WIDTH < j <= |out| ==> '\n' in out[i..j]
  }

  lemma LineAndRest(line: string, rest: string)
    requires |line| <= WIDTH && LinesFit(rest)
    ensures LinesFit(line + "\n" + rest)
  {
    var out := line + "\n" + rest;
    forall i, j | 0 <= i && i + WIDTH < j <= |out|
      ensures '\n' in out[i..j]
    {
      if i <= |line| {
        assert out[i..j][|line| - i] == '\n';
      } else {
        assert out[i..j] == rest[i - |line| - 1..j - |line| - 1];
      }
    }
  }

  lemma {:induction false} WrappedLinesFit(t: string)
    ensures LinesFit(Wrap(t) + "\n")
  {
    if |t| <= WIDTH {
      LineAndRest(t, "");
      assert t + "\n" + "" == t + "\n";
    } else {
      var j := LastBreak(t, WIDTH);
      var line, rest := if j > 0 then t[..j] else t[..WIDTH - 1], if j > 0 then t[j + 1..] else t[WIDTH - 1..];
      WrappedLinesFit(rest);
      LineAndRest(line, Wrap(rest) + "\n");
      assert line + "\n" + (Wrap(rest) + "\n") == Wrap(t) + "\n";
    }
  }

  lemma EveryLineFits(t: string)
    ensures LinesFit(Reformatted(t))
  {
    if |t| < WIDTH {
      LineAndRest(t, "");
      assert t + "\n" + "" == t + "\n";
    } else {
      WrappedLinesFit(t);
    }
  }

  // The text is kept.

  /** out is t with some blanks turned into newlines and k newlines inserted. */
  predicate Conserves(t: string, out: string, k: nat)
    decreases |out|
  {
    if out == "" then t == "" && k == 0
    else
      (t != "" && t[0] == out[0] && Conserves(t[1..], out[1..], k)) ||
      (t != "" && t[0] == ' ' && out[0] == '\n' && Conserves(t[1..], out[1..], k)) ||
      (out[0] == '\n' && k > 0 && Conserves(t, out[1..], k - 1))
  }

  lemma {:induction false} ConservesItself(t: string)
    ensures Conserves(t, t, 0)
  {
    if t != "" {
      ConservesItself(t[1..]);
    }
  }

  lemma {:induction false} ConservesConcat(t: string, out: string, k: nat, t': string, out': string, k': nat)
    requires Conserves(t, out, k) && Conserves(t', out', k')
    ensures Conserves(t + t', out + out', k + k')
    decreases |out|
  {
    if out == "" {
      assert t + t' == t' && out + out' == out';
    } else {
      assert (out + out')[1..] == out[1..] + out';
      if t != "" && t[0] == out[0] && Conserves(t[1..], out[1..], k) {
        ConservesConcat(t[1..], out[1..], k, t', out', k');
        assert (t + t')[1..] == t[1..] + t';
      } else if t != "" && t[0] == ' ' && out[0] == '\n' && Conserves(t[1..], out[1..], k) {
        ConservesConcat(t[1..], out[1..], k, t', out', k');
        assert (t + t')[1..] == t[1..] + t';
      } else {
        ConservesConcat(t, out[1..], k - 1, t', out', k');
      }
    }
  }

  lemma ConservesNewline(t: string)
    ensures t == "" ==> Conserves(t, "\n", 1)
    ensures t == " " || t == "\n" ==> Conserves(t, "\n", 0)
  {
    assert Conserves("", "\n"[1..], 0);
  }

  /** Wrapping turns blanks into newlines and inserts one newline per forced break, nothing else. */
  lemma {:induction false} WrapConserves(t: string)
    ensures Conserves(t, Wrap(t), ForcedBreaks(t))
  {
    if |t| <= WIDTH {
      ConservesItself(t);
    } else {
      var j := LastBreak(t, WIDTH);
      if j > 0 {
        var rest := t[j + 1..];
        WrapConserves(rest);
        OneLineConserves(t, j, rest, 0, Wrap(rest), ForcedBreaks(rest));
      } else {
        var rest := t[WIDTH - 1..];
        WrapConserves(rest);
        OneLineConserves(t, WIDTH - 1, rest, 1, Wrap(rest), ForcedBreaks(rest));
      }
    }
  }

  /** Each forced break uses up 79 characters, and two more are left after the last. */
  lemma {:induction false} ForcedBreaksAreFew(t: string)
    ensures ForcedBreaks(t) > 0 ==> (WIDTH - 1) * ForcedBreaks(t) + 2 <= |t|
  {
    if |t| > WIDTH {
      var j := LastBreak(t, WIDTH);
      ForcedBreaksAreFew(if j > 0 then t[j + 1..] else t[WIDTH - 1..]);
    }
  }

  /** One line cut off at a break character (k == 0) or inside a word (k == 1). */
  lemma OneLineConserves(t: string, cut: nat, rest: string, k: nat, out: string, k': nat)
    requires cut < |t| && Conserves(rest, out, k')
    requires (k == 0 && IsBreak(t[cut]) && rest == t[cut + 1..]) || (k == 1 && rest == t[cut..])
    ensures Conserves(t, t[..cut] + "\n" + out, k + k')
  {
    var line, sep := t[..cut], if k == 0 then [t[cut]] else "";
    var more := sep + rest;
    CutLine(t, cut, sep, rest);
    ConservesItself(line);
    ConservesNewline(sep);
    ConservesConcat(sep, "\n", k, rest, out, k');
    ConservesConcat(line, line, 0, more, "\n" + out, k + k');
    ConcatAssociates(line, "\n", out);
  }

  lemma CutLine(t: string, cut: nat, sep: string, rest: string)
    requires cut < |t|
    requires (sep == [t[cut]] && rest == t[cut + 1..]) || (sep == "" && rest == t[cut..])
    ensures t == t[..cut] + (sep + rest)
  {
    assert sep + rest == t[cut..];
  }

  /** Everything but blanks and newlines. */
  function Ink(s: string): string {
    if s == "" then "" else (if IsBreak(s[0]) then "" else [s[0]]) + Ink(s[1..])
  }

  lemma {:induction false} ConservesInk(t: string, out: string, k: nat)
    requires Conserves(t, out, k)
    ensures Ink(out) == Ink(t) && |out| == |t| + k
    decreases |out|
  {
    if out != "" {
      if t != "" && t[0] == out[0] && Conserves(t[1..], out[1..], k) {
        ConservesInk(t[1..], out[1..], k);
      } else if t != "" && t[0] == ' ' && out[0] == '\n' && Conserves(t[1..], out[1..], k) {
        ConservesInk(t[1..], out[1..], k);
      } else {
        ConservesInk(t, out[1..], k - 1);
      }
    }
  }

  /** A reformatted message reads as the original: same ink, grown by its forced breaks and one newline. */
  lemma ReformattedConserves(t: string)
    ensures exists k: nat ::
              Conserves(t + "\n", Reformatted(t), k) && |Reformatted(t)| == |t| + k + 1 &&
              (|t| >= WIDTH ==> (WIDTH - 1) * k < |t| - 1) && (|t| <= WIDTH ==> k == 0)
    ensures Ink(Reformatted(t)) == Ink(t + "\n")
  {
    var k := if |t| < WIDTH then 0 else ForcedBreaks(t);
    WrapConserves(t);
    ForcedBreaksAreFew(t);
    ConservesItself("\n");
    ConservesItself(t);
    ConservesConcat(t, if |t| < WIDTH then t else Wrap(t), k, "\n", "\n", 0);
    ConservesInk(t + "\n", Reformatted(t), k);
  }

  /** The 80 characters after position i hold a place to break. */
  predicate BreakWithin(t: string, i: nat) {
    exists j :: i < j <= i + WIDTH && j < |t| && IsBreak(t[j])
  }

  /** When no word reaches across a whole line, no word is cut. */
  lemma {:induction false} ShortWordsAreNotCut(t: string)
    requires forall i: nat {:trigger BreakWithin(t, i)} :: i + WIDTH < |t| ==> BreakWithin(t, i)
    ensures ForcedBreaks(t) == 0
  {
    if |t| > WIDTH {
      var j := LastBreak(t, WIDTH);
      assert BreakWithin(t, 0);
      var rest := t[j + 1..];
      forall i: nat | i + WIDTH < |rest|
        ensures BreakWithin(rest, i)
      {
        assert BreakWithin(t, i + j + 1);
        var k :| i + j + 1 < k <= i + j + 1 + WIDTH && k < |t| && IsBreak(t[k]);
        assert rest[k - j - 1] == t[k];
      }
      ShortWordsAreNotCut(rest);
    }
  }

  // How much room is needed.

  /** The longest a message of this length can become. */
  function WorstLength(len: nat): nat {
    if len < WIDTH then len + 1 else len + (len - 2) / (WIDTH - 1) + 1
  }

  lemma {:induction false} SolidText(t: string)
    requires forall i :: 0 <= i < |t| ==> !IsBreak(t[i])
    ensures |t| >= 2 ==> ForcedBreaks(t) == (|t| - 2) / (WIDTH - 1)
  {
    if |t| > WIDTH {
      var rest := t[WIDTH - 1..];
      SolidText(rest);
      assert (|t| - 2) / (WIDTH - 1) == (|rest| - 2) / (WIDTH - 1) + 1;
    }
  }

  lemma NoLongerThanWorst(t: string)
    ensures |Reformatted(t)| <= WorstLength(|t|)
  {
    WrapConserves(t);
    ConservesInk(t, Wrap(t), ForcedBreaks(t));
    ForcedBreaksAreFew(t);
    var k := ForcedBreaks(t);
    if |t| >= WIDTH {
      assert (WIDTH - 1) * k <= |t| - 2;
      assert k <= (|t| - 2) / (WIDTH - 1);
    }
  }

  /** A buffer has room for every message of a length exactly when it has room for the worst. */
  lemma FitsExactlyWhenWorstFits(len: nat, size: nat)
    ensures (forall t: string :: |t| == len ==> |Reformatted(t)| <= size) <==> WorstLength(len) <= size
  {
    var solid := seq(len, _ => 'x');
    SolidText(solid);
    WrapConserves(solid);
    ConservesInk(solid, Wrap(solid), ForcedBreaks(solid));
    assert |Reformatted(solid)| == WorstLength(len);
    forall t: string | |t| == len
      ensures |Reformatted(t)| <= WorstLength(len)
    {
      NoLongerThanWorst(t);
    }
  }

  /** The test the program makes before it reformats. */
  predicate PassesGuard(len: nat, size: nat) {
    len < LP_ERROR_LOG_MAX && len <= size - size / WIDTH + 1
  }

  /**
   The guard is meant to hold exactly when the worst case fits. It lets through a length that can
   overrun at exactly the sizes that do not have room for the longest message there can be.
   */
  lemma GuardIsTooGenerous(size: nat)
    ensures (exists len: nat :: PassesGuard(len, size) && WorstLength(len) > size) <==>
            size < WorstLength(LP_ERROR_LOG_MAX - 1)
  {
    if size < WorstLength(LP_ERROR_LOG_MAX - 1) {
      var longest := Min(LP_ERROR_LOG_MAX - 1, size - size / WIDTH + 1);
      assert PassesGuard(longest, size) && WorstLength(longest) > size;
    }
  }

  /** For the log buffer the guard is exact up to 4044 characters; it also admits 4045 and 4046. */
  lemma GuardOfTheLogBuffer(len: nat)
    ensures PassesGuard(len, LP_ERROR_LOG_MAX) <==> len <= 4046
    ensures WorstLength(len) <= LP_ERROR_LOG_MAX <==> len <= 4044
  {
  }

  // The program.

  /** Ends the line at the character before next: what is before it goes to msg, with a newline. */
  method EmitLine(msg: array<char>, buf: array<char>, pos: nat, next: nat, ghost text: string)
    requires msg != buf && pos < next && next + 1 < buf.Length && next <= |text| < buf.Length
    requires NUL !in text && buf[next] == '\n' && forall k :: pos <= k < next ==> buf[k] == text[k]
    requires Terminated(msg[..]) && |Str(msg[..])| + (next - pos) + 1 < msg.Length
    modifies msg, buf
    ensures Terminated(msg[..]) && Str(msg[..]) == old(Str(msg[..])) + text[pos..next] + "\n"
    ensures buf[..] == old(buf[..])
  {
    var temp := buf[next + 1];
    buf[next + 1] := NUL;
    ghost var line := text[pos..next] + "\n";
    assert Terminated(buf[pos..]) && Str(buf[pos..]) == line by {
      assert buf[pos..][..next + 1 - pos] == line;
      StrIs(buf[pos..], next + 1 - pos);
    }
    Strcat(msg, buf, pos);
    buf[next + 1] := temp;
    assert buf[..] == old(buf[..]);
  }

  /** Ends the line inside a word: the newline stands in for a character that is then put back. */
  method ForceLine(msg: array<char>, buf: array<char>, pos: nat, next: nat, ghost text: string)
    requires msg != buf && pos < next && next + 1 < buf.Length && next <= |text| < buf.Length
    requires NUL !in text && forall k :: pos <= k < next ==> buf[k] == text[k]
    requires Terminated(msg[..]) && |Str(msg[..])| + (next - pos) + 1 < msg.Length
    modifies msg, buf
    ensures Terminated(msg[..]) && Str(msg[..]) == old(Str(msg[..])) + text[pos..next] + "\n"
    ensures buf[..] == old(buf[..])
  {
    var temp := buf[next];
    buf[next] := '\n';
    EmitLine(msg, buf, pos, next, text);
    buf[next] := temp;
    assert buf[..] == old(buf[..]);
  }

  /** Looks back from column 80 for a place to break, and makes it a newline. */
  method FindBreak(buf: array<char>, pos: nat, ghost text: string) returns (next: nat)
    requires pos + WIDTH < |text| < buf.Length && forall k :: pos <= k < |text| ==> buf[k] == text[k]
    modifies buf
    ensures next == pos + LastBreak(text[pos..], WIDTH)
    ensures next > pos ==> buf[..] == old(buf[..])[next := '\n']
    ensures next == pos ==> buf[..] == old(buf[..])
  {
    next := pos + WIDTH;
    ghost var t := text[pos..];
    var found := false;
    while !found && next > pos
      invariant pos <= next <= pos + WIDTH
      invariant LastBreak(t, WIDTH) == LastBreak(t, next - pos)
      invariant !found ==> buf[..] == old(buf[..])
      invariant found ==> next > pos && LastBreak(t, next - pos) == next - pos && buf[..] == old(buf[..])[next := '\n']
      decreases !found, next
    {
      assert !found ==> buf[next] == t[next - pos];
      if buf[next] == ' ' {
        buf[next] := '\n';
      }
      if buf[next] == '\n' {
        assert buf[..] == old(buf[..])[next := '\n'];
        found := true;
      } else {
        next := next - 1;
      }
    }
  }

  /** A zeroed working buffer that starts with the message. */
  method CopyMessage(msg: array<char>, len: nat) returns (buf: array<char>)
    requires len <= msg.Length && len < LP_ERROR_LOG_MAX
    ensures fresh(buf) && buf.Length == LP_ERROR_LOG_MAX && buf[..len] == msg[..len]
    ensures forall k :: len <= k < LP_ERROR_LOG_MAX ==> buf[k] == NUL
  {
    buf := new char[LP_ERROR_LOG_MAX](_ => NUL);
    var i := 0;
    while i < len
      invariant 0 <= i <= len
      invariant buf[..i] == msg[..i]
      invariant forall k :: i <= k < LP_ERROR_LOG_MAX ==> buf[k] == NUL
    {
      buf[i] := msg[i];
      i := i + 1;
    }
  }

  /** strlen at a position that still holds the rest of the message. */
  method StrlenOfText(buf: array<char>, pos: nat, ghost text: string) returns (n: nat)
    requires Remaining(buf[..], pos, text)
    ensures n == |text| - pos && Terminated(buf[pos..]) && Str(buf[pos..]) == text[pos..]
  {
    assert buf[pos..][..|text| - pos] == text[pos..];
    StrIs(buf[pos..], |text| - pos);
    n := StrlenFrom(buf, pos);
  }

  /** What the working buffer holds: the message, of which the rest from pos is still untouched. */
  ghost predicate Remaining(b: seq<char>, pos: nat, text: string) {
    NUL !in text && |text| < |b| && pos <= |text| && b[|text|] == NUL &&
    forall k :: pos <= k < |text| ==> b[k] == text[k]
  }

  /** Moves one line of the message to msg. */
  method WrapLine(msg: array<char>, buf: array<char>, pos: nat, ghost text: string) returns (pos': nat)
    requires msg != buf && Remaining(buf[..], pos, text) && |text| - pos > WIDTH
    requires Terminated(msg[..]) && |Str(msg[..])| + |Wrap(text[pos..])| < msg.Length
    modifies msg, buf
    ensures pos < pos' && Remaining(buf[..], pos', text)
    ensures Terminated(msg[..])
    ensures Str(msg[..]) + Wrap(text[pos'..]) == old(Str(msg[..])) + Wrap(text[pos..])
  {
    ghost var out, b := Str(msg[..]), buf[..];
    var next := FindBreak(buf, pos, text);
    if next > pos {
      pos' := next + 1;
      WrapUnfolds(text, pos, next, pos', out);
      EmitLine(msg, buf, pos, next, text);
    } else {
      pos' := pos + WIDTH - 1;
      WrapUnfolds(text, pos, pos', pos', out);
      ForceLine(msg, buf, pos, pos', text);
    }
    RestRemains(b, buf[..], pos, pos', text);
  }

  /** Wrapping from pos is the line up to next, then wrapping from pos'. */
  lemma WrapUnfolds(text: string, pos: nat, next: nat, pos': nat, out: string)
    requires pos + WIDTH < |text|
    requires var j := LastBreak(text[pos..], WIDTH);
             if j > 0 then next == pos + j && pos' == next + 1 else next == pos' == pos + WIDTH - 1
    ensures next - pos < |Wrap(text[pos..])|
    ensures out + text[pos..next] + "\n" + Wrap(text[pos'..]) == out + Wrap(text[pos..])
  {
    var t, cut, skip := text[pos..], next - pos, pos' - pos;
    WrapOnce(t, cut, skip);
    SliceOfRest(text, pos, next, cut);
    SliceOfRest(text, pos, pos', skip);
    Regroup(out, t[..cut], "\n", Wrap(t[skip..]));
  }

  lemma SliceOfRest(text: string, pos: nat, at: nat, k: nat)
    requires pos <= at <= |text| && k == at - pos
    ensures text[pos..at] == text[pos..][..k] && text[at..] == text[pos..][k..]
  {
  }

  lemma Regroup(a: string, b: string, c: string, d: string)
    ensures a + b + c + d == a + (b + c + d)
  {
  }

  lemma WrapOnce(t: string, cut: nat, skip: nat)
    requires WIDTH < |t|
    requires var j := LastBreak(t, WIDTH);
             if j > 0 then cut == j && skip == j + 1 else cut == skip == WIDTH - 1
    ensures Wrap(t) == t[..cut] + "\n" + Wrap(t[skip..])
  {
  }

  lemma RestRemains(b: seq<char>, b': seq<char>, pos: nat, pos': nat, text: string)
    requires Remaining(b, pos, text) && |b'| == |b| && pos <= pos' <= |text|
    requires forall k :: pos' <= k < |b| ==> b'[k] == b[k]
    ensures Remaining(b', pos', text)
  {
  }

  /** Appends what is left of the message and a newline in place of the terminator. */
  method AppendLast(msg: array<char>, buf: array<char>, pos: nat, ghost text: string) returns (len: nat)
    requires msg != buf && Remaining(buf[..], pos, text)
    requires Terminated(msg[..]) && |Str(msg[..])| + |text[pos..]| < msg.Length
    modifies msg
    ensures len == |old(Str(msg[..])) + text[pos..] + "\n"| <= msg.Length
    ensures msg[..len] == old(Str(msg[..])) + text[pos..] + "\n"
  {
    var left := StrlenOfText(buf, pos, text);
    Strcat(msg, buf, pos);
    len := Strlen(msg);
    assert msg[..len] == Str(msg[..]);
    msg[len] := '\n';
    len := len + 1;
  }

  /** Wraps a message of at least one line. */
  method WrapMessage(msg: array<char>, n: nat) returns (len: nat)
    requires Terminated(msg[..]) && n == |Str(msg[..])| && WIDTH <= n < LP_ERROR_LOG_MAX
    requires |Reformatted(Str(msg[..]))| <= msg.Length
    modifies msg
    ensures len == |Reformatted(old(Str(msg[..])))| <= msg.Length
    ensures msg[..len] == Reformatted(old(Str(msg[..])))
  {
    ghost var text := Str(msg[..]);
    assert msg[..n] == text;
    var buf := CopyMessage(msg, n);
    msg[0] := NUL;
    StrIs(msg[..], 0);
    var pos := 0;
    assert Remaining(buf[..], pos, text) by {
      assert buf[..][0..|text|] == buf[..n] == text;
    }
    assert text[0..] == text;
    var left := StrlenOfText(buf, pos, text);
    while left > WIDTH
      invariant Remaining(buf[..], pos, text) && left == |text| - pos
      invariant Terminated(msg[..]) && Str(msg[..]) + Wrap(text[pos..]) == Wrap(text)
      decreases left
    {
      pos := WrapLine(msg, buf, pos, text);
      left := StrlenOfText(buf, pos, text);
    }
    len := AppendLast(msg, buf, pos, text);
    assert Wrap(text[pos..]) == text[pos..];
  }

  method ReformatMsg(msg: array<char>, size: nat) returns (len: nat)
    requires Terminated(msg[..])
    requires PassesGuard(|Str(msg[..])|, size) ==> |Reformatted(Str(msg[..]))| <= msg.Length
    modifies msg
    ensures var text := old(Str(msg[..]));
            if PassesGuard(|text|, size)
            then len == |Reformatted(text)| <= msg.Length && msg[..len] == Reformatted(text)
            else len == |text| && msg[..] == old(msg[..])
  {
    ghost var text := Str(msg[..]);
    len := Strlen(msg);
    if len >= LP_ERROR_LOG_MAX {
      return;
    }
    if len > size - size / WIDTH + 1 {
      return;
    }
    if len < WIDTH {
      msg[len] := '\n';
      len := len + 1;
      assert msg[..len] == Reformatted(text);
      return;
    }
    len := WrapMessage(msg, len);
  }
}
