/** The daemon's configuration file: its tokenizer, its entries, and the settings they leave. */
module Config {
  import opened CString
  import opened Decimal
  import opened Wrappers

  // The tokenizer.

  /** A token, where scanning stopped, and the line there; Null is a quoted string cut by a newline. */
  datatype Scan =
    | Token(text: string, next: nat, line: nat)
    | Null(line: nat)
    | Eof(line: nat)

  /** The position after the next newline, or the end of the buffer. */
  function NextLine(b: string, pos: nat): (p: nat)
    requires pos < |b|
    ensures pos < p <= |b|
    ensures forall k :: pos <= k < p - 1 ==> b[k] != '\n'
    ensures p < |b| ==> b[p - 1] == '\n'
    decreases |b| - pos
  {
    if b[pos] == '\n' || pos + 1 == |b| then pos + 1 else NextLine(b, pos + 1)
  }

  /** The position of the next quote or newline, or the end of the buffer. */
  function QuoteEnd(b: string, pos: nat): (p: nat)
    requires pos <= |b|
    ensures pos <= p <= |b|
    ensures forall k :: pos <= k < p ==> b[k] != '\n'
    ensures p < |b| ==> b[p] == '"' || b[p] == '\n'
    decreases |b| - pos
  {
    if pos == |b| || b[pos] == '"' || b[pos] == '\n' then pos else QuoteEnd(b, pos + 1)
  }

  predicate Delimiter(c: char) {
    c == '\\' || c == ' ' || c == '\t' || c == '\n' || c == '{' || c == '}' || c == '=' || c == '"'
  }

  /** Scanning at pos, with a token begun at start or, when start is None, with none begun. */
  function ScanFrom(b: string, pos: nat, start: Option<nat>, line: nat): (r: Scan)
    requires start.Some? ==> start.value < pos <= |b|
    ensures r.Token? ==> r.text != "" && pos <= r.next <= |b| + 1 && (start.None? ==> pos < r.next)
    decreases |b| - pos
  {
    if pos >= |b| then Eof(line)
    else
      var c := b[pos];
      if c == '#' then ScanFrom(b, NextLine(b, pos), start, line + 1)
      else if start.Some? then
        var text := b[start.value..pos];
        if c == '\\' then Token(text, NextLine(b, pos), line + 1)
        else if c == ' ' || c == '\t' then Token(text, pos + 1, line)
        else if Delimiter(c) then Token(text, pos, line)
        else ScanFrom(b, pos + 1, start, line)
      else if c == '\\' then ScanFrom(b, NextLine(b, pos), None, line + 1)
      else if c == ' ' || c == '\t' then ScanFrom(b, pos + 1, None, line)
      else if c == '\n' then Token("\n", pos + 1, line + 1)
      else if c == '{' || c == '}' || c == '=' then Token([c], pos + 1, line)
      else if c == '"' then
        var q := QuoteEnd(b, pos + 1);
        if q < |b| && b[q] == '\n' then Null(line) else Token(b[pos..q], q + 1, line)
      else ScanFrom(b, pos + 1, Some(pos), line)
  }

  /** Skips to the position after the next newline. */
  method SkipLine(b: string, pos: nat) returns (p: nat)
    requires pos < |b|
    ensures p == NextLine(b, pos)
  {
    p := pos;
    var more := true;
    while p < |b| && more
      invariant pos <= p <= |b| && (more ==> p < |b| && NextLine(b, p) == NextLine(b, pos))
      invariant !more ==> p == NextLine(b, pos)
      decreases |b| - p
    {
      more := b[p] != '\n' && p + 1 < |b|;
      p := p + 1;
    }
  }

  method GetToken(b: string, pos: nat, line: nat) returns (r: Scan)
    ensures r == ScanFrom(b, pos, None, line)
  {
    var str, lineNo := pos, line;
    var start: Option<nat> := None;
    while str < |b|
      invariant start.Some? ==> start.value < str <= |b|
      invariant ScanFrom(b, str, start, lineNo) == ScanFrom(b, pos, None, line)
      decreases |b| - str
    {
      var c := b[str];
      if c == '#' {
        str := SkipLine(b, str);
        lineNo := lineNo + 1;
      } else if c == '\\' {
        if start.Some? {
          var text := b[start.value..str];
          str := SkipLine(b, str);
          return Token(text, str, lineNo + 1);
        }
        str := SkipLine(b, str);
        lineNo := lineNo + 1;
      } else if c == ' ' || c == '\t' {
        if start.Some? {
          return Token(b[start.value..str], str + 1, lineNo);
        }
        str := str + 1;
      } else if c == '\n' {
        if start.Some? {
          return Token(b[start.value..str], str, lineNo);
        }
        return Token("\n", str + 1, lineNo + 1);
      } else if c == '{' || c == '}' || c == '=' {
        if start.Some? {
          return Token(b[start.value..str], str, lineNo);
        }
        return Token([c], str + 1, lineNo);
      } else if c == '"' {
        if start.Some? {
          return Token(b[start.value..str], str, lineNo);
        }
        r := GetQuoted(b, str, lineNo);
        return;
      } else {
        if start.None? {
          start := Some(str);
        }
        str := str + 1;
      }
    }
    return Eof(lineNo);
  }

  /** Reads a quoted string: the token keeps its opening quote. */
  method GetQuoted(b: string, pos: nat, line: nat) returns (r: Scan)
    requires pos < |b| && b[pos] == '"'
    ensures r == ScanFrom(b, pos, None, line)
  {
    var str := pos + 1;
    while str < |b| && b[str] != '"'
      invariant pos < str <= |b| && QuoteEnd(b, str) == QuoteEnd(b, pos + 1)
    {
      if b[str] == '\n' {
        return Null(line);
      }
      str := str + 1;
    }
    return Token(b[pos..str], str + 1, line);
  }

  // Scanning always ends at a token.

  function Newlines(s: string): nat {
    if s == "" then 0 else Newlines(s[..|s| - 1]) + if s[|s| - 1] == '\n' then 1 else 0
  }

  lemma {:induction false} NewlinesConcat(s: string, t: string)
    ensures Newlines(s + t) == Newlines(s) + Newlines(t)
    decreases |t|
  {
    if t == "" {
      assert s + t == s;
    } else {
      assert (s + t)[..|s + t| - 1] == s + t[..|t| - 1];
      NewlinesConcat(s, t[..|t| - 1]);
    }
  }

  lemma {:induction false} NoNewlines(s: string)
    requires '\n' !in s
    ensures Newlines(s) == 0
  {
    if s != "" {
      NoNewlines(s[..|s| - 1]);
    }
  }

  lemma NewlinesSplit(b: string, i: nat, j: nat, k: nat)
    requires i <= j <= k <= |b|
    ensures Newlines(b[i..k]) == Newlines(b[i..j]) + Newlines(b[j..k])
  {
    assert b[i..k] == b[i..j] + b[j..k];
    NewlinesConcat(b[i..j], b[j..k]);
  }

  /** The buffer's last line starts at s, ends in a newline, and holds no sharp and no backslash. */
  predicate LastLineAt(b: string, s: nat) {
    s < |b| && b[|b| - 1] == '\n' && (s == 0 || b[s - 1] == '\n') &&
    forall k :: s <= k < |b| ==> b[k] != '#' && b[k] != '\\'
  }

  ghost predicate PlainEnd(b: string) {
    exists s: nat :: LastLineAt(b, s)
  }

  lemma SkippedLine(b: string, pos: nat, s: nat)
    requires LastLineAt(b, s) && pos < |b| && (b[pos] == '#' || b[pos] == '\\')
    ensures NextLine(b, pos) < |b| && Newlines(b[pos..NextLine(b, pos)]) == 1
  {
    var p := NextLine(b, pos);
    assert pos < s;
    assert b[pos..p] == b[pos..p - 1] + [b[p - 1]];
    NewlinesConcat(b[pos..p - 1], [b[p - 1]]);
    NoNewlines(b[pos..p - 1]);
    assert Newlines("\n"[..0]) == 0;
    assert Newlines([b[p - 1]]) == 1;
  }

  lemma OneCharacter(b: string, pos: nat)
    requires pos < |b|
    ensures Newlines(b[pos..pos + 1]) == if b[pos] == '\n' then 1 else 0
  {
    assert b[pos..pos + 1] == [b[pos]];
    assert Newlines([b[pos]][..0]) == 0;
  }

  /** Scanning went from pos to r, over characters whose newlines it counted. */
  predicate Counted(b: string, pos: nat, line: nat, r: Scan)
    requires pos <= |b|
  {
    r.Token? ==> pos <= r.next <= |b| && r.line == line + Newlines(b[pos..r.next]) && (r.next == |b| ==> r.text == "\n")
  }

  lemma CountedLater(b: string, pos: nat, p: nat, line: nat, r: Scan)
    requires pos <= p <= |b| && Counted(b, p, line + Newlines(b[pos..p]), r)
    ensures Counted(b, pos, line, r)
  {
    if r.Token? {
      NewlinesSplit(b, pos, p, r.next);
    }
  }

  lemma CountedNext(b: string, pos: nat, line: nat, r: Scan)
    requires pos < |b| && b[pos] != '\n' && Counted(b, pos + 1, line, r)
    ensures Counted(b, pos, line, r)
  {
    OneCharacter(b, pos);
    CountedLater(b, pos, pos + 1, line, r);
  }

  /** A token that ends at pos: the delimiter is a blank, or is left for later. */
  lemma CountedHere(b: string, pos: nat, line: nat, r: Scan)
    requires pos < |b| - 1 && r.Token? && r.line == line && (r.next == pos || (r.next == pos + 1 && b[pos] != '\n'))
    ensures Counted(b, pos, line, r)
  {
    OneCharacter(b, pos);
    assert b[pos..pos] == "";
  }

  /**
   In a buffer with a plain last line, scanning from inside the buffer ends at a token, or at a
   quoted string cut by a newline. (By the contract of ScanFrom it has then moved forward.)
   */
  lemma {:induction false} ScanningEnds(b: string, s: nat, pos: nat, start: Option<nat>, line: nat)
    requires LastLineAt(b, s) && pos < |b| && (start.Some? ==> start.value < pos)
    ensures !ScanFrom(b, pos, start, line).Eof? && (start.Some? ==> ScanFrom(b, pos, start, line).Token?)
    decreases |b| - pos
  {
    var c := b[pos];
    if c == '#' || (c == '\\' && start.None?) {
      SkippedLine(b, pos, s);
      ScanningEnds(b, s, NextLine(b, pos), start, line + 1);
    } else if start.None? && (c == ' ' || c == '\t') {
      ScanningEnds(b, s, pos + 1, None, line);
    } else if !Delimiter(c) {
      ScanningEnds(b, s, pos + 1, if start.None? then Some(pos) else start, line);
    }
  }

  /**
   Scanning stays in the buffer, adds to the line counter exactly the newlines it moves over,
   and reaches the end of the buffer only with the last newline.
   */
  lemma {:induction false} ScanningCounts(b: string, s: nat, pos: nat, start: Option<nat>, line: nat, r: Scan)
    requires LastLineAt(b, s) && pos < |b| && (start.Some? ==> start.value < pos)
    requires r == ScanFrom(b, pos, start, line)
    ensures Counted(b, pos, line, r)
    decreases |b| - pos
  {
    var c := b[pos];
    if c == '#' || c == '\\' {
      var p := NextLine(b, pos);
      SkippedLine(b, pos, s);
      if c == '#' || start.None? {
        ScanningCounts(b, s, p, start, line + 1, r);
        CountedLater(b, pos, p, line, r);
      }
    } else if c == '\n' {
      CountedNewline(b, pos, line, r);
    } else if start.None? && c == '"' {
      CountedQuoted(b, s, pos, line, r);
    } else if !Delimiter(c) || (start.None? && (c == ' ' || c == '\t')) {
      ScanningCounts(b, s, pos + 1, if start.None? && !Delimiter(c) then Some(pos) else start, line, r);
      CountedNext(b, pos, line, r);
    } else {
      CountedHere(b, pos, line, r);
    }
  }

  /** A newline is a token, or ends one and is left for later. */
  lemma CountedNewline(b: string, pos: nat, line: nat, r: Scan)
    requires pos < |b| && b[pos] == '\n'
    requires (r.Token? && r.line == line && r.next == pos) || r == Token("\n", pos + 1, line + 1)
    ensures Counted(b, pos, line, r)
  {
    OneCharacter(b, pos);
    assert b[pos..pos] == "";
  }

  lemma CountedQuoted(b: string, s: nat, pos: nat, line: nat, r: Scan)
    requires LastLineAt(b, s) && pos < |b| && b[pos] == '"' && r == ScanFrom(b, pos, None, line)
    ensures Counted(b, pos, line, r)
  {
    var q := QuoteEnd(b, pos + 1);
    if q < |b| && b[q] == '"' {
      NoNewlines(b[pos..q + 1]);
    }
  }

  // Values.

  const INT_MAX: int := 0x7FFF_FFFF
  const LONG_MAX: int := 0x7FFF_FFFF_FFFF_FFFF

  /** strtol in base 10: the value, kept within a long, and what follows it. */
  function StrToL(s: string): (r: (int, string))
  {
    var t := SkipSpace(s);
    var signed := t != "" && (t[0] == '-' || t[0] == '+');
    var u := if signed then t[1..] else t;
    if DigitRun(u) == 0 then (0, s) else LongOf(u, signed && t[0] == '-')
  }

  /** The digits at the front as a long, and what follows them. */
  function LongOf(u: string, negative: bool): (int, string) {
    var k := DigitRun(u);
    var n: int := NumberOf(u[..k]);
    (if negative then if n > LONG_MAX + 1 then -LONG_MAX - 1 else -n
     else if n > LONG_MAX then LONG_MAX else n, u[k..])
  }

  /** The conversion of a long to an int. */
  function ToInt(v: int): (r: int)
    ensures -INT_MAX - 1 <= r <= INT_MAX
    ensures -INT_MAX - 1 <= v <= INT_MAX ==> r == v
  {
    (v + INT_MAX + 1) % (2 * (INT_MAX + 1)) - INT_MAX - 1
  }

  /** A minimum is at least 1. */
  function Minimum(text: string): (n: int)
    ensures n >= 1
  {
    var v := ToInt(StrToL(text).0);
    if v > 1 then v else 1
  }

  /** A policy is 0 or 1; anything else, and anything that is not a number alone, counts as -1. */
  function Policy(text: string): (n: int)
    ensures n == -1 || n == 0 || n == 1
  {
    var (v, rest) := StrToL(text);
    if rest == "" && (ToInt(v) == 0 || ToInt(v) == 1) then ToInt(v) else -1
  }

  /** A directory ends in a slash. */
  function Directory(path: string): (p: string)
    ensures p != "" && p[|p| - 1] == '/'
  {
    if path != "" && path[|path| - 1] == '/' then path else path + "/"
  }

  // Entries.

  datatype Settings = Settings(
    minProcessors: int,
    minEntitledCapacity: int,
    scanlogDumpPath: string,
    platformDumpPath: string,
    restartPolicy: int)

  function Defaults(): Settings {
    Settings(1, 5, "/var/log/", "/var/log/dump/", -1)
  }

  /**
   A value, where its entry ends, and the line there; Bad is a parsing error. At the end of the buffer
   the program may go on with a token it never read (Unread), or ask for the next token forever
   (Endless): there the model stops.
   */
  datatype Value = Value(text: string, next: nat, line: nat) | Bad | Unread | Endless

  /** A value of one token; at the end of the buffer the equals sign itself is taken for it. */
  function OneToken(b: string, pos: nat, line: nat): (v: Value)
    ensures v.Value? ==> pos < v.next
  {
    var eq := ScanFrom(b, pos, None, line);
    if eq.Eof? then Unread
    else if eq.Null? || eq.text[0] != '=' then Bad
    else
      match ScanFrom(b, eq.next, None, eq.line)
      case Token(text, next, l) => Value(text, next, l)
      case Eof(l) => Value(eq.text, if eq.next < |b| then |b| else eq.next, l)
      case Null(_) => Bad
  }

  /** The tokens up to the next newline, a blank before each; blank when the last token was a newline. */
  function MoreTokens(b: string, pos: nat, line: nat, text: string, blank: bool): (v: Value)
    ensures v.Value? ==> pos <= v.next
    decreases |b| + 1 - pos
  {
    var r := ScanFrom(b, pos, None, line);
    if r.Null? then Bad
    else if r.Eof? then if blank then Value(text, if pos < |b| then |b| else pos, r.line) else Endless
    else if r.text[0] == '\n' then Value(text, r.next, r.line)
    else MoreTokens(b, r.next, r.line, text + " " + r.text, false)
  }

  /** A value of all the tokens up to a newline. */
  function TokensOfLine(b: string, pos: nat, line: nat): (v: Value)
    ensures v.Value? ==> pos < v.next
  {
    var eq := ScanFrom(b, pos, None, line);
    if eq.Eof? then Unread
    else if eq.Null? || eq.text[0] != '=' then Bad
    else
      match ScanFrom(b, eq.next, None, eq.line)
      case Token(text, next, l) => MoreTokens(b, next, l, text, text[0] == '\n')
      case Eof(_) => Endless
      case Null(_) => Bad
  }

  predicate IsPath(p: string) {
    p != "" && p[|p| - 1] == '/'
  }

  /** What every configuration keeps, good file or bad. */
  predicate ValidSettings(c: Settings) {
    c.minProcessors >= 1 && c.minEntitledCapacity >= 1 && -1 <= c.restartPolicy <= 1 &&
    IsPath(c.scanlogDumpPath) && IsPath(c.platformDumpPath)
  }

  datatype Name = MinProcessors | MinEntitledCapacity | ScanlogDumpPath | PlatformDumpPath | AutoRestartPolicy

  function NameText(n: Name): string {
    match n
    case MinProcessors => "MinProcessors"
    case MinEntitledCapacity => "MinEntitledCapacity"
    case ScanlogDumpPath => "ScanlogDumpPath"
    case PlatformDumpPath => "PlatformDumpPath"
    case AutoRestartPolicy => "AutoRestartPolicy"
  }

  /** The entry a token names. */
  function NameOf(text: string): (n: Option<Name>)
    ensures n.Some? ==> NameText(n.value) == text
  {
    if text == NameText(MinProcessors) then Some(MinProcessors)
    else if text == NameText(MinEntitledCapacity) then Some(MinEntitledCapacity)
    else if text == NameText(ScanlogDumpPath) then Some(ScanlogDumpPath)
    else if text == NameText(PlatformDumpPath) then Some(PlatformDumpPath)
    else if text == NameText(AutoRestartPolicy) then Some(AutoRestartPolicy)
    else None
  }

  /** The value of an entry: a whole line for a path, one token otherwise. */
  function EntryValue(n: Name, b: string, pos: nat, line: nat): (v: Value)
    ensures v.Value? ==> pos < v.next
  {
    if n == ScanlogDumpPath || n == PlatformDumpPath then TokensOfLine(b, pos, line) else OneToken(b, pos, line)
  }

  /** The settings after an entry. Setting the policy in the system may fail, which leaves -1. */
  function Configured(c: Settings, n: Name, text: string, policyKept: bool): (c': Settings)
    ensures ValidSettings(c) ==> ValidSettings(c')
  {
    match n
    case MinProcessors => c.(minProcessors := Minimum(text))
    case MinEntitledCapacity => c.(minEntitledCapacity := Minimum(text))
    case ScanlogDumpPath => c.(scanlogDumpPath := Directory(text))
    case PlatformDumpPath => c.(platformDumpPath := Directory(text))
    case AutoRestartPolicy => c.(restartPolicy := if policyKept then Policy(text) else -1)
  }

  datatype Assignment = Assignment(name: Name, value: string)

  /** The settings after assignments made in order. */
  function Assigned(c: Settings, done: seq<Assignment>, policyKept: bool): (c': Settings)
    ensures ValidSettings(c) ==> ValidSettings(c')
  {
    if done == [] then c
    else
      var last := done[|done| - 1];
      Configured(Assigned(c, done[..|done| - 1], policyKept), last.name, last.value, policyKept)
  }

  datatype Outcome = Accepted(done: seq<Assignment>) | Rejected | ReadsNothing | NeverEnds

  /** The program returns from parsing. */
  predicate Returns(o: Outcome) {
    o.Accepted? || o.Rejected?
  }

  /** The assignments of a file, after those already done, unless one is rejected. */
  function Entries(b: string, pos: nat, line: nat, done: seq<Assignment>): (r: Outcome)
    ensures r.Accepted? ==> done <= r.done
    decreases |b| + 1 - pos
  {
    if pos >= |b| then Accepted(done)
    else
      var r := ScanFrom(b, pos, None, line);
      if r.Eof? then Accepted(done)
      else if r.Null? then Rejected
      else if r.text[0] == '\n' then Entries(b, r.next, r.line, done)
      else
        match NameOf(r.text)
        case None => Rejected
        case Some(n) =>
          match EntryValue(n, b, r.next, r.line)
          case Bad => Rejected
          case Unread => ReadsNothing
          case Endless => NeverEnds
          case Value(text, next, l) => Entries(b, next, l, done + [Assignment(n, text)])
  }

  /**
   The settings a file gives: the defaults when it is missing, empty or in error. There are none when
   the program does not return from parsing.
   */
  function Configuration(file: Option<string>, policyKept: bool): (c: Option<Settings>)
    ensures c.Some? ==> ValidSettings(c.value)
    ensures c.None? <==> file.Some? && !Returns(Entries(file.value, 0, 1, []))
  {
    match file
    case None => Some(Defaults())
    case Some(b) =>
      match Entries(b, 0, 1, [])
      case Accepted(done) => Some(Assigned(Defaults(), done, policyKept))
      case Rejected => Some(Defaults())
      case _ => None
  }

  /** One more assignment. */
  ghost function Extended(c: Settings, done: seq<Assignment>, a: Assignment, policyKept: bool): (r: seq<Assignment>)
    ensures r == done + [a]
    ensures Assigned(c, r, policyKept) == Configured(Assigned(c, done, policyKept), a.name, a.value, policyKept)
  {
    assert (done + [a])[..|done|] == done;
    done + [a]
  }

  class DiagConfig {
    var cfg: Settings

    constructor ()
      ensures cfg == Defaults()
    {
      cfg := Defaults();
    }

    /** The tokens of a line. */
    method GetConfigString(b: string, pos: nat, line: nat) returns (v: Value)
      ensures v == TokensOfLine(b, pos, line)
    {
      var tok := GetToken(b, pos, line);
      if tok.Eof? {
        return Unread;
      } else if tok.Null? || tok.text[0] != '=' {
        return Bad;
      }
      tok := GetToken(b, tok.next, tok.line);
      if tok.Null? {
        return Bad;
      } else if tok.Eof? {
        return Endless;
      }
      var buf, start, lineNo, blank := tok.text, tok.next, tok.line, tok.text[0] == '\n';
      tok := GetToken(b, start, lineNo);
      while tok.Token? && tok.text[0] != '\n'
        invariant tok == ScanFrom(b, start, None, lineNo)
        invariant MoreTokens(b, start, lineNo, buf, blank) == TokensOfLine(b, pos, line)
        decreases |b| + 1 - start
      {
        buf := buf + " " + tok.text;
        start, lineNo, blank := tok.next, tok.line, false;
        tok := GetToken(b, start, lineNo);
      }
      match tok
      case Null(_) => return Bad;
      case Token(_, next, l) => return Value(buf, next, l);
      case Eof(l) => return if blank then Value(buf, if start < |b| then |b| else start, l) else Endless;
    }

    /** The equals sign and one token. */
    method GetConfigToken(b: string, pos: nat, line: nat) returns (v: Value)
      ensures v == OneToken(b, pos, line)
    {
      var eq := GetToken(b, pos, line);
      if eq.Eof? {
        return Unread;
      } else if eq.Null? || eq.text[0] != '=' {
        return Bad;
      }
      var tok := GetToken(b, eq.next, eq.line);
      match tok
      case Token(text, next, l) => return Value(text, next, l);
      case Eof(l) => return Value(eq.text, if eq.next < |b| then |b| else eq.next, l);
      case Null(_) => return Bad;
    }

    /** 0 when every entry is accepted, -1 at the first error; None where the program does not return. */
    method ParseConfigEntries(b: string, policyKept: bool) returns (rc: Option<int>)
      modifies this
      ensures match Entries(b, 0, 1, [])
              case Accepted(done) => rc == Some(0) && cfg == Assigned(old(cfg), done, policyKept)
              case Rejected => rc == Some(-1)
              case _ => rc == None
    {
      var cur, lineNo := 0, 1;
      ghost var done: seq<Assignment> := [];
      while cur < |b|
        invariant Entries(b, cur, lineNo, done) == Entries(b, 0, 1, [])
        invariant cfg == Assigned(old(cfg), done, policyKept)
        decreases |b| + 1 - cur
      {
        var tok := GetToken(b, cur, lineNo);
        if tok.Eof? {
          break;
        } else if tok.Null? {
          return Some(-1);
        } else if tok.text[0] == '\n' {
          cur, lineNo := tok.next, tok.line;
          continue;
        }
        var name := NameOf(tok.text);
        if name.None? {
          return Some(-1);
        }
        var v;
        if name.value == ScanlogDumpPath || name.value == PlatformDumpPath {
          v := GetConfigString(b, tok.next, tok.line);
        } else {
          v := GetConfigToken(b, tok.next, tok.line);
        }
        if v.Bad? {
          return Some(-1);
        } else if !v.Value? {
          return None;
        }
        cfg := Configured(cfg, name.value, v.text, policyKept);
        done := Extended(old(cfg), done, Assignment(name.value, v.text), policyKept);
        cur, lineNo := v.next, v.line;
      }
      return Some(0);
    }

    /** Reads the configuration, and falls back to the defaults; false where the program does not return. */
    method DiagCfg(file: Option<string>, policyKept: bool) returns (returned: bool)
      modifies this
      ensures returned == Configuration(file, policyKept).Some?
      ensures returned ==> cfg == Configuration(file, policyKept).value && ValidSettings(cfg)
    {
      cfg := Defaults();
      if file.None? || file.value == "" {
        return true;
      }
      var rc := ParseConfigEntries(file.value, policyKept);
      if rc.None? {
        return false;
      } else if rc.value != 0 {
        cfg := Defaults();
      }
      return true;
    }
  }

  // A plain last line is enough for every entry to end.

  /** A value that ends in the buffer, with its newlines counted. */
  predicate EndsInside(b: string, pos: nat, line: nat, v: Value)
    requires pos <= |b|
  {
    !v.Unread? && !v.Endless? && (v.Value? ==> pos <= v.next <= |b| && v.line == line + Newlines(b[pos..v.next]))
  }

  lemma EndsLater(b: string, pos: nat, line: nat, r: Scan, v: Value)
    requires pos <= |b| && r.Token? && Counted(b, pos, line, r) && EndsInside(b, r.next, r.line, v)
    ensures EndsInside(b, pos, line, v)
  {
    if v.Value? {
      NewlinesSplit(b, pos, r.next, v.next);
    }
  }

  lemma {:induction false} MoreTokensEnd(b: string, s: nat, pos: nat, line: nat, text: string, blank: bool)
    requires LastLineAt(b, s) && pos <= |b| && (pos == |b| ==> blank)
    ensures EndsInside(b, pos, line, MoreTokens(b, pos, line, text, blank))
    decreases |b| - pos
  {
    if pos == |b| {
      assert b[pos..pos] == "";
    } else {
      var r := ScanFrom(b, pos, None, line);
      ScanningEnds(b, s, pos, None, line);
      ScanningCounts(b, s, pos, None, line, r);
      if r.Token? && r.text[0] != '\n' {
        MoreTokensEnd(b, s, r.next, r.line, text + " " + r.text, false);
        EndsLater(b, pos, line, r, MoreTokens(b, r.next, r.line, text + " " + r.text, false));
      }
    }
  }

  lemma EntryValueEnds(n: Name, b: string, s: nat, pos: nat, line: nat)
    requires LastLineAt(b, s) && pos < |b|
    ensures EndsInside(b, pos, line, EntryValue(n, b, pos, line))
  {
    var eq := ScanFrom(b, pos, None, line);
    ScanningEnds(b, s, pos, None, line);
    ScanningCounts(b, s, pos, None, line, eq);
    if eq.Token? && eq.text[0] == '=' {
      var r := ScanFrom(b, eq.next, None, eq.line);
      ScanningEnds(b, s, eq.next, None, eq.line);
      ScanningCounts(b, s, eq.next, None, eq.line, r);
      if r.Token? {
        if n == ScanlogDumpPath || n == PlatformDumpPath {
          MoreTokensEnd(b, s, r.next, r.line, r.text, r.text[0] == '\n');
          EndsLater(b, eq.next, eq.line, r, MoreTokens(b, r.next, r.line, r.text, r.text[0] == '\n'));
        }
        EndsLater(b, pos, line, eq, EntryValue(n, b, pos, line));
      }
    }
  }

  /** One round of the parser: where its tokens end, and the line counter there. */
  lemma RoundEnds(b: string, s: nat, pos: nat, line: nat)
    requires LastLineAt(b, s) && pos < |b| && line == 1 + Newlines(b[..pos])
    ensures var r := ScanFrom(b, pos, None, line);
            !r.Eof? && (r.Token? ==>
              r.next <= |b| && r.line == 1 + Newlines(b[..r.next]) &&
              forall n :: r.text[0] != '\n' ==>
                var v := EntryValue(n, b, r.next, r.line);
                !v.Unread? && !v.Endless? && (v.Value? ==> v.next <= |b| && v.line == 1 + Newlines(b[..v.next])))
  {
    var r := ScanFrom(b, pos, None, line);
    ScanningEnds(b, s, pos, None, line);
    ScanningCounts(b, s, pos, None, line, r);
    if r.Token? {
      LinesSoFar(b, pos, r.next);
      if r.text[0] != '\n' {
        forall n
          ensures var v := EntryValue(n, b, r.next, r.line);
                  !v.Unread? && !v.Endless? && (v.Value? ==> v.next <= |b| && v.line == 1 + Newlines(b[..v.next]))
        {
          EntryValueEnds(n, b, s, r.next, r.line);
          var v := EntryValue(n, b, r.next, r.line);
          if v.Value? {
            LinesSoFar(b, r.next, v.next);
          }
        }
      }
    }
  }

  /** A file whose last line is plain is always read to its end, and its lines counted. */
  lemma {:induction false} PlainFilesEnd(b: string, s: nat, pos: nat, line: nat, done: seq<Assignment>)
    requires LastLineAt(b, s) && pos <= |b| && line == 1 + Newlines(b[..pos])
    ensures Returns(Entries(b, pos, line, done))
    decreases |b| - pos
  {
    if pos < |b| {
      var r := ScanFrom(b, pos, None, line);
      RoundEnds(b, s, pos, line);
      if r.Token? {
        if r.text[0] == '\n' {
          PlainFilesEnd(b, s, r.next, r.line, done);
        } else if NameOf(r.text).Some? {
          var n := NameOf(r.text).value;
          var v := EntryValue(n, b, r.next, r.line);
          if v.Value? {
            PlainFilesEnd(b, s, v.next, v.line, done + [Assignment(n, v.text)]);
          }
        }
      }
    }
  }

  lemma LinesSoFar(b: string, pos: nat, next: nat)
    requires pos <= next <= |b|
    ensures Newlines(b[..next]) == Newlines(b[..pos]) + Newlines(b[pos..next])
  {
    assert b[0..next] == b[..next] && b[0..pos] == b[..pos];
    NewlinesSplit(b, 0, pos, next);
  }

  /** The program reads every file with a plain last line, and its settings are then valid. */
  lemma PlainFileIsRead(b: string)
    requires PlainEnd(b)
    ensures Returns(Entries(b, 0, 1, []))
  {
    var s: nat :| LastLineAt(b, s);
    assert b[..0] == "";
    PlainFilesEnd(b, s, 0, 1, []);
  }

  // Writing entries and reading them back.

  /** Characters that are part of a token wherever they stand. */
  predicate PlainChar(c: char) {
    !Delimiter(c) && c != '#'
  }

  predicate PlainWord(w: string) {
    w != "" && forall k :: 0 <= k < |w| ==> PlainChar(w[k])
  }

  lemma {:induction false} WordScanFrom(b: string, start: nat, pos: nat, end: nat, line: nat)
    requires start < pos <= end < |b| && (forall k :: pos <= k < end ==> PlainChar(b[k]))
    requires b[end] == '=' || b[end] == '\n'
    ensures ScanFrom(b, pos, Some(start), line) == Token(b[start..end], end, line)
    decreases end - pos
  {
    if pos < end {
      WordScanFrom(b, start, pos + 1, end, line);
    }
  }

  /** A word is one token, and its delimiter is left for the next. */
  lemma WordScan(b: string, start: nat, end: nat, line: nat)
    requires start < end < |b| && (forall k :: start <= k < end ==> PlainChar(b[k]))
    requires b[end] == '=' || b[end] == '\n'
    ensures ScanFrom(b, start, None, line) == Token(b[start..end], end, line)
  {
    WordScanFrom(b, start, start + 1, end, line);
  }

  lemma {:induction false} WordRunsOut(b: string, start: nat, pos: nat, line: nat)
    requires start < pos <= |b| && forall k :: pos <= k < |b| ==> PlainChar(b[k])
    ensures ScanFrom(b, pos, Some(start), line) == Eof(line)
    decreases |b| - pos
  {
    if pos < |b| {
      WordRunsOut(b, start, pos + 1, line);
    }
  }

  /** A path cut off by the end of the file is never read, and reading it has no end. */
  lemma UnfinishedPathNeverEnds(b: string, n: Name, value: string)
    requires n == ScanlogDumpPath || n == PlatformDumpPath
    requires b == NameText(n) + "=" + value && PlainWord(value)
    ensures Entries(b, 0, 1, []).NeverEnds?
  {
    var name, eq := NameText(n), |NameText(n)|;
    NameIsPlain(n);
    NameIsKnown(n);
    assert b[0..eq] == name && b[eq] == '=' && b[eq + 1..] == value;
    WordCharacters(b, 0, |name|, name);
    NameIsRead(b, 0, eq, 1);
    assert forall k :: eq < k < |b| ==> b[k] == value[k - eq - 1];
    WordRunsOut(b, eq + 1, eq + 2, 1);
    PathIsEndless(b, n, eq, 1);
  }

  /**
   A number cut off by the end of the file is lost without an error: its entry is given the equals
   sign for a value, so a minimum becomes 1 and a policy is not set.
   */
  lemma UnfinishedNumberIsLost(b: string, n: Name, value: string)
    requires n != ScanlogDumpPath && n != PlatformDumpPath
    requires b == NameText(n) + "=" + value && PlainWord(value)
    ensures Entries(b, 0, 1, []) == Accepted([Assignment(n, "=")])
    ensures Minimum("=") == 1 && Policy("=") == -1
  {
    var name, eq := NameText(n), |NameText(n)|;
    NameIsPlain(n);
    NameIsKnown(n);
    assert b[0..eq] == name && b[eq] == '=' && b[eq + 1..] == value;
    WordCharacters(b, 0, |name|, name);
    NameIsRead(b, 0, eq, 1);
    assert forall k :: eq < k < |b| ==> b[k] == value[k - eq - 1];
    WordRunsOut(b, eq + 1, eq + 2, 1);
    NumberIsLost(b, n, eq, 1);
    assert [] + [Assignment(n, "=")] == [Assignment(n, "=")];
  }

  lemma NumberIsLost(b: string, n: Name, eq: nat, line: nat)
    requires n != ScanlogDumpPath && n != PlatformDumpPath
    requires eq + 1 < |b| && b[eq] == '=' && PlainChar(b[eq + 1])
    requires ScanFrom(b, eq + 2, Some(eq + 1), line) == Eof(line)
    ensures EntryValue(n, b, eq, line) == Value("=", |b|, line)
  {
  }

  lemma PathIsEndless(b: string, n: Name, eq: nat, line: nat)
    requires n == ScanlogDumpPath || n == PlatformDumpPath
    requires eq + 1 < |b| && b[eq] == '=' && PlainChar(b[eq + 1])
    requires ScanFrom(b, eq + 2, Some(eq + 1), line) == Eof(line)
    ensures EntryValue(n, b, eq, line) == Endless
  {
  }

  datatype Line = Set(name: Name, value: string) | Remark(text: string) | Empty

  predicate GoodLine(l: Line) {
    match l
    case Set(_, value) => PlainWord(value)
    case Remark(text) => '\n' !in text
    case Empty => true
  }

  function LineText(l: Line): string {
    match l
    case Set(name, value) => NameText(name) + "=" + value + "\n"
    case Remark(text) => "#" + text + "\n"
    case Empty => "\n"
  }

  function FileText(lines: seq<Line>): string {
    if lines == [] then "" else LineText(lines[0]) + FileText(lines[1..])
  }

  /** The assignments written, after those already done. */
  function Written(lines: seq<Line>, done: seq<Assignment>): seq<Assignment>
    decreases |lines|
  {
    if lines == [] then done else Written(lines[1..], done + Assignments(lines[0]))
  }

  function Assignments(l: Line): seq<Assignment> {
    if l.Set? then [Assignment(l.name, l.value)] else []
  }

  lemma NameIsPlain(n: Name)
    ensures PlainWord(NameText(n))
  {
    match n {
      case MinProcessors => assert PlainWord("MinProcessors");
      case MinEntitledCapacity => assert PlainWord("MinEntitledCapacity");
      case ScanlogDumpPath => assert PlainWord("ScanlogDumpPath");
      case PlatformDumpPath => assert PlainWord("PlatformDumpPath");
      case AutoRestartPolicy => assert PlainWord("AutoRestartPolicy");
    }
  }

  /** No two entries have the same name: their lengths differ already. */
  lemma NameIsKnown(n: Name)
    ensures NameOf(NameText(n)) == Some(n)
  {
    var m := NameOf(NameText(n));
    assert |NameText(MinProcessors)| == 13 && |NameText(MinEntitledCapacity)| == 19;
    assert |NameText(ScanlogDumpPath)| == 15 && |NameText(PlatformDumpPath)| == 16;
    assert |NameText(AutoRestartPolicy)| == 17;
  }

  /** One word after an equals sign is the value of an entry, of a path as of any other. */
  lemma ValueIsRead(b: string, eq: nat, end: nat, next: nat, n: Name, line: nat)
    requires eq + 1 < end < next == end + 1 <= |b| && b[eq] == '=' && b[end] == '\n'
    requires forall k :: eq < k < end ==> PlainChar(b[k])
    ensures ScanFrom(b, end, None, line) == Token("\n", next, line + 1)
    ensures var v := EntryValue(n, b, eq, line);
            v == Value(b[eq + 1..end], end, line) || v == Value(b[eq + 1..end], next, line + 1)
  {
    WordScan(b, eq + 1, end, line);
    assert ScanFrom(b, eq, None, line) == Token("=", eq + 1, line);
    assert ScanFrom(b, end, None, line) == Token("\n", next, line + 1);
  }

  /** An entry whose value ends at the end of a line is followed by the next line. */
  lemma EntryIsRead(
      b: string, pos: nat, eq: nat, end: nat, next: nat, n: Name, line: nat, value: string, done: seq<Assignment>,
      o: Outcome)
    requires pos < eq < end < next <= |b| && ScanFrom(b, end, None, line) == Token("\n", next, line + 1)
    requires var r := ScanFrom(b, pos, None, line);
             r.Token? && r.next == eq && r.line == line && NameOf(r.text) == Some(n) && r.text[0] != '\n'
    requires var v := EntryValue(n, b, eq, line);
             v == Value(value, end, line) || v == Value(value, next, line + 1)
    requires o == Entries(b, next, line + 1, done + [Assignment(n, value)])
    ensures Entries(b, pos, line, done) == o
  {
  }

  /** A name, as the first word of an assignment, is the token its entry starts with. */
  lemma NameIsRead(b: string, pos: nat, eq: nat, line: nat)
    requires pos < eq < |b| && b[eq] == '=' && forall k :: pos <= k < eq ==> PlainChar(b[k])
    ensures ScanFrom(b, pos, None, line) == Token(b[pos..eq], eq, line) && b[pos..eq][0] != '\n'
  {
    WordScan(b, pos, eq, line);
    assert PlainChar(b[pos]);
  }

  /** A line that assigns an entry is read as that entry, up to the start of the next line. */
  lemma SetLineIsRead(
      b: string, pos: nat, next: nat, n: Name, name: string, value: string, line: nat, done: seq<Assignment>,
      o: Outcome)
    requires name == NameText(n) && PlainWord(value)
    requires AssignsAt(b, pos, name, value) && next == pos + |name| + |value| + 2
    requires o == Entries(b, next, line + 1, done + [Assignment(n, value)])
    ensures Entries(b, pos, line, done) == o
  {
    var eq, end := pos + |name|, next - 1;
    NameIsPlain(n);
    NameIsKnown(n);
    WordCharacters(b, pos, eq, name);
    WordCharacters(b, eq + 1, end, value);
    NameIsRead(b, pos, eq, line);
    ValueIsRead(b, eq, end, next, n, line);
    EntryIsRead(b, pos, eq, end, next, n, line, value, done, o);
  }

  /** An assignment stands at pos. */
  predicate AssignsAt(b: string, pos: nat, name: string, value: string) {
    var eq, end := pos + |name|, pos + |name| + 1 + |value|;
    end < |b| && b[pos..eq] == name && b[eq] == '=' && b[eq + 1..end] == value && b[end] == '\n'
  }

  lemma WordCharacters(b: string, pos: nat, end: nat, word: string)
    requires PlainWord(word) && pos <= end <= |b| && b[pos..end] == word
    ensures forall k :: pos <= k < end ==> PlainChar(b[k])
  {
    assert forall k :: pos <= k < end ==> b[k] == word[k - pos];
  }

  lemma AssignmentStands(b: string, pos: nat, next: nat, name: string, value: string)
    requires pos <= next <= |b| && b[pos..next] == name + "=" + value + "\n"
    ensures next == pos + |name| + |value| + 2 && AssignsAt(b, pos, name, value)
  {
    var t := b[pos..next];
    var eq, end := pos + |name|, pos + |name| + 1 + |value|;
    assert b[eq] == t[|name|] && b[end] == t[|name| + 1 + |value|];
    assert b[pos..eq] == t[..|name|] == name;
    var rest := t[|name| + 1..];
    assert rest == value + "\n" && rest[..|value|] == value;
    assert b[eq + 1..end] == rest[..|value|];
  }

  lemma {:induction false} RemarkEnds(b: string, pos: nat, end: nat)
    requires pos <= end < |b| && b[end] == '\n' && forall k :: pos <= k < end ==> b[k] != '\n'
    ensures NextLine(b, pos) == end + 1
    decreases end - pos
  {
    if pos < end {
      RemarkEnds(b, pos + 1, end);
    }
  }

  lemma RemarkStands(b: string, pos: nat, next: nat, text: string)
    requires '\n' !in text && pos <= next <= |b| && b[pos..next] == "#" + text + "\n"
    ensures next == pos + |text| + 2 && b[pos] == '#' && NextLine(b, pos) == next
  {
    var t := b[pos..next];
    assert t[1..|text| + 1] == text;
    forall k | pos < k <= pos + |text|
      ensures b[k] != '\n'
    {
      assert b[k] == t[k - pos] == t[1..|text| + 1][k - pos - 1];
    }
    assert b[pos] == t[0] && b[pos + |text| + 1] == t[|text| + 1];
    RemarkEnds(b, pos, pos + |text| + 1);
  }

  lemma RemarkIsSkipped(b: string, pos: nat, next: nat, text: string, line: nat, done: seq<Assignment>, o: Outcome)
    requires '\n' !in text && pos <= next <= |b| && b[pos..next] == "#" + text + "\n"
    requires o == Entries(b, next, line + 1, done)
    ensures Entries(b, pos, line, done) == o
  {
    RemarkStands(b, pos, next, text);
    assert ScanFrom(b, pos, None, line) == ScanFrom(b, next, None, line + 1);
  }

  lemma EmptyLineIsSkipped(b: string, pos: nat, next: nat, line: nat, done: seq<Assignment>, o: Outcome)
    requires pos < next == pos + 1 <= |b| && b[pos] == '\n'
    requires o == Entries(b, next, line + 1, done)
    ensures Entries(b, pos, line, done) == o
  {
    assert ScanFrom(b, pos, None, line) == Token("\n", next, line + 1);
  }

  /** Reading the entries from pos on ends in this way. */
  predicate Reads(b: string, pos: nat, line: nat, done: seq<Assignment>, o: Outcome) {
    Entries(b, pos, line, done) == o
  }

  lemma LineIsRead(b: string, pos: nat, next: nat, l: Line, line: nat, done: seq<Assignment>, o: Outcome)
    requires GoodLine(l) && next == pos + |LineText(l)| <= |b| && b[pos..next] == LineText(l)
    requires Reads(b, next, line + 1, done + Assignments(l), o)
    ensures Reads(b, pos, line, done, o)
  {
    match l {
      case Set(n, value) =>
        AssignmentStands(b, pos, next, NameText(n), value);
        SetLineIsRead(b, pos, next, n, NameText(n), value, line, done, o);
      case Remark(text) =>
        assert done + [] == done;
        RemarkIsSkipped(b, pos, next, text, line, done, o);
      case Empty =>
        assert done + [] == done;
        assert b[pos] == b[pos..next][0];
        EmptyLineIsSkipped(b, pos, next, line, done, o);
    }
  }

  /** What follows a line is read first, then the line. */
  lemma FirstLine(b: string, pos: nat, next: nat, end: nat, t: string, rest: string)
    requires pos <= end <= |b| && b[pos..end] == t + rest && next == pos + |t|
    ensures next <= end && b[pos..next] == t && b[next..end] == rest
  {
    assert b[pos..next] == b[pos..end][..|t|];
    assert b[next..end] == b[pos..end][|t|..];
  }

  /** Lines that were written are read as their assignments, in order, and reading goes on after them. */
  lemma {:induction false} FileIsRead(
      b: string, pos: nat, end: nat, lines: seq<Line>, line: nat, last: nat, done: seq<Assignment>, o: Outcome)
    requires pos <= end <= |b| && b[pos..end] == FileText(lines) && last == line + |lines|
    requires forall i :: 0 <= i < |lines| ==> GoodLine(lines[i])
    requires Reads(b, end, last, Written(lines, done), o)
    ensures Reads(b, pos, line, done, o)
    decreases |lines|
  {
    if lines != [] {
      var next := pos + |LineText(lines[0])|;
      FirstLine(b, pos, next, end, LineText(lines[0]), FileText(lines[1..]));
      FileIsRead(b, next, end, lines[1..], line + 1, last, done + Assignments(lines[0]), o);
      LineIsRead(b, pos, next, lines[0], line, done, o);
    }
  }

  /** A file of assignments, remarks and empty lines configures exactly what it assigns, the last value winning. */
  lemma ConfigurationRoundTrip(lines: seq<Line>, policyKept: bool)
    requires forall i :: 0 <= i < |lines| ==> GoodLine(lines[i])
    ensures Configuration(Some(FileText(lines)), policyKept) ==
            Some(Assigned(Defaults(), Written(lines, []), policyKept))
  {
    var b := FileText(lines);
    assert b[0..|b|] == b;
    FileIsRead(b, 0, |b|, lines, 1, 1 + |lines|, [], Accepted(Written(lines, [])));
  }
}
