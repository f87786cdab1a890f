/** Enclosure indicators: the lines one program prints about them, and what another reads from those lines. */
module Ses {
  import opened CString
  import opened LocationCode
  import opened Wrappers

  // Printing.

  function Pad(s: string, width: nat): (t: string)
    ensures |t| == if |s| < width then width else |s|
    ensures forall k :: 0 <= k < |t| ==> t[k] == if k < |s| then s[k] else ' '
    decreases if |s| < width then width - |s| else 0
  {
    if |s| < width then Pad(s + " ", width) else s
  }

  function OnOff(on: bool): string {
    if on then "on" else "off"
  }

  function States(fault: bool, ident: bool): string {
    Pad(OnOff(fault), 5) + " " + Pad(OnOff(ident), 5) + " "
  }

  function Place(code: string, desc: Option<string>): string {
    Pad(code, 9) + if desc.Some? then "  " + desc.value else ""
  }

  /** The line about a component; only a verbose listing has descriptions. */
  function Line(fault: bool, ident: bool, code: string, desc: Option<string>): string {
    States(fault, ident) + Place(code, desc)
  }

  const HEADER: string := "fault ident location  description"

  // Parsing.

  /** The first place of a character from pos on, or the length of the string. */
  function Find(s: string, c: char, pos: nat): (p: nat)
    requires pos <= |s|
    ensures pos <= p <= |s| && (p < |s| ==> s[p] == c)
    ensures forall k :: pos <= k < p ==> s[k] != c
    decreases |s| - pos
  {
    if pos == |s| || s[pos] == c then pos else Find(s, c, pos + 1)
  }

  lemma FindIs(s: string, c: char, pos: nat, p: nat)
    requires pos <= p <= |s| && (p < |s| ==> s[p] == c) && forall k :: pos <= k < p ==> s[k] != c
    ensures Find(s, c, pos) == p
  {
  }

  /** A component's location starts with a P; the enclosure's own is a hyphen. */
  function FruStart(line: string): (p: nat)
    ensures p <= |line|
  {
    var p := Find(line, 'P', 0);
    if p < |line| then p else Find(line, '-', 0)
  }

  function FruLocation(line: string): Option<string> {
    var p := FruStart(line);
    var q := Find(line, ' ', p);
    if p < |line| && q < |line| then Some(line[p..q]) else None
  }

  /** What is left of a line when its location was read: the line up to the end of that. */
  function LeftOf(line: string): string {
    var p := FruStart(line);
    var q := Find(line, ' ', p);
    if p < |line| && q < |line| then line[..q] else line
  }

  /** A line with a location is cut after it, at the blank; any other line is left whole. */
  lemma LineIsCut(line: string)
    ensures var left := LeftOf(line);
            match FruLocation(line)
            case None => left == line
            case Some(code) =>
              left < line && line[|left|] == ' ' && |code| <= |left| && left[|left| - |code|..] == code
  {
  }

  predicate StartsWith(s: string, t: string) {
    |t| <= |s| && s[..|t|] == t
  }

  /** None stands for a line with no state in it. */
  function FaultState(line: string): Option<bool> {
    var p := Find(line, 'o', 0);
    if p == |line| then None else Some(StartsWith(line[p..], "on"))
  }

  function IdentState(line: string): Option<bool> {
    var p := Find(line, 'o', 0);
    if p == |line| then None
    else
      var q := Find(line, 'o', p + 1);
      if q == |line| then None else Some(StartsWith(line[q..], "on"))
  }

  /** The location of a component in its enclosure: what follows the first hyphen. */
  function RelativeLocation(code: string): Option<string> {
    var p := Find(code, '-', 0);
    if p == |code| then None else Some(code[p + 1..])
  }

  // The buffer version of FruLocation, which cuts the buffer at the end of the location.

  method Strchr(buf: array<char>, c: char, pos: nat) returns (p: nat)
    requires Terminated(buf[..]) && pos <= |Str(buf[..])| && c != NUL
    ensures p == Find(Str(buf[..]), c, pos) && (buf[p] == NUL <==> p == |Str(buf[..])|)
  {
    p := pos;
    while buf[p] != NUL && buf[p] != c
      invariant pos <= p <= |Str(buf[..])| && Find(Str(buf[..]), c, p) == Find(Str(buf[..]), c, pos)
      decreases buf.Length - p
    {
      p := p + 1;
    }
  }

  method GetSesFruLocation(buf: array<char>) returns (fru: Option<nat>)
    requires Terminated(buf[..])
    modifies buf
    ensures Terminated(buf[..])
    ensures Str(buf[..]) == LeftOf(old(Str(buf[..])))
    ensures match FruLocation(old(Str(buf[..])))
            case None => fru == None
            case Some(code) => fru == Some(|Str(buf[..])| - |code|) && Str(buf[..])[fru.value..] == code
  {
    var p := Strchr(buf, 'P', 0);
    if buf[p] == NUL {
      p := Strchr(buf, '-', 0);
      if buf[p] == NUL {
        return None;
      }
    }
    var q := Strchr(buf, ' ', p);
    if buf[q] == NUL {
      return None;
    }
    ghost var before := buf[..];
    assert p == FruStart(Str(before));
    buf[q] := NUL;
    assert buf[..] == before[q := NUL];
    CutAt(before, q, p);
    return Some(p);
  }

  /** A terminator cuts the string in a buffer. */
  lemma CutAt(b: seq<char>, q: nat, p: nat)
    requires Terminated(b) && p <= q < |Str(b)|
    ensures var cut := b[q := NUL];
            Terminated(cut) && Str(cut) == Str(b)[..q] && Str(cut)[p..] == Str(b)[p..q]
  {
    assert b[q := NUL][..q] == Str(b)[..q];
    StrIs(b[q := NUL], q);
  }

  method GetSesFruFaultState(buf: array<char>) returns (state: Option<bool>)
    requires Terminated(buf[..])
    ensures state == FaultState(Str(buf[..]))
  {
    var p := Strchr(buf, 'o', 0);
    if buf[p] == NUL {
      return None;
    }
    OnAt(Str(buf[..]), p);
    return Some(buf[p + 1] == 'n');
  }

  method GetSesFruIdentifyState(buf: array<char>) returns (state: Option<bool>)
    requires Terminated(buf[..])
    ensures state == IdentState(Str(buf[..]))
  {
    var p := Strchr(buf, 'o', 0);
    if buf[p] == NUL {
      return None;
    }
    var q := Strchr(buf, 'o', p + 1);
    if buf[q] == NUL {
      return None;
    }
    OnAt(Str(buf[..]), q);
    return Some(buf[q + 1] == 'n');
  }

  lemma OnAt(s: string, p: nat)
    requires p < |s| && s[p] == 'o'
    ensures StartsWith(s[p..], "on") <==> p + 1 < |s| && s[p + 1] == 'n'
  {
    if p + 1 < |s| {
      assert s[p..][..2] == [s[p], s[p + 1]];
    }
  }

  // Reading a line back.

  predicate GoodCode(code: string) {
    ' ' !in code && (code == "-" || (code != "" && code[0] == 'P'))
  }

  /** The states printed start at the beginning of the line and at its seventh character. */
  lemma StatesAt(fault: bool, ident: bool)
    ensures var t := States(fault, ident);
            |t| == 12 && t[0] == 'o' && t[1] == OnOff(fault)[1] && t[6] == 'o' && t[7] == OnOff(ident)[1] &&
            (forall k :: 0 < k < 6 ==> t[k] != 'o') && (forall k :: 0 <= k < 12 ==> t[k] != 'P' && t[k] != '-')
  {
    var a, b := Pad(OnOff(fault), 5), Pad(OnOff(ident), 5);
    var t := States(fault, ident);
    assert |a| == 5 && |b| == 5;
    assert forall k :: 0 <= k < 12 ==> t[k] == if k < 5 then a[k] else if 6 <= k < 11 then b[k - 6] else ' ';
  }

  lemma PlaceAt(code: string, desc: Option<string>)
    ensures var t, n := Place(code, desc), |Pad(code, 9)|;
            n >= |code| && |t| == n + (if desc.Some? then 2 + |desc.value| else 0) &&
            (forall k :: 0 <= k < |code| ==> t[k] == code[k]) &&
            (forall k :: |code| <= k < n ==> t[k] == ' ') &&
            (desc.Some? ==> t[n] == ' ' && t[n + 1] == ' ') &&
            (forall k :: n + 2 <= k < |t| ==> desc.Some? && t[k] == desc.value[k - n - 2])
  {
  }

  lemma LineParts(fault: bool, ident: bool, code: string, desc: Option<string>)
    ensures var t, n := Line(fault, ident, code, desc), 12 + |Pad(code, 9)|;
            n >= 12 + |code| && |t| == n + (if desc.Some? then 2 + |desc.value| else 0) &&
            (forall k :: 12 <= k < 12 + |code| ==> t[k] == code[k - 12]) &&
            (forall k :: 12 + |code| <= k < n ==> t[k] == ' ') &&
            (desc.Some? ==> t[n] == ' ' && t[n + 1] == ' ') &&
            (forall k :: n + 2 <= k < |t| ==> desc.Some? && t[k] == desc.value[k - n - 2])
  {
    StatesAt(fault, ident);
    PlaceAt(code, desc);
    var t := Line(fault, ident, code, desc);
    assert forall k :: 12 <= k < |t| ==> t[k] == Place(code, desc)[k - 12];
  }

  lemma HeadOfLine(fault: bool, ident: bool, code: string, desc: Option<string>)
    ensures var t := Line(fault, ident, code, desc);
            |t| >= 12 && t[0] == 'o' && t[1] == OnOff(fault)[1] && t[6] == 'o' && t[7] == OnOff(ident)[1] &&
            (forall k :: 0 < k < 6 ==> t[k] != 'o') && (forall k :: 0 <= k < 12 ==> t[k] != 'P' && t[k] != '-')
  {
    StatesAt(fault, ident);
    var t := Line(fault, ident, code, desc);
    assert forall k :: 0 <= k < 12 ==> t[k] == States(fault, ident)[k];
  }

  /** Both states are read as they were printed, from the line or from what is left of it. */
  lemma StatesAreRead(fault: bool, ident: bool, code: string, desc: Option<string>, u: string)
    requires 12 <= |u| && u <= Line(fault, ident, code, desc)
    ensures FaultState(u) == Some(fault) && IdentState(u) == Some(ident)
  {
    var t := Line(fault, ident, code, desc);
    HeadOfLine(fault, ident, code, desc);
    assert forall k :: 0 <= k < |u| ==> u[k] == t[k];
    FindIs(u, 'o', 0, 0);
    FindIs(u, 'o', 1, 6);
    OnAt(u, 0);
    OnAt(u, 6);
  }

  /**
   The location is read as it was printed exactly when a blank follows it, and, for the enclosure
   itself, when its description has no capital P.
   */
  lemma LocationIsRead(fault: bool, ident: bool, code: string, desc: Option<string>)
    requires GoodCode(code)
    ensures FruLocation(Line(fault, ident, code, desc)) == Some(code) <==>
            (|code| < 9 || desc.Some?) && (code == "-" && desc.Some? ==> 'P' !in desc.value)
    ensures var t := Line(fault, ident, code, desc);
            FruLocation(t) == Some(code) ==> 12 <= |LeftOf(t)| && LeftOf(t) <= t
  {
    var t := Line(fault, ident, code, desc);
    LineParts(fault, ident, code, desc);
    HeadOfLine(fault, ident, code, desc);
    assert t[12] == code[0];
    if code != "-" {
      FindIs(t, 'P', 0, 12);
      BlankAfterCode(t, code, desc.Some?);
    } else if desc.Some? && 'P' in desc.value {
      var k: nat :| k < |desc.value| && desc.value[k] == 'P';
      assert t[23 + k] == 'P';
    } else {
      forall k | 12 <= k < |t|
        ensures t[k] != 'P'
      {
        if k >= 23 {
          assert t[k] == desc.value[k - 23];
        }
      }
      FindIs(t, 'P', 0, |t|);
      FindIs(t, '-', 0, 12);
      BlankAfterCode(t, code, desc.Some?);
    }
  }

  lemma BlankAfterCode(t: string, code: string, verbose: bool)
    requires ' ' !in code && |t| >= 12 + |code| && (forall k :: 12 <= k < 12 + |code| ==> t[k] == code[k - 12])
    requires |t| > 12 + |code| <==> |code| < 9 || verbose
    requires |t| > 12 + |code| ==> t[12 + |code|] == ' '
    ensures Find(t, ' ', 12) == 12 + |code|
    ensures t[12..12 + |code|] == code
  {
    FindIs(t, ' ', 12, 12 + |code|);
  }

  /** The line above the listing is not taken for a component. */
  lemma HeaderIsSkipped()
    ensures FruLocation(HEADER) == None
  {
    var n := |HEADER|;
    forall k | 0 <= k < n
      ensures HEADER[k] != 'P' && HEADER[k] != '-'
    {
      assert HEADER[k] in HEADER;
    }
    FindIs(HEADER, 'P', 0, n);
    FindIs(HEADER, '-', 0, n);
  }

  // The code kept for a component.

  function StoredCode(location: string, fru: string): string {
    if fru == "-" then Cut(location) else Cut(Cut(Cut(location) + "-") + fru)
  }

  /** A stored code is the enclosure's location, and after a hyphen the component's, up to 79 characters. */
  lemma StoredCodeIs(location: string, fru: string)
    ensures var full := if fru == "-" then location else location + "-" + fru;
            StoredCode(location, fru) == if |full| < 80 then full else full[..79]
  {
  }

  /** How a component is named to the printing program. */
  function Argument(code: string): string {
    match RelativeLocation(code)
    case None => "-"
    case Some(fru) => fru
  }

  /** A stored code names the component it was stored for, when the enclosure has no hyphen and there is room. */
  lemma StoredCodeNamesComponent(location: string, fru: string)
    requires |location| < LOCATION_LENGTH && fru != ""
    ensures '-' !in location ==>
              (Argument(StoredCode(location, fru)) == fru <==>
               fru == "-" || |location| + 1 + |fru| < LOCATION_LENGTH)
    ensures fru == "-" || |location| + 1 + |fru| < LOCATION_LENGTH ==>
              (Argument(StoredCode(location, fru)) == fru <==> '-' !in location || (fru == "-" && EndsAfter(location)))
  {
    var code := StoredCode(location, fru);
    var p := Find(location, '-', 0);
    assert '-' in location ==> p < |location| by {
      if '-' in location {
        var k: nat :| k < |location| && location[k] == '-';
      }
    }
    if fru == "-" {
      assert code == location;
    } else {
      var full := location + "-" + fru;
      if |location| + 1 < LOCATION_LENGTH {
        assert code == Cut(full);
      }
      FindIs(code, '-', 0, if p < |code| then p else |code|);
      assert p == |location| && p < |code| ==> code[p + 1..] == fru[..|code| - p - 1];
    }
  }

  /** The only text after the first hyphen is another hyphen. */
  predicate EndsAfter(location: string) {
    RelativeLocation(location) == Some("-")
  }

  // A whole listing.

  datatype Component = Component(fault: bool, ident: bool, code: string, desc: string)

  function Lines(parts: seq<Component>, verbose: bool): seq<string> {
    if parts == [] then []
    else
      var p := parts[0];
      [Line(p.fault, p.ident, p.code, if verbose then Some(p.desc) else None)] + Lines(parts[1..], verbose)
  }

  function Listing(parts: seq<Component>, verbose: bool): seq<string> {
    [HEADER] + Lines(parts, verbose)
  }

  const LINE_LENGTH: nat := 126

  /** The codes of the components listed; a line that does not fit the buffer ends the listing. */
  function Codes(location: string, lines: seq<string>): seq<string> {
    if lines == [] || |lines[0]| > LINE_LENGTH then []
    else
      match FruLocation(lines[0])
      case None => Codes(location, lines[1..])
      case Some(fru) => [StoredCode(location, fru)] + Codes(location, lines[1..])
  }

  /** The state of the first component listed under a location. */
  function StateIn(lines: seq<string>, fru: string, ident: bool): Option<bool> {
    if lines == [] || |lines[0]| > LINE_LENGTH then None
    else if FruLocation(lines[0]) == Some(fru) then
      (if ident then IdentState(LeftOf(lines[0])) else FaultState(LeftOf(lines[0])))
    else StateIn(lines[1..], fru, ident)
  }

  /** A line of more than 126 characters does not fit the buffer, and ends the listing. */
  lemma LongLineEnds(location: string, lines: seq<string>, fru: string, ident: bool)
    requires lines != [] && |lines[0]| > 126
    ensures Codes(location, lines) == [] && StateIn(lines, fru, ident) == None
  {
  }

  /** Lines as a pipe delivers them. */
  predicate PlainLines(lines: seq<string>) {
    forall i :: 0 <= i < |lines| ==> NUL !in lines[i]
  }

  /** Reads a line to a buffer and takes its location. */
  method ReadLine(buf: array<char>, line: string) returns (fru: Option<string>)
    requires buf.Length == LINE_LENGTH + 2 && |line| <= LINE_LENGTH && NUL !in line
    modifies buf
    ensures Terminated(buf[..]) && Str(buf[..]) == LeftOf(line) && fru == FruLocation(line)
  {
    CopyTerminated(buf, line);
    var p := GetSesFruLocation(buf);
    if p.None? {
      return None;
    }
    var n := Strlen(buf);
    assert buf[p.value..n] == Str(buf[..])[p.value..];
    return Some(buf[p.value..n]);
  }

  method SesIndicatorList(location: string, lines: seq<string>) returns (codes: seq<string>)
    requires PlainLines(lines)
    ensures codes == Codes(location, lines)
  {
    codes := [];
    var buf := new char[LINE_LENGTH + 2];
    var i := 0;
    ghost var rest := lines;
    while i < |lines| && |lines[i]| <= LINE_LENGTH
      invariant fresh(buf) && i <= |lines| && rest == lines[i..]
      invariant codes + Codes(location, rest) == Codes(location, lines)
      decreases |lines| - i
    {
      var fru := ReadLine(buf, lines[i]);
      OneLine(location, rest);
      rest := rest[1..];
      if fru.Some? {
        codes := codes + [StoredCode(location, fru.value)];
      }
      i := i + 1;
    }
  }

  lemma OneLine(location: string, lines: seq<string>)
    requires lines != [] && |lines[0]| <= LINE_LENGTH
    ensures Codes(location, lines) ==
            (if FruLocation(lines[0]).Some? then [StoredCode(location, FruLocation(lines[0]).value)] else []) +
            Codes(location, lines[1..])
  {
  }

  method GetSesIndicator(code: string, ident: bool, lines: seq<string>) returns (state: Option<bool>)
    requires PlainLines(lines)
    ensures state == StateIn(lines, Argument(code), ident)
  {
    var buf := new char[LINE_LENGTH + 2];
    var arg := Argument(code);
    var i := 0;
    ghost var rest := lines;
    while i < |lines| && |lines[i]| <= LINE_LENGTH
      invariant fresh(buf) && i <= |lines| && rest == lines[i..]
      invariant StateIn(rest, arg, ident) == StateIn(lines, arg, ident)
      decreases |lines| - i
    {
      var fru := ReadLine(buf, lines[i]);
      OneState(rest, arg, ident);
      if fru == Some(arg) {
        if ident {
          state := GetSesFruIdentifyState(buf);
        } else {
          state := GetSesFruFaultState(buf);
        }
        return;
      }
      rest := rest[1..];
      i := i + 1;
    }
    return None;
  }

  lemma OneState(lines: seq<string>, fru: string, ident: bool)
    requires lines != [] && |lines[0]| <= LINE_LENGTH
    ensures StateIn(lines, fru, ident) ==
            if FruLocation(lines[0]) == Some(fru) then
              (if ident then IdentState(LeftOf(lines[0])) else FaultState(LeftOf(lines[0])))
            else StateIn(lines[1..], fru, ident)
  {
  }

  /** A component whose line fits the buffer and has a blank after the code. */
  predicate GoodPart(p: Component, verbose: bool) {
    GoodCode(p.code) &&
    if verbose then
      14 + |Pad(p.code, 9)| + |p.desc| <= 126 && (p.code == "-" ==> 'P' !in p.desc)
    else |p.code| < 9
  }

  predicate GoodParts(parts: seq<Component>, verbose: bool) {
    forall i :: 0 <= i < |parts| ==> GoodPart(parts[i], verbose)
  }

  function CodesOf(location: string, parts: seq<Component>): seq<string> {
    if parts == [] then [] else [StoredCode(location, parts[0].code)] + CodesOf(location, parts[1..])
  }

  /** A verbose listing is read as the components it was printed for. */
  lemma ListingIsRead(location: string, parts: seq<Component>)
    requires GoodParts(parts, true)
    ensures Codes(location, Listing(parts, true)) == CodesOf(location, parts)
  {
    HeadingIsPassed(parts, true);
    OneLine(location, Listing(parts, true));
    LinesAreRead(location, parts);
  }

  lemma HeadingIsPassed(parts: seq<Component>, verbose: bool)
    ensures var lines := Listing(parts, verbose);
            |lines[0]| <= LINE_LENGTH && FruLocation(lines[0]) == None && lines[1..] == Lines(parts, verbose)
  {
    HeaderIsSkipped();
  }

  lemma {:induction false} LinesAreRead(location: string, parts: seq<Component>)
    requires GoodParts(parts, true)
    ensures Codes(location, Lines(parts, true)) == CodesOf(location, parts)
    decreases |parts|
  {
    if parts != [] {
      var lines := Lines(parts, true);
      assert GoodPart(parts[0], true);
      LongLineIsRead(parts[0], lines[0]);
      LinesAreRead(location, parts[1..]);
      assert lines[1..] == Lines(parts[1..], true);
    }
  }

  lemma LongLineIsRead(p: Component, t: string)
    requires GoodPart(p, true) && t == Line(p.fault, p.ident, p.code, Some(p.desc))
    ensures |t| <= LINE_LENGTH && FruLocation(t) == Some(p.code)
  {
    LineParts(p.fault, p.ident, p.code, Some(p.desc));
    LocationIsRead(p.fault, p.ident, p.code, Some(p.desc));
  }

  /** Asking for the state of a stored code gives the state of its component. */
  lemma StateIsRead(location: string, parts: seq<Component>, i: nat, ident: bool)
    requires GoodParts(parts, false) && i < |parts| && forall k :: 0 <= k < i ==> parts[k].code != parts[i].code
    requires '-' !in location && |location| < LOCATION_LENGTH
    requires parts[i].code == "-" || |location| + 1 + |parts[i].code| < LOCATION_LENGTH
    ensures StateIn(Listing(parts, false), Argument(StoredCode(location, parts[i].code)), ident) ==
            Some(if ident then parts[i].ident else parts[i].fault)
  {
    assert GoodPart(parts[i], false);
    StoredCodeNamesComponent(location, parts[i].code);
    HeadingIsPassed(parts, false);
    OneState(Listing(parts, false), parts[i].code, ident);
    NamedStateIsRead(parts, i, ident);
  }

  lemma {:induction false} NamedStateIsRead(parts: seq<Component>, i: nat, ident: bool)
    requires GoodParts(parts, false) && i < |parts| && forall k :: 0 <= k < i ==> parts[k].code != parts[i].code
    ensures StateIn(Lines(parts, false), parts[i].code, ident) ==
            Some(if ident then parts[i].ident else parts[i].fault)
    decreases |parts|
  {
    var lines, rest := Lines(parts, false), parts[1..];
    assert GoodPart(parts[0], false);
    ShortLineIsRead(parts[0], lines[0]);
    assert lines[1..] == Lines(rest, false);
    OneState(lines, parts[i].code, ident);
    if i > 0 {
      assert rest[i - 1] == parts[i];
      NamedStateIsRead(rest, i - 1, ident);
    }
  }

  lemma ShortLineIsRead(p: Component, t: string)
    requires GoodPart(p, false) && t == Line(p.fault, p.ident, p.code, None)
    ensures |t| <= LINE_LENGTH && FruLocation(t) == Some(p.code)
    ensures FaultState(LeftOf(t)) == Some(p.fault) && IdentState(LeftOf(t)) == Some(p.ident)
  {
    LineParts(p.fault, p.ident, p.code, None);
    LocationIsRead(p.fault, p.ident, p.code, None);
    StatesAreRead(p.fault, p.ident, p.code, None, LeftOf(t));
  }
}
