/**
 The text form of the SMART log page: written one field a line, read back as a dictionary of
 keys and numbers, and assigned to the fields of a page.
 */
module SmartFile {
  import opened CString
  import opened Decimal
  import opened SmartLog
  import opened Uint128
  import opened Wrappers

  const MAX_DICT_ELEMENTS: nat := 64

  datatype Entry = Entry(key: string, value: real)

  // Writing.

  /** A field as it is written: its name, its number and its length in bytes. */
  datatype Row = Row(key: string, number: nat, bytes: nat)

  function LineOf(r: Row): string {
    r.key + " = " + Numeral(r.number) + " # Length " + Numeral(r.bytes) + " byte\n"
  }

  function TextOf(rows: seq<Row>): string {
    if rows == [] then "" else LineOf(rows[0]) + TextOf(rows[1..])
  }

  function RowsOf(t: Table, page: seq<Content>): (rows: seq<Row>)
    requires IsPage(t, page)
    ensures |rows| == |t|
  {
    seq(|t|, i requires 0 <= i < |t| => Row(t[i].key, Number(page[i]), Width(t[i].kind)))
  }

  method WriteSmartFile(t: Table, page: seq<Content>) returns (text: string)
    requires IsPage(t, page)
    ensures text == TextOf(RowsOf(t, page))
  {
    text := "";
    ghost var rows := RowsOf(t, page);
    var i := 0;
    while i < |t|
      invariant 0 <= i <= |t|
      invariant text + TextOf(rows[i..]) == TextOf(rows)
    {
      assert rows[i..][0] == rows[i] && rows[i..][1..] == rows[i + 1..];
      AppendLine(text, LineOf(rows[i]), TextOf(rows[i + 1..]));
      text := text + LineOf(Row(t[i].key, Number(page[i]), Width(t[i].kind)));
      i := i + 1;
    }
  }

  lemma AppendLine(text: string, line: string, rest: string)
    ensures text + (line + rest) == text + line + rest
  {
  }

  // Reading.

  /** The length of the key at the front: no equals sign, no blank, at most n characters. */
  function KeyRun(s: string, n: nat): (k: nat)
    ensures k <= |s| && k <= n
  {
    if n == 0 || s == "" || s[0] == '=' || s[0] == ' ' then 0 else 1 + KeyRun(s[1..], n - 1)
  }

  /** Blank lines, and lines that start with a sharp or a slash, hold nothing. */
  predicate Skipped(line: string) {
    var s := SkipSpace(line);
    s == "" || s[0] == '#' || s[0] == '/'
  }

  function ParseLine(line: string): Option<Entry> {
    var s := SkipSpace(line);
    var k := KeyRun(s, KEY_LENGTH - 1);
    ParseValue(s[..k], SkipSpace(s[k..]))
  }

  /** A key, and what comes after it. */
  function ParseValue(key: string, t: string): Option<Entry> {
    if key == "" || t == "" || t[0] != '=' then None
    else
      match ParseReal(SkipSpace(t[1..]))
      case None => None
      case Some(v) => Some(Entry(key, v))
  }

  /** The length of the first line, with its newline if it has one. */
  function LineLength(text: string): (n: nat)
    ensures n <= |text| && (text != "" ==> n > 0)
  {
    if text == "" then 0 else if text[0] == '\n' then 1 else 1 + LineLength(text[1..])
  }

  datatype LineResult = Blank | Bad | Good(entry: Entry)

  function ReadLine(line: string): LineResult {
    if Skipped(line) then Blank
    else
      match ParseLine(line)
      case None => Bad
      case Some(e) => Good(e)
  }

  function ReadLines(text: string): seq<LineResult> {
    if text == "" then []
    else [ReadLine(text[..LineLength(text)])] + ReadLines(text[LineLength(text)..])
  }

  /** The entries of some lines, no more than there is room for; None when a line is malformed. */
  function Collect(lines: seq<LineResult>, room: nat): Option<seq<Entry>>
    decreases |lines|
  {
    if lines == [] || room == 0 then Some([])
    else
      match lines[0]
      case Blank => Collect(lines[1..], room)
      case Bad => None
      case Good(e) => Prepend([e], Collect(lines[1..], room - 1))
  }

  function Prepend(dict: seq<Entry>, es: Option<seq<Entry>>): Option<seq<Entry>> {
    if es.Some? then Some(dict + es.value) else None
  }

  function ParseDict(text: string, room: nat): Option<seq<Entry>> {
    Collect(ReadLines(text), room)
  }

  /** The number of entries read, -1 for a malformed line, -2 when there is no file. */
  method ReadFileDict(file: Option<string>, maxElements: nat) returns (rc: int, dict: seq<Entry>)
    ensures rc == match file
                  case None => -2
                  case Some(text) => if ParseDict(text, maxElements).None? then -1 else |dict|
    ensures rc >= 0 ==> ParseDict(file.value, maxElements) == Some(dict)
  {
    dict := [];
    if file.None? {
      return -2, dict;
    }
    var text, bad := file.value, false;
    Prepending(ParseDict(text, maxElements), dict);
    while text != "" && |dict| < maxElements && !bad
      invariant |dict| <= maxElements
      invariant ParseDict(file.value, maxElements) == ToRead(dict, text, maxElements, bad)
      decreases |text|
    {
      dict, text, bad := ReadEntry(dict, text, maxElements);
    }
    if bad {
      return -1, dict;
    }
    Prepending(None, dict);
    rc := |dict|;
  }

  /** What reading the rest of the file makes of the entries read so far. */
  function ToRead(dict: seq<Entry>, text: string, maxElements: nat, bad: bool): Option<seq<Entry>>
    requires |dict| <= maxElements
  {
    if bad then None else Prepend(dict, Collect(ReadLines(text), maxElements - |dict|))
  }

  method ReadEntry(dict: seq<Entry>, text: string, ghost maxElements: nat)
    returns (dict': seq<Entry>, text': string, bad: bool)
    requires text != "" && |dict| < maxElements
    ensures |text'| < |text| && |dict'| <= maxElements
    ensures ToRead(dict', text', maxElements, bad) == ToRead(dict, text, maxElements, false)
  {
    var n := LineLength(text);
    var result := ReadLine(text[..n]);
    NextLine(dict, text, maxElements - |dict|);
    dict', text', bad := dict, text[n..], result.Bad?;
    if result.Good? {
      dict' := dict + [result.entry];
    }
  }

  lemma NextLine(dict: seq<Entry>, text: string, room: nat)
    requires text != "" && room > 0
    ensures var rest := ReadLines(text[LineLength(text)..]);
            Prepend(dict, Collect(ReadLines(text), room)) ==
            match ReadLine(text[..LineLength(text)])
            case Blank => Prepend(dict, Collect(rest, room))
            case Bad => None
            case Good(e) => Prepend(dict + [e], Collect(rest, room - 1))
  {
    var result, rest := ReadLine(text[..LineLength(text)]), ReadLines(text[LineLength(text)..]);
    assert ReadLines(text)[0] == result && ReadLines(text)[1..] == rest;
    if result.Good? {
      PrependTwice(dict, result.entry, Collect(rest, room - 1));
    }
  }

  lemma Prepending(es: Option<seq<Entry>>, dict: seq<Entry>)
    ensures Prepend([], es) == es && Prepend(dict, Some([])) == Some(dict)
  {
    assert es.Some? ==> [] + es.value == es.value;
    assert dict + [] == dict;
  }

  lemma PrependTwice(dict: seq<Entry>, e: Entry, es: Option<seq<Entry>>)
    ensures Prepend(dict, Prepend([e], es)) == Prepend(dict + [e], es)
  {
    assert es.Some? ==> dict + ([e] + es.value) == dict + [e] + es.value;
  }

  // Assigning fields.

  /** The field a key names: the first match of the chain of comparisons. */
  function FieldFrom(t: Table, key: string, i: nat): (r: Option<nat>)
    requires i <= |t|
    ensures r.Some? ==> i <= r.value < |t| && t[r.value].key == key
    ensures r.None? ==> forall j :: i <= j < |t| ==> t[j].key != key
    decreases |t| - i
  {
    if i == |t| then None else if t[i].key == key then Some(i) else FieldFrom(t, key, i + 1)
  }

  /** A value a field of this kind accepts: in range, or merely not negative for a counter. */
  predicate Accepted(k: Kind, v: real) {
    0.0 <= v && (k == U128 || v <= (Pow256(Width(k)) - 1) as real)
  }

  function Converted(k: Kind, v: real): (c: Content)
    requires Accepted(k, v)
    ensures WellTyped(c, k)
  {
    if k == U128 then Counter(Digits(v.Floor, BYTES)) else Scalar(v.Floor)
  }

  /** The page after the entries of a dictionary; None at the first value out of range. */
  function Assign(t: Table, page: seq<Content>, dict: seq<Entry>): (r: Option<seq<Content>>)
    requires IsPage(t, page)
    ensures r.Some? ==> IsPage(t, r.value)
    decreases |dict|
  {
    if dict == [] then Some(page)
    else
      match FieldFrom(t, dict[0].key, 0)
      case None => Assign(t, page, dict[1..])
      case Some(i) =>
        if Accepted(t[i].kind, dict[0].value)
        then Assign(t, page[i := Converted(t[i].kind, dict[0].value)], dict[1..])
        else None
  }

  /** The page where assignment ends, at the end of the dictionary or at the first value out of range. */
  function Reached(t: Table, page: seq<Content>, dict: seq<Entry>): (r: seq<Content>)
    requires IsPage(t, page)
    ensures IsPage(t, r) && (Assign(t, page, dict).Some? ==> Assign(t, page, dict).value == r)
    decreases |dict|
  {
    if dict == [] then page
    else
      match FieldFrom(t, dict[0].key, 0)
      case None => Reached(t, page, dict[1..])
      case Some(i) =>
        if Accepted(t[i].kind, dict[0].value)
        then Reached(t, page[i := Converted(t[i].kind, dict[0].value)], dict[1..])
        else page
  }

  class SmartPage {
    const t: Table
    var fields: seq<Content>

    predicate Valid()
      reads this
    {
      IsPage(t, fields)
    }

    constructor (t: Table, page: seq<Content>)
      requires IsPage(t, page)
      ensures Valid() && this.t == t && fields == page
    {
      this.t := t;
      fields := page;
    }

    method SetSmartLogField(dict: seq<Entry>) returns (rc: int)
      requires Valid()
      modifies this
      ensures Valid() && rc == if Assign(t, old(fields), dict).Some? then 0 else -1
      ensures fields == Reached(t, old(fields), dict)
    {
      var d := 0;
      while d < |dict|
        invariant 0 <= d <= |dict| && Valid()
        invariant Assign(t, fields, dict[d..]) == Assign(t, old(fields), dict)
        invariant Reached(t, fields, dict[d..]) == Reached(t, old(fields), dict)
      {
        assert dict[d..][0] == dict[d] && dict[d..][1..] == dict[d + 1..];
        var i := FieldFrom(t, dict[d].key, 0);
        if i.Some? {
          if !Accepted(t[i.value].kind, dict[d].value) {
            return -1;
          }
          fields := fields[i.value := Converted(t[i.value].kind, dict[d].value)];
        }
        d := d + 1;
      }
      return 0;
    }

    /** Loads a page from a file: -1 for a bad file, -2 when there is none. */
    method GetSmartFile(file: Option<string>) returns (rc: int)
      requires Valid()
      modifies this
      ensures Valid()
      ensures rc == if file.None? then -2 else if Loaded(t, old(fields), file.value).Some? then 0 else -1
      ensures rc == 0 ==> Loaded(t, old(fields), file.value) == Some(fields)
      ensures fields == if file.None? || ParseDict(file.value, MAX_DICT_ELEMENTS).None? then old(fields)
                        else Reached(t, old(fields), ParseDict(file.value, MAX_DICT_ELEMENTS).value)
    {
      var n, dict := ReadFileDict(file, MAX_DICT_ELEMENTS);
      if n < 0 {
        return n;
      }
      rc := SetSmartLogField(dict);
    }
  }

  /** The page a file loads into, if it loads. */
  function Loaded(t: Table, page: seq<Content>, text: string): Option<seq<Content>>
    requires IsPage(t, page)
  {
    match ParseDict(text, MAX_DICT_ELEMENTS)
    case None => None
    case Some(dict) => Assign(t, page, dict)
  }

  // The round trip.

  lemma {:induction false} RunOfKey(key: string, rest: string, n: nat)
    requires |key| <= n && rest != "" && rest[0] == ' '
    requires forall k :: 0 <= k < |key| ==> KeyChar(key[k])
    ensures KeyRun(key + rest, n) == |key|
  {
    if key == "" {
      assert key + rest == rest;
    } else {
      RunOfKey(key[1..], rest, n - 1);
      assert (key + rest)[1..] == key[1..] + rest;
    }
  }

  lemma {:induction false} FirstLine(line: string, rest: string)
    requires line != "" && line[|line| - 1] == '\n' && '\n' !in line[..|line| - 1]
    ensures LineLength(line + rest) == |line|
  {
    if |line| > 1 {
      assert line[0] == line[..|line| - 1][0];
      assert line[1..][..|line| - 2] == line[..|line| - 1][1..];
      FirstLine(line[1..], rest);
      assert (line + rest)[1..] == line[1..] + rest;
    }
  }

  /** What follows the number on a line. */
  function LineTail(bytes: nat): string {
    " # Length " + Numeral(bytes) + " byte\n"
  }

  lemma SpacesBetween(n: string, tail: string)
    requires n != "" && AllDigits(n)
    ensures SkipSpace(" = " + n + tail) == "= " + n + tail
    ensures SkipSpace(("= " + n + tail)[1..]) == n + tail
  {
    var s, t, u := " = " + n + tail, "= " + n + tail, " " + (n + tail);
    assert s[1..] == t && t[1..] == u && u[1..] == n + tail;
    assert (n + tail)[0] == n[0];
  }

  lemma KeyPart(key: string, afterKey: string)
    requires PlainKey(key) && afterKey != "" && afterKey[0] == ' '
    ensures var line := key + afterKey;
            SkipSpace(line) == line && KeyRun(line, KEY_LENGTH - 1) == |key| &&
            line[..|key|] == key && line[|key|..] == afterKey
  {
    assert (key + afterKey)[0] == key[0] && KeyChar(key[0]);
    RunOfKey(key, afterKey, KEY_LENGTH - 1);
  }

  lemma ParseLineIs(line: string, key: string, afterKey: string, t: string, number: string, v: real)
    requires PlainKey(key) && afterKey != "" && afterKey[0] == ' ' && line == key + afterKey
    requires SkipSpace(afterKey) == t && t != "" && t[0] == '='
    requires SkipSpace(t[1..]) == number && ParseReal(number) == Some(v)
    ensures !Skipped(line) && ParseLine(line) == Some(Entry(key, v))
  {
    KeyPart(key, afterKey);
    assert line[0] == key[0] && KeyChar(key[0]);
  }

  lemma LineShape(r: Row)
    ensures LineOf(r) == r.key + (" = " + Numeral(r.number) + LineTail(r.bytes))
  {
  }

  /** A written line reads back as its key and number. */
  lemma LineReadsBack(r: Row)
    requires PlainKey(r.key)
    ensures ReadLine(LineOf(r)) == Good(EntryOf(r))
  {
    var n, tail := Numeral(r.number), LineTail(r.bytes);
    LineShape(r);
    SpacesBetween(n, tail);
    assert tail[0] == ' ';
    ParseNumeral(r.number, tail);
    ParseLineIs(LineOf(r), r.key, " = " + n + tail, "= " + n + tail, n + tail, r.number as real);
  }

  lemma LineIsOneLine(r: Row)
    requires PlainKey(r.key)
    ensures var line := LineOf(r);
            line != "" && line[|line| - 1] == '\n' && '\n' !in line[..|line| - 1]
  {
    var line, n, b := LineOf(r), Numeral(r.number), Numeral(r.bytes);
    assert '\n' !in r.key && '\n' !in n && '\n' !in b;
    assert line[..|line| - 1] == r.key + " = " + n + " # Length " + b + " byte";
  }

  predicate PlainRows(rows: seq<Row>) {
    forall i :: 0 <= i < |rows| ==> PlainKey(rows[i].key)
  }

  function EntryOf(r: Row): Entry {
    Entry(r.key, r.number as real)
  }

  function EntriesOf(rows: seq<Row>): (es: seq<Entry>)
    ensures |es| == |rows| && forall i :: 0 <= i < |rows| ==> es[i] == EntryOf(rows[i])
  {
    seq(|rows|, i requires 0 <= i < |rows| => EntryOf(rows[i]))
  }

  /** The lines are one good entry for each row. */
  predicate ReadsRows(lines: seq<LineResult>, rows: seq<Row>) {
    |lines| == |rows| && forall i :: 0 <= i < |rows| ==> lines[i] == Good(EntryOf(rows[i]))
  }

  /** Each line of a written page reads as one good entry. */
  lemma {:induction false} TextReadsBack(rows: seq<Row>)
    requires PlainRows(rows)
    ensures ReadsRows(ReadLines(TextOf(rows)), rows)
  {
    if rows != [] {
      var line, rest := LineOf(rows[0]), TextOf(rows[1..]);
      LineIsOneLine(rows[0]);
      LineReadsBack(rows[0]);
      FirstLineIsRead(line, rest);
      TextReadsBack(rows[1..]);
      OneMoreRow(ReadLines(rest), rows);
    }
  }

  lemma FirstLineIsRead(line: string, rest: string)
    requires line != "" && line[|line| - 1] == '\n' && '\n' !in line[..|line| - 1]
    ensures ReadLines(line + rest) == [ReadLine(line)] + ReadLines(rest)
  {
    var text := line + rest;
    FirstLine(line, rest);
    assert text[..|line|] == line && text[|line|..] == rest;
  }

  lemma OneMoreRow(lines: seq<LineResult>, rows: seq<Row>)
    requires rows != [] && ReadsRows(lines, rows[1..])
    ensures ReadsRows([Good(EntryOf(rows[0]))] + lines, rows)
  {
    var all := [Good(EntryOf(rows[0]))] + lines;
    forall i | 0 <= i < |rows|
      ensures all[i] == Good(EntryOf(rows[i]))
    {
      if i > 0 {
        assert all[i] == lines[i - 1] && rows[1..][i - 1] == rows[i];
      }
    }
  }

  lemma {:induction false} CollectGood(lines: seq<LineResult>, es: seq<Entry>, room: nat)
    requires |lines| == |es| <= room && forall i :: 0 <= i < |es| ==> lines[i] == Good(es[i])
    ensures Collect(lines, room) == Some(es)
  {
    if es != [] {
      CollectGood(lines[1..], es[1..], room - 1);
      assert es == [es[0]] + es[1..];
    }
  }

  lemma NumberConvertsBack(c: Content, k: Kind)
    requires WellTyped(c, k)
    ensures Accepted(k, Number(c) as real) && Converted(k, Number(c) as real) == c
  {
    if k == U128 {
      DigitsOfValue(c.bytes);
    }
  }

  lemma KeyIsFound(t: Table, i: nat)
    requires GoodTable(t) && i < |t|
    ensures FieldFrom(t, t[i].key, 0) == Some(i)
  {
  }

  /** Assigning the entries from i on, to a page that already agrees before i. */
  lemma {:induction false} EntriesAssignBack(
      t: Table, page: seq<Content>, before: seq<Content>, i: nat, es: seq<Entry>)
    requires GoodTable(t) && IsPage(t, page) && IsPage(t, before) && i <= |t| && before[..i] == page[..i]
    requires es == EntriesOf(RowsOf(t, page))[i..]
    ensures Assign(t, before, es) == Some(page)
    decreases |t| - i
  {
    if i == |t| {
      assert before[..i] == before && page[..i] == page;
    } else {
      var k, next, rest := i + 1, before[i := page[i]], es[1..];
      assert es[0] == EntriesOf(RowsOf(t, page))[i];
      NumberConvertsBack(page[i], t[i].kind);
      KeyIsFound(t, i);
      assert next[..k] == before[..i] + [page[i]] && page[..k] == page[..i] + [page[i]];
      EntriesAssignBack(t, page, next, k, rest);
    }
  }

  /** Any page of a good table that fits the dictionary is restored, whatever was there before. */
  lemma PageRoundTrip(t: Table, page: seq<Content>, before: seq<Content>)
    requires GoodTable(t) && |t| <= MAX_DICT_ELEMENTS && IsPage(t, page) && IsPage(t, before)
    ensures Loaded(t, before, TextOf(RowsOf(t, page))) == Some(page)
  {
    var rows := RowsOf(t, page);
    TextReadsBack(rows);
    CollectGood(ReadLines(TextOf(rows)), EntriesOf(rows), MAX_DICT_ELEMENTS);
    assert EntriesOf(rows)[0..] == EntriesOf(rows);
    EntriesAssignBack(t, page, before, 0, EntriesOf(rows));
  }

  /** Dumping a SMART log page and loading the dump restores all thirty fields. */
  lemma SmartFileRoundTrip(page: seq<Content>, before: seq<Content>)
    requires IsPage(SmartFields(), page) && IsPage(SmartFields(), before)
    ensures Loaded(SmartFields(), before, TextOf(RowsOf(SmartFields(), page))) == Some(page)
  {
    SmartFieldsAreGood();
    PageRoundTrip(SmartFields(), page, before);
  }

  // Whole files, told from the characters of their lines.

  /** The white space from a on ends at b. */
  predicate WhiteRun(s: string, a: nat, b: nat) {
    a <= b <= |s| && (forall k :: a <= k < b ==> s[k] in WHITE_SPACE) && (b < |s| ==> s[b] !in WHITE_SPACE)
  }

  /** The key from a on ends at b: before an equals sign or a blank, or after n characters. */
  predicate KeyEnds(s: string, a: nat, b: nat, n: nat) {
    a <= b <= |s| && b - a <= n && (forall k :: a <= k < b ==> s[k] !in "= ") &&
    (b < |s| && b - a < n ==> s[b] in "= ")
  }

  /** The line is empty, or a sharp or a slash comes first. */
  ghost predicate RemarkForm(line: string) {
    exists p: nat :: WhiteRun(line, 0, p) && (p < |line| ==> line[p] in "#/")
  }

  /** A line that is no remark has its key from p to q, the next thing at r, and the one after that at v. */
  predicate Marks(line: string, p: nat, q: nat, r: nat, v: nat) {
    WhiteRun(line, 0, p) && p < |line| && line[p] !in "#/" && KeyEnds(line, p, q, 127) && WhiteRun(line, q, r) &&
    if r < |line| then WhiteRun(line, r + 1, v) else v == r
  }

  /** A key, an equals sign and a number. */
  ghost predicate SettingForm(line: string, e: Entry) {
    exists p: nat, q: nat, r: nat, v: nat :: Marks(line, p, q, r, v) && p < q && r < |line| && line[r] == '=' &&
      e.key == line[p..q] && ParseReal(line[v..]) == Some(e.value)
  }

  /** No remark, and no key, or no equals sign after it, or no number after that. */
  ghost predicate OtherForm(line: string) {
    exists p: nat, q: nat, r: nat, v: nat :: Marks(line, p, q, r, v) &&
      (p == q || r == |line| || line[r] != '=' || !StartsNumber(line[v..]))
  }

  lemma {:induction false} WhiteRunIs(s: string, a: nat, b: nat, from: string)
    requires a <= |s| && from == s[a..]
    ensures WhiteRun(s, a, b) <==> b == |s| - |SkipSpace(from)|
    ensures b == |s| - |SkipSpace(from)| ==> SkipSpace(from) == s[b..]
    decreases |s| - a
  {
    if a < |s| {
      SpaceIs(s[a]);
      if IsSpace(s[a]) {
        WhiteRunIs(s, a + 1, b, from[1..]);
        assert !WhiteRun(s, a, a);
      }
    }
  }

  lemma {:induction false} KeyEndsIs(s: string, a: nat, b: nat, n: nat, from: string)
    requires a <= |s| && from == s[a..]
    ensures KeyEnds(s, a, b, n) <==> b == a + KeyRun(from, n)
    decreases n
  {
    if n > 0 && a < |s| && s[a] !in "= " {
      KeyEndsIs(s, a + 1, b, n - 1, from[1..]);
      assert !KeyEnds(s, a, a, n);
    }
  }

  lemma MarksRead(line: string, p: nat, q: nat, r: nat, v: nat)
    requires Marks(line, p, q, r, v)
    ensures !Skipped(line)
    ensures ParseLine(line) == EntryAt(line, p, q, r, ParseReal(line[v..]))
  {
    var s, k, key, t := line[p..], q - p, line[p..q], line[r..];
    KeyIsAt(line, p, q);
    ValueIsAt(line, q, r, v);
    SlicesOfLine(line, p, q);
    KeyParts(line, s, k, key, t);
    ValueParts(line, p, q, r, line[v..], key, t);
  }

  /** The entry of a line that has its key from p to q, and the value after an equals sign at r. */
  function EntryAt(line: string, p: nat, q: nat, r: nat, value: Option<real>): Option<Entry>
    requires p <= q <= |line| && r <= |line|
  {
    if p < q && r < |line| && line[r] == '=' && value.Some? then Some(Entry(line[p..q], value.value)) else None
  }

  lemma KeyIsAt(line: string, p: nat, q: nat)
    requires WhiteRun(line, 0, p) && KeyEnds(line, p, q, 127)
    ensures SkipSpace(line) == line[p..] && KeyRun(line[p..], 127) == q - p
  {
    WhiteRunIs(line, 0, p, line);
    KeyEndsIs(line, p, q, 127, line[p..]);
  }

  lemma SlicesOfLine(line: string, p: nat, q: nat)
    requires p <= q <= |line|
    ensures line[p..][q - p..] == line[q..] && line[p..][..q - p] == line[p..q]
  {
  }

  lemma ValueIsAt(line: string, q: nat, r: nat, v: nat)
    requires WhiteRun(line, q, r) && (r < |line| ==> WhiteRun(line, r + 1, v))
    ensures SkipSpace(line[q..]) == line[r..]
    ensures r < |line| ==> v <= |line| && SkipSpace(line[r..][1..]) == line[v..]
  {
    WhiteRunIs(line, q, r, line[q..]);
    if r < |line| {
      WhiteRunIs(line, r + 1, v, line[r..][1..]);
    }
  }

  lemma KeyParts(line: string, s: string, k: nat, key: string, t: string)
    requires s == SkipSpace(line) && k == KeyRun(s, KEY_LENGTH - 1) && key == s[..k] && t == SkipSpace(s[k..])
    ensures ParseLine(line) == ParseValue(key, t)
  {
  }

  lemma ValueParts(line: string, p: nat, q: nat, r: nat, number: string, key: string, t: string)
    requires p <= q <= |line| && r <= |line| && key == line[p..q] && t == line[r..]
    requires t != "" ==> number == SkipSpace(t[1..])
    ensures ParseValue(key, t) == EntryAt(line, p, q, r, ParseReal(number))
  {
    assert r < |line| ==> t[0] == line[r];
  }

  lemma {:induction false} EndOfWhite(s: string, a: nat) returns (b: nat)
    requires a <= |s|
    ensures WhiteRun(s, a, b)
    decreases |s| - a
  {
    b := a;
    if a < |s| && s[a] in WHITE_SPACE {
      b := EndOfWhite(s, a + 1);
    }
  }

  lemma {:induction false} EndOfKey(s: string, a: nat, n: nat) returns (b: nat)
    requires a <= |s|
    ensures KeyEnds(s, a, b, n)
    decreases n
  {
    b := a;
    if n > 0 && a < |s| && s[a] !in "= " {
      b := EndOfKey(s, a + 1, n - 1);
    }
  }

  lemma MarksExist(line: string) returns (p: nat, q: nat, r: nat, v: nat)
    requires !RemarkForm(line)
    ensures Marks(line, p, q, r, v)
  {
    p := EndOfWhite(line, 0);
    q := EndOfKey(line, p, 127);
    r := EndOfWhite(line, q);
    v := r;
    if r < |line| {
      v := EndOfWhite(line, r + 1);
    }
  }

  lemma RemarkIsSkipped(line: string)
    requires RemarkForm(line)
    ensures ReadLine(line) == Blank
  {
    var p: nat :| WhiteRun(line, 0, p) && (p < |line| ==> line[p] in "#/");
    WhiteRunIs(line, 0, p, line);
  }

  lemma SettingIsRead(line: string, e: Entry)
    requires SettingForm(line, e)
    ensures ReadLine(line) == Good(e)
  {
    var p: nat, q: nat, r: nat, v: nat :| Marks(line, p, q, r, v) && p < q && r < |line| && line[r] == '=' &&
      e.key == line[p..q] && ParseReal(line[v..]) == Some(e.value);
    MarksRead(line, p, q, r, v);
  }

  lemma OtherIsBad(line: string)
    requires OtherForm(line)
    ensures ReadLine(line) == Bad
  {
    var p: nat, q: nat, r: nat, v: nat :| Marks(line, p, q, r, v) &&
      (p == q || r == |line| || line[r] != '=' || !StartsNumber(line[v..]));
    MarksRead(line, p, q, r, v);
    NumbersStart(line[v..]);
  }

  /** Every line has one of three forms, and is read accordingly. */
  lemma LineForms(line: string)
    ensures ReadLine(line) == Blank <==> RemarkForm(line)
    ensures forall e :: ReadLine(line) == Good(e) <==> SettingForm(line, e)
    ensures ReadLine(line) == Bad <==> OtherForm(line)
  {
    forall e | SettingForm(line, e)
      ensures ReadLine(line) == Good(e)
    {
      SettingIsRead(line, e);
    }
    if RemarkForm(line) {
      RemarkIsSkipped(line);
    }
    if OtherForm(line) {
      OtherIsBad(line);
    }
    SomeForm(line);
  }

  lemma SomeForm(line: string)
    ensures match ReadLine(line)
            case Blank => RemarkForm(line)
            case Good(e) => SettingForm(line, e)
            case Bad => OtherForm(line)
  {
    if !RemarkForm(line) {
      var p, q, r, v := MarksExist(line);
      MarksRead(line, p, q, r, v);
      NumbersStart(line[v..]);
    } else {
      RemarkIsSkipped(line);
    }
  }

  /** A line of a file: nothing or a remark, or a setting. */
  datatype FileLine = Remark(text: string) | Setting(text: string, entry: Entry)

  ghost predicate GoodLine(l: FileLine) {
    OneLine(l.text) &&
    match l
    case Remark(text) => RemarkForm(text)
    case Setting(text, e) => SettingForm(text, e)
  }

  /** Some text without a newline in it, but for one at its end. */
  predicate OneLine(line: string) {
    line != "" && '\n' !in line[..|line| - 1]
  }

  predicate EndsLine(line: string) {
    line != "" && line[|line| - 1] == '\n'
  }

  function FileText(ls: seq<FileLine>): string {
    if ls == [] then "" else ls[0].text + FileText(ls[1..])
  }

  function Settings(ls: seq<FileLine>): seq<Entry> {
    if ls == [] then []
    else (if ls[0].Setting? then [ls[0].entry] else []) + Settings(ls[1..])
  }

  /** Lines of a file before the rest of it; only the very last line of a file may lack its newline. */
  ghost predicate GoodLines(ls: seq<FileLine>, rest: string) {
    (forall i :: 0 <= i < |ls| ==> GoodLine(ls[i])) &&
    forall i :: 0 <= i < |ls| && (i < |ls| - 1 || rest != "") ==> EndsLine(ls[i].text)
  }

  lemma AnyLineIsRead(line: string, rest: string)
    requires OneLine(line) && (rest != "" ==> EndsLine(line))
    ensures ReadLines(line + rest) == [ReadLine(line)] + ReadLines(rest)
  {
    if EndsLine(line) {
      FirstLineIsRead(line, rest);
    } else {
      WholeLine(line);
      assert line + rest == line && line[..|line|] == line && line[|line|..] == "";
    }
  }

  lemma {:induction false} WholeLine(line: string)
    requires '\n' !in line
    ensures LineLength(line) == |line|
  {
    if line != "" {
      assert line[0] in line;
      WholeLine(line[1..]);
    }
  }

  /** Some entries, and those of the rest of a file, up to the room. */
  function EntriesThen(es: seq<Entry>, rest: string, room: nat): Option<seq<Entry>> {
    if |es| >= room then Some(es[..room]) else Prepend(es, ParseDict(rest, room - |es|))
  }

  /** The settings are the entries, in order, until the room is used up; what comes after that is not read. */
  lemma {:induction false} LinesAreRead(ls: seq<FileLine>, rest: string, room: nat)
    requires GoodLines(ls, rest)
    ensures ParseDict(FileText(ls) + rest, room) == EntriesThen(Settings(ls), rest, room)
    decreases |ls|
  {
    if ls == [] {
      assert FileText(ls) + rest == rest;
      Prepending(ParseDict(rest, room), []);
    } else if room > 0 {
      var line, later := ls[0], ls[1..];
      var more, left := FileText(later) + rest, if line.Setting? then room - 1 else room;
      LaterLines(ls, rest);
      LinesAreRead(later, rest, left);
      ConcatAssociates(line.text, FileText(later), rest);
      OneMoreLine(line, more, Settings(later), rest, room, left);
    }
  }

  lemma OneMoreLine(line: FileLine, more: string, es: seq<Entry>, rest: string, room: nat, left: nat)
    requires GoodLine(line) && (more != "" ==> EndsLine(line.text))
    requires room > 0 && left == if line.Setting? then room - 1 else room
    requires ParseDict(more, left) == EntriesThen(es, rest, left)
    ensures ParseDict(line.text + more, room) ==
            EntriesThen((if line.Setting? then [line.entry] else []) + es, rest, room)
  {
    LineForms(line.text);
    LineIsCollected(line.text, more, room);
    if line.Setting? {
      OneMoreSetting(line.entry, es, rest, room);
    } else {
      assert [] + es == es;
    }
  }

  lemma LineIsCollected(line: string, more: string, room: nat)
    requires OneLine(line) && (more != "" ==> EndsLine(line)) && room > 0
    ensures ParseDict(line + more, room) ==
            match ReadLine(line)
            case Blank => ParseDict(more, room)
            case Bad => None
            case Good(e) => Prepend([e], ParseDict(more, room - 1))
  {
    AnyLineIsRead(line, more);
    assert ReadLines(line + more)[1..] == ReadLines(more);
  }

  lemma LaterLines(ls: seq<FileLine>, rest: string)
    requires ls != [] && GoodLines(ls, rest)
    ensures GoodLine(ls[0]) && GoodLines(ls[1..], rest) && (FileText(ls[1..]) + rest != "" ==> EndsLine(ls[0].text))
  {
    var more := ls[1..];
    assert forall i :: 0 <= i < |more| ==> more[i] == ls[i + 1];
  }

  lemma OneMoreSetting(e: Entry, es: seq<Entry>, rest: string, room: nat)
    requires room > 0
    ensures Prepend([e], EntriesThen(es, rest, room - 1)) == EntriesThen([e] + es, rest, room)
  {
    var all := [e] + es;
    if |all| >= room {
      assert all[..room] == [e] + es[..room - 1];
    } else {
      var r := ParseDict(rest, room - |all|);
      assert r.Some? ==> [e] + (es + r.value) == all + r.value;
    }
  }

  /** A file of settings, empty lines and remarks is read as its settings, up to the room. */
  lemma FileOfSettingsIsRead(ls: seq<FileLine>, room: nat)
    requires GoodLines(ls, "")
    ensures ParseDict(FileText(ls), room) == Some(Settings(ls)[..Min(room, |Settings(ls)|)])
  {
    assert FileText(ls) + "" == FileText(ls);
    LinesAreRead(ls, "", room);
    var es := Settings(ls);
    Prepending(None, es);
    assert es[..|es|] == es;
  }

  /** A line of any other form makes a file a bad one exactly when it comes before the room is used up. */
  lemma OtherLineIsRejected(ls: seq<FileLine>, line: string, rest: string, room: nat)
    requires GoodLines(ls, line + rest) && OneLine(line) && (rest != "" ==> EndsLine(line)) && OtherForm(line)
    ensures ParseDict(FileText(ls) + (line + rest), room) == None <==> |Settings(ls)| < room
  {
    LinesAreRead(ls, line + rest, room);
    LineForms(line);
    AnyLineIsRead(line, rest);
  }

  // What a dictionary does to a page.

  /** A value in the range of a field: what fits its bytes, or anything not negative for a counter. */
  predicate InRange(k: Kind, v: real) {
    0.0 <= v &&
    match k
    case U8 => v <= 255.0
    case U16 => v <= 65535.0
    case U32 => v <= 4294967295.0
    case U128 => true
  }

  /** The number a field keeps of a value. */
  function Kept(k: Kind, v: real): int {
    if k == U128 then v.Floor % 0x1_0000_0000_0000_0000_0000_0000_0000_0000 else v.Floor
  }

  /** The entry is of no field, or in the range of its field. */
  predicate Fits(t: Table, e: Entry) {
    forall i :: 0 <= i < |t| && t[i].key == e.key ==> InRange(t[i].kind, e.value)
  }

  lemma RangesAre(k: Kind, v: real)
    ensures Accepted(k, v) <==> InRange(k, v)
  {
    assert Pow256(1) == 256 && Pow256(2) == 65536 && Pow256(4) == 4294967296;
  }

  lemma ConvertedNumber(k: Kind, v: real)
    requires Accepted(k, v)
    ensures Number(Converted(k, v)) == Kept(k, v)
  {
    if k == U128 {
      ValueOfDigits(v.Floor, BYTES);
      PowerOf16();
    }
  }

  /** The value of the last entry with a key. */
  function LastValue(dict: seq<Entry>, key: string): (r: Option<real>)
    ensures r.None? <==> forall d :: 0 <= d < |dict| ==> dict[d].key != key
    ensures r.Some? ==>
              exists d :: 0 <= d < |dict| && dict[d] == Entry(key, r.value) &&
                forall d' :: d < d' < |dict| ==> dict[d'].key != key
  {
    if dict == [] then None
    else
      var n := |dict| - 1;
      if dict[n].key == key then Some(dict[n].value) else LastValue(dict[..n], key)
  }

  lemma {:induction false} AssignSnoc(t: Table, page: seq<Content>, dict: seq<Entry>, e: Entry)
    requires IsPage(t, page)
    ensures Assign(t, page, dict + [e]) ==
            match Assign(t, page, dict)
            case None => None
            case Some(after) => Assign(t, after, [e])
    decreases |dict|
  {
    if dict == [] {
      assert dict + [e] == [e];
    } else {
      var first, rest := dict[0], dict[1..];
      assert (dict + [e])[0] == first && (dict + [e])[1..] == rest + [e];
      match FieldFrom(t, first.key, 0)
      case None => AssignSnoc(t, page, rest, e);
      case Some(i) =>
        if Accepted(t[i].kind, first.value) {
          AssignSnoc(t, page[i := Converted(t[i].kind, first.value)], rest, e);
        }
    }
  }

  lemma AssignOne(t: Table, page: seq<Content>, e: Entry)
    requires GoodTable(t) && IsPage(t, page)
    ensures Assign(t, page, [e]).Some? <==> Fits(t, e)
    ensures Fits(t, e) ==>
              forall i :: 0 <= i < |t| ==>
                var c := Assign(t, page, [e]).value[i];
                if t[i].key == e.key then Accepted(t[i].kind, e.value) && c == Converted(t[i].kind, e.value)
                else c == page[i]
  {
    assert [e][1..] == [];
    match FieldFrom(t, e.key, 0)
    case None =>
    case Some(i) =>
      RangesAre(t[i].kind, e.value);
  }

  /**
   A dictionary is assigned exactly when every entry of it fits. Each field then has the value of the last
   entry with its name, a counter modulo its width; a field without an entry stays as it was.
   */
  lemma {:induction false} DictionaryIsAssigned(t: Table, page: seq<Content>, dict: seq<Entry>, i: nat)
    requires GoodTable(t) && IsPage(t, page) && i < |t|
    ensures Assign(t, page, dict).Some? <==> forall d :: 0 <= d < |dict| ==> Fits(t, dict[d])
    ensures Assign(t, page, dict).Some? ==>
              match LastValue(dict, t[i].key)
              case None => Assign(t, page, dict).value[i] == page[i]
              case Some(v) => Number(Assign(t, page, dict).value[i]) == Kept(t[i].kind, v)
    decreases |dict|
  {
    if dict != [] {
      var n := |dict| - 1;
      var init, e := dict[..n], dict[n];
      assert dict == init + [e];
      DictionaryIsAssigned(t, page, init, i);
      AssignSnoc(t, page, init, e);
      if Assign(t, page, init).Some? {
        AssignOne(t, Assign(t, page, init).value, e);
        if Fits(t, e) && t[i].key == e.key {
          ConvertedNumber(t[i].kind, e.value);
        }
      }
    }
  }

  /** Up to the first entry that does not fit, a dictionary is assigned even when it is rejected. */
  lemma {:induction false} RejectedDictionary(t: Table, page: seq<Content>, dict: seq<Entry>, n: nat)
    requires GoodTable(t) && IsPage(t, page) && n < |dict| && !Fits(t, dict[n])
    requires forall d :: 0 <= d < n ==> Fits(t, dict[d])
    ensures Assign(t, page, dict) == None && Assign(t, page, dict[..n]) == Some(Reached(t, page, dict))
    decreases n
  {
    var first, rest := dict[0], dict[1..];
    AssignOne(t, page, first);
    if n > 0 {
      assert dict[..n][0] == first && dict[..n][1..] == rest[..n - 1];
      match FieldFrom(t, first.key, 0)
      case None => RejectedDictionary(t, page, rest, n - 1);
      case Some(i) =>
        RangesAre(t[i].kind, first.value);
        RejectedDictionary(t, page[i := Converted(t[i].kind, first.value)], rest, n - 1);
    }
  }

  /** A page loaded from a file of settings, empty lines and remarks: the first 64 settings are assigned. */
  lemma FileIsLoaded(t: Table, page: seq<Content>, ls: seq<FileLine>)
    requires IsPage(t, page) && GoodLines(ls, "")
    ensures var es := Settings(ls);
            Loaded(t, page, FileText(ls)) == Assign(t, page, if |es| <= 64 then es else es[..64])
  {
    FileOfSettingsIsRead(ls, MAX_DICT_ELEMENTS);
    assert Settings(ls)[..|Settings(ls)|] == Settings(ls);
  }
}
