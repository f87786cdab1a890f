/** How the parsing of a configuration file ends, told from the list of its tokens. */
module ConfigGrammar {
  import opened Config
  import opened Wrappers

  /** The tokens of a buffer; cut when a quoted string broken by a newline ends them. */
  datatype Tokens = Tokens(list: seq<string>, cut: bool)

  function TokensFrom(b: string, pos: nat, line: nat): (ts: Tokens)
    decreases |b| + 1 - pos
  {
    match ScanFrom(b, pos, None, line)
    case Eof(_) => Tokens([], false)
    case Null(_) => Tokens([], true)
    case Token(text, next, l) =>
      var more := TokensFrom(b, next, l);
      Tokens([text] + more.list, more.cut)
  }

  predicate IsNewline(t: string) {
    t == "\n"
  }

  /** No token is empty, and the special characters are tokens of their own. */
  predicate GoodToken(t: string) {
    t != "" && (t[0] == '\n' ==> t == "\n") && (t[0] == '=' ==> t == "=")
  }

  predicate GoodTokens(ts: seq<string>) {
    forall i :: 0 <= i < |ts| ==> GoodToken(ts[i])
  }

  lemma {:induction false} TokenIsGood(b: string, pos: nat, start: Option<nat>, line: nat)
    requires start.Some? ==> start.value < pos <= |b| && !Delimiter(b[start.value])
    ensures var r := ScanFrom(b, pos, start, line); r.Token? ==> GoodToken(r.text)
    decreases |b| - pos
  {
    if pos < |b| {
      var c := b[pos];
      assert start.Some? ==> b[start.value..pos][0] == b[start.value];
      if c == '#' || (c == '\\' && start.None?) {
        TokenIsGood(b, NextLine(b, pos), start, line + 1);
      } else if start.None? && (c == ' ' || c == '\t') {
        TokenIsGood(b, pos + 1, None, line);
      } else if !Delimiter(c) {
        TokenIsGood(b, pos + 1, if start.None? then Some(pos) else start, line);
      } else if start.None? && c == '"' {
        assert b[pos..QuoteEnd(b, pos + 1)][0] == '"';
      }
    }
  }

  lemma {:induction false} TokensAreGood(b: string, pos: nat, line: nat)
    ensures GoodTokens(TokensFrom(b, pos, line).list)
    decreases |b| + 1 - pos
  {
    TokenIsGood(b, pos, None, line);
    var r := ScanFrom(b, pos, None, line);
    if r.Token? {
      TokensAreGood(b, r.next, r.line);
    }
  }

  // The parser on a list of tokens.

  predicate PathName(n: Name) {
    n == ScanlogDumpPath || n == PlatformDumpPath
  }

  /** The place of the first newline from k on, or the length of the list. */
  function LineEnd(ts: seq<string>, k: nat): (e: nat)
    requires k <= |ts|
    ensures k <= e <= |ts| && (e < |ts| ==> IsNewline(ts[e]))
    ensures forall i :: k <= i < e ==> !IsNewline(ts[i])
    decreases |ts| - k
  {
    if k == |ts| || IsNewline(ts[k]) then k else LineEnd(ts, k + 1)
  }

  /** A text and more words, a blank before each. */
  function Joined(text: string, words: seq<string>): string
    decreases |words|
  {
    if words == [] then text else Joined(text + " " + words[0], words[1..])
  }

  /** The words stand in order, one blank before each. */
  lemma {:induction false} JoinedWords(text: string, words: seq<string>, w: string)
    ensures Joined(text, []) == text && Joined(text, words + [w]) == Joined(text, words) + " " + w
    decreases |words|
  {
    var all := words + [w];
    if words == [] {
      assert all[0] == w && all[1..] == [];
    } else {
      assert all[0] == words[0] && all[1..] == words[1..] + [w];
      JoinedWords(text + " " + words[0], words[1..], w);
    }
  }

  function EntriesOf(ts: seq<string>, cut: bool, done: seq<Assignment>): Outcome
    decreases |ts|
  {
    if ts == [] then if cut then Rejected else Accepted(done)
    else if IsNewline(ts[0]) then EntriesOf(ts[1..], cut, done)
    else
      match NameOf(ts[0])
      case None => Rejected
      case Some(n) =>
        if |ts| == 1 then if cut then Rejected else ReadsNothing
        else if ts[1] != "=" then Rejected
        else if PathName(n) then PathOf(n, ts[2..], cut, done)
        else if |ts| == 2 then if cut then Rejected else Accepted(done + [Assignment(n, "=")])
        else EntriesOf(ts[3..], cut, done + [Assignment(n, ts[2])])
  }

  /** The rest, when the value of a path comes first. */
  function PathOf(n: Name, ts: seq<string>, cut: bool, done: seq<Assignment>): Outcome
    decreases |ts|
  {
    if ts == [] then if cut then Rejected else NeverEnds
    else
      var e := LineEnd(ts, 1);
      if e < |ts| then EntriesOf(ts[e + 1..], cut, done + [Assignment(n, Joined(ts[0], ts[1..e]))])
      else if cut then Rejected
      else if ts == ["\n"] then Accepted(done + [Assignment(n, "\n")])
      else NeverEnds
  }

  /** A value of a text and the rest of a line is the tokens up to the next newline. */
  predicate RestOfLine(b: string, v: Value, ts: Tokens, text: string, blank: bool) {
    var e := LineEnd(ts.list, 0);
    if e < |ts.list| then
      v.Value? && v.text == Joined(text, ts.list[..e]) &&
      TokensFrom(b, v.next, v.line) == Tokens(ts.list[e + 1..], ts.cut)
    else if ts.cut then v == Bad
    else if ts.list == [] && blank then v.Value? && v.text == text && v.next >= |b|
    else v == Endless
  }

  lemma {:induction false} MoreAreTokens(b: string, pos: nat, line: nat, text: string, blank: bool)
    ensures RestOfLine(b, MoreTokens(b, pos, line, text, blank), TokensFrom(b, pos, line), text, blank)
    decreases |b| + 1 - pos
  {
    TokenIsGood(b, pos, None, line);
    var r := ScanFrom(b, pos, None, line);
    if r.Token? {
      var ts, more := TokensFrom(b, pos, line), TokensFrom(b, r.next, r.line);
      if r.text[0] == '\n' {
        assert LineEnd(ts.list, 0) == 0 && ts.list[..0] == [] && ts.list[1..] == more.list;
      } else {
        MoreAreTokens(b, r.next, r.line, text + " " + r.text, false);
        OneMoreWord(b, MoreTokens(b, pos, line, text, blank), r.text, more, ts, text, blank);
      }
    }
  }

  lemma OneMoreWord(b: string, v: Value, t: string, more: Tokens, ts: Tokens, text: string, blank: bool)
    requires !IsNewline(t) && ts == Tokens([t] + more.list, more.cut) && RestOfLine(b, v, more, text + " " + t, false)
    ensures RestOfLine(b, v, ts, text, blank)
  {
    var e := LineEnd(more.list, 0);
    EndAfterOne(t, more.list, ts.list, e);
    JoinedOnce(text, t, more.list[..e], ts.list[..e + 1]);
  }

  lemma JoinedOnce(text: string, t: string, ts: seq<string>, all: seq<string>)
    requires all == [t] + ts
    ensures Joined(text, all) == Joined(text + " " + t, ts)
  {
    assert all[1..] == ts;
  }

  lemma {:induction false} EndShifts(t: string, ts: seq<string>, k: nat)
    requires k <= |ts|
    ensures LineEnd([t] + ts, k + 1) == LineEnd(ts, k) + 1
    decreases |ts| - k
  {
    if k < |ts| && !IsNewline(ts[k]) {
      EndShifts(t, ts, k + 1);
    }
  }

  lemma EndAfterOne(t: string, ts: seq<string>, all: seq<string>, e: nat)
    requires all == [t] + ts && e == LineEnd(ts, 0)
    ensures LineEnd(all, 1) == e + 1
    ensures all[1..e + 1] == ts[..e] && all[..e + 1] == [t] + ts[..e]
    ensures e < |ts| ==> all[e + 2..] == ts[e + 1..]
  {
    EndShifts(t, ts, 0);
    SlicesShift(t, ts, all, e);
  }

  lemma SlicesShift<T>(t: T, ts: seq<T>, all: seq<T>, e: nat)
    requires all == [t] + ts && e <= |ts|
    ensures all[1..e + 1] == ts[..e] && all[..e + 1] == [t] + ts[..e]
    ensures e < |ts| ==> all[e + 2..] == ts[e + 1..]
  {
    assert all[1..] == ts;
    assert all[1..e + 1] == ts[..e];
    var front, want := all[..e + 1], [t] + ts[..e];
    forall i | 0 <= i < e + 1
      ensures front[i] == want[i]
    {
      assert front[i] == all[i];
    }
    if e < |ts| {
      assert all[e + 2..] == all[1..][e + 1..];
    }
  }

  /** The value of a number is one token. */
  predicate NumberValue(b: string, v: Value, ts: Tokens) {
    if ts.list == [] then v == if ts.cut then Bad else Unread
    else if ts.list[0] != "=" then v == Bad
    else if |ts.list| == 1 then if ts.cut then v == Bad else v.Value? && v.text == "=" && v.next >= |b|
    else v.Value? && v.text == ts.list[1] && TokensFrom(b, v.next, v.line) == Tokens(ts.list[2..], ts.cut)
  }

  lemma NumberIsTokens(b: string, pos: nat, line: nat, ts: Tokens)
    requires ts == TokensFrom(b, pos, line)
    ensures NumberValue(b, OneToken(b, pos, line), ts)
  {
    TokenIsGood(b, pos, None, line);
    var eq := ScanFrom(b, pos, None, line);
    if eq.Token? {
      var more := TokensFrom(b, eq.next, eq.line);
      assert ts.list == [eq.text] + more.list;
      if more.list != [] {
        assert ts.list[2..] == more.list[1..];
      }
    }
  }

  /** The value of a path is a line of tokens. */
  predicate PathValue(b: string, v: Value, ts: Tokens) {
    if ts.list == [] then v == if ts.cut then Bad else Unread
    else if ts.list[0] != "=" then v == Bad
    else if |ts.list| == 1 then v == if ts.cut then Bad else Endless
    else
      var words := ts.list[1..];
      var e := LineEnd(words, 1);
      if e < |words| then
        v.Value? && v.text == Joined(words[0], words[1..e]) &&
        TokensFrom(b, v.next, v.line) == Tokens(words[e + 1..], ts.cut)
      else if ts.cut then v == Bad
      else if words == ["\n"] then v.Value? && v.text == "\n" && v.next >= |b|
      else v == Endless
  }

  lemma PathIsTokens(b: string, pos: nat, line: nat, ts: Tokens)
    requires ts == TokensFrom(b, pos, line)
    ensures PathValue(b, TokensOfLine(b, pos, line), ts)
  {
    TokenIsGood(b, pos, None, line);
    var eq := ScanFrom(b, pos, None, line);
    if eq.Token? {
      var more := TokensFrom(b, eq.next, eq.line);
      assert ts.list == [eq.text] + more.list && ts.list[1..] == more.list;
      TokenIsGood(b, eq.next, None, eq.line);
      var r := ScanFrom(b, eq.next, None, eq.line);
      if r.Token? {
        var words := TokensFrom(b, r.next, r.line);
        MoreAreTokens(b, r.next, r.line, r.text, r.text[0] == '\n');
        EndAfterOne(r.text, words.list, more.list, LineEnd(words.list, 0));
        assert more.list == [r.text] + words.list;
      }
    }
  }

  predicate EntryIs(n: Name, b: string, v: Value, ts: Tokens) {
    if PathName(n) then PathValue(b, v, ts) else NumberValue(b, v, ts)
  }

  lemma EntryIsTokens(n: Name, b: string, pos: nat, line: nat, ts: Tokens)
    requires ts == TokensFrom(b, pos, line)
    ensures EntryIs(n, b, EntryValue(n, b, pos, line), ts)
  {
    if PathName(n) {
      PathIsTokens(b, pos, line, ts);
    } else {
      NumberIsTokens(b, pos, line, ts);
    }
  }

  lemma EntryDecides(n: Name, b: string, v: Value, ts: Tokens, name: string, done: seq<Assignment>, o: Outcome)
    requires NameOf(name) == Some(n) && !IsNewline(name) && EntryIs(n, b, v, ts)
    requires v.Value? ==>
               var more := TokensFrom(b, v.next, v.line);
               o == EntriesOf(more.list, more.cut, done + [Assignment(n, v.text)])
    ensures EntriesOf([name] + ts.list, ts.cut, done) ==
            match v
            case Bad => Rejected
            case Unread => ReadsNothing
            case Endless => NeverEnds
            case Value(_, _, _) => o
  {
    var all := [name] + ts.list;
    assert all[1..] == ts.list;
    assert |ts.list| >= 1 ==> all[2..] == ts.list[1..];
    assert |ts.list| >= 2 ==> all[3..] == ts.list[2..];
  }

  /** The parser and the token parser agree, on every buffer. */
  lemma {:induction false} EntriesAreTokens(b: string, pos: nat, line: nat, done: seq<Assignment>, ts: Tokens)
    requires ts == TokensFrom(b, pos, line)
    ensures Entries(b, pos, line, done) == EntriesOf(ts.list, ts.cut, done)
    decreases |b| + 1 - pos
  {
    TokenIsGood(b, pos, None, line);
    var r := ScanFrom(b, pos, None, line);
    if r.Token? {
      var more := TokensFrom(b, r.next, r.line);
      assert ts.list == [r.text] + more.list && ts.list[1..] == more.list;
      if r.text[0] == '\n' {
        EntriesAreTokens(b, r.next, r.line, done, more);
      } else if NameOf(r.text).Some? {
        var n := NameOf(r.text).value;
        var v := EntryValue(n, b, r.next, r.line);
        EntryIsTokens(n, b, r.next, r.line, more);
        if v.Value? {
          var done' := done + [Assignment(n, v.text)];
          EntriesAreTokens(b, v.next, v.line, done', TokensFrom(b, v.next, v.line));
          EntryDecides(n, b, v, more, r.text, done, Entries(b, v.next, v.line, done'));
        } else {
          EntryDecides(n, b, v, more, r.text, done, Rejected);
        }
      }
    }
  }

  // The grammar of files.

  /** What a file is made of, token by token; the first token of a path may be a newline, no other. */
  datatype Item = NewLine | Number(name: Name, value: string) | Path(name: Name, first: string, words: seq<string>)

  predicate GoodItem(it: Item) {
    match it
    case NewLine => true
    case Number(n, _) => !PathName(n)
    case Path(n, _, words) => PathName(n) && "\n" !in words
  }

  predicate GoodItems(items: seq<Item>) {
    forall i :: 0 <= i < |items| ==> GoodItem(items[i])
  }

  function Shown(it: Item): (ts: seq<string>)
    ensures ts != []
  {
    match it
    case NewLine => ["\n"]
    case Number(n, value) => [NameText(n), "=", value]
    case Path(n, first, words) => [NameText(n), "=", first] + words + ["\n"]
  }

  function ShownAll(items: seq<Item>): seq<string> {
    if items == [] then [] else Shown(items[0]) + ShownAll(items[1..])
  }

  /** The assignments of items, after those already done. */
  function Made(items: seq<Item>, done: seq<Assignment>): seq<Assignment>
    decreases |items|
  {
    if items == [] then done else Made(items[1..], done + MadeBy(items[0]))
  }

  function MadeBy(it: Item): seq<Assignment> {
    match it
    case NewLine => []
    case Number(n, value) => [Assignment(n, value)]
    case Path(n, first, words) => [Assignment(n, Joined(first, words))]
  }

  lemma {:induction false} LineEndIs(ts: seq<string>, k: nat, e: nat)
    requires k <= e < |ts| && IsNewline(ts[e]) && forall i :: k <= i < e ==> !IsNewline(ts[i])
    ensures LineEnd(ts, k) == e
    decreases e - k
  {
    if k < e {
      LineEndIs(ts, k + 1, e);
    }
  }

  lemma ItemIsRead(it: Item, ts: seq<string>, rest: seq<string>, cut: bool, done: seq<Assignment>)
    requires GoodItem(it) && ts == Shown(it) + rest
    ensures EntriesOf(ts, cut, done) == EntriesOf(rest, cut, done + MadeBy(it))
  {
    match it
    case NewLine =>
      assert ts[1..] == rest && done + [] == done;
    case Number(n, value) =>
      NumberIsRead(n, value, ts, rest, cut, done);
    case Path(n, first, words) =>
      var line := [first] + words + ["\n"] + rest;
      assert ts == [NameText(n), "="] + line;
      PathIsRead(n, ts, line, cut, done);
      LineIsRead(n, line, first, words, rest, cut, done);
  }

  lemma NumberIsRead(n: Name, value: string, ts: seq<string>, rest: seq<string>, cut: bool, done: seq<Assignment>)
    requires !PathName(n) && ts == [NameText(n), "=", value] + rest
    ensures EntriesOf(ts, cut, done) == EntriesOf(rest, cut, done + [Assignment(n, value)])
  {
    NameIsNoNewline(n);
    assert ts[0] == NameText(n) && ts[1] == "=" && ts[2] == value && ts[3..] == rest;
  }

  lemma PathIsRead(n: Name, ts: seq<string>, line: seq<string>, cut: bool, done: seq<Assignment>)
    requires PathName(n) && ts == [NameText(n), "="] + line && line != []
    ensures EntriesOf(ts, cut, done) == PathOf(n, line, cut, done)
  {
    NameIsNoNewline(n);
    assert ts[0] == NameText(n) && ts[1] == "=" && ts[2..] == line;
  }

  lemma LineIsRead(
      n: Name, ts: seq<string>, first: string, words: seq<string>, rest: seq<string>, cut: bool,
      done: seq<Assignment>)
    requires "\n" !in words && ts == [first] + words + ["\n"] + rest
    ensures PathOf(n, ts, cut, done) == EntriesOf(rest, cut, done + [Assignment(n, Joined(first, words))])
  {
    var e := 1 + |words|;
    assert forall i :: 1 <= i < e ==> ts[i] == words[i - 1];
    LineEndIs(ts, 1, e);
    assert ts[1..e] == words && ts[e + 1..] == rest;
  }

  lemma NameIsNoNewline(n: Name)
    ensures NameOf(NameText(n)) == Some(n) && !IsNewline(NameText(n))
  {
    NameIsKnown(n);
    NameIsPlain(n);
  }

  /** The list is these items, and then the rest. */
  predicate Splits(ts: seq<string>, items: seq<Item>, rest: seq<string>) {
    GoodItems(items) && ts == ShownAll(items) + rest
  }

  lemma {:induction false} ItemsAreRead(
      items: seq<Item>, ts: seq<string>, rest: seq<string>, cut: bool, done: seq<Assignment>)
    requires Splits(ts, items, rest)
    ensures EntriesOf(ts, cut, done) == EntriesOf(rest, cut, Made(items, done))
    decreases |items|
  {
    if items == [] {
      assert ts == rest;
    } else {
      var more := ShownAll(items[1..]) + rest;
      assert ts == Shown(items[0]) + more;
      ItemIsRead(items[0], ts, more, cut, done);
      ItemsAreRead(items[1..], more, rest, cut, done + MadeBy(items[0]));
    }
  }

  // What may be left after the last whole item.

  /** The name of an entry, and nothing after it. */
  predicate BareName(rest: seq<string>) {
    |rest| == 1 && NameOf(rest[0]).Some?
  }

  predicate StartsPath(rest: seq<string>) {
    |rest| >= 2 && NameOf(rest[0]).Some? && PathName(NameOf(rest[0]).value) && rest[1] == "="
  }

  /** A path whose line has no newline to end it. */
  predicate OpenPath(rest: seq<string>) {
    StartsPath(rest) && rest[2..] != ["\n"] && "\n" !in rest[if |rest| > 2 then 3 else 2..]
  }

  /** Nothing; or a number without a value, or a path with a newline for its value, at the very end. */
  predicate Closed(rest: seq<string>) {
    rest == [] || (|rest| == 2 && NameOf(rest[0]).Some? && !PathName(NameOf(rest[0]).value) && rest[1] == "=") ||
    (StartsPath(rest) && rest[2..] == ["\n"])
  }

  /** The assignment made of such an end: the equals sign or the newline is taken for the value. */
  function Closing(rest: seq<string>): seq<Assignment>
    requires Closed(rest)
  {
    if rest == [] then [] else [Assignment(NameOf(rest[0]).value, rest[|rest| - 1])]
  }

  /** No whole item comes first. */
  predicate NoItem(rest: seq<string>) {
    rest == [] ||
    (!IsNewline(rest[0]) &&
     (NameOf(rest[0]).None? || |rest| < 3 || rest[1] != "=" ||
      (PathName(NameOf(rest[0]).value) && LineEnd(rest[2..], 1) == |rest| - 2)))
  }

  lemma {:induction false} FilesSplit(ts: seq<string>) returns (items: seq<Item>, rest: seq<string>)
    ensures Splits(ts, items, rest) && NoItem(rest)
    decreases |ts|
  {
    if NoItem(ts) {
      items, rest := [], ts;
    } else {
      var it, more := FirstItem(ts);
      items, rest := FilesSplit(more);
      SplitMore(ts, it, more, items, rest);
      items := [it] + items;
    }
  }

  lemma SplitMore(ts: seq<string>, it: Item, more: seq<string>, items: seq<Item>, rest: seq<string>)
    requires GoodItem(it) && ts == Shown(it) + more && Splits(more, items, rest)
    ensures Splits(ts, [it] + items, rest)
  {
    assert ([it] + items)[1..] == items;
  }

  lemma FirstItem(ts: seq<string>) returns (it: Item, more: seq<string>)
    requires !NoItem(ts)
    ensures GoodItem(it) && ts == Shown(it) + more
  {
    if IsNewline(ts[0]) {
      it, more := NewLine, ts[1..];
    } else {
      var n := NameOf(ts[0]).value;
      if PathName(n) {
        var line := ts[2..];
        var e := LineEnd(line, 1);
        it, more := Path(n, line[0], line[1..e]), line[e + 1..];
        assert line == [line[0]] + line[1..e] + ["\n"] + more;
      } else {
        it, more := Number(n, ts[2]), ts[3..];
      }
    }
  }

  /** What is left of a file decides how its parsing ends. */
  lemma RestDecides(rest: seq<string>, done: seq<Assignment>)
    requires NoItem(rest)
    ensures EntriesOf(rest, true, done) == Rejected
    ensures EntriesOf(rest, false, done) ==
            if BareName(rest) then ReadsNothing
            else if OpenPath(rest) then NeverEnds
            else if Closed(rest) then Accepted(done + Closing(rest))
            else Rejected
  {
  }

  lemma EndIsNoItem(rest: seq<string>)
    requires BareName(rest) || OpenPath(rest) || Closed(rest)
    ensures NoItem(rest)
  {
    if |rest| > 0 {
      NameIsNoNewline(NameOf(rest[0]).value);
    }
  }

  lemma EndDecides(b: string, ts: Tokens, items: seq<Item>, rest: seq<string>)
    requires ts == TokensFrom(b, 0, 1) && Splits(ts.list, items, rest) && NoItem(rest)
    ensures Entries(b, 0, 1, []) ==
            if ts.cut then Rejected
            else if BareName(rest) then ReadsNothing
            else if OpenPath(rest) then NeverEnds
            else if Closed(rest) then Accepted(Made(items, []) + Closing(rest))
            else Rejected
  {
    EntriesAreTokens(b, 0, 1, [], ts);
    ItemsAreRead(items, ts.list, rest, ts.cut, []);
    RestDecides(rest, Made(items, []));
  }

  /**
   How parsing ends, for every file. It does not return exactly when whole items are followed by
   the bare name of an entry, or by a path without a newline, and then by the end of the file. It
   accepts exactly when nothing is left or what is left still passes for a value, and then makes
   the assignments of the items and of that.
   */
  lemma HowParsingEnds(b: string, ts: Tokens)
    requires ts == TokensFrom(b, 0, 1)
    ensures Entries(b, 0, 1, []).ReadsNothing? <==>
            !ts.cut && exists items, rest :: Splits(ts.list, items, rest) && BareName(rest)
    ensures Entries(b, 0, 1, []).NeverEnds? <==>
            !ts.cut && exists items, rest :: Splits(ts.list, items, rest) && OpenPath(rest)
    ensures Entries(b, 0, 1, []).Accepted? <==>
            !ts.cut && exists items, rest :: Splits(ts.list, items, rest) && Closed(rest)
    ensures forall items, rest :: Splits(ts.list, items, rest) && Closed(rest) && !ts.cut ==>
              Entries(b, 0, 1, []) == Accepted(Made(items, []) + Closing(rest))
  {
    var items0, rest0 := FilesSplit(ts.list);
    EndDecides(b, ts, items0, rest0);
    forall items, rest | Splits(ts.list, items, rest) && (BareName(rest) || OpenPath(rest) || Closed(rest))
      ensures NoItem(rest)
      ensures Entries(b, 0, 1, []) ==
              if ts.cut then Rejected
              else if BareName(rest) then ReadsNothing
              else if OpenPath(rest) then NeverEnds
              else Accepted(Made(items, []) + Closing(rest))
    {
      EndIsNoItem(rest);
      EndDecides(b, ts, items, rest);
    }
  }

  // Good lines, and a last line that has no newline.

  lemma {:induction false} NextLineShifts(b: string, u: string, v: string, p: nat, pos: nat)
    requires b == u + v && pos == |u| + p && p < |v|
    ensures NextLine(b, pos) == |u| + NextLine(v, p)
    decreases |v| - p
  {
    if v[p] != '\n' && p + 1 < |v| {
      NextLineShifts(b, u, v, p + 1, pos + 1);
    }
  }

  lemma {:induction false} QuoteEndShifts(b: string, u: string, v: string, p: nat, pos: nat)
    requires b == u + v && pos == |u| + p && p <= |v|
    ensures QuoteEnd(b, pos) == |u| + QuoteEnd(v, p)
    decreases |v| - p
  {
    if p < |v| && v[p] != '"' && v[p] != '\n' {
      QuoteEndShifts(b, u, v, p + 1, pos + 1);
    }
  }

  /** Two scans with the same result, k characters apart; lines do not matter. */
  predicate SameScan(r: Scan, r': Scan, k: nat) {
    match r
    case Token(text, next, _) => r'.Token? && r'.text == text && r'.next == k + next
    case Null(_) => r'.Null?
    case Eof(_) => r'.Eof?
  }

  /** A token begun at the same place. */
  predicate SameStart(start: Option<nat>, start': Option<nat>, k: nat) {
    match start
    case None => start' == None
    case Some(i) => start' == Some(k + i)
  }

  lemma QuotedShifts(b: string, u: string, v: string, p: nat, pos: nat, line: nat, line': nat)
    requires b == u + v && pos == |u| + p && p < |v| && v[p] == '"'
    ensures SameScan(ScanFrom(v, p, None, line), ScanFrom(b, pos, None, line'), |u|)
  {
    QuoteEndShifts(b, u, v, p + 1, pos + 1);
    var q, q' := QuoteEnd(v, p + 1), QuoteEnd(b, pos + 1);
    assert b[pos..q'] == v[p..q];
  }

  lemma {:induction false} ScanShifts(
      b: string, u: string, v: string, p: nat, pos: nat, start: Option<nat>, start': Option<nat>, line: nat,
      line': nat)
    requires b == u + v && pos == |u| + p
    requires SameStart(start, start', |u|) && (start.Some? ==> start.value < p <= |v|)
    ensures SameScan(ScanFrom(v, p, start, line), ScanFrom(b, pos, start', line'), |u|)
    decreases |v| - p
  {
    if p < |v| {
      var c := v[p];
      assert b[pos] == c;
      assert start.Some? ==> b[start'.value..pos] == v[start.value..p];
      if c == '#' || c == '\\' {
        NextLineShifts(b, u, v, p, pos);
        if c == '#' || start.None? {
          ScanShifts(b, u, v, NextLine(v, p), NextLine(b, pos), start, start', line + 1, line' + 1);
        }
      } else if start.None? && (c == ' ' || c == '\t') {
        ScanShifts(b, u, v, p + 1, pos + 1, None, None, line, line');
      } else if start.None? && c == '"' {
        QuotedShifts(b, u, v, p, pos, line, line');
      } else if !Delimiter(c) {
        ScanShifts(b, u, v, p + 1, pos + 1, if start.None? then Some(p) else start,
                   if start.None? then Some(pos) else start', line, line');
      }
    }
  }

  lemma {:induction false} TokensShift(b: string, u: string, v: string, p: nat, pos: nat, line: nat, line': nat)
    requires b == u + v && pos == |u| + p
    ensures TokensFrom(b, pos, line') == TokensFrom(v, p, line)
    decreases |v| + 1 - p
  {
    ScanShifts(b, u, v, p, pos, None, None, line, line');
    var r, r' := ScanFrom(v, p, None, line), ScanFrom(b, pos, None, line');
    if r.Token? {
      TokensShift(b, u, v, r.next, r'.next, r.line, r'.line);
    }
  }

  lemma {:induction false} NoNewlineScanned(v: string, p: nat, start: Option<nat>, line: nat)
    requires '\n' !in v && (start.Some? ==> start.value < p <= |v|)
    ensures var r := ScanFrom(v, p, start, line); !r.Null? && (r.Token? ==> r.text != "\n")
    decreases |v| - p
  {
    if p < |v| {
      var c := v[p];
      assert start.Some? ==> v[start.value..p][0] == v[start.value] && v[start.value] != '\n';
      if c == '#' || (c == '\\' && start.None?) {
        NoNewlineScanned(v, NextLine(v, p), start, line + 1);
      } else if start.None? && (c == ' ' || c == '\t') {
        NoNewlineScanned(v, p + 1, None, line);
      } else if !Delimiter(c) {
        NoNewlineScanned(v, p + 1, if start.None? then Some(p) else start, line);
      }
    }
  }

  lemma {:induction false} NoNewlineTokens(v: string, p: nat, line: nat)
    requires '\n' !in v
    ensures !TokensFrom(v, p, line).cut && "\n" !in TokensFrom(v, p, line).list
    decreases |v| + 1 - p
  {
    NoNewlineScanned(v, p, None, line);
    var r := ScanFrom(v, p, None, line);
    if r.Token? {
      NoNewlineTokens(v, r.next, r.line);
    }
  }

  predicate StartsNumber(ts: seq<string>) {
    |ts| >= 2 && NameOf(ts[0]).Some? && !PathName(NameOf(ts[0]).value) && ts[1] == "="
  }

  /** What follows the numbers at the front of a list of tokens. */
  function AfterNumbers(ts: seq<string>): (rest: seq<string>)
    ensures |rest| <= |ts|
    ensures !(StartsNumber(rest) && |rest| > 2)
  {
    if StartsNumber(ts) && |ts| > 2 then AfterNumbers(ts[3..]) else ts
  }

  /** The assignments of the numbers at the front, after those already done. */
  function NumbersOf(ts: seq<string>, done: seq<Assignment>): seq<Assignment>
    decreases |ts|
  {
    if StartsNumber(ts) && |ts| > 2 then NumbersOf(ts[3..], done + [Assignment(NameOf(ts[0]).value, ts[2])])
    else done
  }

  lemma {:induction false} NumbersAreRead(ts: seq<string>, done: seq<Assignment>)
    requires "\n" !in ts
    ensures "\n" !in AfterNumbers(ts)
    ensures EntriesOf(ts, false, done) == EntriesOf(AfterNumbers(ts), false, NumbersOf(ts, done))
    decreases |ts|
  {
    if StartsNumber(ts) && |ts| > 2 {
      NumbersAreRead(ts[3..], done + [Assignment(NameOf(ts[0]).value, ts[2])]);
    }
  }

  lemma {:induction false} NoLineEnd(ts: seq<string>, k: nat)
    requires k <= |ts| && "\n" !in ts
    ensures LineEnd(ts, k) == |ts|
    decreases |ts| - k
  {
    if k < |ts| {
      NoLineEnd(ts, k + 1);
    }
  }

  lemma LastLineDecides(rest: seq<string>, done: seq<Assignment>)
    requires "\n" !in rest && !(StartsNumber(rest) && |rest| > 2)
    ensures EntriesOf(rest, false, done) ==
            if BareName(rest) then ReadsNothing
            else if StartsPath(rest) then NeverEnds
            else if rest == [] then Accepted(done)
            else if StartsNumber(rest) then Accepted(done + [Assignment(NameOf(rest[0]).value, "=")])
            else Rejected
  {
    if StartsPath(rest) && |rest| > 2 {
      NoLineEnd(rest[2..], 1);
    }
  }

  /**
   A file of good lines whose last line has no newline: once the numbers on that line are read, parsing
   does not return exactly when a bare name, or a path and an equals sign, come next. A number
   whose value is not followed by anything is lost, and its entry is given the equals sign.
   */
  lemma LastLineWithoutNewline(lines: seq<Line>, tail: string, ts: seq<string>)
    requires (forall i :: 0 <= i < |lines| ==> GoodLine(lines[i])) && '\n' !in tail
    requires ts == TokensFrom(tail, 0, 1).list
    ensures var rest, done := AfterNumbers(ts), NumbersOf(ts, Written(lines, []));
            Entries(FileText(lines) + tail, 0, 1, []) ==
            if BareName(rest) then ReadsNothing
            else if StartsPath(rest) then NeverEnds
            else if rest == [] then Accepted(done)
            else if StartsNumber(rest) then Accepted(done + [Assignment(NameOf(rest[0]).value, "=")])
            else Rejected
  {
    var u := FileText(lines);
    var b, line, written := u + tail, 1 + |lines|, Written(lines, []);
    var o := Entries(b, |u|, line, written);
    assert b[0..|u|] == u;
    FileIsRead(b, 0, |u|, lines, 1, line, [], o);
    TokensShift(b, u, tail, 0, |u|, 1, line);
    EntriesAreTokens(b, |u|, line, written, TokensFrom(tail, 0, 1));
    NoNewlineTokens(tail, 0, 1);
    NumbersAreRead(ts, written);
    LastLineDecides(AfterNumbers(ts), NumbersOf(ts, written));
  }
}
