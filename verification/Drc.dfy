/** The names and indexes of dynamic reconfiguration connectors: looking one up by the other. */
module Drc {
  import opened Bytes
  import opened Wrappers

  // Properties of the device tree, read as files.

  class Property {
    const data: seq<byte>
    var pos: nat

    constructor (data: seq<byte>)
      ensures this.data == data && pos == 0
    {
      this.data, pos := data, 0;
    }

    ghost predicate Valid()
      reads this
    {
      pos <= |data|
    }

    /** Reads at most n bytes. */
    method Read(n: nat) returns (b: seq<byte>)
      requires Valid()
      modifies this
      ensures Valid() && old(pos) <= pos && b == data[old(pos)..pos]
      ensures pos == if old(pos) + n <= |data| then old(pos) + n else |data|
    {
      var end := if pos + n <= |data| then pos + n else |data|;
      b := data[pos..end];
      pos := end;
    }
  }

  /** A name copied to a buffer: the bytes counted, the buffer, and where reading stopped. */
  datatype Copy = Copy(count: nat, buf: seq<byte>, next: nat)

  /** Copying goes on at pos, with offset bytes copied. */
  function NameFrom(data: seq<byte>, pos: nat, buf: seq<byte>, offset: nat): (c: Copy)
    requires pos <= |data| && offset < |buf|
    ensures |c.buf| == |buf| && pos <= c.next <= |data| && offset <= c.count && (c.count > offset ==> c.next > pos)
    ensures buf[|buf| - 1] == 0 ==> c.buf[|buf| - 1] == 0
    decreases |data| - pos
  {
    if pos == |data| then Copy(offset, buf, pos)
    else if offset + 1 == |buf| then Copy(offset, buf[offset := 0], pos + 1)
    else if data[pos] == 0 then Copy(offset + 1, buf[offset := 0], pos + 1)
    else NameFrom(data, pos + 1, buf[offset := data[pos]], offset + 1)
  }

  method ReadCharName(f: Property, buf: array<byte>) returns (offset: nat)
    requires f.Valid() && buf.Length > 0
    modifies f, buf
    ensures f.Valid()
    ensures Copy(offset, buf[..], f.pos) == NameFrom(f.data, old(f.pos), old(buf[..]), 0)
  {
    offset := 0;
    ghost var at: nat := f.pos;
    var ch := f.Read(1);
    while ch != []
      invariant f.Valid() && offset < buf.Length && at <= f.pos <= at + 1 && ch == f.data[at..f.pos]
      invariant ch == [] ==> f.pos == |f.data|
      invariant NameFrom(f.data, at, buf[..], offset) == NameFrom(f.data, old(f.pos), old(buf[..]), 0)
      decreases |f.data| - f.pos, |ch|
    {
      if offset + 1 == buf.Length {
        buf[offset] := 0;
        break;
      }
      buf[offset] := ch[0];
      offset := offset + 1;
      if ch[0] == 0 {
        break;
      }
      at := f.pos;
      ch := f.Read(1);
    }
  }

  // From a name to an index.

  /** A place, if there is one; Overrun where a comparison runs past the end of the buffer. */
  datatype Search = Place(k: Option<nat>) | Overrun

  /** The comparison of the buffer with a string runs past the end of the buffer. */
  predicate RunsOver(buf: seq<byte>, name: seq<byte>) {
    0 !in buf && buf <= name
  }

  /** That is: no character of the buffer differs, and none ends the string. */
  lemma RunsOverIs(buf: seq<byte>, name: seq<byte>)
    ensures RunsOver(buf, name) <==>
            |buf| <= |name| && forall k :: 0 <= k < |buf| ==> buf[k] == name[k] && buf[k] != 0
  {
    assert forall k :: 0 <= k < |buf| ==> buf[k] in buf;
    assert buf <= name <==> |buf| <= |name| && buf == name[..|buf|];
  }

  /** The place of a name among the names from pos on, counted from offset. */
  function FindName(data: seq<byte>, pos: nat, buf: seq<byte>, name: seq<byte>, offset: nat): (k: Search)
    requires pos <= |data| && |buf| > 0
    decreases |data| - pos
  {
    var c := NameFrom(data, pos, buf, 0);
    if c.count == 0 then Place(None)
    else if RunsOver(c.buf, name) then Overrun
    else if CutAtNul(c.buf) == name then Place(Some(offset))
    else FindName(data, c.next, c.buf, name, offset + 1)
  }

  datatype Lookup = Found(index: nat) | Absent | Undefined

  /** The index of a name. What the buffer holds at first matters only when the last name is cut off. */
  function NameToIndex(names: seq<byte>, indexes: seq<byte>, buf: seq<byte>, name: seq<byte>): Lookup
    requires |buf| > 0
  {
    if |names| < 4 then Absent
    else
      match FindName(names, 4, buf, name, 0)
      case Overrun => Undefined
      case Place(None) => Absent
      case Place(Some(k)) =>
        if 8 + 4 * k <= |indexes| then Found(BigEndian(indexes[4 + 4 * k..8 + 4 * k])) else Absent
  }

  method SearchDrcnameToDrcindex(names: seq<byte>, indexes: seq<byte>, buffer: array<byte>, name: seq<byte>)
    returns (index: Lookup)
    requires buffer.Length == 256
    modifies buffer
    ensures index == NameToIndex(names, indexes, old(buffer[..]), name)
  {
    var f := new Property(names);
    var num := f.Read(4);
    if |num| != 4 {
      return Absent;
    }
    var offset := 0;
    while true
      invariant fresh(f) && f.Valid() && f.data == names
      invariant FindName(names, f.pos, buffer[..], name, offset) == FindName(names, 4, old(buffer[..]), name, 0)
      decreases |names| - f.pos
    {
      var count := ReadCharName(f, buffer);
      if count == 0 {
        return Absent;
      }
      if RunsOver(buffer[..], name) {
        return Undefined;
      } else if CutAtNul(buffer[..]) == name {
        break;
      }
      offset := offset + 1;
    }
    var g := new Property(indexes);
    g.pos := if 4 * (1 + offset) <= |indexes| then 4 * (1 + offset) else |indexes|;
    var index4 := g.Read(4);
    return if |index4| == 4 then Found(BigEndian(index4)) else Absent;
  }

  // From an index to a name.

  /** The place of an index, counted from offset; a short last word keeps the end of the word before. */
  function FindIndex(data: seq<byte>, pos: nat, word: seq<byte>, index: nat, offset: nat): (k: Option<nat>)
    requires pos <= |data| && |word| == 4
    decreases |data| - pos
  {
    if pos == |data| then None
    else
      var next := if pos + 4 <= |data| then pos + 4 else |data|;
      var word' := data[pos..next] + word[next - pos..];
      if BigEndian(word') == index then Some(offset) else FindIndex(data, next, word', index, offset + 1)
  }

  /** The position after the next k terminators. */
  function SkipNames(data: seq<byte>, pos: nat, k: nat): (p: Option<nat>)
    requires pos <= |data|
    ensures p.Some? ==> p.value <= |data|
    decreases |data| - pos
  {
    if k == 0 then Some(pos)
    else if pos == |data| then None
    else SkipNames(data, pos + 1, if data[pos] == 0 then k - 1 else k)
  }

  /** The buffer with the name of an index. */
  function IndexToName(names: seq<byte>, indexes: seq<byte>, buf: seq<byte>, word: seq<byte>, index: nat)
    : Option<seq<byte>>
    requires |buf| > 0 && |word| == 4
  {
    if |indexes| < 4 then None
    else
      match FindIndex(indexes, 4, word, index, 0)
      case None => None
      case Some(k) =>
        if |names| < 4 then None
        else
          match SkipNames(names, 4, k)
          case None => None
          case Some(p) =>
            var c := NameFrom(names, p, buf, 0);
            if c.count == 0 then None else Some(c.buf)
  }

  method SearchDrcindexToDrcname(
      names: seq<byte>, indexes: seq<byte>, drcName: array<byte>, word: seq<byte>, index: nat)
    returns (found: bool)
    requires drcName.Length > 0 && |word| == 4
    modifies drcName
    ensures match IndexToName(names, indexes, old(drcName[..]), word, index)
            case Some(buf) => found && drcName[..] == buf
            case None => !found
  {
    var f := new Property(indexes);
    var num := f.Read(4);
    if |num| < 4 {
      return false;
    }
    var k := SearchIndexes(f, word, index);
    if k.None? {
      return false;
    }
    var g := new Property(names);
    num := g.Read(4);
    if |num| < 4 {
      return false;
    }
    var offset := k.value;
    while offset > 0
      invariant fresh(g) && g.Valid() && g.data == names && drcName[..] == old(drcName[..])
      invariant SkipNames(names, g.pos, offset) == SkipNames(names, 4, k.value)
      decreases |names| - g.pos
    {
      var ch := g.Read(1);
      if ch == [] {
        return false;
      }
      assert ch[0] == names[g.pos - 1];
      if ch[0] == 0 {
        offset := offset - 1;
      }
    }
    var count := ReadCharName(g, drcName);
    return count != 0;
  }

  method SearchIndexes(f: Property, word: seq<byte>, index: nat) returns (k: Option<nat>)
    requires f.Valid() && |word| == 4
    modifies f
    ensures k == FindIndex(f.data, old(f.pos), word, index, 0)
  {
    var cur, offset := word, 0;
    while true
      invariant f.Valid() && |cur| == 4
      invariant FindIndex(f.data, f.pos, cur, index, offset) == FindIndex(f.data, old(f.pos), word, index, 0)
      decreases |f.data| - f.pos
    {
      var b := f.Read(4);
      if b == [] {
        return None;
      }
      cur := b + cur[|b|..];
      if BigEndian(cur) == index {
        return Some(offset);
      }
      offset := offset + 1;
    }
  }

  // The properties as firmware writes them.

  function NamesText(names: seq<seq<byte>>): seq<byte> {
    if names == [] then [] else names[0] + [0] + NamesText(names[1..])
  }

  /** A property of names: a counter, then each name with its terminator. */
  predicate NamesHeld(data: seq<byte>, names: seq<seq<byte>>) {
    |data| >= 4 && data[4..] == NamesText(names)
  }

  /** A property of indexes: a counter, then a word for each. */
  predicate Holds(words: seq<byte>, ids: seq<nat>) {
    |words| == 4 + 4 * |ids| && forall k :: 0 <= k < |ids| ==> WordAt(words, k, ids[k])
  }

  predicate WordAt(words: seq<byte>, k: nat, id: nat)
    requires 8 + 4 * k <= |words|
  {
    BigEndian(words[4 + 4 * k..8 + 4 * k]) == id
  }

  /** Names that a buffer has room for. */
  predicate GoodNames(names: seq<seq<byte>>, size: nat) {
    forall i :: 0 <= i < |names| ==> 0 !in names[i] && |names[i]| < size
  }

  lemma ByteIsCopied(data: seq<byte>, pos: nat, end: nat, buf: seq<byte>, offset: nat)
    requires pos < end < |data| && 0 !in data[pos..end] && offset < |buf| && 0 !in buf[..offset]
    ensures data[pos] != 0 && 0 !in data[pos + 1..end] && 0 !in buf[offset := data[pos]][..offset + 1]
    ensures buf[offset := data[pos]][..offset + 1] + data[pos + 1..end] == buf[..offset] + data[pos..end]
  {
    assert data[pos..end] == [data[pos]] + data[pos + 1..end];
    assert buf[offset := data[pos]][..offset + 1] == buf[..offset] + [data[pos]];
  }

  /** A name and its terminator are copied whole. */
  lemma {:induction false} NameIsCopied(data: seq<byte>, pos: nat, end: nat, buf: seq<byte>, offset: nat)
    requires pos <= end < |data| && data[end] == 0 && 0 !in data[pos..end] && 1 < |buf|
    requires offset + (end - pos) < |buf| && 0 !in buf[..offset]
    ensures var c := NameFrom(data, pos, buf, offset);
            c.next == end + 1 && c.count > 0 && 0 in c.buf && CutAtNul(c.buf) == buf[..offset] + data[pos..end]
    decreases end - pos
  {
    if pos == end {
      var buf' := buf[offset := 0];
      assert buf'[..offset] == buf[..offset];
      CutIs(buf', offset);
      assert data[pos..end] == [];
    } else {
      var buf', next := buf[offset := data[pos]], pos + 1;
      ByteIsCopied(data, pos, end, buf, offset);
      NameIsCopied(data, next, end, buf', offset + 1);
    }
  }

  /** The first name from pos on. */
  lemma FirstName(data: seq<byte>, pos: nat, end: nat, names: seq<seq<byte>>)
    requires pos <= |data| && data[pos..] == NamesText(names) && names != [] && end == pos + |names[0]|
    ensures end < |data| && data[pos..end] == names[0] && data[end] == 0 && data[end + 1..] == NamesText(names[1..])
  {
    var t := data[pos..];
    assert t == names[0] + [0] + NamesText(names[1..]);
    assert data[pos..end] == t[..|names[0]|] && data[end] == t[|names[0]|];
    assert data[end + 1..] == t[|names[0]| + 1..];
  }

  /** The first place of an element. */
  predicate FirstAt<T(==)>(s: seq<T>, x: T, k: Option<nat>, offset: nat) {
    match k
    case None => x !in s
    case Some(i) => offset <= i < offset + |s| && s[i - offset] == x && x !in s[..i - offset]
  }

  lemma FirstInRest<T>(s: seq<T>, x: T, k: Option<nat>, offset: nat)
    requires s != [] && s[0] != x && FirstAt(s[1..], x, k, offset + 1)
    ensures FirstAt(s, x, k, offset)
  {
    assert s == [s[0]] + s[1..];
    if k.Some? {
      var i := k.value - offset;
      assert s[1..][i - 1] == s[i] && s[..i] == [s[0]] + s[1..][..i - 1];
    }
  }

  lemma {:induction false} NamesAreFound(
      data: seq<byte>, pos: nat, buf: seq<byte>, names: seq<seq<byte>>, name: seq<byte>, offset: nat, r: Search)
    requires pos <= |data| && data[pos..] == NamesText(names) && 1 < |buf| && GoodNames(names, |buf|)
    requires r == FindName(data, pos, buf, name, offset)
    ensures r.Place? && FirstAt(names, name, r.k, offset)
    decreases |names|
  {
    if names != [] {
      var end := pos + |names[0]|;
      FirstName(data, pos, end, names);
      FirstIsCopied(data, pos, end, buf, names[0]);
      var c := NameFrom(data, pos, buf, 0);
      if names[0] != name {
        NamesAreFound(data, c.next, c.buf, names[1..], name, offset + 1, r);
        FirstInRest(names, name, r.k, offset);
      }
    }
  }

  lemma FirstIsCopied(data: seq<byte>, pos: nat, end: nat, buf: seq<byte>, name: seq<byte>)
    requires pos <= end < |data| && data[end] == 0 && data[pos..end] == name
    requires 0 !in name && |name| < |buf| && 1 < |buf|
    ensures var c := NameFrom(data, pos, buf, 0);
            c.next == end + 1 && c.count > 0 && 0 in c.buf && CutAtNul(c.buf) == name
  {
    NameIsCopied(data, pos, end, buf, 0);
    assert buf[..0] + name == name;
  }

  lemma {:induction false} IndexesAreFound(
      words: seq<byte>, ids: seq<nat>, k: nat, pos: nat, word: seq<byte>, index: nat)
    requires Holds(words, ids) && k <= |ids| && pos == 4 + 4 * k && |word| == 4
    ensures FirstAt(ids[k..], index, FindIndex(words, pos, word, index, k), k)
    decreases |ids| - k
  {
    if k < |ids| {
      var next := pos + 4;
      assert WordAt(words, k, ids[k]);
      var word' := words[pos..next] + word[next - pos..];
      assert word' == words[pos..next];
      assert ids[k..][0] == ids[k];
      if ids[k] != index {
        assert ids[k..][1..] == ids[k + 1..];
        IndexesAreFound(words, ids, k + 1, next, word', index);
        FirstInRest(ids[k..], index, FindIndex(words, next, word', index, k + 1), k);
      }
    }
  }

  /** Skipping stops right after the name it started in. */
  lemma {:induction false} NameIsSkipped(data: seq<byte>, pos: nat, end: nat, k: nat)
    requires pos <= end < |data| && data[end] == 0 && 0 !in data[pos..end] && k > 0
    ensures SkipNames(data, pos, k) == SkipNames(data, end + 1, k - 1)
    decreases end - pos
  {
    if pos < end {
      assert data[pos] == data[pos..end][0];
      assert data[pos + 1..end] == data[pos..end][1..];
      NameIsSkipped(data, pos + 1, end, k);
    }
  }

  lemma {:induction false} NamesAreSkipped(data: seq<byte>, pos: nat, names: seq<seq<byte>>, k: nat, size: nat)
    requires pos <= |data| && data[pos..] == NamesText(names) && k <= |names| && GoodNames(names, size)
    ensures var p := SkipNames(data, pos, k); p.Some? && data[p.value..] == NamesText(names[k..])
    decreases k
  {
    if k == 0 {
      assert names[0..] == names;
    } else {
      var end := pos + |names[0]|;
      FirstName(data, pos, end, names);
      assert 0 !in names[0];
      NameIsSkipped(data, pos, end, k);
      var more, next := names[1..], end + 1;
      assert GoodNames(more, size);
      NamesAreSkipped(data, next, more, k - 1, size);
      assert more[k - 1..] == names[k..];
    }
  }

  /** A name leads to the index at its first place, and a name that is absent to none. */
  lemma NameLeadsToIndex(
      names: seq<seq<byte>>, ids: seq<nat>, data: seq<byte>, words: seq<byte>, buf: seq<byte>, name: seq<byte>,
      k: Option<nat>)
    requires NamesHeld(data, names) && Holds(words, ids) && |names| == |ids|
    requires |buf| == 256 && GoodNames(names, 256) && FirstAt(names, name, k, 0)
    ensures NameToIndex(data, words, buf, name) == if k.Some? then Found(ids[k.value]) else Absent
  {
    NamesAreFound(data, 4, buf, names, name, 0, FindName(data, 4, buf, name, 0));
    OneFirst(names, name, k, FindName(data, 4, buf, name, 0).k);
    if k.Some? {
      assert WordAt(words, k.value, ids[k.value]);
    }
  }

  lemma OneFirst<T>(s: seq<T>, x: T, k: Option<nat>, k': Option<nat>)
    requires FirstAt(s, x, k, 0) && FirstAt(s, x, k', 0)
    ensures k == k'
  {
  }

  /** An index leads to the name at its first place, and an index that is absent to none. */
  lemma IndexLeadsToName(
      names: seq<seq<byte>>, ids: seq<nat>, data: seq<byte>, words: seq<byte>, buf: seq<byte>, word: seq<byte>,
      index: nat, k: Option<nat>)
    requires NamesHeld(data, names) && Holds(words, ids) && |names| == |ids|
    requires |buf| > 1 && |word| == 4 && GoodNames(names, |buf|) && FirstAt(ids, index, k, 0)
    ensures var r := IndexToName(data, words, buf, word, index);
            if k.Some? then r.Some? && CutAtNul(r.value) == names[k.value] else r == None
  {
    assert ids[0..] == ids;
    IndexesAreFound(words, ids, 0, 4, word, index);
    OneFirst(ids, index, k, FindIndex(words, 4, word, index, 0));
    if k.Some? {
      var i := k.value;
      NamesAreSkipped(data, 4, names, i, |buf|);
      var pos := SkipNames(data, 4, i).value;
      var end := pos + |names[i]|;
      assert names[i..][0] == names[i];
      FirstName(data, pos, end, names[i..]);
      NameIsCopied(data, pos, end, buf, 0);
    }
  }

  /** With distinct names and distinct indexes the two lookups are inverse to each other. */
  lemma LookupsAreInverse(
      names: seq<seq<byte>>, ids: seq<nat>, data: seq<byte>, words: seq<byte>, buf: seq<byte>, buf': seq<byte>,
      word: seq<byte>, name: seq<byte>, index: nat)
    requires NamesHeld(data, names) && Holds(words, ids) && |names| == |ids| && Distinct(names) && Distinct(ids)
    requires |word| == 4 && |buf| == 256 && |buf'| > 1
    requires GoodNames(names, 256) && GoodNames(names, |buf'|)
    ensures var r := IndexToName(data, words, buf', word, index);
            NameToIndex(data, words, buf, name) == Found(index) <==> r.Some? && CutAtNul(r.value) == name
  {
    var k := FirstPlace(names, name);
    var l := FirstPlace(ids, index);
    NameLeadsToIndex(names, ids, data, words, buf, name, k);
    IndexLeadsToName(names, ids, data, words, buf', word, index, l);
  }

  /** With distinct indexes, every name leads back to its own index exactly when the names are distinct. */
  lemma NamesLeadBack(names: seq<seq<byte>>, ids: seq<nat>, data: seq<byte>, words: seq<byte>, buf: seq<byte>)
    requires NamesHeld(data, names) && Holds(words, ids) && |names| == |ids| && Distinct(ids)
    requires |buf| == 256 && GoodNames(names, 256)
    ensures (forall i :: 0 <= i < |names| ==> NameToIndex(data, words, buf, names[i]) == Found(ids[i])) <==>
            Distinct(names)
  {
    forall i | 0 <= i < |names|
      ensures exists k :: 0 <= k <= i && names[k] == names[i] && (forall j :: 0 <= j < k ==> names[j] != names[i]) &&
                NameToIndex(data, words, buf, names[i]) == Found(ids[k])
    {
      var k := FirstPlace(names, names[i]);
      NameLeadsToIndex(names, ids, data, words, buf, names[i], k);
      FirstIsFirst(names, i, k);
    }
  }

  lemma FirstIsFirst<T>(s: seq<T>, i: nat, k: Option<nat>)
    requires i < |s| && FirstAt(s, s[i], k, 0)
    ensures k.Some? && k.value <= i && s[k.value] == s[i] && forall j :: 0 <= j < k.value ==> s[j] != s[i]
  {
    if k.Some? {
      forall j | 0 <= j < k.value
        ensures s[j] != s[i]
      {
        assert s[j] == s[..k.value][j];
      }
    }
  }

  lemma {:induction false} FirstPlace<T>(s: seq<T>, x: T) returns (k: Option<nat>)
    ensures FirstAt(s, x, k, 0)
    decreases |s|
  {
    if s == [] {
      k := None;
    } else if s[|s| - 1] != x || x in s[..|s| - 1] {
      k := FirstPlace(s[..|s| - 1], x);
      assert s == s[..|s| - 1] + [s[|s| - 1]];
      if k.Some? {
        assert s[..|s| - 1][..k.value] == s[..k.value];
      }
    } else {
      k := Some(|s| - 1);
    }
  }
}
