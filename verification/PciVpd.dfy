/**
 The vital product data of a PCI device: resources with keyword entries, as in appendix I of
 the PCI Local Bus Specification 3.0, read from a byte stream into fixed-size fields.
 */
module PciVpd {
  import opened Bytes
  import opened Wrappers

  const IDENTIFIER: byte := 0x82
  const VPD_R: byte := 0x90
  const VPD_W: byte := 0x91
  const END_TAG: byte := 0x78
  const BUFFER: nat := 256
  const DESCRIPTION: nat := 40

  datatype Keyword = Keyword(a: byte, b: byte)

  /** The size of the field a keyword names; 0 for a keyword that names none. */
  function FieldSize(k: Keyword): nat {
    match (k.a, k.b)
    case (80, 78) => 12   // PN
    case (69, 67) => 10   // EC
    case (70, 78) => 12   // FN
    case (65, 78) => 12   // AN
    case (70, 67) => 4    // FC
    case (67, 67) => 4    // CC
    case (83, 78) => 8    // SN
    case (90, 48) => 8    // Z0
    case (90, 49) => 4    // Z1
    case (90, 50) => 10   // Z2
    case (90, 51) => 12   // Z3
    case (90, 52) => 1    // Z4
    case (90, 53) => 2    // Z5
    case (90, 54) => 8    // Z6
    case (90, 55) => 3    // Z7
    case (90, 56) => 5    // Z8
    case (90, 57) => 2    // Z9
    case (90, 65) => 4    // ZA
    case (90, 66) => 4    // ZB
    case (90, 67) => 2    // ZC
    case (77, 78) => 20   // MN
    case (82, 77) => 8    // RM
    case _ => 0
  }

  /** What strncpy leaves in a field: the data up to its first NUL, cut to fit, then zeros. */
  function FieldBytes(data: seq<byte>, size: nat): (f: seq<byte>)
    ensures |f| == size
    ensures var s := CutAtNul(data); forall i :: 0 <= i < size ==> f[i] == if i < |s| then s[i] else 0
  {
    var s := CutAtNul(data);
    seq(size, i requires 0 <= i < size => if i < |s| then s[i] else 0)
  }

  /** Read as a string, a field is the string of the data, as far as it fits. */
  lemma FieldReadsBack(data: seq<byte>, size: nat)
    ensures CutAtNul(FieldBytes(data, size)) ==
            if |CutAtNul(data)| <= size then CutAtNul(data) else CutAtNul(data)[..size]
  {
    var s, f := CutAtNul(data), FieldBytes(data, size);
    var n := if |s| <= size then |s| else size;
    assert f[..n] == s[..n];
    CutIs(f, n);
  }

  datatype Vpd = Vpd(description: seq<byte>, fields: map<Keyword, seq<byte>>)

  function SetField(v: Vpd, k: Keyword, data: seq<byte>): Vpd {
    if FieldSize(k) == 0 then v else v.(fields := v.fields[k := FieldBytes(data, FieldSize(k))])
  }

  // Parsing.

  /**
   Failed holds what was assigned before the failure. Overrun stands for more bytes of an identifier
   than the buffer they are read into has room for.
   */
  datatype Outcome = Done(vpd: Vpd, rest: seq<byte>) | Failed(vpd: Vpd) | Overrun

  datatype Entry = Entry(keyword: Keyword, data: seq<byte>)

  function SetEntries(v: Vpd, es: seq<Entry>): Vpd
    decreases |es|
  {
    if es == [] then v else SetEntries(SetField(v, es[0].keyword, es[0].data), es[1..])
  }

  lemma {:induction false} EntriesSnoc(v: Vpd, es: seq<Entry>, e: Entry)
    ensures SetEntries(v, es + [e]) == SetField(SetEntries(v, es), e.keyword, e.data)
    decreases |es|
  {
    if es == [] {
      assert es + [e] == [e];
    } else {
      assert (es + [e])[1..] == es[1..] + [e];
      EntriesSnoc(SetField(v, es[0].keyword, es[0].data), es[1..], e);
    }
  }

  /** The entries of a resource and the bytes after them; Short when the data ends inside an entry. */
  datatype Entries = Parsed(entries: seq<Entry>, rest: seq<byte>) | Short(entries: seq<Entry>)

  function WithEntries(es: seq<Entry>, r: Entries): Entries {
    r.(entries := es + r.entries)
  }

  lemma EntriesThen(es: seq<Entry>, e: Entry, r: Entries)
    ensures WithEntries(es, WithEntries([e], r)) == WithEntries(es + [e], r)
  {
    assert es + ([e] + r.entries) == es + [e] + r.entries;
  }

  lemma NoEntries(r: Entries)
    ensures WithEntries([], r) == r
  {
    assert [] + r.entries == r.entries;
  }

  lemma EntriesEnd(es: seq<Entry>, rest: seq<byte>)
    ensures WithEntries(es, Parsed([], rest)) == Parsed(es, rest) && WithEntries(es, Short([])) == Short(es)
  {
    assert es + [] == es;
  }

  /** Whether the bytes start with a whole entry: two keyword bytes, a length, and the data. */
  predicate FitsEntry(b: seq<byte>) {
    |b| >= 3 && |b| >= 3 + b[2] as int
  }

  function FirstOf(b: seq<byte>): (e: Entry)
    requires FitsEntry(b)
    ensures |e.data| == b[2]
  {
    Entry(Keyword(b[0], b[1]), b[3..3 + b[2] as int])
  }

  function AfterFirst(b: seq<byte>): seq<byte>
    requires FitsEntry(b)
  {
    b[3 + b[2] as int..]
  }

  /** The count of bytes parsed is a 16-bit integer. */
  function Counted(parsed: nat, e: Entry): nat {
    (parsed + |e.data| + 3) % 0x1_0000
  }

  /** The entries of one resource. */
  function ParseEntries(b: seq<byte>, parsed: nat, length: nat): (r: Entries)
    ensures r.Parsed? ==> |r.rest| <= |b|
    decreases |b|
  {
    if parsed >= length then Parsed([], b)
    else if !FitsEntry(b) then Short([])
    else WithEntries([FirstOf(b)], ParseEntries(AfterFirst(b), Counted(parsed, FirstOf(b)), length))
  }

  lemma OneMoreEntry(
      done: seq<Entry>, b: seq<byte>, parsed: nat, length: nat, e: Entry, rest: seq<byte>, count: nat)
    requires parsed < length && FitsEntry(b)
    requires e == FirstOf(b) && rest == AfterFirst(b) && count == Counted(parsed, e)
    ensures WithEntries(done, ParseEntries(b, parsed, length)) ==
            WithEntries(done + [e], ParseEntries(rest, count, length))
  {
    EntriesThen(done, e, ParseEntries(rest, count, length));
  }

  function Parse(b: seq<byte>, v: Vpd): Outcome
    decreases |b|
  {
    if b == [] then Failed(v)
    else if b[0] >= 0x80 && |b| < 3 then Failed(v)
    else
      var tag := b[0];
      var length: nat := if tag >= 0x80 then LittleEndian(b[1], b[2]) else tag % 8;
      var body := if tag >= 0x80 then b[3..] else b[1..];
      if tag == IDENTIFIER then
        if length > BUFFER && |body| > BUFFER then Overrun
        else if |body| < length then Failed(v)
        else Parse(body[length..], v.(description := FieldBytes(body[..length], DESCRIPTION)))
      else if tag == VPD_R || tag == VPD_W then
        match ParseEntries(body, 0, length)
        case Short(es) => Failed(SetEntries(v, es))
        case Parsed(es, rest) => Parse(rest, SetEntries(v, es))
      else if tag == END_TAG then Done(v, body)
      else Failed(v)
  }

  class PcieVpd {
    var vpd: Vpd
    var fd: seq<byte>

    constructor (vpd: Vpd, image: seq<byte>)
      ensures this.vpd == vpd && fd == image
    {
      this.vpd := vpd;
      fd := image;
    }

    /** read: what is there, up to n bytes. */
    method Read(n: nat) returns (data: seq<byte>)
      modifies this`fd
      ensures data == if n <= |old(fd)| then old(fd)[..n] else old(fd)
      ensures fd == if n <= |old(fd)| then old(fd)[n..] else []
    {
      var k := if n <= |fd| then n else |fd|;
      data, fd := fd[..k], fd[k..];
    }

    /** Reads one entry and assigns its field; false when the data ends first. */
    method ReadEntry() returns (ok: bool, e: Entry)
      modifies this
      ensures ok == FitsEntry(old(fd))
      ensures ok ==>
                e == FirstOf(old(fd)) && fd == AfterFirst(old(fd)) &&
                vpd == SetField(old(vpd), e.keyword, e.data)
      ensures !ok ==> vpd == old(vpd)
    {
      ok, e := false, Entry(Keyword(0, 0), []);
      ghost var b := fd;
      var keyword := Read(2);
      if |keyword| < 2 {
        return;
      }
      var lengthKeyword := Read(1);
      if |lengthKeyword| < 1 {
        return;
      }
      var n: nat := lengthKeyword[0];
      assert n == b[2];
      var data := Read(n);
      if |data| < n {
        return;
      }
      assert data == b[3..3 + n] && fd == b[3 + n..];
      vpd := SetField(vpd, Keyword(keyword[0], keyword[1]), data);
      ok, e := true, Entry(Keyword(keyword[0], keyword[1]), data);
    }

    /** Reads the entries of one resource; false when the data ends first. */
    method ReadEntries(length: nat) returns (ok: bool)
      modifies this
      ensures var r := ParseEntries(old(fd), 0, length);
              ok == r.Parsed? && vpd == SetEntries(old(vpd), r.entries) && (ok ==> fd == r.rest)
    {
      var lengthParsed: nat := 0;
      ghost var done: seq<Entry> := [];
      ghost var v, total := vpd, ParseEntries(fd, 0, length);
      NoEntries(total);
      while lengthParsed < length
        invariant vpd == SetEntries(v, done)
        invariant total == WithEntries(done, ParseEntries(fd, lengthParsed, length))
        decreases |fd|
      {
        ghost var b, parsed := fd, lengthParsed;
        var read, e := ReadEntry();
        if !read {
          EntriesEnd(done, []);
          return false;
        }
        lengthParsed := (lengthParsed + |e.data| + 3) % 0x1_0000;
        OneMoreEntry(done, b, parsed, length, e, fd, lengthParsed);
        EntriesSnoc(v, done, e);
        done := done + [e];
      }
      EntriesEnd(done, fd);
      return true;
    }

    /**
     0 when the image is read up to its end tag; -1 when it fails, and then what was read before is
     assigned; None where the buffer is overrun.
     */
    method GetIbmVpdPcie() returns (rc: Option<int>)
      modifies this
      ensures match Parse(old(fd), old(vpd))
              case Done(v, rest) => rc == Some(0) && vpd == v && fd == rest
              case Failed(v) => rc == Some(-1) && vpd == v
              case Overrun => rc == None
    {
      while true
        invariant Parse(fd, vpd) == Parse(old(fd), old(vpd))
        decreases |fd|
      {
        ghost var b := fd;
        var tag := Read(1);
        if |tag| < 1 {
          return Some(-1);
        }
        var length: nat := tag[0] % 8;
        if tag[0] >= 0x80 {
          var lengthData := Read(2);
          if |lengthData| < 2 {
            return Some(-1);
          }
          length := LittleEndian(lengthData[0], lengthData[1]);
          assert fd == b[3..];
        }
        if tag[0] == IDENTIFIER {
          var data := Read(length);
          if |data| > BUFFER {
            return None;
          } else if |data| < length {
            return Some(-1);
          }
          vpd := vpd.(description := FieldBytes(data, DESCRIPTION));
        } else if tag[0] == VPD_R || tag[0] == VPD_W {
          var ok := ReadEntries(length);
          if !ok {
            return Some(-1);
          }
        } else if tag[0] == END_TAG {
          return Some(0);
        } else {
          return Some(-1);
        }
      }
    }
  }

  // Well-formed images.

  datatype Resource =
    | Identifier(text: seq<byte>)
    | Keywords(writable: bool, entries: seq<Entry>)

  function EntryBytes(e: Entry): seq<byte>
    requires |e.data| < 256
  {
    [e.keyword.a, e.keyword.b, |e.data|] + e.data
  }

  predicate GoodEntries(es: seq<Entry>) {
    forall i :: 0 <= i < |es| ==> |es[i].data| < 256
  }

  function EntriesSize(es: seq<Entry>): nat {
    if es == [] then 0 else 3 + |es[0].data| + EntriesSize(es[1..])
  }

  function EntriesBytes(es: seq<Entry>): (b: seq<byte>)
    requires GoodEntries(es)
    ensures |b| == EntriesSize(es)
  {
    if es == [] then [] else EntryBytes(es[0]) + EntriesBytes(es[1..])
  }

  predicate GoodResource(r: Resource) {
    match r
    case Identifier(text) => |text| < 256
    case Keywords(_, es) => GoodEntries(es) && |EntriesBytes(es)| < 0x1_0000
  }

  /** A large resource: its tag, its length, and a body of exactly that length. */
  function ResourceBytes(r: Resource): seq<byte>
    requires GoodResource(r)
  {
    match r
    case Identifier(text) => [IDENTIFIER, |text|, 0] + text
    case Keywords(w, es) =>
      var body := EntriesBytes(es);
      [if w then VPD_W else VPD_R, |body| % 256, |body| / 256] + body
  }

  function Image(rs: seq<Resource>): seq<byte>
    requires forall i :: 0 <= i < |rs| ==> GoodResource(rs[i])
  {
    if rs == [] then [END_TAG] else ResourceBytes(rs[0]) + Image(rs[1..])
  }

  function SetResources(v: Vpd, rs: seq<Resource>): Vpd
    decreases |rs|
  {
    if rs == [] then v
    else
      match rs[0]
      case Identifier(text) => SetResources(v.(description := FieldBytes(text, DESCRIPTION)), rs[1..])
      case Keywords(_, es) => SetResources(SetEntries(v, es), rs[1..])
  }

  /** The bytes of some entries start with the first of them. */
  lemma SplitEntry(b: seq<byte>, es: seq<Entry>, rest: seq<byte>)
    requires GoodEntries(es) && es != [] && b == EntriesBytes(es) + rest
    ensures FitsEntry(b) && FirstOf(b) == es[0] && GoodEntries(es[1..])
    ensures |EntriesBytes(es)| == 3 + |es[0].data| + |EntriesBytes(es[1..])|
    ensures AfterFirst(b) == EntriesBytes(es[1..]) + rest
  {
    var e, more := es[0], EntriesBytes(es[1..]);
    assert b == EntryBytes(e) + more + rest;
    ConcatAssociates(EntryBytes(e), more, rest);
    FirstOfEntry(e, more + rest, b);
  }

  lemma FirstOfEntry(e: Entry, more: seq<byte>, b: seq<byte>)
    requires |e.data| < 256 && b == EntryBytes(e) + more
    ensures FitsEntry(b) && FirstOf(b) == e && AfterFirst(b) == more
  {
    assert b[0] == e.keyword.a && b[1] == e.keyword.b && b[2] == |e.data|;
    assert b[3..3 + |e.data|] == e.data;
  }

  lemma WithFirstEntry(es: seq<Entry>, rest: seq<byte>)
    requires es != []
    ensures WithEntries([es[0]], Parsed(es[1..], rest)) == Parsed(es, rest)
  {
    assert es == [es[0]] + es[1..];
  }

  /** The bytes are these entries, one after the other, and then the rest. */
  predicate StartsWith(b: seq<byte>, es: seq<Entry>, rest: seq<byte>)
    decreases |es|
  {
    if es == [] then b == rest
    else FitsEntry(b) && FirstOf(b) == es[0] && StartsWith(AfterFirst(b), es[1..], rest)
  }

  lemma {:induction false} EntriesStart(b: seq<byte>, es: seq<Entry>, rest: seq<byte>)
    requires GoodEntries(es) && b == EntriesBytes(es) + rest
    ensures StartsWith(b, es, rest)
    decreases |es|
  {
    if es != [] {
      SplitEntry(b, es, rest);
      EntriesStart(AfterFirst(b), es[1..], rest);
    }
  }

  lemma {:induction false} EntriesParse(b: seq<byte>, es: seq<Entry>, rest: seq<byte>, parsed: nat, length: nat)
    requires StartsWith(b, es, rest) && parsed + EntriesSize(es) == length < 0x1_0000
    ensures ParseEntries(b, parsed, length) == Parsed(es, rest)
    decreases |es|
  {
    if es != [] {
      EntriesParse(AfterFirst(b), es[1..], rest, Counted(parsed, es[0]), length);
      WithFirstEntry(es, rest);
    }
  }

  /** What a resource starts with. */
  lemma ResourceHeader(r: Resource, b: seq<byte>, rest: seq<byte>)
    requires GoodResource(r) && b == ResourceBytes(r) + rest
    ensures |b| >= 3
    ensures match r
            case Identifier(text) => b[0] == IDENTIFIER && LittleEndian(b[1], b[2]) == |text| && b[3..] == text + rest
            case Keywords(w, es) =>
              b[0] == (if w then VPD_W else VPD_R) && LittleEndian(b[1], b[2]) == |EntriesBytes(es)| &&
              b[3..] == EntriesBytes(es) + rest
  {
    var w := ResourceBytes(r);
    assert b[0] == w[0] && b[1] == w[1] && b[2] == w[2] && b[3..] == w[3..] + rest;
  }

  lemma OneResource(b: seq<byte>, r: Resource, rest: seq<byte>, v: Vpd)
    requires GoodResource(r) && b == ResourceBytes(r) + rest
    ensures Parse(b, v) == Parse(rest, SetResources(v, [r]))
  {
    ResourceHeader(r, b, rest);
    match r
    case Identifier(text) =>
      assert b[3..][..|text|] == text && b[3..][|text|..] == rest;
    case Keywords(w, es) =>
      EntriesStart(b[3..], es, rest);
      EntriesParse(b[3..], es, rest, 0, EntriesSize(es));
  }

  lemma {:induction false} ResourcesParse(rs: seq<Resource>, rest: seq<byte>, v: Vpd)
    requires forall i :: 0 <= i < |rs| ==> GoodResource(rs[i])
    ensures Parse(Image(rs) + rest, v) == Done(SetResources(v, rs), rest)
    decreases |rs|
  {
    if rs == [] {
      assert ([END_TAG] + rest)[1..] == rest;
    } else {
      var more := Image(rs[1..]);
      assert Image(rs) + rest == ResourceBytes(rs[0]) + (more + rest);
      OneResource(Image(rs) + rest, rs[0], more + rest, v);
      ResourcesParse(rs[1..], rest, SetResources(v, [rs[0]]));
      SetOneByOne(v, rs);
    }
  }

  lemma SetOneByOne(v: Vpd, rs: seq<Resource>)
    requires rs != []
    ensures SetResources(v, rs) == SetResources(SetResources(v, [rs[0]]), rs[1..])
  {
    assert [rs[0]][1..] == [];
  }

  // What the fields hold: the last occurrence of each keyword.

  function AllEntries(rs: seq<Resource>): seq<Entry> {
    if rs == [] then [] else (if rs[0].Keywords? then rs[0].entries else []) + AllEntries(rs[1..])
  }

  /** The data of the last entry with a keyword. */
  function LastData(es: seq<Entry>, k: Keyword): Option<seq<byte>> {
    if es == [] then None
    else if es[|es| - 1].keyword == k then Some(es[|es| - 1].data)
    else LastData(es[..|es| - 1], k)
  }

  function LastText(rs: seq<Resource>): Option<seq<byte>> {
    if rs == [] then None
    else if rs[|rs| - 1].Identifier? then Some(rs[|rs| - 1].text)
    else LastText(rs[..|rs| - 1])
  }

  /** The field of a known keyword after some entries. */
  predicate Holds(v: Vpd, before: Vpd, k: Keyword, es: seq<Entry>) {
    match LastData(es, k)
    case Some(data) => k in v.fields && v.fields[k] == FieldBytes(data, FieldSize(k))
    case None => (k in v.fields <==> k in before.fields) && (k in v.fields ==> v.fields[k] == before.fields[k])
  }

  lemma {:induction false} EntriesHold(v: Vpd, es: seq<Entry>, k: Keyword)
    requires FieldSize(k) > 0
    ensures Holds(SetEntries(v, es), v, k, es)
    ensures SetEntries(v, es).description == v.description
    decreases |es|
  {
    if es != [] {
      var init, e := es[..|es| - 1], es[|es| - 1];
      assert es == init + [e];
      EntriesSnoc(v, init, e);
      EntriesHold(v, init, k);
    }
  }

  lemma {:induction false} SetEntriesConcat(v: Vpd, es: seq<Entry>, more: seq<Entry>)
    ensures SetEntries(v, es + more) == SetEntries(SetEntries(v, es), more)
    decreases |es|
  {
    if es == [] {
      assert es + more == more;
    } else {
      assert (es + more)[1..] == es[1..] + more;
      SetEntriesConcat(SetField(v, es[0].keyword, es[0].data), es[1..], more);
    }
  }

  /** The fields depend on the entries alone. */
  lemma {:induction false} FieldsAreSet(v: Vpd, rs: seq<Resource>)
    ensures SetResources(v, rs).fields == SetEntries(v, AllEntries(rs)).fields
    decreases |rs|
  {
    if rs != [] {
      match rs[0]
      case Identifier(text) =>
        var v' := v.(description := FieldBytes(text, DESCRIPTION));
        FieldsAreSet(v', rs[1..]);
        assert [] + AllEntries(rs[1..]) == AllEntries(rs[1..]);
        DescriptionIsApart(v, v'.description, AllEntries(rs[1..]));
      case Keywords(_, es) =>
        FieldsAreSet(SetEntries(v, es), rs[1..]);
        SetEntriesConcat(v, es, AllEntries(rs[1..]));
    }
  }

  lemma {:induction false} DescriptionIsApart(v: Vpd, d: seq<byte>, es: seq<Entry>)
    ensures SetEntries(v.(description := d), es) == SetEntries(v, es).(description := d)
    decreases |es|
  {
    if es != [] {
      DescriptionIsApart(SetField(v, es[0].keyword, es[0].data), d, es[1..]);
    }
  }

  lemma {:induction false} DescriptionIsSet(v: Vpd, rs: seq<Resource>)
    ensures SetResources(v, rs).description ==
            if LastText(rs).Some? then FieldBytes(LastText(rs).value, DESCRIPTION) else v.description
    decreases |rs|
  {
    if rs != [] {
      var init, r := rs[..|rs| - 1], rs[|rs| - 1];
      assert rs == init + [r];
      ResourcesSnoc(v, init, r);
      DescriptionIsSet(v, init);
      if r.Keywords? {
        EntriesHold(SetResources(v, init), r.entries, Keyword(80, 78));
      }
    }
  }

  lemma {:induction false} ResourcesSnoc(v: Vpd, rs: seq<Resource>, r: Resource)
    ensures SetResources(v, rs + [r]) == SetResources(SetResources(v, rs), [r])
    decreases |rs|
  {
    if rs == [] {
      assert rs + [r] == [r];
    } else {
      assert (rs + [r])[1..] == rs[1..] + [r];
      SetOneByOne(v, rs);
      SetOneByOne(v, rs + [r]);
      ResourcesSnoc(SetResources(v, [rs[0]]), rs[1..], r);
    }
  }

  /**
   Reading a well-formed image consumes exactly the image. Each known field then holds the last
   occurrence of its keyword, and the description the last identifier; a field that does not
   occur is left as it was.
   */
  lemma WellFormedImageIsRead(rs: seq<Resource>, rest: seq<byte>, v: Vpd)
    requires forall i :: 0 <= i < |rs| ==> GoodResource(rs[i])
    ensures Parse(Image(rs) + rest, v) == Done(SetResources(v, rs), rest)
    ensures forall k :: FieldSize(k) > 0 ==> Holds(SetResources(v, rs), v, k, AllEntries(rs))
    ensures SetResources(v, rs).description ==
            if LastText(rs).Some? then FieldBytes(LastText(rs).value, 40) else v.description
  {
    ResourcesParse(rs, rest, v);
    FieldsAreSet(v, rs);
    DescriptionIsSet(v, rs);
    forall k | FieldSize(k) > 0
      ensures Holds(SetResources(v, rs), v, k, AllEntries(rs))
    {
      EntriesHold(v, AllEntries(rs), k);
    }
  }

  // Truncated images.

  lemma {:induction false} TruncatedEntriesFail(b: seq<byte>, es: seq<Entry>, parsed: nat, length: nat)
    requires GoodEntries(es) && parsed + |EntriesBytes(es)| == length < 0x1_0000
    requires |b| < |EntriesBytes(es)| && b == EntriesBytes(es)[..|b|]
    ensures ParseEntries(b, parsed, length).Short?
    decreases |es|
  {
    var whole := EntriesBytes(es);
    assert whole == whole + [];
    SplitEntry(whole, es, []);
    if FitsEntry(b) {
      FirstOfPrefix(b, whole);
      var rest := AfterFirst(b);
      assert AfterFirst(whole) == EntriesBytes(es[1..]) + [] == EntriesBytes(es[1..]);
      assert rest == AfterFirst(whole)[..|rest|];
      TruncatedEntriesFail(rest, es[1..], Counted(parsed, es[0]), length);
    }
  }

  lemma FirstOfPrefix(b: seq<byte>, whole: seq<byte>)
    requires |b| <= |whole| && b == whole[..|b|] && FitsEntry(b)
    ensures FitsEntry(whole) && FirstOf(b) == FirstOf(whole)
  {
    assert b[2] == whole[2];
    assert b[3..3 + b[2] as int] == whole[3..3 + b[2] as int];
  }

  lemma TruncatedResourceFails(b: seq<byte>, r: Resource, v: Vpd)
    requires GoodResource(r) && |b| < |ResourceBytes(r)| && b == ResourceBytes(r)[..|b|]
    ensures Parse(b, v).Failed?
  {
    var whole := ResourceBytes(r);
    assert whole == whole + [];
    ResourceHeader(r, whole, []);
    if b != [] {
      assert b[0] == whole[0] >= 0x80;
    }
    if |b| >= 3 {
      assert b[1] == whole[1] && b[2] == whole[2] && b[3..] == whole[3..][..|b| - 3];
      if r.Keywords? {
        assert whole[3..] == EntriesBytes(r.entries);
        TruncatedEntriesFail(b[3..], r.entries, 0, |EntriesBytes(r.entries)|);
      }
    }
  }

  /** Any image cut short is rejected. */
  lemma {:induction false} TruncatedImageFails(rs: seq<Resource>, n: nat, v: Vpd)
    requires forall i :: 0 <= i < |rs| ==> GoodResource(rs[i])
    requires n < |Image(rs)|
    ensures Parse(Image(rs)[..n], v).Failed?
    decreases |rs|
  {
    if rs != [] {
      var first, more := ResourceBytes(rs[0]), Image(rs[1..]);
      var b := Image(rs)[..n];
      TakeOfConcat(first, more, n);
      if n < |first| {
        TruncatedResourceFails(b, rs[0], v);
      } else {
        var left := n - |first|;
        assert b == first + more[..left];
        OneResource(b, rs[0], more[..left], v);
        TruncatedImageFails(rs[1..], left, SetResources(v, [rs[0]]));
      }
    }
  }

  // Tags and keywords, written out.

  const FIELD_SIZES: map<(char, char), nat> := map[
    ('P', 'N') := 12, ('E', 'C') := 10, ('F', 'N') := 12, ('A', 'N') := 12, ('F', 'C') := 4, ('C', 'C') := 4,
    ('S', 'N') := 8, ('Z', '0') := 8, ('Z', '1') := 4, ('Z', '2') := 10, ('Z', '3') := 12, ('Z', '4') := 1,
    ('Z', '5') := 2, ('Z', '6') := 8, ('Z', '7') := 3, ('Z', '8') := 5, ('Z', '9') := 2, ('Z', 'A') := 4,
    ('Z', 'B') := 4, ('Z', 'C') := 2, ('M', 'N') := 20, ('R', 'M') := 8]

  /** The keywords that name a field, and the sizes of the fields; no other keyword names one. */
  lemma FieldSizesAre(k: Keyword)
    ensures var letters := (k.a as char, k.b as char);
            FieldSize(k) == if letters in FIELD_SIZES then FIELD_SIZES[letters] else 0
  {
  }

  /** The tags of resources and of the end of an image. */
  lemma TagsAre(text: seq<byte>, es: seq<Entry>)
    requires GoodResource(Identifier(text)) && GoodResource(Keywords(false, es))
    ensures ResourceBytes(Identifier(text))[0] == 0x82 && ResourceBytes(Keywords(false, es))[0] == 0x90
    ensures ResourceBytes(Keywords(true, es))[0] == 0x91 && Image([]) == [0x78]
  {
  }

  /** An identifier of at most 256 bytes is read; of a longer one more than 256 bytes overrun the buffer. */
  lemma IdentifierLimit(b: seq<byte>, length: nat, v: Vpd)
    requires |b| >= 3 && b[0] == 0x82 && length == LittleEndian(b[1], b[2])
    ensures length > 256 && |b| > 259 ==> Parse(b, v) == Overrun
    ensures length > |b| - 3 && |b| <= 259 ==> Parse(b, v) == Failed(v)
    ensures length <= |b| - 3 && length <= 256 ==>
              Parse(b, v) == Parse(b[3..][length..], v.(description := FieldBytes(b[3..][..length], 40)))
  {
  }

  /** Some resources, and what comes after them. */
  function Laid(rs: seq<Resource>, after: seq<byte>): seq<byte>
    requires forall i :: 0 <= i < |rs| ==> GoodResource(rs[i])
  {
    if rs == [] then after else ResourceBytes(rs[0]) + Laid(rs[1..], after)
  }

  /** After any resources, a tag of another kind is an error; what the resources hold is assigned. */
  lemma {:induction false} OtherTagFails(rs: seq<Resource>, after: seq<byte>, v: Vpd)
    requires (forall i :: 0 <= i < |rs| ==> GoodResource(rs[i])) && after != []
    requires after[0] !in {0x78, 0x82, 0x90, 0x91}
    ensures Parse(Laid(rs, after), v) == Failed(SetResources(v, rs))
    decreases |rs|
  {
    if rs != [] {
      var more := Laid(rs[1..], after);
      OneResource(Laid(rs, after), rs[0], more, v);
      OtherTagFails(rs[1..], after, SetResources(v, [rs[0]]));
      SetOneByOne(v, rs);
    }
  }
}
