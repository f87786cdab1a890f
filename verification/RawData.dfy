/**
 The raw data of an NVMe servicelog event: sections of keyword items, grown in place.
 Header lengths are host integers; the length bytes of a section header are little endian.
 */
module RawData {
  import opened Bytes
  import opened Decimal
  import opened SmartLog
  import opened Uint128
  import opened Wrappers

  const ITEM_DATA_LENGTH: nat := 255
  const HEADER: nat := 4
  const UINT16: nat := 0x1_0000
  const UINT32: nat := 0x1_0000_0000

  datatype RawItem = Item(keyword: seq<byte>, data: seq<byte>)

  /** A two-byte keyword, and data that fits the one-byte length. */
  type Item = it: RawItem | |it.keyword| == 2 && |it.data| <= ITEM_DATA_LENGTH witness Item([0, 0], [])

  function ItemBytes(it: Item): (b: seq<byte>)
    ensures |b| == HEADER + |it.data|
  {
    it.keyword + [0, |it.data|] + it.data
  }

  function ItemsBytes(items: seq<Item>): seq<byte>
  {
    if items == [] then [] else ItemBytes(items[0]) + ItemsBytes(items[1..])
  }

  /** Takes a section apart again: keyword, reserved byte, length, data. */
  function DecodeItems(b: seq<byte>): Option<seq<Item>> {
    if b == [] then Some([])
    else if |b| < HEADER || b[2] != 0 || |b| < HEADER + b[3] then None
    else
      match DecodeItems(b[HEADER + b[3]..])
      case None => None
      case Some(items) => Some([Item(b[..2], b[HEADER..HEADER + b[3]])] + items)
  }

  lemma {:induction false} ItemsRoundTrip(items: seq<Item>)
    ensures DecodeItems(ItemsBytes(items)) == Some(items)
  {
    if items != [] {
      var it, rest := items[0], ItemsBytes(items[1..]);
      var b := ItemBytes(it) + rest;
      assert b[..2] == it.keyword && b[3] == |it.data|;
      assert b[HEADER..HEADER + b[3]] == it.data && b[HEADER + b[3]..] == rest;
      ItemsRoundTrip(items[1..]);
      assert items == [it] + items[1..];
    }
  }

  /** The items a section of the given size takes from a sequence: each one that still fits. */
  function Taken(size: nat, items: seq<Item>): (taken: seq<Item>)
    decreases |items|
  {
    if items == [] then []
    else if size + HEADER + |items[0].data| < UINT16
    then [items[0]] + Taken(size + HEADER + |items[0].data|, items[1..])
    else Taken(size, items[1..])
  }

  class Section {
    const tag: byte
    var length: nat
    var data: array<byte>

    predicate Valid()
      reads this
    {
      data.Length == length < UINT16
    }

    constructor (tag: byte)
      ensures Valid() && this.tag == tag && data[..] == [] && fresh(data)
    {
      this.tag := tag;
      length := 0;
      data := new byte[0];
    }

    /** 0, or -1 when the 16-bit length would wrap around: the item is then left out. */
    method AppendItem(it: Item) returns (rc: int)
      requires Valid()
      modifies this
      ensures Valid() && (data == old(data) || fresh(data))
      ensures rc == if old(length) + HEADER + |it.data| <= 65535 then 0 else -1
      ensures data[..] == if rc == 0 then old(data[..]) + ItemBytes(it) else old(data[..])
    {
      var total := (length + HEADER + |it.data|) % UINT16;
      if total < length {
        return -1;
      }
      var grown := new byte[total](_ => 0);
      Fill(grown, 0, data[..]);
      Fill(grown, length, ItemBytes(it));
      assert grown[..] == data[..] + ItemBytes(it);
      data := grown;
      length := total;
      return 0;
    }

    /** Appends items one after the other; those that do not fit are left out. */
    method AppendItems(items: seq<Item>)
      requires Valid()
      modifies this
      ensures Valid() && (data == old(data) || fresh(data))
      ensures data[..] == old(data[..]) + ItemsBytes(Taken(old(length), items))
    {
      ghost var all := Taken(length, items);
      var i := 0;
      while i < |items|
        invariant 0 <= i <= |items| && Valid() && (data == old(data) || fresh(data))
        invariant data[..] + ItemsBytes(Taken(length, items[i..])) == old(data[..]) + ItemsBytes(all)
      {
        TakenStep(length, items[i..], data[..]);
        assert items[i..][0] == items[i] && items[i..][1..] == items[i + 1..];
        var rc := AppendItem(items[i]);
        i := i + 1;
      }
    }
  }

  lemma TakenStep(size: nat, items: seq<Item>, b: seq<byte>)
    requires items != []
    ensures b + ItemsBytes(Taken(size, items)) ==
            if size + HEADER + |items[0].data| < UINT16
            then b + ItemBytes(items[0]) + ItemsBytes(Taken(size + HEADER + |items[0].data|, items[1..]))
            else b + ItemsBytes(Taken(size, items[1..]))
  {
    if size + HEADER + |items[0].data| < UINT16 {
      var rest := Taken(size + HEADER + |items[0].data|, items[1..]);
      assert ([items[0]] + rest)[1..] == rest;
    }
  }

  /** memcpy into an array. */
  method Fill(dst: array<byte>, at: nat, src: seq<byte>)
    requires at + |src| <= dst.Length
    modifies dst
    ensures forall i :: 0 <= i < dst.Length ==>
              dst[i] == if at <= i < at + |src| then src[i - at] else old(dst[i])
  {
    var k := 0;
    while k < |src|
      invariant 0 <= k <= |src|
      invariant forall i :: 0 <= i < dst.Length ==>
                  dst[i] == if at <= i < at + k then src[i - at] else old(dst[i])
    {
      dst[at + k] := src[k];
      k := k + 1;
    }
  }

  // Sections.

  datatype RawSection = SectionData(tag: byte, data: seq<byte>)

  /** A tag, and data that fits the two-byte length. */
  type SectionData = s: RawSection | |s.data| < UINT16 witness SectionData(0, [])

  function SectionBytes(s: SectionData): (b: seq<byte>)
    ensures |b| == HEADER + |s.data|
  {
    [s.tag, 0, |s.data| % 256, |s.data| / 256] + s.data
  }

  function SectionsBytes(ss: seq<SectionData>): seq<byte> {
    if ss == [] then [] else SectionBytes(ss[0]) + SectionsBytes(ss[1..])
  }

  /** Takes raw data apart again: tag, reserved byte, length, data. */
  function DecodeSections(b: seq<byte>): Option<seq<SectionData>> {
    if b == [] then Some([])
    else if |b| < HEADER || b[1] != 0 || |b| < HEADER + LittleEndian(b[2], b[3]) then None
    else
      var end := HEADER + LittleEndian(b[2], b[3]);
      match DecodeSections(b[end..])
      case None => None
      case Some(ss) => Some([SectionData(b[0], b[HEADER..end])] + ss)
  }

  lemma {:induction false} SectionsRoundTrip(ss: seq<SectionData>)
    ensures DecodeSections(SectionsBytes(ss)) == Some(ss)
  {
    if ss != [] {
      var s, rest := ss[0], SectionsBytes(ss[1..]);
      var b := SectionBytes(s) + rest;
      var end := HEADER + LittleEndian(b[2], b[3]);
      assert end == HEADER + |s.data|;
      assert b[HEADER..end] == s.data && b[end..] == rest;
      SectionsRoundTrip(ss[1..]);
      assert ss == [s] + ss[1..];
    }
  }

  lemma {:induction false} SectionsBytesSnoc(ss: seq<SectionData>, s: SectionData)
    ensures SectionsBytes(ss + [s]) == SectionsBytes(ss) + SectionBytes(s)
  {
    if ss == [] {
      assert ss + [s] == [s];
    } else {
      var rest := ss[1..];
      SectionsBytesSnoc(rest, s);
      assert (ss + [s])[0] == ss[0] && (ss + [s])[1..] == rest + [s];
    }
  }

  class RawBuffer {
    var length: nat
    var bytes: array<byte>

    predicate Valid()
      reads this
    {
      bytes.Length == length < UINT32
    }

    constructor ()
      ensures Valid() && bytes[..] == [] && fresh(bytes)
    {
      length := 0;
      bytes := new byte[0];
    }

    /** 0, or -1 when the 32-bit length would wrap around: the section is then left out. */
    method AppendSection(section: Section) returns (rc: int)
      requires Valid() && section.Valid()
      modifies this
      ensures Valid() && (bytes == old(bytes) || fresh(bytes))
      ensures rc == if old(length) + HEADER + section.length < UINT32 then 0 else -1
      ensures bytes[..] == if rc == 0 then old(bytes[..]) + SectionBytes(SectionData(section.tag, section.data[..]))
                           else old(bytes[..])
    {
      var total := (length + HEADER + section.length) % UINT32;
      if total < length {
        return -1;
      }
      var grown := new byte[total](_ => 0);
      var header := [section.tag, 0, section.length % 256, section.length / 256];
      Fill(grown, 0, bytes[..]);
      Fill(grown, length, header);
      Fill(grown, length + HEADER, section.data[..]);
      assert grown[..] == bytes[..] + (header + section.data[..]);
      bytes := grown;
      length := total;
      return 0;
    }
  }

  // The SMART and VPD sections.

  const SMART_TAG: byte := 0x01
  const VPD_TAG: byte := 0x02
  const END_TAG: byte := 0xFF

  /** The ASCII codes of a numeral. */
  function Ascii(s: string): (b: seq<byte>)
    requires AllDigits(s)
    ensures |b| == |s|
  {
    seq(|s|, i requires 0 <= i < |s| => s[i] as int)
  }

  lemma {:induction false} NumeralLength(n: nat, k: nat)
    requires 0 < k && n < Pow10(k)
    ensures |Numeral(n)| <= k
  {
    if n >= 10 {
      assert Pow10(1) == 10 && Pow10(k) == 10 * Pow10(k - 1);
      NumeralLength(n / 10, k - 1);
    }
  }

  lemma CounterFits(n: nat)
    requires n < Pow256(BYTES)
    ensures |Numeral(n)| <= 39
  {
    PowerOf16();
    assert Pow10(6) == 1_000_000;
    assert Pow10(12) == 1_000_000_000_000;
    assert Pow10(18) == 1_000_000_000_000_000_000;
    assert Pow10(24) == 1_000_000_000_000_000_000_000_000;
    assert Pow10(30) == 1_000_000_000_000_000_000_000_000_000_000;
    assert Pow10(36) == 1_000_000_000_000_000_000_000_000_000_000_000_000;
    assert Pow10(39) == 1_000_000_000_000_000_000_000_000_000_000_000_000_000;
    NumeralLength(n, 39);
  }

  /** An item that holds a number in ASCII. */
  function NumberItem(keyword: seq<byte>, n: nat): (it: Item)
    requires |keyword| == 2 && n < Pow256(BYTES)
    ensures |it.data| <= 39
  {
    CounterFits(n);
    Item(keyword, Ascii(Numeral(n)))
  }

  function Keyword(i: nat): (k: seq<byte>)
    requires i < FIELDS
    ensures |k| == 2
  {
    var s := ["CW", "T0", "AS", "ST", "PU", "EG", "DR", "DW", "HR", "HW", "BT", "PC", "PH", "US", "DI", "EI", "TW",
              "TC", "T1", "T2", "T3", "T4", "T5", "T6", "T7", "T8", "M1", "M2", "M3", "M4"][i];
    [s[0] as int, s[1] as int]
  }

  /** The field shown by item i: its own, but the fourth sensor's item shows the third sensor. */
  function ShownField(i: nat): (f: nat)
    requires i < FIELDS
    ensures f < FIELDS
  {
    if i == 21 then 20 else i
  }

  lemma FieldFitsCounter(c: Content, k: Kind)
    requires WellTyped(c, k)
    ensures Number(c) < Pow256(BYTES)
  {
    PowerOf16();
    if k == U128 {
      DigitsOfValue(c.bytes);
    }
  }

  function SmartItem(page: seq<Content>, i: nat): (it: Item)
    requires IsPage(SmartFields(), page) && i < FIELDS
    ensures |it.data| <= 39
  {
    FieldFitsCounter(page[ShownField(i)], KindOf(ShownField(i)));
    NumberItem(Keyword(i), Number(page[ShownField(i)]))
  }

  /** Items that fit one section together. */
  predicate ShortItems(items: seq<Item>) {
    |items| <= 100 && forall i :: 0 <= i < |items| ==> |items[i].data| <= 39
  }

  function SmartItems(page: seq<Content>): (items: seq<Item>)
    requires IsPage(SmartFields(), page)
    ensures |items| == FIELDS && ShortItems(items)
  {
    seq(FIELDS, i requires 0 <= i < FIELDS => SmartItem(page, i))
  }

  /** The vital product data that is logged. */
  datatype Vpd = Vpd(endurance: seq<byte>, capacity: seq<byte>, warranty: seq<byte>, firmwareLevel: seq<byte>)

  predicate IsVpd(vpd: Vpd) {
    |vpd.endurance| == 4 && |vpd.capacity| == 10 && |vpd.warranty| == 12 && |vpd.firmwareLevel| == 8
  }

  function VpdItems(vpd: Vpd): (items: seq<Item>)
    requires IsVpd(vpd)
    ensures |items| == 4 && ShortItems(items)
  {
    [Item([90, 49], CutAtNul(vpd.endurance)), Item([90, 50], CutAtNul(vpd.capacity)),
     Item([90, 51], CutAtNul(vpd.warranty)), Item([82, 77], CutAtNul(vpd.firmwareLevel))]
  }

  /** A section with room for every item takes them all. */
  lemma {:induction false} AllAreTaken(size: nat, items: seq<Item>)
    requires forall i :: 0 <= i < |items| ==> |items[i].data| <= 39
    requires size + 43 * |items| < UINT16
    ensures Taken(size, items) == items && |ItemsBytes(items)| <= 43 * |items|
    decreases |items|
  {
    if items != [] {
      AllAreTaken(size + HEADER + |items[0].data|, items[1..]);
    }
  }

  function ItemsSection(tag: byte, items: seq<Item>): SectionData
    requires ShortItems(items)
  {
    AllAreTaken(0, items);
    SectionData(tag, ItemsBytes(items))
  }

  /** Appends a section of items to the raw data, which holds some sections already. */
  method AppendItemsSection(raw: RawBuffer, tag: byte, items: seq<Item>, ghost done: seq<SectionData>)
    returns (rc: int)
    requires raw.Valid() && raw.length + HEADER + UINT16 < UINT32
    requires ShortItems(items) && raw.bytes[..] == SectionsBytes(done)
    modifies raw
    ensures raw.Valid() && (raw.bytes == old(raw.bytes) || fresh(raw.bytes)) && rc == 0
    ensures raw.bytes[..] == SectionsBytes(done + [ItemsSection(tag, items)])
    ensures raw.length <= old(raw.length) + HEADER + UINT16
  {
    SectionsBytesSnoc(done, ItemsSection(tag, items));
    AllAreTaken(0, items);
    var section := new Section(tag);
    section.AppendItems(items);
    assert section.data[..] == [] + ItemsBytes(items) == ItemsBytes(items);
    rc := raw.AppendSection(section);
  }

  function SmartSection(page: Option<seq<Content>>): seq<SectionData>
    requires page.Some? ==> IsPage(SmartFields(), page.value)
  {
    if page.Some? then [ItemsSection(SMART_TAG, SmartItems(page.value))] else []
  }

  function VpdSection(vpd: Option<Vpd>): seq<SectionData>
    requires vpd.Some? ==> IsVpd(vpd.value)
  {
    if vpd.Some? then [ItemsSection(VPD_TAG, VpdItems(vpd.value))] else []
  }

  /** The sections of an event's raw data: SMART and VPD when they are at hand, and an end tag. */
  function SectionsOf(page: Option<seq<Content>>, vpd: Option<Vpd>): seq<SectionData>
    requires page.Some? ==> IsPage(SmartFields(), page.value)
    requires vpd.Some? ==> IsVpd(vpd.value)
  {
    SmartSection(page) + VpdSection(vpd) + [SectionData(END_TAG, [])]
  }

  method FillRawData(page: Option<seq<Content>>, vpd: Option<Vpd>) returns (rc: int, raw: RawBuffer)
    requires page.Some? ==> IsPage(SmartFields(), page.value)
    requires vpd.Some? ==> IsVpd(vpd.value)
    ensures rc == 0 && raw.Valid() && fresh(raw)
    ensures raw.bytes[..] == SectionsBytes(SectionsOf(page, vpd))
  {
    raw := new RawBuffer();
    ghost var smart := SmartSection(page);
    if page.Some? {
      rc := AppendItemsSection(raw, SMART_TAG, SmartItems(page.value), []);
      assert [] + smart == smart;
    }
    ghost var done := smart + VpdSection(vpd);
    if vpd.Some? {
      rc := AppendItemsSection(raw, VPD_TAG, VpdItems(vpd.value), smart);
    }
    var end := new Section(END_TAG);
    rc := raw.AppendSection(end);
    SectionsBytesSnoc(done, SectionData(END_TAG, []));
  }

  /** Raw data decodes to its sections, and each section to its items. */
  lemma RawDataRoundTrip(page: Option<seq<Content>>, vpd: Option<Vpd>)
    requires page.Some? ==> IsPage(SmartFields(), page.value)
    requires vpd.Some? ==> IsVpd(vpd.value)
    ensures var ss := SectionsOf(page, vpd);
            DecodeSections(SectionsBytes(ss)) == Some(ss) && ss[|ss| - 1] == SectionData(0xFF, []) &&
            |ss| == 1 + (if page.Some? then 1 else 0) + (if vpd.Some? then 1 else 0) &&
            (page.Some? ==> ss[0].tag == 0x01 && DecodeItems(ss[0].data) == Some(SmartItems(page.value))) &&
            (vpd.Some? ==> ss[|ss| - 2].tag == 0x02 && DecodeItems(ss[|ss| - 2].data) == Some(VpdItems(vpd.value)))
  {
    SectionsRoundTrip(SectionsOf(page, vpd));
    if page.Some? {
      ItemsRoundTrip(SmartItems(page.value));
    }
    if vpd.Some? {
      ItemsRoundTrip(VpdItems(vpd.value));
    }
  }

  /** The item of every sensor shows that sensor; the fourth one only when it reads like the third. */
  lemma SensorItemsShowSensors(page: seq<Content>, i: nat)
    requires IsPage(SmartFields(), page) && i < FIELDS
    ensures SmartItems(page)[i].data == Ascii(Numeral(Number(page[i]))) <==>
            (i == 21 ==> Number(page[20]) == Number(page[21]))
  {
    if i == 21 && SmartItems(page)[i].data == Ascii(Numeral(Number(page[i]))) {
      AsciiIsInjective(Numeral(Number(page[20])), Numeral(Number(page[21])));
      NumeralReadsBack(Number(page[20]));
      NumeralReadsBack(Number(page[21]));
    }
  }

  lemma AsciiIsInjective(s: string, t: string)
    requires AllDigits(s) && AllDigits(t) && Ascii(s) == Ascii(t)
    ensures s == t
  {
    forall i | 0 <= i < |s|
      ensures s[i] == t[i]
    {
      assert Ascii(s)[i] == Ascii(t)[i];
    }
  }

  // The formats and the items, written out.

  /** Where the parts of an item and of a section stand; a section's length has its low byte first. */
  lemma LayoutsAre(it: Item, s: SectionData)
    ensures var b := ItemBytes(it); b[..2] == it.keyword && b[2] == 0 && b[3] == |it.data| && b[4..] == it.data
    ensures var b := SectionBytes(s);
            b[0] == s.tag && b[1] == 0 && b[2] as int + 256 * b[3] as int == |s.data| && b[4..] == s.data
  {
  }

  /** The name of a field in a dump, the keyword of its item, and its bytes. */
  const SMART_TABLE: seq<(string, string, nat)> := [
    ("CRIT_WARN", "CW", 1), ("COMP_TEMP", "T0", 2), ("AVAIL_SPARE", "AS", 1), ("AVAIL_SPARE_THRES", "ST", 1),
    ("PCT_USED", "PU", 1), ("END_GRP_CRIT_WARN", "EG", 1), ("UNITS_READ", "DR", 16), ("UNITS_WRITTEN", "DW", 16),
    ("HOST_READ_CMD", "HR", 16), ("HOST_WRITE_CMD", "HW", 16), ("CTRL_BUSY_TIME", "BT", 16),
    ("PWR_CYCLES", "PC", 16), ("PWR_ON_HOURS", "PH", 16), ("UNSAFE_SHUTDOWN", "US", 16), ("MEDIA_ERR", "DI", 16),
    ("ERR_LOG", "EI", 16), ("WARN_TEMP_TIME", "TW", 4), ("CRIT_TEMP_TIME", "TC", 4), ("TEMP_SENSOR1", "T1", 2),
    ("TEMP_SENSOR2", "T2", 2), ("TEMP_SENSOR3", "T3", 2), ("TEMP_SENSOR4", "T4", 2), ("TEMP_SENSOR5", "T5", 2),
    ("TEMP_SENSOR6", "T6", 2), ("TEMP_SENSOR7", "T7", 2), ("TEMP_SENSOR8", "T8", 2), ("THRM_TEMP1_TRANS", "M1", 4),
    ("THRM_TEMP2_TRANS", "M2", 4), ("TOTAL_THM_TEMP1", "M3", 4), ("TOTAL_THM_TEMP2", "M4", 4)]

  predicate Letters(b: seq<byte>, text: string) {
    |b| == |text| && forall i :: 0 <= i < |b| ==> b[i] == text[i] as int
  }

  /** Each field has the name, the keyword and the width of the table, in this order. */
  lemma FieldsAreTable(i: nat)
    requires i < 30
    ensures |SMART_TABLE| == FIELDS && SmartFields()[i].key == SMART_TABLE[i].0
    ensures Letters(Keyword(i), SMART_TABLE[i].1) && Width(SmartFields()[i].kind) == SMART_TABLE[i].2
  {
    KeywordsAreTable(i);
    WidthsAreTable(i);
  }

  lemma KeywordsAreTable(i: nat)
    requires i < 30
    ensures Letters(Keyword(i), SMART_TABLE[i].1)
  {
  }

  lemma WidthsAreTable(i: nat)
    requires i < 30
    ensures Width(KindOf(i)) == SMART_TABLE[i].2
  {
  }

  /** The product data that is logged: four keywords, each with the string of its field. */
  lemma ProductItemsAre(vpd: Vpd)
    requires IsVpd(vpd)
    ensures var items := VpdItems(vpd);
            Letters(items[0].keyword, "Z1") && items[0].data == CutAtNul(vpd.endurance) &&
            Letters(items[1].keyword, "Z2") && items[1].data == CutAtNul(vpd.capacity) &&
            Letters(items[2].keyword, "Z3") && items[2].data == CutAtNul(vpd.warranty) &&
            Letters(items[3].keyword, "RM") && items[3].data == CutAtNul(vpd.firmwareLevel)
  {
  }
}
