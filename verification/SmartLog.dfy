/** The fields of the NVMe SMART / health information log page. */
module SmartLog {
  import opened Bytes
  import opened Uint128

  const FIELDS: nat := 30
  const KEY_LENGTH: nat := 128

  datatype Kind = U8 | U16 | U32 | U128

  function Width(k: Kind): nat {
    match k
    case U8 => 1
    case U16 => 2
    case U32 => 4
    case U128 => 16
  }

  /** A counter is kept as its bytes; the other fields as host integers. */
  datatype Content = Scalar(n: nat) | Counter(bytes: seq<byte>)

  function Number(c: Content): nat {
    match c
    case Scalar(n) => n
    case Counter(bytes) => Value(bytes)
  }

  predicate WellTyped(c: Content, k: Kind) {
    if k == U128 then c.Counter? && |c.bytes| == BYTES else c.Scalar? && c.n < Pow256(Width(k))
  }

  datatype FieldSpec = FieldSpec(key: string, kind: Kind)

  type Table = seq<FieldSpec>

  /** A page holds one content of the right kind for each field. */
  predicate IsPage(t: Table, page: seq<Content>) {
    |page| == |t| && forall i :: 0 <= i < |t| ==> WellTyped(page[i], t[i].kind)
  }

  predicate KeyChar(c: char) {
    'A' <= c <= 'Z' || c == '_' || '0' <= c <= '9'
  }

  predicate PlainKey(key: string) {
    0 < |key| < KEY_LENGTH && forall k :: 0 <= k < |key| ==> KeyChar(key[k])
  }

  /** Every name can be told from the rest of its line, and from the other names. */
  predicate GoodTable(t: Table) {
    (forall i :: 0 <= i < |t| ==> PlainKey(t[i].key)) &&
    forall i, j :: 0 <= i < |t| && 0 <= j < |t| && t[i].key == t[j].key ==> i == j
  }

  /** The fields of the page, in the order they are written. */
  function SmartFields(): (t: Table)
    ensures |t| == FIELDS
  {
    seq(FIELDS, i requires 0 <= i < FIELDS => FieldSpec(Key(i), KindOf(i)))
  }

  function Key(i: nat): string
    requires i < FIELDS
  {
    match i
    case 0 => "CRIT_WARN"
    case 1 => "COMP_TEMP"
    case 2 => "AVAIL_SPARE"
    case 3 => "AVAIL_SPARE_THRES"
    case 4 => "PCT_USED"
    case 5 => "END_GRP_CRIT_WARN"
    case 6 => "UNITS_READ"
    case 7 => "UNITS_WRITTEN"
    case 8 => "HOST_READ_CMD"
    case 9 => "HOST_WRITE_CMD"
    case 10 => "CTRL_BUSY_TIME"
    case 11 => "PWR_CYCLES"
    case 12 => "PWR_ON_HOURS"
    case 13 => "UNSAFE_SHUTDOWN"
    case 14 => "MEDIA_ERR"
    case 15 => "ERR_LOG"
    case 16 => "WARN_TEMP_TIME"
    case 17 => "CRIT_TEMP_TIME"
    case 18 => "TEMP_SENSOR1"
    case 19 => "TEMP_SENSOR2"
    case 20 => "TEMP_SENSOR3"
    case 21 => "TEMP_SENSOR4"
    case 22 => "TEMP_SENSOR5"
    case 23 => "TEMP_SENSOR6"
    case 24 => "TEMP_SENSOR7"
    case 25 => "TEMP_SENSOR8"
    case 26 => "THRM_TEMP1_TRANS"
    case 27 => "THRM_TEMP2_TRANS"
    case 28 => "TOTAL_THM_TEMP1"
    case _ => "TOTAL_THM_TEMP2"
  }

  function KindOf(i: nat): Kind
    requires i < FIELDS
  {
    if i == 1 then U16
    else if i <= 5 then U8
    else if i <= 15 then U128
    else if i <= 17 then U32
    else if i <= 25 then U16
    else U32
  }

  lemma FirstKeysAreDistinct(i: nat, j: nat)
    requires i < 15 && j < FIELDS && Key(i) == Key(j)
    ensures i == j
  {
  }

  lemma KeysAreDistinct(i: nat, j: nat)
    requires i < FIELDS && j < FIELDS && Key(i) == Key(j)
    ensures i == j
  {
    if i < 15 {
      FirstKeysAreDistinct(i, j);
    } else if j < 15 {
      FirstKeysAreDistinct(j, i);
    }
  }

  lemma PlainKeys0(i: nat)
    requires i < 5
    ensures PlainKey(Key(i))
  {
  }

  lemma PlainKeys1(i: nat)
    requires 5 <= i < 10
    ensures PlainKey(Key(i))
  {
  }

  lemma PlainKeys2(i: nat)
    requires 10 <= i < 15
    ensures PlainKey(Key(i))
  {
  }

  lemma PlainKeys3(i: nat)
    requires 15 <= i < 20
    ensures PlainKey(Key(i))
  {
  }

  lemma PlainKeys4(i: nat)
    requires 20 <= i < 25
    ensures PlainKey(Key(i))
  {
  }

  lemma PlainKeys5(i: nat)
    requires 25 <= i < 30
    ensures PlainKey(Key(i))
  {
  }

  lemma KeyIsPlain(i: nat)
    requires i < FIELDS
    ensures PlainKey(Key(i))
  {
    match i / 5 {
      case 0 => PlainKeys0(i);
      case 1 => PlainKeys1(i);
      case 2 => PlainKeys2(i);
      case 3 => PlainKeys3(i);
      case 4 => PlainKeys4(i);
      case _ => PlainKeys5(i);
    }
  }

  lemma SmartFieldsAreGood()
    ensures GoodTable(SmartFields())
  {
    var t := SmartFields();
    forall i | 0 <= i < |t|
      ensures PlainKey(t[i].key)
    {
      KeyIsPlain(i);
    }
    forall i, j | 0 <= i < |t| && 0 <= j < |t| && t[i].key == t[j].key
      ensures i == j
    {
      KeysAreDistinct(i, j);
    }
  }
}
