/** The HID report-descriptor parser of the injector firmware.

    A single forward pass over the descriptor bytes decodes item headers, keeps
    the "current" global and local values, emits one ReportField per non-constant
    Input data item and keeps per-report-ID byte sizes for Input and Output
    reports. The pure functions below are the specification of each step; the
    class DescriptorParser is the firmware's parser object, whose methods are
    proved to perform exactly those steps. */
module Descriptor {
  import opened Common

  /** Largest descriptor the cache keeps a raw copy of. */
  const MaxDescriptorSize: nat := 1024
  /** Capacity of the field list. */
  const MaxReportItems: nat := 64
  /** Capacity of each per-report-ID size table. */
  const MaxReportIds: nat := 8

  datatype ReportType = Input | Output | Feature

  datatype UsagePage =
    | GenericDesktop | SimulationControls | VRControls | SportControls | GameControls
    | GenericDevice | Keyboard | LED | Button | Ordinal | Telephony | Consumer | Digitizer
    | Unknown(code: u16)

  /** The code of a usage page: the enum's discriminant, or the code an Unknown carries. */
  function PageCode(p: UsagePage): u16 {
    match p
    case GenericDesktop => 0x01
    case SimulationControls => 0x02
    case VRControls => 0x03
    case SportControls => 0x04
    case GameControls => 0x05
    case GenericDevice => 0x06
    case Keyboard => 0x07
    case LED => 0x08
    case Button => 0x09
    case Ordinal => 0x0A
    case Telephony => 0x0B
    case Consumer => 0x0C
    case Digitizer => 0x0D
    case Unknown(c) => c
  }

  /** `UsagePage::from`: the named page for codes 0x01..0x0D, Unknown otherwise. */
  function UsagePageFrom(value: u16): (p: UsagePage)
    ensures PageCode(p) == value
    ensures p.Unknown? <==> !(0x01 <= value <= 0x0D)
  {
    match value
    case 0x01 => GenericDesktop
    case 0x02 => SimulationControls
    case 0x03 => VRControls
    case 0x04 => SportControls
    case 0x05 => GameControls
    case 0x06 => GenericDevice
    case 0x07 => Keyboard
    case 0x08 => LED
    case 0x09 => Button
    case 0x0A => Ordinal
    case 0x0B => Telephony
    case 0x0C => Consumer
    case 0x0D => Digitizer
    case _ => Unknown(value)
  }

  /** Every page `UsagePage::from` can produce is recovered from its code. */
  lemma UsagePageRoundTrip(p: UsagePage)
    requires p.Unknown? ==> !(0x01 <= p.code <= 0x0D)
    ensures UsagePageFrom(PageCode(p)) == p
  {
  }

  datatype Usage = Usage(page: UsagePage, id: u16)

  /** One decoded report field. Bit offsets are unbounded here (see README). */
  datatype ReportField = ReportField(
    reportType: ReportType,
    reportId: u8,
    usage: Usage,
    bitOffset: nat,
    bitSize: u8,
    logicalMin: i32,
    logicalMax: i32,
    isRelative: bool,
    isArray: bool)

  /** A per-report-ID size table: rows of (report id, size in bytes). */
  type SizeTable = seq<(u8, nat)>

  datatype HidDescriptor = HidDescriptor(
    fields: seq<ReportField>,
    inputReportSizes: SizeTable,
    outputReportSizes: SizeTable,
    isKeyboard: bool,
    isMouse: bool,
    isGamepad: bool)

  /** `HidDescriptor::new`. */
  function EmptyDescriptor(): HidDescriptor {
    HidDescriptor([], [], [], false, false, false)
  }

  datatype ParseError = UnexpectedEnd | TooManyFields | InvalidData

  /** A snapshot of every field of the parser object. */
  datatype ParserState = ParserState(
    descriptor: HidDescriptor,
    usagePage: u16,
    usage: u16,
    reportId: u8,
    bitOffset: nat,
    logicalMin: i32,
    logicalMax: i32,
    reportSize: u8,
    reportCount: u8)

  /** The state `DescriptorParser::new` starts from. */
  function InitialState(): ParserState {
    ParserState(EmptyDescriptor(), 0, 0, 0, 0, 0, 0, 0, 0)
  }

  // ---------------------------------------------------------------------------
  // Item headers and payloads

  /** Bits 0-1 of the header: the payload-size selector. */
  function ItemSize(header: u8): (r: nat)
    ensures r < 4
  {
    header % 4
  }

  /** Bits 2-3 of the header: 0 Main, 1 Global, 2 Local, 3 reserved. */
  function ItemType(header: u8): (r: nat)
    ensures r < 4
  {
    (header / 4) % 4
  }

  /** Bits 4-7 of the header: the tag. */
  function ItemTag(header: u8): (r: nat)
    ensures r < 16
  {
    header / 16
  }

  /** The three header fields are exactly the header's bit fields. */
  lemma HeaderSplit(header: u8)
    ensures header == ItemSize(header) + 4 * ItemType(header) + 16 * ItemTag(header)
  {
  }

  /** The payload lengths the parser interprets; all others are skipped. */
  predicate KnownSize(n: nat) {
    n == 0 || n == 1 || n == 2 || n == 4
  }

  /** The little-endian value of a 0-, 1-, 2- or 4-byte payload. */
  function PayloadValue(data: seq<u8>, start: nat, size: nat): (v: u32)
    requires KnownSize(size) && start + size <= |data|
    ensures size == 0 ==> v == 0
    ensures size > 0 ==> v % 0x100 == data[start]
    ensures size == 1 ==> v == data[start]
    ensures size == 2 ==> v < 0x1_0000 && v / 0x100 == data[start + 1]
    ensures size == 4 ==> v / 0x100_0000 == data[start + 3]
    ensures size == 4 ==> (v / 0x100) % 0x100 == data[start + 1] && (v / 0x1_0000) % 0x100 == data[start + 2]
  {
    if size == 0 then 0
    else if size == 1 then data[start]
    else if size == 2 then data[start] as int + 0x100 * (data[start + 1] as int)
    else
      LittleEndian4(data[start], data[start + 1], data[start + 2], data[start + 3]);
      data[start] as int + 0x100 * (data[start + 1] as int) + 0x1_0000 * (data[start + 2] as int)
      + 0x100_0000 * (data[start + 3] as int)
  }

  /** Each byte of a 4-byte little-endian value sits at its own place. */
  lemma LittleEndian4(b0: u8, b1: u8, b2: u8, b3: u8)
    ensures var v := b0 as int + 0x100 * b1 + 0x1_0000 * b2 + 0x100_0000 * b3;
      && v % 0x100 == b0 && (v / 0x100) % 0x100 == b1
      && (v / 0x1_0000) % 0x100 == b2 && v / 0x100_0000 == b3
  {
    var v := b0 as int + 0x100 * b1 + 0x1_0000 * b2 + 0x100_0000 * b3;
    var q1 := b1 as int + 0x100 * b2 + 0x1_0000 * b3;
    var q2 := b2 as int + 0x100 * b3;
    assert v == b0 + 0x100 * q1 && v / 0x100 == q1;
    assert v == (b0 + 0x100 * b1) + 0x1_0000 * q2 && v / 0x1_0000 == q2;
    assert v == (b0 + 0x100 * b1 + 0x1_0000 * b2) + 0x100_0000 * b3;
  }

  /** Where an item's payload starts and how long it is. */
  datatype ItemHeader = ItemHeader(itemType: nat, tag: nat, size: nat, start: nat)

  /** Decodes the item whose header is at `data[i]`. A long-item selector (3) takes
      the next byte as the payload length; a missing length byte or a payload
      running past the end is UnexpectedEnd. */
  function ReadItem(data: seq<u8>, i: nat): (r: Result<ItemHeader, ParseError>)
    requires i < |data|
    ensures r.Ok? ==> i < r.value.start && r.value.start + r.value.size <= |data|
    ensures r.Ok? ==> r.value.itemType == ItemType(data[i]) && r.value.tag == ItemTag(data[i])
    ensures r.Ok? && ItemSize(data[i]) != 3 ==> r.value.start == i + 1 && r.value.size == ItemSize(data[i])
    ensures r.Ok? && ItemSize(data[i]) == 3 ==> r.value.start == i + 2 && r.value.size == data[i + 1]
    ensures r.Err? <==>
      (ItemSize(data[i]) == 3 && (i + 1 >= |data| || i + 2 + data[i + 1] > |data|))
      || (ItemSize(data[i]) != 3 && i + 1 + ItemSize(data[i]) > |data|)
    ensures r.Err? ==> r.error == UnexpectedEnd
  {
    var size := ItemSize(data[i]);
    if size == 3 && i + 1 >= |data| then Err(UnexpectedEnd)
    else
      var actual: nat := if size == 3 then data[i + 1] else size;
      var start := if size == 3 then i + 2 else i + 1;
      if start + actual > |data| then Err(UnexpectedEnd)
      else Ok(ItemHeader(ItemType(data[i]), ItemTag(data[i]), actual, start))
  }

  // ---------------------------------------------------------------------------
  // Global and local items

  /** `x << k` on a u32: the bits shifted past bit 31 are lost. */
  function ShiftLeft32(x: u32, k: nat): (r: u32)
    decreases k
  {
    if k == 0 then x else ShiftLeft32((2 * x) % 0x1_0000_0000, k - 1)
  }

  /** `x >> k` on an i32: an arithmetic shift, each step halving and rounding
      toward minus infinity (Dafny's division by 2 is floor division). */
  function ShiftRightArith(x: i32, k: nat): (r: i32)
    ensures x >= 0 ==> 0 <= r <= x
    ensures x < 0 ==> x <= r < 0
    decreases k
  {
    if k == 0 then x else ShiftRightArith(x / 2, k - 1)
  }

  /** The bits of a u32 read as an i32. */
  function AsI32(x: u32): (r: i32)
    ensures r % 0x1_0000_0000 == x
  {
    if x < 0x8000_0000 then x else x - 0x1_0000_0000
  }

  /** `sign_extend(value, bits)`: shift left by 32-bits in 32 bits, reinterpret as
      i32, then shift right arithmetically by the same amount. */
  function SignExtend(value: u32, bits: nat): (r: i32)
    requires 1 <= bits <= 32
    ensures bits == 32 ==> r == AsI32(value)
  {
    var shift: nat := 32 - bits;
    ShiftRightArith(AsI32(ShiftLeft32(value, shift)), shift)
  }

  /** A global item: Usage Page, Logical Minimum/Maximum, Report Size, Report ID
      and Report Count set the current values (truncated to the field's width);
      every other tag is ignored. */
  function AfterGlobal(s: ParserState, tag: nat, value: u32): (r: ParserState)
    ensures r.(usagePage := s.usagePage, logicalMin := s.logicalMin, logicalMax := s.logicalMax,
               reportSize := s.reportSize, reportCount := s.reportCount, reportId := s.reportId) == s
    ensures tag !in {0x00, 0x01, 0x02, 0x07, 0x08, 0x09} ==> r == s
  {
    match tag
    case 0x00 => s.(usagePage := value % 0x1_0000)
    case 0x01 => s.(logicalMin := SignExtend(value, 32))
    case 0x02 => s.(logicalMax := SignExtend(value, 32))
    case 0x07 => s.(reportSize := value % 0x100)
    case 0x09 => s.(reportCount := value % 0x100)
    case 0x08 => s.(reportId := value % 0x100)
    case _ => s
  }

  /** A local item: only Usage (tag 0) is honoured; Usage Minimum/Maximum and the
      other local tags are ignored. */
  function AfterLocal(s: ParserState, tag: nat, value: u32): (r: ParserState)
    ensures r.(usage := s.usage) == s
  {
    if tag == 0x00 then s.(usage := value % 0x1_0000) else s
  }

  /** Logical bounds are the raw 32-bit payload reinterpreted as i32, whatever the
      payload width: a one-byte 0x81 is 129, not -127. */
  lemma LogicalBoundsAreReinterpreted(s: ParserState)
    ensures AfterGlobal(s, 0x01, 0x81).logicalMin == 129
    ensures AfterGlobal(s, 0x02, 0xFFFF_FF81).logicalMax == -127
  {
  }

  // ---------------------------------------------------------------------------
  // Size tables

  /** The first row of `table` for report `id`, or |table| if there is none. */
  function IdIndex(table: SizeTable, id: u8): (k: nat)
    ensures k <= |table|
    ensures k < |table| ==> table[k].0 == id
    ensures forall j | 0 <= j < k :: table[j].0 != id
  {
    if |table| == 0 then 0
    else if table[0].0 == id then 0
    else 1 + IdIndex(table[1..], id)
  }

  /** The size the table records for report `id`, if any. */
  function SizeOf(table: SizeTable, id: u8): Option<nat> {
    var k := IdIndex(table, id);
    if k < |table| then Some(table[k].1) else None
  }

  /** `update_report_size` on one table: raise the row for `id` to at least `bytes`,
      or append a row while the table has fewer than 8; otherwise drop it. */
  function WithReportSize(table: SizeTable, id: u8, bytes: nat): (r: SizeTable)
    ensures |r| == |table| || (|r| == |table| + 1 && |table| < MaxReportIds && r[|table|] == (id, bytes))
    ensures forall j | 0 <= j < |table| :: r[j].0 == table[j].0 && r[j].1 >= table[j].1
  {
    var k := IdIndex(table, id);
    if k < |table| then table[k := (id, Max(table[k].1, bytes))]
    else if |table| < MaxReportIds then table + [(id, bytes)]
    else table
  }

  /** Bits rounded up to whole bytes. */
  function CeilBytes(bits: nat): (r: nat)
    ensures 8 * r >= bits && 8 * (r - 1) < bits
  {
    (bits + 7) / 8
  }

  /** A size table holds at most 8 rows and no report id twice. */
  predicate SizeTableWf(table: SizeTable) {
    |table| <= MaxReportIds && forall a, b | 0 <= a < b < |table| :: table[a].0 != table[b].0
  }

  /** The size-table update keeps a table well formed: never a ninth row, never
      a report id twice. */
  lemma WithReportSizeWf(table: SizeTable, id: u8, bytes: nat)
    requires SizeTableWf(table)
    ensures SizeTableWf(WithReportSize(table, id, bytes))
  {
    var k := IdIndex(table, id);
    if k == |table| && |table| < MaxReportIds {
      var t := table + [(id, bytes)];
      forall a, b | 0 <= a < b < |t| ensures t[a].0 != t[b].0 {
        if b == |table| { assert t[a] == table[a]; }
      }
    }
  }

  /** The size-table update records max(old, bytes) for `id`, or `bytes` for a
      new id while the table has room, drops the update when the table is full
      without `id`, and leaves every other id's size alone. */
  lemma {:induction false} WithReportSizeEffect(table: SizeTable, id: u8, bytes: nat, other: u8)
    requires other != id
    ensures SizeOf(table, id).Some? ==>
      SizeOf(WithReportSize(table, id, bytes), id) == Some(Max(SizeOf(table, id).value, bytes))
    ensures SizeOf(table, id).None? && |table| < MaxReportIds ==>
      SizeOf(WithReportSize(table, id, bytes), id) == Some(bytes)
    ensures SizeOf(table, id).None? && |table| == MaxReportIds ==>
      WithReportSize(table, id, bytes) == table
    ensures SizeOf(WithReportSize(table, id, bytes), other) == SizeOf(table, other)
  {
    var t := WithReportSize(table, id, bytes);
    var k := IdIndex(table, id);
    if k < |table| {
      IdIndexOfUpdate(table, k, (id, Max(table[k].1, bytes)), id);
      IdIndexOfUpdate(table, k, (id, Max(table[k].1, bytes)), other);
    } else if |table| < MaxReportIds {
      IdIndexOfAppend(table, (id, bytes), id);
      IdIndexOfAppend(table, (id, bytes), other);
    }
  }

  /** Looking up an id in a table with one row rewritten to a row of the same id. */
  lemma {:induction false} IdIndexOfUpdate(table: SizeTable, k: nat, row: (u8, nat), q: u8)
    requires k < |table| && table[k].0 == row.0
    ensures IdIndex(table[k := row], q) == IdIndex(table, q)
  {
    var t := table[k := row];
    if t[0].0 != q {
      if k == 0 {
        assert t[1..] == table[1..];
      } else {
        assert t[1..] == table[1..][k - 1 := row];
        IdIndexOfUpdate(table[1..], k - 1, row, q);
      }
    }
  }

  /** Looking up an id in a table with one row appended. */
  lemma {:induction false} IdIndexOfAppend(table: SizeTable, row: (u8, nat), q: u8)
    ensures IdIndex(table, q) < |table| ==> IdIndex(table + [row], q) == IdIndex(table, q)
    ensures IdIndex(table, q) == |table| && row.0 == q ==> IdIndex(table + [row], q) == |table|
    ensures IdIndex(table, q) == |table| && row.0 != q ==> IdIndex(table + [row], q) == |table| + 1
  {
    if |table| > 0 && table[0].0 != q {
      assert (table + [row])[1..] == table[1..] + [row];
      IdIndexOfAppend(table[1..], row, q);
    }
  }

  // ---------------------------------------------------------------------------
  // Main items

  /** Flags bit 0: constant (padding). */
  predicate IsConstant(flags: u32) { flags % 2 == 1 }
  /** Flags bit 1 clear: array (bit 1 set means variable). */
  predicate IsArray(flags: u32) { (flags / 2) % 2 == 0 }
  /** Flags bit 2: relative. */
  predicate IsRelative(flags: u32) { (flags / 4) % 2 == 1 }

  /** The field an Input item emits at the current bit offset. */
  function InputField(s: ParserState, flags: u32): ReportField {
    ReportField(Input, s.reportId, Usage(UsagePageFrom(s.usagePage), s.usage), s.bitOffset,
                s.reportSize, s.logicalMin, s.logicalMax, IsRelative(flags), IsArray(flags))
  }

  /** The push loop of `add_input_item`, `n` iterations still to go: each
      iteration pushes a field (TooManyFields once 64 are held) and advances the
      bit offset by the report size. */
  function PushFields(s: ParserState, flags: u32, n: nat): (r: Result<ParserState, ParseError>)
    ensures r.Err? ==> r == Err(TooManyFields)
    decreases n
  {
    if n == 0 then Ok(s)
    else if |s.descriptor.fields| >= MaxReportItems then Err(TooManyFields)
    else
      PushFields(Pushed(s, flags), flags, n - 1)
  }

  /** The current offset, rounded up to bytes, recorded for the current report id
      in the Input or Output table; a Feature touches no table. */
  function Resized(s: ParserState, kind: ReportType): ParserState {
    var bytes := CeilBytes(s.bitOffset);
    match kind
    case Input =>
      s.(descriptor := s.descriptor.(inputReportSizes := WithReportSize(s.descriptor.inputReportSizes, s.reportId, bytes)))
    case Output =>
      s.(descriptor := s.descriptor.(outputReportSizes := WithReportSize(s.descriptor.outputReportSizes, s.reportId, bytes)))
    case Feature => s
  }

  /** The offset after skipping report_size * report_count bits. */
  function Advanced(s: ParserState): ParserState {
    s.(bitOffset := s.bitOffset + s.reportSize * s.reportCount)
  }

  /** `add_input_item`: a constant item only advances the offset; a data item
      pushes report_count fields and then updates the Input size table. */
  function AfterInput(s: ParserState, flags: u32): (r: Result<ParserState, ParseError>)
    ensures r.Err? ==> r == Err(TooManyFields) && !IsConstant(flags)
  {
    if IsConstant(flags) then Ok(Advanced(s))
    else match PushFields(s, flags, s.reportCount)
      case Err(e) => Err(e)
      case Ok(s') => Ok(Resized(s', Input))
  }

  /** `add_output_item`: advance the offset and update the Output size table. */
  function AfterOutput(s: ParserState): ParserState {
    Resized(Advanced(s), Output)
  }

  /** `add_feature_item`: advance the offset only. */
  function AfterFeature(s: ParserState): ParserState {
    Advanced(s)
  }

  /** `handle_main_item`: Input 0x8, Output 0x9, Feature 0xB; Collection 0xA, End
      Collection 0xC and every other tag change nothing. */
  function AfterMain(s: ParserState, tag: nat, value: u32): Result<ParserState, ParseError> {
    match tag
    case 0x08 => AfterInput(s, value)
    case 0x09 => Ok(AfterOutput(s))
    case 0x0B => Ok(AfterFeature(s))
    case _ => Ok(s)
  }

  /** The dispatch on the item type; type 3 (reserved) changes nothing. */
  function AfterItem(s: ParserState, itemType: nat, tag: nat, value: u32): Result<ParserState, ParseError> {
    match itemType
    case 0 => AfterMain(s, tag, value)
    case 1 => Ok(AfterGlobal(s, tag, value))
    case 2 => Ok(AfterLocal(s, tag, value))
    case _ => Ok(s)
  }

  /** The fields `n` data pushes emit from state `s`: consecutive fields of the
      current report size, starting at the current bit offset. */
  function FieldRun(s: ParserState, flags: u32, n: nat): (r: seq<ReportField>)
    ensures |r| == n
  {
    seq(n, j requires 0 <= j < n => InputField(s, flags).(bitOffset := s.bitOffset + j * s.reportSize))
  }

  /** The state after one push. */
  function Pushed(s: ParserState, flags: u32): ParserState {
    s.(descriptor := s.descriptor.(fields := s.descriptor.fields + [InputField(s, flags)]),
       bitOffset := s.bitOffset + s.reportSize)
  }

  /** A run of fields is its first field followed by the run after one push. */
  lemma FieldRunStep(s: ParserState, flags: u32, n: nat)
    requires n > 0
    ensures FieldRun(s, flags, n) == [InputField(s, flags)] + FieldRun(Pushed(s, flags), flags, n - 1)
  {
    var t := Pushed(s, flags);
    var r, r' := FieldRun(s, flags, n), [InputField(s, flags)] + FieldRun(t, flags, n - 1);
    forall j | 0 <= j < n ensures r[j] == r'[j] {
      if j == 0 {
        assert r[0] == InputField(s, flags).(bitOffset := s.bitOffset + 0 * s.reportSize);
      } else {
        var o := s.bitOffset + j * s.reportSize;
        assert t.bitOffset + (j - 1) * t.reportSize == o;
        assert r'[j] == FieldRun(t, flags, n - 1)[j - 1];
        assert InputField(t, flags).(bitOffset := o) == InputField(s, flags).(bitOffset := o);
      }
    }
  }

  /** The Input push loop fails, with TooManyFields, exactly when the fields would
      exceed 64. */
  lemma {:induction false} PushFieldsFails(s: ParserState, flags: u32, n: nat)
    ensures PushFields(s, flags, n).Err? ==> |s.descriptor.fields| + n > MaxReportItems
    ensures |s.descriptor.fields| <= MaxReportItems < |s.descriptor.fields| + n ==> PushFields(s, flags, n).Err?
    ensures PushFields(s, flags, n).Err? ==> PushFields(s, flags, n).error == TooManyFields
    decreases n
  {
    if n > 0 && |s.descriptor.fields| < MaxReportItems {
      PushFieldsFails(Pushed(s, flags), flags, n - 1);
    }
  }

  /** The Input push loop in closed form: it appends report_count fields at
      offsets o, o+s, ..., all sharing the current usage, report id, bounds and
      flags, and ends at o + count*s with nothing else changed. */
  lemma {:induction false} PushFieldsClosedForm(s: ParserState, flags: u32, n: nat)
    ensures PushFields(s, flags, n).Ok? ==>
      PushFields(s, flags, n).value
        == s.(descriptor := s.descriptor.(fields := s.descriptor.fields + FieldRun(s, flags, n)),
              bitOffset := s.bitOffset + n * s.reportSize)
    decreases n
  {
    if n == 0 {
      assert s.descriptor.fields + FieldRun(s, flags, n) == s.descriptor.fields;
    } else if |s.descriptor.fields| < MaxReportItems {
      var t := Pushed(s, flags);
      PushFieldsClosedForm(t, flags, n - 1);
      FieldRunStep(s, flags, n);
      assert t.descriptor.fields + FieldRun(t, flags, n - 1) == s.descriptor.fields + FieldRun(s, flags, n);
      assert t.bitOffset + (n - 1) * t.reportSize == s.bitOffset + n * s.reportSize;
    }
  }

  /** A constant Input item emits nothing and touches neither table; a data Input
      item with count k and size s appends exactly k fields at o, o+s, ..., or
      fails with TooManyFields when 64 would be exceeded, and then records
      ceil((o+k*s)/8) for the current report id in the Input table. */
  lemma InputItemEffect(s: ParserState, flags: u32)
    requires |s.descriptor.fields| <= MaxReportItems
    ensures IsConstant(flags) ==> AfterInput(s, flags) == Ok(Advanced(s))
    ensures !IsConstant(flags) ==>
      (AfterInput(s, flags).Err? <==> |s.descriptor.fields| + s.reportCount > MaxReportItems)
    ensures !IsConstant(flags) ==> match AfterInput(s, flags)
      case Err(e) => e == TooManyFields
      case Ok(r) =>
        var o := s.bitOffset + s.reportCount * s.reportSize;
        r == s.(
          descriptor := s.descriptor.(
            fields := s.descriptor.fields + FieldRun(s, flags, s.reportCount),
            inputReportSizes := WithReportSize(s.descriptor.inputReportSizes, s.reportId, CeilBytes(o))),
          bitOffset := o)
  {
    PushFieldsFails(s, flags, s.reportCount);
    PushFieldsClosedForm(s, flags, s.reportCount);
  }

  /** Output, Feature, Collection, End Collection and every global, local or
      reserved item emit no field; only Input and Output touch a size table. */
  lemma NonInputItemsEmitNothing(s: ParserState, itemType: nat, tag: nat, value: u32)
    requires !(itemType == 0 && tag == 0x08)
    ensures AfterItem(s, itemType, tag, value).Ok?
    ensures AfterItem(s, itemType, tag, value).value.descriptor.fields == s.descriptor.fields
    ensures AfterItem(s, itemType, tag, value).value.descriptor.inputReportSizes == s.descriptor.inputReportSizes
    ensures !(itemType == 0 && tag == 0x09) ==>
      AfterItem(s, itemType, tag, value).value.descriptor == s.descriptor
    ensures itemType == 0 && (tag == 0x09 || tag == 0x0B) ==>
      AfterItem(s, itemType, tag, value).value.bitOffset == s.bitOffset + s.reportSize * s.reportCount
  {
  }

  // ---------------------------------------------------------------------------
  // The whole parse

  /** One iteration of the parse loop at the item boundary `i`: the next item
      boundary and the state after the item. A payload of an uninterpreted length
      is skipped without touching the state. */
  function ParseStep(data: seq<u8>, i: nat, s: ParserState): (r: Result<(nat, ParserState), ParseError>)
    requires i < |data|
    ensures r.Ok? ==> i < r.value.0 <= |data|
    ensures r.Err? ==> r.error != InvalidData
  {
    match ReadItem(data, i)
    case Err(e) => Err(e)
    case Ok(item) =>
      var next := item.start + item.size;
      if !KnownSize(item.size) then Ok((next, s))
      else match AfterItem(s, item.itemType, item.tag, PayloadValue(data, item.start, item.size))
        case Err(e) => Err(e)
        case Ok(s') => Ok((next, s'))
  }

  /** The parse loop from the item boundary `i`, stopping at the first error. */
  function ParseItems(data: seq<u8>, i: nat, s: ParserState): (r: Result<ParserState, ParseError>)
    requires i <= |data|
    ensures r.Err? ==> r.error != InvalidData
    decreases |data| - i
  {
    if i == |data| then Ok(s)
    else match ParseStep(data, i, s)
      case Err(e) => Err(e)
      case Ok((next, s')) => ParseItems(data, next, s')
  }

  predicate IsKeyboardField(f: ReportField) {
    f.usage.page == Keyboard
  }

  /** Generic Desktop X (0x30), Y (0x31) or Wheel (0x38). */
  predicate IsMouseField(f: ReportField) {
    f.usage.page == GenericDesktop && (f.usage.id == 0x30 || f.usage.id == 0x31 || f.usage.id == 0x38)
  }

  predicate IsGamepadField(f: ReportField) {
    f.usage.page == Button || f.usage.page == GameControls
  }

  /** `detect_device_types`: each flag is raised when some field qualifies. */
  function Classified(d: HidDescriptor): HidDescriptor {
    d.(isKeyboard := d.isKeyboard || exists j | 0 <= j < |d.fields| :: IsKeyboardField(d.fields[j]),
       isMouse := d.isMouse || exists j | 0 <= j < |d.fields| :: IsMouseField(d.fields[j]),
       isGamepad := d.isGamepad || exists j | 0 <= j < |d.fields| :: IsGamepadField(d.fields[j]))
  }

  /** `parse` on a parser in state `s`: the item loop, then classification. */
  function ParseRun(data: seq<u8>, s: ParserState): Result<ParserState, ParseError> {
    match ParseItems(data, 0, s)
    case Err(e) => Err(e)
    case Ok(s') => Ok(s'.(descriptor := Classified(s'.descriptor)))
  }

  /** A fresh parser's `parse` followed by `into_descriptor`. */
  function ParseDescriptor(data: seq<u8>): (r: Result<HidDescriptor, ParseError>)
    ensures r.Err? ==> r.error != InvalidData
    ensures |data| == 0 ==> r == Ok(EmptyDescriptor())
  {
    match ParseRun(data, InitialState())
    case Err(e) => Err(e)
    case Ok(s) => Ok(s.descriptor)
  }

  /** The device-type flags of a state. */
  function Flags(s: ParserState): (bool, bool, bool) {
    (s.descriptor.isKeyboard, s.descriptor.isMouse, s.descriptor.isGamepad)
  }

  /** No item touches the device-type flags. */
  lemma ParseStepKeepsFlags(data: seq<u8>, i: nat, s: ParserState)
    requires i < |data|
    requires ParseStep(data, i, s).Ok?
    ensures Flags(ParseStep(data, i, s).value.1) == Flags(s)
  {
    var item := ReadItem(data, i).value;
    if KnownSize(item.size) {
      var v := PayloadValue(data, item.start, item.size);
      if item.itemType == 0 && item.tag == 0x08 && !IsConstant(v) {
        PushFieldsClosedForm(s, v, s.reportCount);
      }
    }
  }

  /** The item loop never touches the device-type flags. */
  lemma {:induction false} ParseItemsKeepsFlags(data: seq<u8>, i: nat, s: ParserState)
    requires i <= |data|
    requires ParseItems(data, i, s).Ok?
    ensures Flags(ParseItems(data, i, s).value) == Flags(s)
    decreases |data| - i
  {
    if i < |data| {
      ParseStepKeepsFlags(data, i, s);
      var step := ParseStep(data, i, s).value;
      ParseItemsKeepsFlags(data, step.0, step.1);
    }
  }

  /** The flags of a parsed descriptor: is_keyboard iff some field is on the
      Keyboard page, is_mouse iff some field is Generic Desktop X, Y or Wheel,
      is_gamepad iff some field is on the Button or Game Controls page. */
  lemma ParsedFlags(data: seq<u8>)
    requires ParseDescriptor(data).Ok?
    ensures var d := ParseDescriptor(data).value;
      && (d.isKeyboard <==> exists j | 0 <= j < |d.fields| :: IsKeyboardField(d.fields[j]))
      && (d.isMouse <==> exists j | 0 <= j < |d.fields| :: IsMouseField(d.fields[j]))
      && (d.isGamepad <==> exists j | 0 <= j < |d.fields| :: IsGamepadField(d.fields[j]))
  {
    ParseItemsKeepsFlags(data, 0, InitialState());
  }

  /** The layout invariant of a parser state: at most 64 fields, all of them Input
      fields laid out in increasing, non-overlapping bit ranges that end before the
      running offset, and two well-formed size tables. */
  predicate StateWf(s: ParserState) {
    var fs := s.descriptor.fields;
    && |fs| <= MaxReportItems
    && SizeTableWf(s.descriptor.inputReportSizes)
    && SizeTableWf(s.descriptor.outputReportSizes)
    && (forall j | 0 <= j < |fs| :: fs[j].reportType == Input && fs[j].bitOffset + fs[j].bitSize <= s.bitOffset)
    && (forall a, b | 0 <= a < b < |fs| :: fs[a].bitOffset + fs[a].bitSize <= fs[b].bitOffset)
  }

  lemma InitialStateWf()
    ensures StateWf(InitialState())
  {
  }

  /** One push keeps the layout invariant. */
  lemma {:induction false} PushFieldsWf(s: ParserState, flags: u32, n: nat)
    requires StateWf(s)
    requires PushFields(s, flags, n).Ok?
    ensures StateWf(PushFields(s, flags, n).value)
    decreases n
  {
    if n > 0 {
      var fs := s.descriptor.fields + [InputField(s, flags)];
      var t := Pushed(s, flags);
      assert StateWf(t) by {
        forall a, b | 0 <= a < b < |fs| ensures fs[a].bitOffset + fs[a].bitSize <= fs[b].bitOffset {
          assert fs[a] == s.descriptor.fields[a];
          if b < |fs| - 1 {
            assert fs[b] == s.descriptor.fields[b];
          }
        }
        forall j | 0 <= j < |fs| ensures fs[j].reportType == Input && fs[j].bitOffset + fs[j].bitSize <= t.bitOffset {
          if j < |fs| - 1 {
            assert fs[j] == s.descriptor.fields[j];
          }
        }
      }
      PushFieldsWf(t, flags, n - 1);
    }
  }

  /** Skipping bits keeps the layout invariant. */
  lemma AdvancedWf(s: ParserState)
    requires StateWf(s)
    ensures StateWf(Advanced(s))
  {
    var t := Advanced(s);
    assert t.descriptor == s.descriptor && t.bitOffset >= s.bitOffset;
  }

  /** Recording a report size keeps the layout invariant. */
  lemma ResizedWf(s: ParserState, kind: ReportType)
    requires StateWf(s)
    ensures StateWf(Resized(s, kind))
  {
    WithReportSizeWf(s.descriptor.inputReportSizes, s.reportId, CeilBytes(s.bitOffset));
    WithReportSizeWf(s.descriptor.outputReportSizes, s.reportId, CeilBytes(s.bitOffset));
  }

  /** Every item keeps the layout invariant. */
  lemma AfterItemWf(s: ParserState, itemType: nat, tag: nat, value: u32)
    requires StateWf(s)
    requires AfterItem(s, itemType, tag, value).Ok?
    ensures StateWf(AfterItem(s, itemType, tag, value).value)
  {
    if itemType == 0 {
      if tag == 0x08 {
        if IsConstant(value) {
          AdvancedWf(s);
        } else {
          PushFieldsWf(s, value, s.reportCount);
          ResizedWf(PushFields(s, value, s.reportCount).value, Input);
        }
      } else if tag == 0x09 {
        AdvancedWf(s);
        ResizedWf(Advanced(s), Output);
      } else if tag == 0x0B {
        AdvancedWf(s);
      }
    }
  }

  /** The whole item loop keeps the layout invariant. */
  lemma {:induction false} ParseItemsWf(data: seq<u8>, i: nat, s: ParserState)
    requires i <= |data|
    requires StateWf(s)
    requires ParseItems(data, i, s).Ok?
    ensures StateWf(ParseItems(data, i, s).value)
    decreases |data| - i
  {
    if i < |data| {
      var item := ReadItem(data, i).value;
      if KnownSize(item.size) {
        AfterItemWf(s, item.itemType, item.tag, PayloadValue(data, item.start, item.size));
      }
      var step := ParseStep(data, i, s).value;
      ParseItemsWf(data, step.0, step.1);
    }
  }

  /** In a parsed descriptor the fields occupy increasing, non-overlapping bit
      ranges, there are at most 64 of them, and each size table has at most 8
      rows with distinct report ids. */
  lemma ParsedLayout(data: seq<u8>)
    requires ParseDescriptor(data).Ok?
    ensures var d := ParseDescriptor(data).value;
      && |d.fields| <= MaxReportItems
      && SizeTableWf(d.inputReportSizes) && SizeTableWf(d.outputReportSizes)
      && (forall a, b | 0 <= a < b < |d.fields| :: d.fields[a].bitOffset + d.fields[a].bitSize <= d.fields[b].bitOffset)
  {
    InitialStateWf();
    ParseItemsWf(data, 0, InitialState());
  }

  /** An item that ends before the cut is read the same from the prefix; one the
      cut falls into is UnexpectedEnd in the prefix. */
  lemma ParseStepPrefix(data: seq<u8>, n: nat, i: nat, s: ParserState)
    requires i < n <= |data|
    requires ParseStep(data, i, s).Ok?
    ensures ParseStep(data, i, s).value.0 <= n ==> ParseStep(data[..n], i, s) == ParseStep(data, i, s)
    ensures ParseStep(data, i, s).value.0 > n ==> ParseStep(data[..n], i, s) == Err(UnexpectedEnd)
  {
    var p := data[..n];
    assert p[i] == data[i];
    if i + 1 < n { assert p[i + 1] == data[i + 1]; }
    var item := ReadItem(data, i).value;
    if item.start + item.size <= n && KnownSize(item.size) {
      assert PayloadValue(p, item.start, item.size) == PayloadValue(data, item.start, item.size) by {
        forall k | item.start <= k < item.start + item.size ensures p[k] == data[k] { }
      }
    }
  }

  /** Parsing a prefix of a descriptor that parses never fails in any other way
      than UnexpectedEnd. */
  lemma {:induction false} PrefixParse(data: seq<u8>, n: nat, i: nat, s: ParserState)
    requires i <= n <= |data|
    requires ParseItems(data, i, s).Ok?
    ensures ParseItems(data[..n], i, s).Ok? || ParseItems(data[..n], i, s) == Err(UnexpectedEnd)
    decreases |data| - i
  {
    if i < n {
      ParseStepPrefix(data, n, i, s);
      var step := ParseStep(data, i, s).value;
      if step.0 <= n {
        PrefixParse(data, n, step.0, step.1);
      }
    }
  }

  /** Every prefix of a descriptor that parses either parses or is UnexpectedEnd. */
  lemma ParsePrefixOfValid(data: seq<u8>, n: nat)
    requires n <= |data|
    requires ParseDescriptor(data).Ok?
    ensures ParseDescriptor(data[..n]).Ok? || ParseDescriptor(data[..n]) == Err(UnexpectedEnd)
  {
    PrefixParse(data, n, 0, InitialState());
  }

  /** One parse step is position independent. */
  lemma ParseStepShift(a: seq<u8>, b: seq<u8>, j: nat, s: ParserState)
    requires j < |b|
    ensures ParseStep(b, j, s).Err? ==> ParseStep(a + b, |a| + j, s) == ParseStep(b, j, s)
    ensures ParseStep(b, j, s).Ok? ==>
      ParseStep(a + b, |a| + j, s) == Ok((|a| + ParseStep(b, j, s).value.0, ParseStep(b, j, s).value.1))
  {
    var c := a + b;
    assert c[|a| + j] == b[j];
    if j + 1 < |b| { assert c[|a| + j + 1] == b[j + 1]; }
    if ReadItem(b, j).Ok? {
      var item := ReadItem(b, j).value;
      if KnownSize(item.size) {
        assert PayloadValue(c, |a| + item.start, item.size) == PayloadValue(b, item.start, item.size) by {
          forall k | item.start <= k < item.start + item.size ensures c[|a| + k] == b[k] { }
        }
      }
    }
  }

  /** The item loop is position independent: what precedes the bytes does not
      change how they parse. */
  lemma {:induction false} ParseItemsShift(a: seq<u8>, b: seq<u8>, j: nat, s: ParserState)
    requires j <= |b|
    ensures ParseItems(a + b, |a| + j, s) == ParseItems(b, j, s)
    decreases |b| - j
  {
    if j < |b| {
      if ParseStep(b, j, s).Ok? {
        var step := ParseStep(b, j, s).value;
        ParseItemsShift(a, b, step.0, step.1);
        ParseItemsShiftStep(a, b, j, s);
      } else {
        ParseStepShift(a, b, j, s);
      }
    }
  }

  /** One item of the shifted walk: once the rest of the walk agrees, the
      whole walk from `j` agrees. */
  lemma ParseItemsShiftStep(a: seq<u8>, b: seq<u8>, j: nat, s: ParserState)
    requires j < |b| && ParseStep(b, j, s).Ok?
    requires var step := ParseStep(b, j, s).value;
      ParseItems(a + b, |a| + step.0, step.1) == ParseItems(b, step.0, step.1)
    ensures ParseItems(a + b, |a| + j, s) == ParseItems(b, j, s)
  {
    ParseStepShift(a, b, j, s);
  }

  /** An item read inside `a` is read the same when more bytes follow. */
  lemma ParseStepExtend(a: seq<u8>, b: seq<u8>, i: nat, s: ParserState)
    requires i < |a|
    requires ParseStep(a, i, s).Ok?
    ensures ParseStep(a + b, i, s) == ParseStep(a, i, s)
  {
    var c := a + b;
    assert c[i] == a[i];
    if i + 1 < |a| { assert c[i + 1] == a[i + 1]; }
    var item := ReadItem(a, i).value;
    if KnownSize(item.size) {
      assert PayloadValue(c, item.start, item.size) == PayloadValue(a, item.start, item.size) by {
        forall k | item.start <= k < item.start + item.size ensures c[k] == a[k] { }
      }
    }
  }

  /** A descriptor that parses completely is item aligned: whatever follows it
      parses from the state it ends in. */
  lemma {:induction false} ParseItemsConcat(a: seq<u8>, b: seq<u8>, i: nat, s: ParserState)
    requires i <= |a|
    requires ParseItems(a, i, s).Ok?
    ensures ParseItems(a + b, i, s) == ParseItems(b, 0, ParseItems(a, i, s).value)
    decreases |a| - i
  {
    if i == |a| {
      ParseItemsShift(a, b, 0, s);
    } else {
      ParseStepExtend(a, b, i, s);
      var step := ParseStep(a, i, s).value;
      ParseItemsConcat(a, b, step.0, step.1);
    }
  }

  /** A long-item header as the last byte, or an item whose payload runs past the
      end, makes the whole parse fail with UnexpectedEnd, whatever preceded it. */
  lemma TruncatedItemFails(a: seq<u8>, tail: seq<u8>)
    requires ParseItems(a, 0, InitialState()).Ok?
    requires |tail| > 0 && ReadItem(tail, 0).Err?
    ensures ParseDescriptor(a + tail) == Err(UnexpectedEnd)
  {
    ParseItemsConcat(a, tail, 0, InitialState());
  }

  /** A lone long-item header, a header whose one-byte payload is missing, and a
      long item whose declared length runs past the end; a complete long item of
      the reserved type parses to an empty descriptor. */
  lemma TruncatedExamples()
    ensures ParseDescriptor([0x03]) == Err(UnexpectedEnd)
    ensures ParseDescriptor([0x05]) == Err(UnexpectedEnd)
    ensures ParseDescriptor([0xFF, 0x02, 0x00]) == Err(UnexpectedEnd)
    ensures ParseDescriptor([0xFF, 0x01, 0x00]) == Ok(EmptyDescriptor())
  {
    assert ReadItem([0xFF, 0x01, 0x00], 0) == Ok(ItemHeader(3, 15, 1, 2));
  }

  // ---------------------------------------------------------------------------
  // The parser object

  class DescriptorParser {
    var descriptor: HidDescriptor
    var currentUsagePage: u16
    var currentUsage: u16
    var currentReportId: u8
    var currentBitOffset: nat
    var logicalMinimum: i32
    var logicalMaximum: i32
    var reportSize: u8
    var reportCount: u8

    /** The parser's fields as a value. */
    function State(): ParserState
      reads this
    {
      ParserState(descriptor, currentUsagePage, currentUsage, currentReportId, currentBitOffset,
                  logicalMinimum, logicalMaximum, reportSize, reportCount)
    }

    constructor ()
      ensures State() == InitialState()
    {
      descriptor := EmptyDescriptor();
      currentUsagePage, currentUsage, currentReportId, currentBitOffset := 0, 0, 0, 0;
      logicalMinimum, logicalMaximum, reportSize, reportCount := 0, 0, 0, 0;
    }

    /** The item loop followed by device-type detection. On success the parser
        holds exactly ParseRun's state; on failure the error is ParseRun's. */
    method Parse(data: seq<u8>) returns (r: Result<(), ParseError>)
      modifies this
      ensures ParseRun(data, old(State())).Ok? ==> r == Ok(()) && State() == ParseRun(data, old(State())).value
      ensures ParseRun(data, old(State())).Err? ==> r == Err(ParseRun(data, old(State())).error)
    {
      var i := 0;
      while i < |data|
        invariant i <= |data|
        invariant ParseItems(data, i, State()) == ParseItems(data, 0, old(State()))
        decreases |data| - i
      {
        ghost var i0, s0 := i, State();
        var item := ReadHeader(data, i);
        if item.Err? {
          return Err(item.error);
        }
        i := item.value.start + item.value.size;
        if !KnownSize(item.value.size) {
          continue;
        }
        var value := ReadPayload(data, item.value.start, item.value.size);
        var res := HandleItem(item.value.itemType, item.value.tag, value);
        if res.Err? {
          return Err(res.error);
        }
        assert ParseStep(data, i0, s0) == Ok((i, State()));
      }
      DetectDeviceTypes();
      return Ok(());
    }

    /** The header reading at the top of `parse`'s loop: the header byte, the
        length byte of a long item, and the bounds check on the payload. */
    static method ReadHeader(data: seq<u8>, i: nat) returns (r: Result<ItemHeader, ParseError>)
      requires i < |data|
      ensures r == ReadItem(data, i)
    {
      var itemHeader := data[i];
      var j := i + 1;
      var size := ItemSize(itemHeader);
      var actualSize: nat;
      if size == 3 {
        if j >= |data| {
          return Err(UnexpectedEnd);
        }
        actualSize := data[j];
        j := j + 1;
      } else {
        actualSize := size;
      }
      if j + actualSize > |data| {
        return Err(UnexpectedEnd);
      }
      r := Ok(ItemHeader(ItemType(itemHeader), ItemTag(itemHeader), actualSize, j));
    }

    /** The little-endian payload of `parse`'s loop, for the sizes it reads. */
    static method ReadPayload(data: seq<u8>, start: nat, size: nat) returns (value: u32)
      requires KnownSize(size) && start + size <= |data|
      ensures value == PayloadValue(data, start, size)
    {
      if size == 0 {
        value := 0;
      } else if size == 1 {
        value := data[start];
      } else if size == 2 {
        value := data[start] as int + 0x100 * (data[start + 1] as int);
      } else {
        value := data[start] as int + 0x100 * (data[start + 1] as int) + 0x1_0000 * (data[start + 2] as int)
                 + 0x100_0000 * (data[start + 3] as int);
      }
    }

    /** The dispatch on the item type inside `parse`'s loop. */
    method HandleItem(itemType: nat, tag: nat, value: u32) returns (r: Result<(), ParseError>)
      modifies this
      ensures AfterItem(old(State()), itemType, tag, value).Ok? ==>
        r == Ok(()) && State() == AfterItem(old(State()), itemType, tag, value).value
      ensures AfterItem(old(State()), itemType, tag, value).Err? ==>
        r == Err(AfterItem(old(State()), itemType, tag, value).error)
    {
      if itemType == 0 {
        r := HandleMainItem(tag, value);
      } else if itemType == 1 {
        r := HandleGlobalItem(tag, value);
      } else if itemType == 2 {
        r := HandleLocalItem(tag, value);
      } else {
        r := Ok(());
      }
    }

    /** `handle_main_item`. */
    method HandleMainItem(tag: nat, value: u32) returns (r: Result<(), ParseError>)
      modifies this
      ensures AfterMain(old(State()), tag, value).Ok? ==> r == Ok(()) && State() == AfterMain(old(State()), tag, value).value
      ensures AfterMain(old(State()), tag, value).Err? ==> r == Err(AfterMain(old(State()), tag, value).error)
    {
      if tag == 0x08 {
        r := AddInputItem(value);
      } else if tag == 0x09 {
        r := AddOutputItem(value);
      } else if tag == 0x0B {
        r := AddFeatureItem(value);
      } else {
        // Collection (0x0A), End Collection (0x0C) and unknown tags
        r := Ok(());
      }
    }

    /** `handle_global_item`. */
    method HandleGlobalItem(tag: nat, value: u32) returns (r: Result<(), ParseError>)
      modifies this
      ensures r == Ok(()) && State() == AfterGlobal(old(State()), tag, value)
    {
      if tag == 0x00 {
        currentUsagePage := value % 0x1_0000;
      } else if tag == 0x01 {
        logicalMinimum := SignExtend(value, 32);
      } else if tag == 0x02 {
        logicalMaximum := SignExtend(value, 32);
      } else if tag == 0x07 {
        reportSize := value % 0x100;
      } else if tag == 0x09 {
        reportCount := value % 0x100;
      } else if tag == 0x08 {
        currentReportId := value % 0x100;
      }
      r := Ok(());
    }

    /** `handle_local_item`. */
    method HandleLocalItem(tag: nat, value: u32) returns (r: Result<(), ParseError>)
      modifies this
      ensures r == Ok(()) && State() == AfterLocal(old(State()), tag, value)
    {
      if tag == 0x00 {
        currentUsage := value % 0x1_0000;
      }
      r := Ok(());
    }

    /** `add_input_item`: the push loop, then the Input size table. */
    method AddInputItem(flags: u32) returns (r: Result<(), ParseError>)
      modifies this
      ensures AfterInput(old(State()), flags).Ok? ==> r == Ok(()) && State() == AfterInput(old(State()), flags).value
      ensures AfterInput(old(State()), flags).Err? ==> r == Err(AfterInput(old(State()), flags).error)
    {
      var isConstant := flags % 2 == 1;
      var isRelative := (flags / 4) % 2 == 1;
      var isArray := (flags / 2) % 2 == 0;
      if isConstant {
        currentBitOffset := currentBitOffset + reportSize * reportCount;
        return Ok(());
      }
      for n := 0 to reportCount
        invariant reportCount == old(reportCount)
        invariant PushFields(State(), flags, reportCount - n) == PushFields(old(State()), flags, old(reportCount))
      {
        var field := ReportField(Input, currentReportId, Usage(UsagePageFrom(currentUsagePage), currentUsage),
                                 currentBitOffset, reportSize, logicalMinimum, logicalMaximum, isRelative, isArray);
        if |descriptor.fields| >= MaxReportItems {
          return Err(TooManyFields);
        }
        descriptor := descriptor.(fields := descriptor.fields + [field]);
        currentBitOffset := currentBitOffset + reportSize;
      }
      UpdateReportSize(Input);
      return Ok(());
    }

    /** `add_output_item`. */
    method AddOutputItem(flags: u32) returns (r: Result<(), ParseError>)
      modifies this
      ensures r == Ok(()) && State() == AfterOutput(old(State()))
    {
      currentBitOffset := currentBitOffset + reportSize * reportCount;
      UpdateReportSize(Output);
      r := Ok(());
    }

    /** `add_feature_item`. */
    method AddFeatureItem(flags: u32) returns (r: Result<(), ParseError>)
      modifies this
      ensures r == Ok(()) && State() == AfterFeature(old(State()))
    {
      currentBitOffset := currentBitOffset + reportSize * reportCount;
      r := Ok(());
    }

    /** `update_report_size`: a linear search for the current report id's row. */
    method UpdateReportSize(reportType: ReportType)
      modifies this
      ensures State() == Resized(old(State()), reportType)
    {
      var sizeBytes := (currentBitOffset + 7) / 8;
      var sizes: SizeTable;
      match reportType {
        case Input => sizes := descriptor.inputReportSizes;
        case Output => sizes := descriptor.outputReportSizes;
        case Feature => return;
      }
      var k := 0;
      while k < |sizes| && sizes[k].0 != currentReportId
        invariant k <= |sizes|
        invariant forall j | 0 <= j < k :: sizes[j].0 != currentReportId
      {
        k := k + 1;
      }
      assert k == IdIndex(sizes, currentReportId);
      if k < |sizes| {
        sizes := sizes[k := (currentReportId, Max(sizes[k].1, sizeBytes))];
      } else if |sizes| < MaxReportIds {
        sizes := sizes + [(currentReportId, sizeBytes)];
      }
      if reportType == Input {
        descriptor := descriptor.(inputReportSizes := sizes);
      } else {
        descriptor := descriptor.(outputReportSizes := sizes);
      }
    }

    /** `detect_device_types`: one pass over the fields raising the flags. */
    method DetectDeviceTypes()
      modifies this
      ensures State() == old(State()).(descriptor := Classified(old(descriptor)))
    {
      var fields := descriptor.fields;
      for k := 0 to |fields|
        invariant descriptor.fields == fields
        invariant State() == old(State()).(descriptor := descriptor)
        invariant descriptor.inputReportSizes == old(descriptor.inputReportSizes)
        invariant descriptor.outputReportSizes == old(descriptor.outputReportSizes)
        invariant descriptor.isKeyboard == (old(descriptor.isKeyboard) || exists j | 0 <= j < k :: IsKeyboardField(fields[j]))
        invariant descriptor.isMouse == (old(descriptor.isMouse) || exists j | 0 <= j < k :: IsMouseField(fields[j]))
        invariant descriptor.isGamepad == (old(descriptor.isGamepad) || exists j | 0 <= j < k :: IsGamepadField(fields[j]))
      {
        ClassifyField(fields[k]);
      }
    }

    /** The body of `detect_device_types`' loop: one field raises the flag of
        the class it belongs to. */
    method ClassifyField(field: ReportField)
      modifies this
      ensures State() == old(State()).(descriptor := descriptor)
      ensures descriptor == old(descriptor).(
        isKeyboard := old(descriptor.isKeyboard) || IsKeyboardField(field),
        isMouse := old(descriptor.isMouse) || IsMouseField(field),
        isGamepad := old(descriptor.isGamepad) || IsGamepadField(field))
    {
      match field.usage.page {
        case Keyboard =>
          descriptor := descriptor.(isKeyboard := true);
        case GenericDesktop =>
          if field.usage.id == 0x30 || field.usage.id == 0x31 || field.usage.id == 0x38 {
            descriptor := descriptor.(isMouse := true);
          }
        case Button =>
          descriptor := descriptor.(isGamepad := true);
        case GameControls =>
          descriptor := descriptor.(isGamepad := true);
        case _ =>
      }
    }

    /** `into_descriptor`: the descriptor built so far. */
    function IntoDescriptor(): (d: HidDescriptor)
      reads this
      ensures d == State().descriptor
    {
      descriptor
    }
  }
}
