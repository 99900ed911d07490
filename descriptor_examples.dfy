/** The descriptor parser applied to the three-button relative mouse descriptor
    that descriptor.rs's own unit test parses, item by item. */
module DescriptorExamples {
  import opened Common
  import opened Descriptor

  /** The test descriptor: Generic Desktop / Mouse, an application collection
      holding a physical collection (usage 0x01) with three 1-bit buttons, 5 bits of
      padding and two 8-bit relative axes X and Y. */
  function MouseBytes(): seq<u8> {
    [0x05, 0x01] + [0x09, 0x02] + [0xA1, 0x01] + [0x09, 0x01] + [0xA1, 0x00] + [0x05, 0x09]
    + [0x19, 0x01] + [0x29, 0x03] + [0x15, 0x00] + [0x25, 0x01] + [0x95, 0x03] + [0x75, 0x01]
    + [0x81, 0x02]
    + [0x95, 0x01] + [0x75, 0x05] + [0x81, 0x03]
    + [0x05, 0x01] + [0x09, 0x30] + [0x09, 0x31] + [0x15, 0x81] + [0x25, 0x7F] + [0x75, 0x08] + [0x95, 0x02]
    + [0x81, 0x06]
    + [0xC0] + [0xC0]
  }

  /** A button field: Usage Minimum/Maximum are ignored, so every button carries
      the last Usage seen (0x01) on the Button page. */
  function ButtonField(offset: nat): ReportField {
    ReportField(Input, 0, Usage(Button, 0x01), offset, 1, 0, 1, false, false)
  }

  /** An axis field: only the last Usage (Y, 0x31) survives, and the one-byte
      Logical Minimum 0x81 is read as 129. */
  function AxisField(offset: nat): ReportField {
    ReportField(Input, 0, Usage(GenericDesktop, 0x31), offset, 8, 129, 127, true, false)
  }

  function ButtonsDescriptor(): HidDescriptor {
    EmptyDescriptor().(fields := [ButtonField(0), ButtonField(1), ButtonField(2)], inputReportSizes := [(0, 1)])
  }

  function MouseDescriptor(): HidDescriptor {
    ButtonsDescriptor().(fields := ButtonsDescriptor().fields + [AxisField(8), AxisField(16)],
                         inputReportSizes := [(0, 3)])
  }

  /** Parsing one more item after a prefix that parses. */
  lemma Extend(p: seq<u8>, item: seq<u8>, s: ParserState, t: ParserState)
    requires ParseItems(p, 0, InitialState()) == Ok(s)
    requires ParseItems(item, 0, s) == Ok(t)
    ensures ParseItems(p + item, 0, InitialState()) == Ok(t)
  {
    ParseItemsConcat(p, item, 0, InitialState());
  }

  /** An item with a one-byte payload is its type's handler applied to it. */
  lemma ShortItemParse(s: ParserState, header: u8, value: u8)
    requires ItemSize(header) == 1
    ensures ParseItems([header, value], 0, s) == AfterItem(s, ItemType(header), ItemTag(header), value)
  {
    var d: seq<u8> := [header, value];
    assert ReadItem(d, 0) == Ok(ItemHeader(ItemType(header), ItemTag(header), 1, 1));
    assert PayloadValue(d, 1, 1) == value;
    match AfterItem(s, ItemType(header), ItemTag(header), value)
    case Err(e) =>
      assert ParseStep(d, 0, s) == Err(e);
    case Ok(t) =>
      assert ParseStep(d, 0, s) == Ok((2, t));
  }

  /** End Collection, which has no payload, changes nothing. */
  lemma EndCollectionParse(s: ParserState)
    ensures ParseItems([0xC0], 0, s) == Ok(s)
  {
    var d: seq<u8> := [0xC0];
    assert ReadItem(d, 0) == Ok(ItemHeader(0, 0x0C, 0, 1));
    assert ParseStep(d, 0, s) == Ok((1, s));
  }

  /** The global, local and collection items of the test descriptor. */
  lemma SettingItems(s: ParserState)
    ensures ParseItems([0x05, 0x01], 0, s) == Ok(s.(usagePage := 0x01))
    ensures ParseItems([0x05, 0x09], 0, s) == Ok(s.(usagePage := 0x09))
    ensures ParseItems([0x09, 0x02], 0, s) == Ok(s.(usage := 0x02))
    ensures ParseItems([0x09, 0x01], 0, s) == Ok(s.(usage := 0x01))
    ensures ParseItems([0x09, 0x30], 0, s) == Ok(s.(usage := 0x30))
    ensures ParseItems([0x09, 0x31], 0, s) == Ok(s.(usage := 0x31))
    ensures ParseItems([0xA1, 0x01], 0, s) == Ok(s)
    ensures ParseItems([0xA1, 0x00], 0, s) == Ok(s)
    ensures ParseItems([0xC0], 0, s) == Ok(s)
  {
    PageItems(s);
    UsageItems(s);
    CollectionItems(s);
  }

  lemma PageItems(s: ParserState)
    ensures ParseItems([0x05, 0x01], 0, s) == Ok(s.(usagePage := 0x01))
    ensures ParseItems([0x05, 0x09], 0, s) == Ok(s.(usagePage := 0x09))
  {
    ShortItemParse(s, 0x05, 0x01);
    ShortItemParse(s, 0x05, 0x09);
  }

  lemma UsageItems(s: ParserState)
    ensures ParseItems([0x09, 0x02], 0, s) == Ok(s.(usage := 0x02))
    ensures ParseItems([0x09, 0x01], 0, s) == Ok(s.(usage := 0x01))
    ensures ParseItems([0x09, 0x30], 0, s) == Ok(s.(usage := 0x30))
    ensures ParseItems([0x09, 0x31], 0, s) == Ok(s.(usage := 0x31))
  {
    ShortItemParse(s, 0x09, 0x02);
    ShortItemParse(s, 0x09, 0x01);
    ShortItemParse(s, 0x09, 0x30);
    ShortItemParse(s, 0x09, 0x31);
  }

  lemma CollectionItems(s: ParserState)
    ensures ParseItems([0xA1, 0x01], 0, s) == Ok(s)
    ensures ParseItems([0xA1, 0x00], 0, s) == Ok(s)
    ensures ParseItems([0xC0], 0, s) == Ok(s)
  {
    ShortItemParse(s, 0xA1, 0x01);
    ShortItemParse(s, 0xA1, 0x00);
    EndCollectionParse(s);
  }

  /** The report-layout items of the test descriptor. */
  lemma LayoutItems(s: ParserState)
    ensures ParseItems([0x19, 0x01], 0, s) == Ok(s)
    ensures ParseItems([0x29, 0x03], 0, s) == Ok(s)
    ensures ParseItems([0x15, 0x00], 0, s) == Ok(s.(logicalMin := 0))
    ensures ParseItems([0x25, 0x01], 0, s) == Ok(s.(logicalMax := 1))
    ensures ParseItems([0x15, 0x81], 0, s) == Ok(s.(logicalMin := 129))
    ensures ParseItems([0x25, 0x7F], 0, s) == Ok(s.(logicalMax := 127))
  {
    UsageRangeItems(s);
    LogicalItems(s);
  }

  lemma UsageRangeItems(s: ParserState)
    ensures ParseItems([0x19, 0x01], 0, s) == Ok(s)
    ensures ParseItems([0x29, 0x03], 0, s) == Ok(s)
  {
    ShortItemParse(s, 0x19, 0x01);
    ShortItemParse(s, 0x29, 0x03);
  }

  lemma LogicalItems(s: ParserState)
    ensures ParseItems([0x15, 0x00], 0, s) == Ok(s.(logicalMin := 0))
    ensures ParseItems([0x25, 0x01], 0, s) == Ok(s.(logicalMax := 1))
    ensures ParseItems([0x15, 0x81], 0, s) == Ok(s.(logicalMin := 129))
    ensures ParseItems([0x25, 0x7F], 0, s) == Ok(s.(logicalMax := 127))
  {
    ShortItemParse(s, 0x15, 0x00);
    ShortItemParse(s, 0x25, 0x01);
    ShortItemParse(s, 0x15, 0x81);
    ShortItemParse(s, 0x25, 0x7F);
  }

  /** The size and count items of the test descriptor. */
  lemma CountItems(s: ParserState)
    ensures ParseItems([0x95, 0x03], 0, s) == Ok(s.(reportCount := 3))
    ensures ParseItems([0x95, 0x01], 0, s) == Ok(s.(reportCount := 1))
    ensures ParseItems([0x95, 0x02], 0, s) == Ok(s.(reportCount := 2))
    ensures ParseItems([0x75, 0x01], 0, s) == Ok(s.(reportSize := 1))
    ensures ParseItems([0x75, 0x05], 0, s) == Ok(s.(reportSize := 5))
    ensures ParseItems([0x75, 0x08], 0, s) == Ok(s.(reportSize := 8))
  {
    ReportCountItems(s);
    ReportSizeItems(s);
  }

  lemma ReportCountItems(s: ParserState)
    ensures ParseItems([0x95, 0x03], 0, s) == Ok(s.(reportCount := 3))
    ensures ParseItems([0x95, 0x01], 0, s) == Ok(s.(reportCount := 1))
    ensures ParseItems([0x95, 0x02], 0, s) == Ok(s.(reportCount := 2))
  {
    ShortItemParse(s, 0x95, 0x03);
    ShortItemParse(s, 0x95, 0x01);
    ShortItemParse(s, 0x95, 0x02);
  }

  lemma ReportSizeItems(s: ParserState)
    ensures ParseItems([0x75, 0x01], 0, s) == Ok(s.(reportSize := 1))
    ensures ParseItems([0x75, 0x05], 0, s) == Ok(s.(reportSize := 5))
    ensures ParseItems([0x75, 0x08], 0, s) == Ok(s.(reportSize := 8))
  {
    ShortItemParse(s, 0x75, 0x01);
    ShortItemParse(s, 0x75, 0x05);
    ShortItemParse(s, 0x75, 0x08);
  }

  /** The constant padding item only advances the bit offset, by the report
      size times the report count. */
  lemma PaddingItem(s: ParserState)
    ensures ParseItems([0x81, 0x03], 0, s) == Ok(Advanced(s))
  {
    InputItemParse(s, 0x03);
  }

  /** A one-byte Input item is `add_input_item` with that byte as its flags. */
  lemma InputItemParse(s: ParserState, flags: u8)
    ensures ParseItems([0x81, flags], 0, s) == AfterInput(s, flags)
  {
    ShortItemParse(s, 0x81, flags);
  }

  /** The closed form of the buttons' Input item. */
  lemma ButtonsLayout(s: ParserState)
    requires s.descriptor == EmptyDescriptor() && s.reportId == 0 && s.usagePage == 0x09 && s.usage == 0x01
    requires s.bitOffset == 0 && s.reportSize == 1 && s.reportCount == 3 && s.logicalMin == 0 && s.logicalMax == 1
    ensures s.descriptor.fields + FieldRun(s, 2, 3) == ButtonsDescriptor().fields
    ensures WithReportSize(s.descriptor.inputReportSizes, 0, CeilBytes(3)) == ButtonsDescriptor().inputReportSizes
  {
    assert UsagePageFrom(0x09) == Button;
    assert InputField(s, 2) == ButtonField(0);
    var run := FieldRun(s, 2, 3);
    assert run[0] == ButtonField(0) && run[1] == ButtonField(1) && run[2] == ButtonField(2);
    assert [] + run == ButtonsDescriptor().fields;
  }

  /** Input (Data, Variable, Absolute) with three 1-bit buttons. */
  lemma ButtonsItem(s: ParserState)
    requires s.descriptor == EmptyDescriptor() && s.reportId == 0 && s.usagePage == 0x09 && s.usage == 0x01
    requires s.bitOffset == 0 && s.reportSize == 1 && s.reportCount == 3 && s.logicalMin == 0 && s.logicalMax == 1
    ensures ParseItems([0x81, 0x02], 0, s) == Ok(s.(descriptor := ButtonsDescriptor(), bitOffset := 3))
  {
    InputItemParse(s, 2);
    ButtonsEffect(s);
  }

  lemma ButtonsEffect(s: ParserState)
    requires s.descriptor == EmptyDescriptor() && s.reportId == 0 && s.usagePage == 0x09 && s.usage == 0x01
    requires s.bitOffset == 0 && s.reportSize == 1 && s.reportCount == 3 && s.logicalMin == 0 && s.logicalMax == 1
    ensures AfterInput(s, 2) == Ok(s.(descriptor := ButtonsDescriptor(), bitOffset := 3))
  {
    InputItemEffect(s, 2);
    ButtonsLayout(s);
    var d := s.descriptor.(fields := s.descriptor.fields + FieldRun(s, 2, 3),
                           inputReportSizes := WithReportSize(s.descriptor.inputReportSizes, 0, CeilBytes(3)));
    assert d == ButtonsDescriptor();
  }

  /** The closed form of the axes' Input item. */
  lemma AxesLayout(s: ParserState)
    requires s.descriptor == ButtonsDescriptor() && s.reportId == 0 && s.usagePage == 0x01 && s.usage == 0x31
    requires s.bitOffset == 8 && s.reportSize == 8 && s.reportCount == 2 && s.logicalMin == 129 && s.logicalMax == 127
    ensures s.descriptor.fields + FieldRun(s, 6, 2) == MouseDescriptor().fields
    ensures WithReportSize(s.descriptor.inputReportSizes, 0, CeilBytes(24)) == MouseDescriptor().inputReportSizes
  {
    assert UsagePageFrom(0x01) == GenericDesktop;
    assert InputField(s, 6) == AxisField(8);
    var run := FieldRun(s, 6, 2);
    assert run[0] == AxisField(8) && run[1] == AxisField(16);
    assert run == [AxisField(8), AxisField(16)];
  }

  /** Input (Data, Variable, Relative) with two 8-bit axes. */
  lemma AxesItem(s: ParserState)
    requires s.descriptor == ButtonsDescriptor() && s.reportId == 0 && s.usagePage == 0x01 && s.usage == 0x31
    requires s.bitOffset == 8 && s.reportSize == 8 && s.reportCount == 2 && s.logicalMin == 129 && s.logicalMax == 127
    ensures ParseItems([0x81, 0x06], 0, s) == Ok(s.(descriptor := MouseDescriptor(), bitOffset := 24))
  {
    InputItemParse(s, 6);
    AxesEffect(s);
  }

  lemma AxesEffect(s: ParserState)
    requires s.descriptor == ButtonsDescriptor() && s.reportId == 0 && s.usagePage == 0x01 && s.usage == 0x31
    requires s.bitOffset == 8 && s.reportSize == 8 && s.reportCount == 2 && s.logicalMin == 129 && s.logicalMax == 127
    ensures AfterInput(s, 6) == Ok(s.(descriptor := MouseDescriptor(), bitOffset := 24))
  {
    InputItemEffect(s, 6);
    AxesLayout(s);
    var d := s.descriptor.(fields := s.descriptor.fields + FieldRun(s, 6, 2),
                           inputReportSizes := WithReportSize(s.descriptor.inputReportSizes, 0, CeilBytes(24)));
    assert d == MouseDescriptor();
  }

  /** Items 1-6: the page and usage settings and the two collections. */
  lemma StageCollections()
    ensures ParseItems([0x05, 0x01] + [0x09, 0x02] + [0xA1, 0x01] + [0x09, 0x01] + [0xA1, 0x00] + [0x05, 0x09],
                       0, InitialState())
      == Ok(InitialState().(usagePage := 0x09, usage := 0x01))
  {
    var p: seq<u8> := [0x05, 0x01];
    var s := InitialState().(usagePage := 0x01);
    SettingItems(InitialState());
    SettingItems(s); Extend(p, [0x09, 0x02], s, s.(usage := 0x02)); p, s := p + [0x09, 0x02], s.(usage := 0x02);
    SettingItems(s); Extend(p, [0xA1, 0x01], s, s); p := p + [0xA1, 0x01];
    SettingItems(s); Extend(p, [0x09, 0x01], s, s.(usage := 0x01)); p, s := p + [0x09, 0x01], s.(usage := 0x01);
    SettingItems(s); Extend(p, [0xA1, 0x00], s, s); p := p + [0xA1, 0x00];
    SettingItems(s); Extend(p, [0x05, 0x09], s, s.(usagePage := 0x09)); p, s := p + [0x05, 0x09], s.(usagePage := 0x09);
  }

  /** Items 7-13: the button layout and the buttons' Input item. */
  lemma StageButtons(p: seq<u8>, s: ParserState)
    requires ParseItems(p, 0, InitialState()) == Ok(s)
    requires s == InitialState().(usagePage := 0x09, usage := 0x01)
    ensures ParseItems(p + [0x19, 0x01] + [0x29, 0x03] + [0x15, 0x00] + [0x25, 0x01] + [0x95, 0x03] + [0x75, 0x01]
                         + [0x81, 0x02], 0, InitialState())
      == Ok(s.(logicalMax := 1, reportCount := 3, reportSize := 1, descriptor := ButtonsDescriptor(), bitOffset := 3))
  {
    var q, t := p, s;
    LayoutItems(t); Extend(q, [0x19, 0x01], t, t); q := q + [0x19, 0x01];
    LayoutItems(t); Extend(q, [0x29, 0x03], t, t); q := q + [0x29, 0x03];
    LayoutItems(t); Extend(q, [0x15, 0x00], t, t.(logicalMin := 0)); q, t := q + [0x15, 0x00], t.(logicalMin := 0);
    LayoutItems(t); Extend(q, [0x25, 0x01], t, t.(logicalMax := 1)); q, t := q + [0x25, 0x01], t.(logicalMax := 1);
    CountItems(t); Extend(q, [0x95, 0x03], t, t.(reportCount := 3)); q, t := q + [0x95, 0x03], t.(reportCount := 3);
    CountItems(t); Extend(q, [0x75, 0x01], t, t.(reportSize := 1)); q, t := q + [0x75, 0x01], t.(reportSize := 1);
    ButtonsItem(t);
    Extend(q, [0x81, 0x02], t, t.(descriptor := ButtonsDescriptor(), bitOffset := 3));
  }

  /** Items 14-16: the padding. */
  lemma StagePadding(p: seq<u8>, s: ParserState)
    requires ParseItems(p, 0, InitialState()) == Ok(s)
    requires s.bitOffset == 3
    ensures ParseItems(p + [0x95, 0x01] + [0x75, 0x05] + [0x81, 0x03], 0, InitialState())
      == Ok(s.(reportCount := 1, reportSize := 5, bitOffset := 8))
  {
    var q, t := p, s;
    CountItems(t); Extend(q, [0x95, 0x01], t, t.(reportCount := 1)); q, t := q + [0x95, 0x01], t.(reportCount := 1);
    CountItems(t); Extend(q, [0x75, 0x05], t, t.(reportSize := 5)); q, t := q + [0x75, 0x05], t.(reportSize := 5);
    PaddingItem(t);
    Extend(q, [0x81, 0x03], t, t.(bitOffset := 8));
  }

  /** Items 17-24: the axis settings and the axes' Input item. */
  lemma StageAxes(p: seq<u8>, s: ParserState)
    requires ParseItems(p, 0, InitialState()) == Ok(s)
    requires s.descriptor == ButtonsDescriptor() && s.reportId == 0 && s.bitOffset == 8
    ensures ParseItems(p + [0x05, 0x01] + [0x09, 0x30] + [0x09, 0x31] + [0x15, 0x81] + [0x25, 0x7F] + [0x75, 0x08]
                         + [0x95, 0x02] + [0x81, 0x06], 0, InitialState())
      == Ok(s.(usagePage := 0x01, usage := 0x31, logicalMin := 129, logicalMax := 127, reportSize := 8,
               reportCount := 2, descriptor := MouseDescriptor(), bitOffset := 24))
  {
    var q, t := p, s;
    SettingItems(t); Extend(q, [0x05, 0x01], t, t.(usagePage := 0x01)); q, t := q + [0x05, 0x01], t.(usagePage := 0x01);
    SettingItems(t); Extend(q, [0x09, 0x30], t, t.(usage := 0x30)); q, t := q + [0x09, 0x30], t.(usage := 0x30);
    SettingItems(t); Extend(q, [0x09, 0x31], t, t.(usage := 0x31)); q, t := q + [0x09, 0x31], t.(usage := 0x31);
    LayoutItems(t); Extend(q, [0x15, 0x81], t, t.(logicalMin := 129)); q, t := q + [0x15, 0x81], t.(logicalMin := 129);
    LayoutItems(t); Extend(q, [0x25, 0x7F], t, t.(logicalMax := 127)); q, t := q + [0x25, 0x7F], t.(logicalMax := 127);
    CountItems(t); Extend(q, [0x75, 0x08], t, t.(reportSize := 8)); q, t := q + [0x75, 0x08], t.(reportSize := 8);
    CountItems(t); Extend(q, [0x95, 0x02], t, t.(reportCount := 2)); q, t := q + [0x95, 0x02], t.(reportCount := 2);
    AxesItem(t);
    Extend(q, [0x81, 0x06], t, t.(descriptor := MouseDescriptor(), bitOffset := 24));
  }

  /** The parser state after the whole test descriptor. */
  function MouseFinalState(): ParserState {
    InitialState().(usagePage := 0x01, usage := 0x31, logicalMin := 129, logicalMax := 127, reportSize := 8,
                    reportCount := 2, descriptor := MouseDescriptor(), bitOffset := 24)
  }

  /** The item loop over the whole test descriptor. */
  lemma MouseItemsParse()
    ensures ParseItems(MouseBytes(), 0, InitialState()) == Ok(MouseFinalState())
  {
    StageCollections();
    var p0: seq<u8> := [0x05, 0x01] + [0x09, 0x02] + [0xA1, 0x01] + [0x09, 0x01] + [0xA1, 0x00] + [0x05, 0x09];
    var s0 := InitialState().(usagePage := 0x09, usage := 0x01);
    StageButtons(p0, s0);
    var p1 := p0 + [0x19, 0x01] + [0x29, 0x03] + [0x15, 0x00] + [0x25, 0x01] + [0x95, 0x03] + [0x75, 0x01] + [0x81, 0x02];
    var s1 := s0.(logicalMax := 1, reportCount := 3, reportSize := 1, descriptor := ButtonsDescriptor(), bitOffset := 3);
    StagePadding(p1, s1);
    var p2 := p1 + [0x95, 0x01] + [0x75, 0x05] + [0x81, 0x03];
    var s2 := s1.(reportCount := 1, reportSize := 5, bitOffset := 8);
    StageAxes(p2, s2);
    var p3 := p2 + [0x05, 0x01] + [0x09, 0x30] + [0x09, 0x31] + [0x15, 0x81] + [0x25, 0x7F] + [0x75, 0x08]
              + [0x95, 0x02] + [0x81, 0x06];
    var s3 := MouseFinalState();
    SettingItems(s3);
    Extend(p3, [0xC0], s3, s3);
    Extend(p3 + [0xC0], [0xC0], s3, s3);
  }

  lemma MouseHasNoKeyboardField()
    ensures forall j | 0 <= j < |MouseDescriptor().fields| :: !IsKeyboardField(MouseDescriptor().fields[j])
  {
    var fs := MouseDescriptor().fields;
    assert |fs| == 5;
    forall j | 0 <= j < 5
      ensures !IsKeyboardField(fs[j])
    {
      if j < 3 {
        assert fs[j] == ButtonField(j);
      } else {
        assert fs[j] == AxisField(8 * (j - 2));
      }
    }
  }

  /** The test descriptor parses to three buttons at bits 0-2 and two axes at
      bits 8-15 and 16-23 in a 3-byte input report; it is classified as a mouse
      and not as a keyboard, and, because its buttons are on the Button page,
      also as a gamepad. */
  lemma MouseDescriptorParses()
    ensures ParseDescriptor(MouseBytes()) == Ok(MouseDescriptor().(isMouse := true, isGamepad := true))
    ensures ParseDescriptor(MouseBytes()).value.isMouse
    ensures !ParseDescriptor(MouseBytes()).value.isKeyboard
  {
    MouseItemsParse();
    var d := MouseDescriptor();
    assert IsMouseField(d.fields[3]) && IsGamepadField(d.fields[0]);
    MouseHasNoKeyboardField();
    assert Classified(d) == d.(isMouse := true, isGamepad := true);
  }
}
