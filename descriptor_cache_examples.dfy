/** The descriptor cache driven through the two scenarios of descriptor_cache.rs's
    unit tests: a five-button wheel mouse added and read back, and nine devices
    added to a cache that holds eight. */
module DescriptorCacheExamples {
  import opened Common
  import opened Descriptor
  import opened DescriptorExamples
  import opened DescriptorCache

  /** The cache test's descriptor: five 1-bit buttons, 3 bits of padding and
      three 8-bit relative axes X, Y and Wheel. */
  function WheelMouseBytes(): seq<u8> {
    [0x05, 0x01] + [0x09, 0x02] + [0xA1, 0x01] + [0x09, 0x01] + [0xA1, 0x00] + [0x05, 0x09]
    + [0x19, 0x01] + [0x29, 0x05] + [0x15, 0x00] + [0x25, 0x01] + [0x95, 0x05] + [0x75, 0x01]
    + [0x81, 0x02]
    + [0x95, 0x01] + [0x75, 0x03] + [0x81, 0x03]
    + [0x05, 0x01] + [0x09, 0x30] + [0x09, 0x31] + [0x09, 0x38] + [0x15, 0x81] + [0x25, 0x7F] + [0x75, 0x08]
    + [0x95, 0x03]
    + [0x81, 0x06]
    + [0xC0] + [0xC0]
  }

  /** An axis field of the wheel mouse: the last Usage before the Input item is
      Wheel (0x38), so all three axes carry it. */
  function WheelField(offset: nat): ReportField {
    ReportField(Input, 0, Usage(GenericDesktop, 0x38), offset, 8, 129, 127, true, false)
  }

  function FiveButtonsDescriptor(): HidDescriptor {
    EmptyDescriptor().(fields := [ButtonField(0), ButtonField(1), ButtonField(2), ButtonField(3), ButtonField(4)],
                       inputReportSizes := [(0, 1)])
  }

  function WheelMouseDescriptor(): HidDescriptor {
    FiveButtonsDescriptor().(fields := FiveButtonsDescriptor().fields + [WheelField(8), WheelField(16), WheelField(24)],
                             inputReportSizes := [(0, 4)])
  }

  /** The items this descriptor has and the three-button one has not. */
  lemma WheelMouseItems(s: ParserState)
    ensures ParseItems([0x29, 0x05], 0, s) == Ok(s)
    ensures ParseItems([0x95, 0x05], 0, s) == Ok(s.(reportCount := 5))
  {
    ShortItemParse(s, 0x29, 0x05);
    ShortItemParse(s, 0x95, 0x05);
  }

  lemma WheelMouseSettingItems(s: ParserState)
    ensures ParseItems([0x75, 0x03], 0, s) == Ok(s.(reportSize := 3))
    ensures ParseItems([0x09, 0x38], 0, s) == Ok(s.(usage := 0x38))
  {
    ShortItemParse(s, 0x75, 0x03);
    ShortItemParse(s, 0x09, 0x38);
  }

  /** The five button fields laid out from bit 0. */
  lemma FiveButtonsRun(s: ParserState)
    requires InputField(s, 2) == ButtonField(0) && s.bitOffset == 0 && s.reportSize == 1
    ensures FieldRun(s, 2, 5) == FiveButtonsDescriptor().fields
  {
    var run := FieldRun(s, 2, 5);
    var fs := FiveButtonsDescriptor().fields;
    forall j | 0 <= j < 5
      ensures run[j] == fs[j]
    {
      assert fs[j] == ButtonField(j);
    }
  }

  /** Input (Data, Variable, Absolute) with five 1-bit buttons. */
  lemma FiveButtonsItem(s: ParserState)
    requires s.descriptor == EmptyDescriptor() && s.reportId == 0 && s.usagePage == 0x09 && s.usage == 0x01
    requires s.bitOffset == 0 && s.reportSize == 1 && s.reportCount == 5 && s.logicalMin == 0 && s.logicalMax == 1
    ensures ParseItems([0x81, 0x02], 0, s) == Ok(s.(descriptor := FiveButtonsDescriptor(), bitOffset := 5))
  {
    InputItemParse(s, 2);
    InputItemEffect(s, 2);
    FiveButtonsLayout(s);
  }

  /** The closed form of the five buttons' Input item. */
  lemma FiveButtonsLayout(s: ParserState)
    requires s.descriptor == EmptyDescriptor() && s.reportId == 0 && s.usagePage == 0x09 && s.usage == 0x01
    requires s.bitOffset == 0 && s.reportSize == 1 && s.reportCount == 5 && s.logicalMin == 0 && s.logicalMax == 1
    ensures s.descriptor.fields + FieldRun(s, 2, 5) == FiveButtonsDescriptor().fields
    ensures WithReportSize(s.descriptor.inputReportSizes, 0, CeilBytes(5)) == FiveButtonsDescriptor().inputReportSizes
  {
    assert UsagePageFrom(0x09) == Button;
    FiveButtonsRun(s);
    assert [] + FieldRun(s, 2, 5) == FiveButtonsDescriptor().fields;
  }

  /** The three wheel-mouse axes laid out from bit 8. */
  lemma WheelAxesLayout(s: ParserState)
    requires s.descriptor == FiveButtonsDescriptor() && s.reportId == 0 && s.usagePage == 0x01 && s.usage == 0x38
    requires s.bitOffset == 8 && s.reportSize == 8 && s.reportCount == 3 && s.logicalMin == 129 && s.logicalMax == 127
    ensures s.descriptor.fields + FieldRun(s, 6, 3) == WheelMouseDescriptor().fields
    ensures WithReportSize(s.descriptor.inputReportSizes, 0, CeilBytes(32)) == WheelMouseDescriptor().inputReportSizes
  {
    assert UsagePageFrom(0x01) == GenericDesktop;
    assert InputField(s, 6) == WheelField(8);
    var run := FieldRun(s, 6, 3);
    assert run[0] == WheelField(8) && run[1] == WheelField(16) && run[2] == WheelField(24);
    assert run == [WheelField(8), WheelField(16), WheelField(24)];
  }

  /** Input (Data, Variable, Relative) with three 8-bit axes. */
  lemma WheelAxesItem(s: ParserState)
    requires s.descriptor == FiveButtonsDescriptor() && s.reportId == 0 && s.usagePage == 0x01 && s.usage == 0x38
    requires s.bitOffset == 8 && s.reportSize == 8 && s.reportCount == 3 && s.logicalMin == 129 && s.logicalMax == 127
    ensures ParseItems([0x81, 0x06], 0, s) == Ok(s.(descriptor := WheelMouseDescriptor(), bitOffset := 32))
  {
    InputItemParse(s, 6);
    InputItemEffect(s, 6);
    WheelAxesLayout(s);
  }

  /** Items 7-13: the five buttons. */
  lemma StageFiveButtons(p: seq<u8>, s: ParserState)
    requires ParseItems(p, 0, InitialState()) == Ok(s)
    requires s == InitialState().(usagePage := 0x09, usage := 0x01)
    ensures ParseItems(p + [0x19, 0x01] + [0x29, 0x05] + [0x15, 0x00] + [0x25, 0x01] + [0x95, 0x05] + [0x75, 0x01]
                         + [0x81, 0x02], 0, InitialState())
      == Ok(s.(logicalMax := 1, reportCount := 5, reportSize := 1, descriptor := FiveButtonsDescriptor(), bitOffset := 5))
  {
    var q, t := p, s;
    LayoutItems(t); Extend(q, [0x19, 0x01], t, t); q := q + [0x19, 0x01];
    WheelMouseItems(t); Extend(q, [0x29, 0x05], t, t); q := q + [0x29, 0x05];
    LayoutItems(t); Extend(q, [0x15, 0x00], t, t.(logicalMin := 0)); q, t := q + [0x15, 0x00], t.(logicalMin := 0);
    LayoutItems(t); Extend(q, [0x25, 0x01], t, t.(logicalMax := 1)); q, t := q + [0x25, 0x01], t.(logicalMax := 1);
    WheelMouseItems(t); Extend(q, [0x95, 0x05], t, t.(reportCount := 5)); q, t := q + [0x95, 0x05], t.(reportCount := 5);
    CountItems(t); Extend(q, [0x75, 0x01], t, t.(reportSize := 1)); q, t := q + [0x75, 0x01], t.(reportSize := 1);
    FiveButtonsItem(t);
    Extend(q, [0x81, 0x02], t, t.(descriptor := FiveButtonsDescriptor(), bitOffset := 5));
  }

  /** Items 14-16: three bits of padding. */
  lemma StageThreeBitPadding(p: seq<u8>, s: ParserState)
    requires ParseItems(p, 0, InitialState()) == Ok(s)
    requires s.bitOffset == 5
    ensures ParseItems(p + [0x95, 0x01] + [0x75, 0x03] + [0x81, 0x03], 0, InitialState())
      == Ok(s.(reportCount := 1, reportSize := 3, bitOffset := 8))
  {
    var q, t := p, s;
    CountItems(t); Extend(q, [0x95, 0x01], t, t.(reportCount := 1)); q, t := q + [0x95, 0x01], t.(reportCount := 1);
    WheelMouseSettingItems(t); Extend(q, [0x75, 0x03], t, t.(reportSize := 3)); q, t := q + [0x75, 0x03], t.(reportSize := 3);
    PaddingItem(t);
    Extend(q, [0x81, 0x03], t, t.(bitOffset := 8));
  }

  /** Items 17-25: the three axes. */
  lemma StageWheelAxes(p: seq<u8>, s: ParserState)
    requires ParseItems(p, 0, InitialState()) == Ok(s)
    requires s.descriptor == FiveButtonsDescriptor() && s.reportId == 0 && s.bitOffset == 8
    ensures ParseItems(p + [0x05, 0x01] + [0x09, 0x30] + [0x09, 0x31] + [0x09, 0x38] + [0x15, 0x81] + [0x25, 0x7F]
                         + [0x75, 0x08] + [0x95, 0x03] + [0x81, 0x06], 0, InitialState())
      == Ok(s.(usagePage := 0x01, usage := 0x38, logicalMin := 129, logicalMax := 127, reportSize := 8,
               reportCount := 3, descriptor := WheelMouseDescriptor(), bitOffset := 32))
  {
    var q, t := p, s;
    SettingItems(t); Extend(q, [0x05, 0x01], t, t.(usagePage := 0x01)); q, t := q + [0x05, 0x01], t.(usagePage := 0x01);
    SettingItems(t); Extend(q, [0x09, 0x30], t, t.(usage := 0x30)); q, t := q + [0x09, 0x30], t.(usage := 0x30);
    SettingItems(t); Extend(q, [0x09, 0x31], t, t.(usage := 0x31)); q, t := q + [0x09, 0x31], t.(usage := 0x31);
    WheelMouseSettingItems(t); Extend(q, [0x09, 0x38], t, t.(usage := 0x38)); q, t := q + [0x09, 0x38], t.(usage := 0x38);
    LayoutItems(t); Extend(q, [0x15, 0x81], t, t.(logicalMin := 129)); q, t := q + [0x15, 0x81], t.(logicalMin := 129);
    LayoutItems(t); Extend(q, [0x25, 0x7F], t, t.(logicalMax := 127)); q, t := q + [0x25, 0x7F], t.(logicalMax := 127);
    CountItems(t); Extend(q, [0x75, 0x08], t, t.(reportSize := 8)); q, t := q + [0x75, 0x08], t.(reportSize := 8);
    CountItems(t); Extend(q, [0x95, 0x03], t, t.(reportCount := 3)); q, t := q + [0x95, 0x03], t.(reportCount := 3);
    WheelAxesItem(t);
    Extend(q, [0x81, 0x06], t, t.(descriptor := WheelMouseDescriptor(), bitOffset := 32));
  }

  function WheelMouseFinalState(): ParserState {
    InitialState().(usagePage := 0x01, usage := 0x38, logicalMin := 129, logicalMax := 127, reportSize := 8,
                    reportCount := 3, descriptor := WheelMouseDescriptor(), bitOffset := 32)
  }

  /** The item loop over the whole wheel-mouse descriptor. */
  lemma WheelMouseItemsParse()
    ensures ParseItems(WheelMouseBytes(), 0, InitialState()) == Ok(WheelMouseFinalState())
  {
    StageCollections();
    var p0: seq<u8> := [0x05, 0x01] + [0x09, 0x02] + [0xA1, 0x01] + [0x09, 0x01] + [0xA1, 0x00] + [0x05, 0x09];
    var s0 := InitialState().(usagePage := 0x09, usage := 0x01);
    StageFiveButtons(p0, s0);
    var p1 := p0 + [0x19, 0x01] + [0x29, 0x05] + [0x15, 0x00] + [0x25, 0x01] + [0x95, 0x05] + [0x75, 0x01] + [0x81, 0x02];
    var s1 := s0.(logicalMax := 1, reportCount := 5, reportSize := 1, descriptor := FiveButtonsDescriptor(), bitOffset := 5);
    StageThreeBitPadding(p1, s1);
    var p2 := p1 + [0x95, 0x01] + [0x75, 0x03] + [0x81, 0x03];
    var s2 := s1.(reportCount := 1, reportSize := 3, bitOffset := 8);
    StageWheelAxes(p2, s2);
    var p3 := p2 + [0x05, 0x01] + [0x09, 0x30] + [0x09, 0x31] + [0x09, 0x38] + [0x15, 0x81] + [0x25, 0x7F]
              + [0x75, 0x08] + [0x95, 0x03] + [0x81, 0x06];
    var s3 := WheelMouseFinalState();
    SettingItems(s3);
    Extend(p3, [0xC0], s3, s3);
    Extend(p3 + [0xC0], [0xC0], s3, s3);
  }

  lemma WheelMouseHasNoKeyboardField()
    ensures forall j | 0 <= j < |WheelMouseDescriptor().fields| :: !IsKeyboardField(WheelMouseDescriptor().fields[j])
  {
    var fs := WheelMouseDescriptor().fields;
    assert |fs| == 8;
    forall j | 0 <= j < 8
      ensures !IsKeyboardField(fs[j])
    {
      if j < 5 {
        assert fs[j] == ButtonField(j);
      } else {
        assert fs[j] == WheelField(8 * (j - 4));
      }
    }
  }

  /** The wheel-mouse descriptor parses and is classified as a mouse (its axes
      carry the Wheel usage, one of the three mouse usages). */
  lemma WheelMouseParses()
    ensures ParseDescriptor(WheelMouseBytes()) == Ok(WheelMouseDescriptor().(isMouse := true, isGamepad := true))
    ensures ParseDescriptor(WheelMouseBytes()).value.isMouse
  {
    WheelMouseItemsParse();
    var d := WheelMouseDescriptor();
    var fs := d.fields;
    assert IsMouseField(fs[5]) && IsGamepadField(fs[0]);
    WheelMouseHasNoKeyboardField();
    assert Classified(d) == d.(isKeyboard := false, isMouse := true, isGamepad := true);
  }

  /** `add(1, 0, …)` of the wheel mouse succeeds and `get(1, 0)` then returns a
      descriptor classified as a mouse. */
  method AddThenGetScenario() returns (added: Result<(), ParseError>, cached: Option<HidDescriptor>)
    ensures added == Ok(())
    ensures cached.Some? && cached.value.isMouse
  {
    var cache := new DescriptorCache();
    WheelMouseParses();
    AddedThenLookup(cache.State(), 1, 0, WheelMouseBytes());
    added := cache.Add(1, 0, WheelMouseBytes());
    cached := cache.Get(1, 0);
  }

  /** The eviction test's descriptor: just a usage page and a usage. */
  function TinyBytes(): seq<u8> {
    [0x05, 0x01] + [0x09, 0x02]
  }

  lemma TinyParses()
    ensures ParseDescriptor(TinyBytes()).Ok?
  {
    SettingItems(InitialState());
    SettingItems(InitialState().(usagePage := 0x01));
    Extend([0x05, 0x01], [0x09, 0x02], InitialState().(usagePage := 0x01), InitialState().(usagePage := 0x01, usage := 0x02));
  }

  /** The cache after adding devices 0 .. n−1, interface 0, one per tick. */
  ghost predicate FilledInOrder(st: CacheState, n: nat) {
    && |st.entries| == n && st.currentTime == n
    && forall j | 0 <= j < n ::
         st.entries[j].deviceAddress == j && st.entries[j].interfaceNum == 0 && st.entries[j].timestamp == j + 1
  }

  /** Adding device n to a cache holding fewer than eight appends it. */
  lemma FillStep(st: CacheState, n: nat)
    requires EntriesValid(st) && FilledInOrder(st, n) && n < MaxCachedDevices
    ensures Added(st, n as u8, 0, TinyBytes()).Ok?
    ensures FilledInOrder(Added(st, n as u8, 0, TinyBytes()).value, n + 1)
  {
    TinyParses();
    var d := ParseDescriptor(TinyBytes()).value;
    assert FindKey(st.entries, n as u8, 0) == n;
    InsertedNewKey(st, n as u8, 0, d, RawCopy(TinyBytes()));
  }

  /** Adding a ninth device to the full cache evicts device 0, the least
      recently used, and caches the new one. */
  lemma EvictOldest(st: CacheState)
    requires EntriesValid(st) && FilledInOrder(st, MaxCachedDevices)
    ensures Added(st, MaxCachedDevices as u8, 0, TinyBytes()).Ok?
    ensures var r := Added(st, MaxCachedDevices as u8, 0, TinyBytes()).value.entries;
      |r| == MaxCachedDevices && Lookup(r, 0, 0).None? && Lookup(r, MaxCachedDevices as u8, 0).Some?
  {
    TinyParses();
    var d := ParseDescriptor(TinyBytes()).value;
    var raw := RawCopy(TinyBytes());
    var k := OldestIndex(st.entries);
    assert st.entries[k].timestamp == k + 1 && st.entries[0].timestamp == 1;
    assert k == 0;
    assert FindKey(st.entries, MaxCachedDevices as u8, 0) == MaxCachedDevices;
    InsertedNewKey(st, MaxCachedDevices as u8, 0, d, raw);
    InsertedKeepsOtherKeys(st, MaxCachedDevices as u8, 0, d, raw, 0, 0);
    AddedThenLookup(st, MaxCachedDevices as u8, 0, TinyBytes());
  }

  /** Adding nine distinct devices to the cache leaves exactly eight entries:
      the first device added, the least recently used, is the one evicted, and
      the last one is cached. */
  method EvictionScenario() returns (len: nat, first: Option<HidDescriptor>, last: Option<HidDescriptor>)
    ensures len == MaxCachedDevices
    ensures first.None? && last.Some?
  {
    var cache := new DescriptorCache();
    for i := 0 to MaxCachedDevices
      invariant cache.Valid() && FilledInOrder(cache.State(), i)
    {
      FillStep(cache.State(), i);
      var _ := cache.Add(i as u8, 0, TinyBytes());
    }
    EvictOldest(cache.State());
    var _ := cache.Add(MaxCachedDevices as u8, 0, TinyBytes());
    len := |cache.entries|;
    first := Lookup(cache.entries, 0, 0);
    last := Lookup(cache.entries, MaxCachedDevices as u8, 0);
  }
}
