// What a reader finds in the record by following member names: for every section, each
// fact under its documented name, and null exactly where the probe leaves a value out.
module RecordLookup {
  import opened Machine
  import opened Details
  import opened Blob
  import opened MemoryMap
  import opened FirmwareModel
  import opened MapProtocol
  import opened Json
  import opened WriterModel
  import opened RecordText
  import opened JsonAppend
  import opened Observations
  import opened Record
  import opened RecordNames
  import opened RecordTheorems

  // -------------------------------------------------------------------- following names

  predicate Spells(u: seq<uint16>, s: string) {
    |u| == |s| && forall i :: 0 <= i < |s| ==> u[i] as nat == s[i] as nat
  }

  function Lookup(ms: seq<Member>, name: string): Option<Value> {
    if ms == [] then None
    else if Spells(ms[0].name, name) then Some(ms[0].value)
    else Lookup(ms[1..], name)
  }

  // The member of that name, if this is an object that has one.
  function Get(v: Option<Value>, name: string): Option<Value> {
    if v.Some? && v.value.Obj? then Lookup(v.value.members, name) else None
  }

  lemma {:induction false} LookupAt(ms: seq<Member>, i: nat, name: string)
    requires Distinct(ms) && i < |ms| && Spells(ms[i].name, name)
    ensures Lookup(ms, name) == Some(ms[i].value)
    decreases i
  {
    if i > 0 {
      assert ms[0].name != ms[i].name;
      LookupAt(ms[1..], i - 1, name);
    }
  }

  lemma SpellsField(k: PlainText)
    ensures Spells(UnitsOf(k), k)
  {
  }

  // An object whose names are unique tells each of its members by name.
  lemma Named(v: Value, i: nat, k: PlainText, member: Value)
    requires UniqueNames(v) && v.Obj? && i < |v.members| && v.members[i] == Field(k, member)
    ensures Get(Some(v), k) == Some(member)
  {
    SpellsField(k);
    LookupAt(v.members, i, k);
  }

  // -------------------------------------------------------------------- what a value tells

  predicate IsNumber(v: Option<Value>, n: nat) {
    v == Some(Num(n))
  }

  predicate IsNull(v: Option<Value>) {
    v == Some(Null)
  }

  predicate IsText(v: Option<Value>, s: string) {
    v.Some? && v.value.Str? && Spells(v.value.units, s)
  }

  // "0x" and sixteen lower-case hexadecimal digits that read as `n`.
  ghost predicate IsHex(v: Option<Value>, n: uint64) {
    exists s: string ::
      && IsText(v, "0x" + s)
      && |s| == 16 && (forall c :: c in s ==> c in "0123456789abcdef") && HexNumber(s) == Some(n as nat)
  }

  predicate TellsNumber(v: Option<Value>, known: bool, n: nat) {
    if known then IsNumber(v, n) else IsNull(v)
  }

  predicate TellsStatus(v: Option<Value>, s: State, d: Detail) {
    && IsText(Get(v, "status"), StateName(s))
    && if d == NoDetail then IsNull(Get(v, "detail")) else IsText(Get(v, "detail"), DetailText(d))
  }

  predicate TellsVendor(v: Option<Value>, r: VendorResult) {
    && TellsStatus(v, r.state, if r.state == Unsupported then Ucs2Surrogate else NoDetail)
    && IsNumber(Get(v, "units"), |r.text|)
    && Get(v, "value") == Some(if r.state == Observed || r.state == Truncated then Str(r.text) else Null)
  }

  ghost predicate TellsImage(v: Option<Value>, loaded: Option<LoadedImage>, status: Status) {
    && IsHex(Get(v, "efi_status"), status)
    && match loaded
       case None =>
         TellsStatus(v, Unavailable, NoHandleProtocol) && IsNull(Get(v, "base")) && IsNull(Get(v, "size"))
       case Some(image) =>
         && TellsStatus(v, Observed, NoDetail)
         && IsHex(Get(v, "base"), image.base) && IsNumber(Get(v, "size"), image.size as nat)
  }

  predicate TellsPath(v: Option<Value>, loaded: Option<LoadedImage>) {
    && IsText(Get(v, "representation"), "pointer_present_only")
    && match loaded
       case None => TellsStatus(v, NotProbed, NoDetail)
       case Some(image) => TellsStatus(v, if image.hasPath then Observed else Unavailable, NoDetail)
  }

  ghost predicate TellsEntry(v: Option<Value>, e: Entry) {
    && IsNumber(Get(v, "type"), e.kind as nat)
    && IsHex(Get(v, "physical"), e.physical)
    && IsNumber(Get(v, "pages"), e.pages as nat)
    && IsHex(Get(v, "attributes"), e.attributes)
  }

  ghost predicate TellsEntries(v: Option<Value>, es: seq<Entry>) {
    && v.Some? && v.value.Arr? && |v.value.items| == |es|
    && forall i :: 0 <= i < |es| ==> TellsEntry(Some(v.value.items[i]), es[i])
  }

  ghost predicate TellsMap(v: Option<Value>, a: Outcome) {
    var m, ok := a.result, a.result.state == Observed;
    && TellsStatus(v, m.state, m.detail)
    && IsHex(Get(v, "efi_status"), a.efi)
    && IsNumber(Get(v, "attempts"), a.attempts)
    && IsHex(Get(v, "release_status"), a.release)
    && TellsNumber(Get(v, "count"), ok, m.count as nat)
    && TellsNumber(Get(v, "descriptor_stride"), ok, m.stride as nat)
    && TellsNumber(Get(v, "descriptor_version"), ok, m.version as nat)
    && TellsEntries(Get(v, "descriptors"), if ok then m.entries else [])
    && TellsNumber(Get(v, "omitted"), ok, if m.count > 12 then m.count as nat - 12 else 0)
  }

  predicate TellsModel(v: Option<Value>, m: Model, ok: bool) {
    var has := ok && (m.state == Observed || m.state == Truncated);
    && TellsStatus(v, if ok then m.state else NotProbed, NoDetail)
    && TellsNumber(Get(v, "length"), has, m.length)
    && if has then IsText(Get(v, "value"), Characters(m.text)) else IsNull(Get(v, "value"))
  }

  function Characters(s: seq<uint8>): (t: string)
    ensures |t| == |s| && forall i :: 0 <= i < |s| ==> t[i] as nat == s[i] as nat
  {
    seq(|s|, i requires 0 <= i < |s| => s[i] as char)
  }

  predicate TellsDt(v: Option<Value>, x: DtView) {
    var d, ok := x.dt, x.dt.state == Observed;
    && TellsStatus(v, d.state, d.detail)
    && IsNumber(Get(v, "tables_searched"), x.searched)
    && IsNumber(Get(v, "tables_total"), x.total as nat)
    && TellsNumber(Get(v, "size"), ok, d.size as nat)
    && TellsNumber(Get(v, "version"), ok, d.version as nat)
    && TellsNumber(Get(v, "last_comp_version"), ok, d.lastComp as nat)
    && TellsModel(Get(v, "model"), d.model, ok)
  }

  ghost predicate TellsVariable(v: Option<Value>, r: VarResult) {
    && TellsStatus(v, r.state, r.detail)
    && IsHex(Get(v, "efi_status"), r.status)
    && TellsNumber(Get(v, "value"), r.state == Observed, r.value as nat)
  }

  ghost predicate TellsEl(v: Option<Value>, r: ElResult) {
    && TellsStatus(v, r.state, NoDetail)
    && IsHex(Get(v, "raw"), r.raw)
    && TellsNumber(Get(v, "reported_level"), r.state == Observed, r.level as nat)
  }

  // The whole record.
  ghost predicate Tells(v: Option<Value>, x: Facts) {
    && IsNumber(Get(v, "schema"), 2)
    && IsText(Get(v, "build"), "task004-phase-a-v2")
    && TellsVendor(Get(v, "firmware_vendor"), x.vendor)
    && IsNumber(Get(v, "firmware_revision"), x.firmwareRevision as nat)
    && IsNumber(Get(v, "uefi_revision"), x.uefiRevision as nat)
    && TellsImage(Get(v, "loaded_image"), x.loaded, x.imageStatus)
    && TellsPath(Get(v, "device_path"), x.loaded)
    && TellsMap(Get(v, "boot_services_map"), x.acquired)
    && TellsDt(Get(v, "firmware_dt"), x.dt)
    && TellsVariable(Get(v, "SecureBoot"), x.secure)
    && TellsVariable(Get(v, "SetupMode"), x.setup)
    && TellsEl(Get(v, "CurrentEL"), x.el)
    && IsText(Get(v, "execution_context"), "not_established")
    && Get(v, "record_truncated") == Some(Bool(false))
  }

  // -------------------------------------------------------------------- the texts

  lemma StateTexts()
    ensures StateName(Observed) == "observed" && StateName(Unavailable) == "unavailable"
    ensures StateName(Unsupported) == "unsupported" && StateName(Malformed) == "malformed"
    ensures StateName(NotProbed) == "not_probed" && StateName(Truncated) == "truncated"
  {
  }

  // Every reason with its documented text.
  lemma HeaderTexts(d: Detail)
    ensures d.NullBlob? ==> DetailText(d) == "null"
    ensures d.HeaderTruncated? ==> DetailText(d) == "header_truncated"
    ensures d.Magic? ==> DetailText(d) == "magic"
    ensures d.Version? ==> DetailText(d) == "version"
  {
  }

  lemma SizeTexts(d: Detail)
    ensures d.SizeLimit? ==> DetailText(d) == "size_limit"
    ensures d.TotalSize? ==> DetailText(d) == "totalsize"
    ensures d.TotalSizeExceedsSpan? ==> DetailText(d) == "totalsize_exceeds_span"
  {
  }

  lemma LayoutTexts(d: Detail)
    ensures d.Alignment? ==> DetailText(d) == "alignment"
    ensures d.BlockBounds? ==> DetailText(d) == "block_bounds"
    ensures d.BlockOverlap? ==> DetailText(d) == "block_overlap"
  {
  }

  lemma ScanTexts(d: Detail)
    ensures d.RsvmapUnterminated? ==> DetailText(d) == "rsvmap_unterminated"
    ensures d.RsvmapRange? ==> DetailText(d) == "rsvmap_range"
    ensures d.MissingEnd? ==> DetailText(d) == "missing_end"
  {
  }

  lemma NodeTexts(d: Detail)
    ensures d.MultipleRoots? ==> DetailText(d) == "multiple_roots"
    ensures d.NameTruncated? ==> DetailText(d) == "name_truncated"
    ensures d.RootName? ==> DetailText(d) == "root_name"
  {
  }

  lemma DepthTexts(d: Detail)
    ensures d.DepthLimit? ==> DetailText(d) == "depth_limit"
    ensures d.UnbalancedEndNode? ==> DetailText(d) == "unbalanced_end_node"
  {
  }

  lemma PropertyTexts(d: Detail)
    ensures d.PropertyOutsideRoot? ==> DetailText(d) == "property_outside_root"
    ensures d.PropertyTruncated? ==> DetailText(d) == "property_truncated"
  {
  }

  lemma OrderTexts(d: Detail)
    ensures d.PropertyName? ==> DetailText(d) == "property_name"
    ensures d.PropertyAfterSubnode? ==> DetailText(d) == "property_after_subnode"
  {
  }

  lemma ClosingTexts(d: Detail)
    ensures d.UnterminatedNode? ==> DetailText(d) == "unterminated_node"
    ensures d.TrailingStructure? ==> DetailText(d) == "trailing_structure"
    ensures d.BadToken? ==> DetailText(d) == "token"
  {
  }

  lemma SearchTexts(d: Detail)
    ensures d.Absent? ==> DetailText(d) == "absent"
    ensures d.ConfigTableNull? ==> DetailText(d) == "config_table_null"
    ensures d.TableNull? ==> DetailText(d) == "table_null"
    ensures d.SearchLimit? ==> DetailText(d) == "search_limit"
  {
  }

  lemma AllocationTexts(d: Detail)
    ensures d.ServiceMissing? ==> DetailText(d) == "service_missing"
    ensures d.RetryLimit? ==> DetailText(d) == "retry_limit"
    ensures d.AllocationFailed? ==> DetailText(d) == "allocation_failed"
  {
  }

  lemma ReleaseTexts(d: Detail)
    ensures d.AllocationNull? ==> DetailText(d) == "allocation_null"
    ensures d.ReleaseFailed? ==> DetailText(d) == "release_failed"
  {
  }

  lemma ReadTexts(d: Detail)
    ensures d.EfiErrorDetail? ==> DetailText(d) == "efi_error"
    ensures d.WarningStatus? ==> DetailText(d) == "warning_status"
  {
  }

  lemma GrowthTexts(d: Detail)
    ensures d.TooSmallStride? ==> DetailText(d) == "too_small_stride"
    ensures d.TooSmallInconsistent? ==> DetailText(d) == "too_small_inconsistent"
  {
  }

  lemma BufferTexts(d: Detail)
    ensures d.BufferDetail? ==> DetailText(d) == "buffer"
    ensures d.SizeExceedsBuffer? ==> DetailText(d) == "size_exceeds_buffer"
    ensures d.DescriptorVersion? ==> DetailText(d) == "descriptor_version"
  {
  }

  lemma StrideTexts(d: Detail)
    ensures d.StrideDetail? ==> DetailText(d) == "stride"
    ensures d.EmptyMap? ==> DetailText(d) == "empty"
    ensures d.PartialDescriptor? ==> DetailText(d) == "partial_descriptor"
  {
  }

  lemma RangeTexts(d: Detail)
    ensures d.PagesOverflow? ==> DetailText(d) == "pages_overflow"
    ensures d.RangeOverflow? ==> DetailText(d) == "range_overflow"
    ensures d.UnalignedPhysical? ==> DetailText(d) == "unaligned_physical"
  {
  }

  lemma VariableTexts(d: Detail)
    ensures d.VariableNotFound? ==> DetailText(d) == "not_found"
    ensures d.VariableSize? ==> DetailText(d) == "variable_size"
    ensures d.ServiceUnsupported? ==> DetailText(d) == "service_unsupported"
  {
  }

  lemma OtherTexts(d: Detail)
    ensures d.ValueRange? ==> DetailText(d) == "value_range"
    ensures d.Ucs2Surrogate? ==> DetailText(d) == "ucs2_surrogate"
    ensures d.NoHandleProtocol? ==> DetailText(d) == "handle_protocol"
  {
  }

  lemma CommonNames()
    ensures StatusName() == "status" && DetailName() == "detail" && EfiStatusName() == "efi_status"
    ensures ValueName() == "value" && SizeName() == "size"
  {
  }

  lemma EntryNameTexts()
    ensures TypeName() == "type" && PhysicalName() == "physical"
    ensures PagesName() == "pages" && AttributesName() == "attributes"
  {
  }

  lemma MapNameTexts()
    ensures AttemptsName() == "attempts" && ReleaseStatusName() == "release_status" && CountName() == "count"
    ensures DescriptorStrideName() == "descriptor_stride" && DescriptorVersionName() == "descriptor_version"
    ensures DescriptorsName() == "descriptors" && OmittedName() == "omitted"
  {
  }

  lemma DtNameTexts()
    ensures TablesSearchedName() == "tables_searched" && TablesTotalName() == "tables_total"
    ensures VersionName() == "version" && LastCompVersionName() == "last_comp_version" && ModelName() == "model"
    ensures LengthName() == "length"
  {
  }

  lemma OtherNameTexts()
    ensures UnitsName() == "units" && BaseName() == "base" && RepresentationName() == "representation"
    ensures PointerPresentOnly() == "pointer_present_only"
    ensures RawName() == "raw" && ReportedLevelName() == "reported_level"
  {
  }

  lemma FirstNameTexts()
    ensures SchemaName() == "schema" && BuildName() == "build" && BuildId() == "task004-phase-a-v2"
    ensures FirmwareVendorName() == "firmware_vendor" && FirmwareRevisionName() == "firmware_revision"
    ensures UefiRevisionName() == "uefi_revision" && LoadedImageName() == "loaded_image"
    ensures DevicePathName() == "device_path"
  {
  }

  lemma LaterNameTexts()
    ensures BootServicesMapName() == "boot_services_map" && FirmwareDtName() == "firmware_dt"
    ensures SecureBootName() == "SecureBoot" && SetupModeName() == "SetupMode" && CurrentElName() == "CurrentEL"
    ensures ExecutionContextName() == "execution_context" && NotEstablished() == "not_established"
    ensures RecordTruncatedName() == "record_truncated"
  {
  }

  // -------------------------------------------------------------------- the values

  lemma PhraseIs(s: PlainText)
    ensures IsText(Some(Phrase(s)), s)
  {
    SpellsField(s);
  }

  lemma HexSpelled(v: uint64)
    ensures IsText(Some(HexValueOf(v)), "0x" + HexDigits(v as nat, 16))
  {
    HexPlain(v as nat, 16);
    hide HexDigits;
  }

  lemma HexIs(v: uint64)
    ensures IsHex(Some(HexValueOf(v)), v)
  {
    HexTextReads(v);
    HexLower(v as nat, 16);
    HexSpelled(v);
    hide HexNumber, HexDigits, HexValueOf, Spells;
    var digits := HexText(v)[2..];
    assert digits == HexDigits(v as nat, 16);
    assert IsText(Some(HexValueOf(v)), "0x" + digits);
  }

  lemma {:induction false} HexLower(v: nat, n: nat)
    ensures forall c :: c in HexDigits(v, n) ==> c in "0123456789abcdef"
  {
    if n > 0 {
      HexLower(v / 16, n - 1);
      LowerDigit(v % 16);
    }
  }

  lemma LowerDigit(d: nat)
    requires d < 16
    ensures HexDigit(d) == "0123456789abcdef"[d]
  {
  }

  // An object opens with its status and detail.
  ghost predicate Opens(v: Value, s: State, d: Detail) {
    && UniqueNames(v) && v.Obj? && |v.members| >= 2
    && v.members[0] == Field(StatusName(), Phrase(StateName(s)))
    && v.members[1] == Field(DetailName(), DetailValue(d))
  }

  lemma OpensTells(v: Value, s: State, d: Detail)
    requires Opens(v, s, d)
    ensures TellsStatus(Some(v), s, d)
  {
    CommonNames();
    hide StatusName, DetailName, EfiStatusName, ValueName, SizeName, StateName, DetailText, UniqueNames;
    hide Field, Phrase, IsText, Get;
    Named(v, 0, StatusName(), Phrase(StateName(s)));
    Named(v, 1, DetailName(), DetailValue(d));
    PhraseIs(StateName(s));
    PhraseIs(DetailText(d));
  }

  lemma StatusShape(s: State, d: Detail)
    ensures StatusMembers(s, d) ==
            [Field(StatusName(), Phrase(StateName(s))), Field(DetailName(), DetailValue(d))]
  {
    hide Field, Phrase, DetailValue, StateName;
  }

  // -------------------------------------------------------------------- the sections

  lemma EntryTells(e: Entry)
    ensures TellsEntry(Some(EntryValue(e)), e)
  {
    EntryNames(e);
    EntryNameTexts();
    HexIs(e.physical);
    HexIs(e.attributes);
    hide Field, UniqueNames, HexValueOf, IsHex, Get, TypeName, PhysicalName, PagesName, AttributesName;
    var v := EntryValue(e);
    Named(v, 0, TypeName(), Num(e.kind as nat));
    Named(v, 1, PhysicalName(), HexValueOf(e.physical));
    Named(v, 2, PagesName(), Num(e.pages as nat));
    Named(v, 3, AttributesName(), HexValueOf(e.attributes));
  }

  lemma EntriesTell(es: seq<Entry>)
    ensures TellsEntries(Some(Arr(EntryValues(es))), es)
  {
    EntryCount(es);
    hide EntryValues, TellsEntry, EntryValue;
    forall i | 0 <= i < |es|
      ensures TellsEntry(Some(EntryValues(es)[i]), es[i])
    {
      EntryTells(es[i]);
    }
  }

  lemma MapShape(a: Outcome)
    ensures var v, m, ok := MapValue(a), a.result, a.result.state == Observed;
            && v.Obj? && |v.members| == 10
            && v.members[0] == Field(StatusName(), Phrase(StateName(m.state)))
            && v.members[1] == Field(DetailName(), DetailValue(m.detail))
            && v.members[2] == Field(EfiStatusName(), HexValueOf(a.efi))
            && v.members[3] == Field(AttemptsName(), Num(a.attempts))
            && v.members[4] == Field(ReleaseStatusName(), HexValueOf(a.release))
            && v.members[5] == Field(CountName(), NumIf(ok, m.count as nat))
            && v.members[6] == Field(DescriptorStrideName(), NumIf(ok, m.stride as nat))
            && v.members[7] == Field(DescriptorVersionName(), NumIf(ok, m.version as nat))
            && v.members[8] == Field(DescriptorsName(), Arr(EntryValues(if ok then m.entries else [])))
            && v.members[9] == Field(OmittedName(), NumIf(ok, OmittedCount(m.count as nat)))
  {
    StatusShape(a.result.state, a.result.detail);
    hide Field, StatusMembers, Phrase, DetailValue, HexValueOf, NumIf, EntryValues, OmittedCount, StateName;
  }

  lemma MapTells(a: Outcome)
    ensures TellsMap(Some(MapValue(a)), a)
  {
    var v, m, ok := MapValue(a), a.result, a.result.state == Observed;
    MapNames(a);
    MapShape(a);
    CommonNames();
    MapNameTexts();
    HexIs(a.efi);
    HexIs(a.release);
    EntriesTell(if ok then m.entries else []);
    hide Field, UniqueNames, Phrase, DetailValue, HexValueOf, IsHex, Get, TellsStatus, TellsEntries, EntryValues;
    hide StateName, MapValue, StatusName, DetailName, EfiStatusName, AttemptsName, ReleaseStatusName, CountName;
    hide OmittedName;
    hide DescriptorStrideName, DescriptorVersionName, DescriptorsName;
    OpensTells(v, m.state, m.detail);
    Named(v, 2, EfiStatusName(), HexValueOf(a.efi));
    Named(v, 3, AttemptsName(), Num(a.attempts));
    Named(v, 4, ReleaseStatusName(), HexValueOf(a.release));
    Named(v, 5, CountName(), NumIf(ok, m.count as nat));
    Named(v, 6, DescriptorStrideName(), NumIf(ok, m.stride as nat));
    Named(v, 7, DescriptorVersionName(), NumIf(ok, m.version as nat));
    Named(v, 8, DescriptorsName(), Arr(EntryValues(if ok then m.entries else [])));
    Named(v, 9, OmittedName(), NumIf(ok, OmittedCount(m.count as nat)));
  }

  lemma VendorTells(r: VendorResult)
    ensures TellsVendor(Some(VendorValue(r)), r)
  {
    var v, d := VendorValue(r), if r.state == Unsupported then Ucs2Surrogate else NoDetail;
    VendorNames(r);
    StatusShape(r.state, d);
    CommonNames();
    OtherNameTexts();
    hide Field, UniqueNames, Phrase, DetailValue, Get, TellsStatus, StatusMembers, StateName, StatusName, DetailName;
    hide UnitsName, ValueName;
    OpensTells(v, r.state, d);
    Named(v, 2, UnitsName(), Num(|r.text|));
    Named(v, 3, ValueName(), if HasText(r.state) then Str(r.text) else Null);
  }

  lemma ImageTells(loaded: Option<LoadedImage>, status: Status)
    ensures TellsImage(Some(ImageValue(loaded, status)), loaded, status)
  {
    var v := ImageValue(loaded, status);
    var s, d := if loaded.Some? then Observed else Unavailable, if loaded.Some? then NoDetail else NoHandleProtocol;
    ImageNames(loaded, status);
    StatusShape(s, d);
    CommonNames();
    OtherNameTexts();
    HexIs(status);
    hide Field, UniqueNames, Phrase, DetailValue, Get, TellsStatus, StatusMembers, StateName, StatusName, DetailName;
    hide HexValueOf, IsHex, EfiStatusName, BaseName, SizeName;
    OpensTells(v, s, d);
    Named(v, 2, EfiStatusName(), HexValueOf(status));
    Named(v, 3, BaseName(), if loaded.Some? then HexValueOf(loaded.value.base) else Null);
    Named(v, 4, SizeName(), if loaded.Some? then Num(loaded.value.size as nat) else Null);
    if loaded.Some? {
      HexIs(loaded.value.base);
    }
  }

  lemma PathTells(loaded: Option<LoadedImage>)
    ensures TellsPath(Some(PathValue(loaded)), loaded)
  {
    var v := PathValue(loaded);
    var s := if loaded.None? then NotProbed else if loaded.value.hasPath then Observed else Unavailable;
    PathNames(loaded);
    StatusShape(s, NoDetail);
    OtherNameTexts();
    PhraseIs(PointerPresentOnly());
    hide Field, UniqueNames, Phrase, DetailValue, Get, TellsStatus, StatusMembers, StateName, StatusName, DetailName;
    hide RepresentationName, PointerPresentOnly, IsText;
    OpensTells(v, s, NoDetail);
    Named(v, 2, RepresentationName(), Phrase(PointerPresentOnly()));
  }

  lemma ModelTells(m: Model, ok: bool)
    ensures TellsModel(Some(ModelValue(m, ok)), m, ok)
  {
    var v, s, has := ModelValue(m, ok), if ok then m.state else NotProbed, ok && HasText(m.state);
    ModelNames(m, ok);
    StatusShape(s, NoDetail);
    CommonNames();
    DtNameTexts();
    WideIs(m.text);
    hide Field, UniqueNames, Phrase, DetailValue, Get, TellsStatus, StatusMembers, StateName, StatusName, DetailName;
    hide LengthName, ValueName, IsText, Wide, Characters;
    OpensTells(v, s, NoDetail);
    Named(v, 2, LengthName(), NumIf(has, m.length));
    Named(v, 3, ValueName(), if has then Str(Wide(m.text)) else Null);
  }

  lemma WideIs(s: seq<uint8>)
    ensures IsText(Some(Str(Wide(s))), Characters(s))
  {
  }

  lemma DtShape(x: DtView)
    ensures var v, d, ok := DtValue(x), x.dt, x.dt.state == Observed;
            && v.Obj? && |v.members| == 8
            && v.members[0] == Field(StatusName(), Phrase(StateName(d.state)))
            && v.members[1] == Field(DetailName(), DetailValue(d.detail))
            && v.members[2] == Field(TablesSearchedName(), Num(x.searched))
            && v.members[3] == Field(TablesTotalName(), Num(x.total as nat))
            && v.members[4] == Field(SizeName(), NumIf(ok, d.size as nat))
            && v.members[5] == Field(VersionName(), NumIf(ok, d.version as nat))
            && v.members[6] == Field(LastCompVersionName(), NumIf(ok, d.lastComp as nat))
            && v.members[7] == Field(ModelName(), ModelValue(d.model, ok))
  {
    StatusShape(x.dt.state, x.dt.detail);
    hide Field, StatusMembers, Phrase, DetailValue, NumIf, StateName, ModelValue;
  }

  lemma DtTells(x: DtView)
    ensures TellsDt(Some(DtValue(x)), x)
  {
    var v, d, ok := DtValue(x), x.dt, x.dt.state == Observed;
    DtNames(x);
    DtShape(x);
    CommonNames();
    DtNameTexts();
    ModelTells(d.model, ok);
    hide Field, UniqueNames, Phrase, DetailValue, Get, TellsStatus, TellsModel, StateName, DtValue, ModelValue;
    hide StatusName, DetailName, TablesSearchedName, TablesTotalName, SizeName, VersionName, LastCompVersionName;
    hide ModelName;
    OpensTells(v, d.state, d.detail);
    Named(v, 2, TablesSearchedName(), Num(x.searched));
    Named(v, 3, TablesTotalName(), Num(x.total as nat));
    Named(v, 4, SizeName(), NumIf(ok, d.size as nat));
    Named(v, 5, VersionName(), NumIf(ok, d.version as nat));
    Named(v, 6, LastCompVersionName(), NumIf(ok, d.lastComp as nat));
    Named(v, 7, ModelName(), ModelValue(d.model, ok));
  }

  lemma VariableTells(r: VarResult)
    ensures TellsVariable(Some(VariableValue(r)), r)
  {
    var v := VariableValue(r);
    VariableNames(r);
    StatusShape(r.state, r.detail);
    CommonNames();
    HexIs(r.status);
    hide Field, UniqueNames, Phrase, DetailValue, Get, TellsStatus, StatusMembers, StateName, StatusName, DetailName;
    hide HexValueOf, IsHex, EfiStatusName, ValueName;
    OpensTells(v, r.state, r.detail);
    Named(v, 2, EfiStatusName(), HexValueOf(r.status));
    Named(v, 3, ValueName(), NumIf(r.state == Observed, r.value as nat));
  }

  lemma ElTells(r: ElResult)
    ensures TellsEl(Some(ElValue(r)), r)
  {
    var v := ElValue(r);
    ElNames(r);
    StatusShape(r.state, NoDetail);
    OtherNameTexts();
    HexIs(r.raw);
    hide Field, UniqueNames, Phrase, DetailValue, Get, TellsStatus, StatusMembers, StateName, StatusName, DetailName;
    hide HexValueOf, IsHex, RawName, ReportedLevelName;
    OpensTells(v, r.state, NoDetail);
    Named(v, 2, RawName(), HexValueOf(r.raw));
    Named(v, 3, ReportedLevelName(), NumIf(r.state == Observed, r.level as nat));
  }

  // -------------------------------------------------------------------- the record

  lemma RecordShape(x: Facts)
    ensures var v := RecordValue(x);
            && v.Obj? && |v.members| == 14
            && v.members[0] == Field(SchemaName(), Num(2))
            && v.members[1] == Field(BuildName(), Phrase(BuildId()))
            && v.members[2] == Field(FirmwareVendorName(), VendorValue(x.vendor))
            && v.members[3] == Field(FirmwareRevisionName(), Num(x.firmwareRevision as nat))
            && v.members[4] == Field(UefiRevisionName(), Num(x.uefiRevision as nat))
            && v.members[5] == Field(LoadedImageName(), ImageValue(x.loaded, x.imageStatus))
            && v.members[6] == Field(DevicePathName(), PathValue(x.loaded))
            && v.members[7] == Field(BootServicesMapName(), MapValue(x.acquired))
            && v.members[8] == Field(FirmwareDtName(), DtValue(x.dt))
            && v.members[9] == Field(SecureBootName(), VariableValue(x.secure))
            && v.members[10] == Field(SetupModeName(), VariableValue(x.setup))
            && v.members[11] == Field(CurrentElName(), ElValue(x.el))
            && v.members[12] == Field(ExecutionContextName(), Phrase(NotEstablished()))
            && v.members[13] == Field(RecordTruncatedName(), Bool(false))
  {
    MembersAre(x);
    hide Members, RecordValue, Field, Phrase, VendorValue, ImageValue, PathValue, MapValue, DtValue, VariableValue;
    hide ElValue;
  }

  // The names of the record lead to its values, and those tell the facts.
  lemma ValueTells(x: Facts)
    ensures Tells(Some(RecordValue(x)), x)
  {
    var v := RecordValue(x);
    RecordUnique(x);
    RecordShape(x);
    FirstNameTexts();
    LaterNameTexts();
    VendorTells(x.vendor);
    ImageTells(x.loaded, x.imageStatus);
    PathTells(x.loaded);
    MapTells(x.acquired);
    DtTells(x.dt);
    VariableTells(x.secure);
    VariableTells(x.setup);
    ElTells(x.el);
    PhraseIs(BuildId());
    PhraseIs(NotEstablished());
    hide RecordValue, UniqueNames, Get, Field, Phrase, IsText;
    hide VendorValue, ImageValue, PathValue, MapValue, DtValue, VariableValue, ElValue;
    hide TellsVendor, TellsImage, TellsPath, TellsMap, TellsDt, TellsVariable, TellsEl;
    hide SchemaName, BuildName, BuildId, FirmwareVendorName, FirmwareRevisionName, UefiRevisionName, LoadedImageName;
    hide DevicePathName, BootServicesMapName, FirmwareDtName, SecureBootName, SetupModeName, CurrentElName;
    hide ExecutionContextName, NotEstablished, RecordTruncatedName;
    Named(v, 0, SchemaName(), Num(2));
    Named(v, 1, BuildName(), Phrase(BuildId()));
    Named(v, 2, FirmwareVendorName(), VendorValue(x.vendor));
    Named(v, 3, FirmwareRevisionName(), Num(x.firmwareRevision as nat));
    Named(v, 4, UefiRevisionName(), Num(x.uefiRevision as nat));
    Named(v, 5, LoadedImageName(), ImageValue(x.loaded, x.imageStatus));
    Named(v, 6, DevicePathName(), PathValue(x.loaded));
    Named(v, 7, BootServicesMapName(), MapValue(x.acquired));
    Named(v, 8, FirmwareDtName(), DtValue(x.dt));
    Named(v, 9, SecureBootName(), VariableValue(x.secure));
    Named(v, 10, SetupModeName(), VariableValue(x.setup));
    Named(v, 11, CurrentElName(), ElValue(x.el));
    Named(v, 12, ExecutionContextName(), Phrase(NotEstablished()));
    Named(v, 13, RecordTruncatedName(), Bool(false));
  }

  // Whoever reads the printed record finds every fact under its name.
  lemma RecordTells(x: Facts)
    ensures Tells(Read(Print(RecordValue(x))), x)
  {
    RecordDecodes(x);
    ValueTells(x);
    hide *;
  }
}
