// What a successful run displays, in terms of what the firmware supplied.
module Displayed {
  import opened Machine
  import opened Details
  import opened Devicetree
  import opened Blob
  import opened MemoryMap
  import opened MapLayout
  import opened FirmwareModel
  import opened MapProtocol
  import opened AcquisitionOutcome
  import opened Json
  import opened RecordText
  import opened JsonAppend
  import opened Observations
  import opened ObservationTheorems
  import opened Record
  import opened RecordNames
  import opened RecordTheorems
  import opened RecordLookup
  import opened Probe
  import opened EfiMain

  // The run has succeeded in the production build.
  ghost predicate Succeeds(st: SystemTable, w: Answers, calls: seq<Call>) {
    Borrowable(st) && MainRun(st, w, RECORD_CAPACITY, EFI_SUCCESS, calls)
  }

  lemma SucceedsMeans(st: SystemTable, w: Answers, calls: seq<Call>)
    requires Succeeds(st, w, calls)
    ensures Borrowable(st) && (st.vendor.Some? ==> ReadableText(st.vendor.value))
    ensures Searchable(st.tableCount, st.tables)
    ensures MainRun(st, w, RECORD_CAPACITY, EFI_SUCCESS, calls)
  {
    hide MainRun;
  }

  // What a JSON reader makes of the text displayed between banner and line end.
  function Shown(calls: seq<Call>): Option<Value> {
    Read(TextOf(RecordPart(Emitted(calls))))
  }

  lemma ShownIs(calls: seq<Call>)
    ensures Shown(calls) == Read(TextOf(RecordPart(Emitted(calls))))
  {
    hide Read, RecordPart, Emitted;
  }

  // Every fact seen is found in it by name.
  lemma SuccessTells(st: SystemTable, w: Answers, calls: seq<Call>)
    requires Succeeds(st, w, calls)
    ensures Tells(Shown(calls), FactsSeen(st, w))
  {
    ShownIs(calls);
    SucceedsMeans(st, w, calls);
    hide *;
    SuccessDecodes(st, w, EFI_SUCCESS, calls);
    RecordDecodes(FactsSeen(st, w));
    RecordTells(FactsSeen(st, w));
  }

  // -------------------------------------------------------------------- the plain observations

  ghost predicate ShowsVendor(v: Option<Value>, text: Option<seq<uint16>>) {
    match text
    case None => TellsStatus(v, Unavailable, NoDetail) && IsNumber(Get(v, "units"), 0) && IsNull(Get(v, "value"))
    case Some(s) =>
      forall n: nat :: TextLength(s, n) ==>
        if exists j :: 0 <= j < n && 0xd800 <= s[j] <= 0xdfff then
          TellsStatus(v, Unsupported, Ucs2Surrogate) && IsNumber(Get(v, "units"), 0) && IsNull(Get(v, "value"))
        else
          && TellsStatus(v, if n == 64 && s[64] != 0 then Truncated else Observed, NoDetail)
          && IsNumber(Get(v, "units"), n) && Get(v, "value") == Some(Str(s[..n]))
  }

  // A byte that is 0 or 1, read without so much as a warning, is the value; nothing else is.
  ghost predicate ShowsVariable(v: Option<Value>, present: bool, a: VariableAnswer) {
    if !present then
      TellsStatus(v, Unavailable, ServiceMissing) && IsHex(Get(v, "efi_status"), 0) && IsNull(Get(v, "value"))
    else
      && IsHex(Get(v, "efi_status"), a.status)
      && if a.status == 0 && a.size == 1 && a.value <= 1 then
           TellsStatus(v, Observed, NoDetail) && IsNumber(Get(v, "value"), a.value as nat)
         else IsNull(Get(v, "value"))
  }

  ghost predicate ShowsLevel(v: Option<Value>, raw: uint64) {
    && IsHex(Get(v, "raw"), raw)
    && if raw in {4, 8, 12} then
         TellsStatus(v, Observed, NoDetail) && IsNumber(Get(v, "reported_level"), raw as nat / 4)
       else TellsStatus(v, Malformed, NoDetail) && IsNull(Get(v, "reported_level"))
  }

  ghost predicate ShowsPlain(v: Option<Value>, st: SystemTable, w: Answers) {
    && ShowsVendor(Get(v, "firmware_vendor"), st.vendor)
    && IsNumber(Get(v, "firmware_revision"), st.firmwareRevision as nat)
    && IsNumber(Get(v, "uefi_revision"), st.revision as nat)
    && TellsImage(Get(v, "loaded_image"), ImageSeen(st, w), ImageAnswer(st, w))
    && TellsPath(Get(v, "device_path"), ImageSeen(st, w))
    && ShowsVariable(Get(v, "SecureBoot"), st.variableService, w.variables(SecureBoot))
    && ShowsVariable(Get(v, "SetupMode"), st.variableService, w.variables(SetupMode))
    && ShowsLevel(Get(v, "CurrentEL"), w.el)
  }

  lemma VendorShown(v: Option<Value>, text: Option<seq<uint16>>)
    requires text.Some? ==> ReadableText(text.value)
    requires TellsVendor(v, Vendor(text))
    ensures ShowsVendor(v, text)
  {
    hide TellsStatus, Get;
    if text.Some? {
      var s := text.value;
      forall n: nat | TextLength(s, n)
        ensures Vendor(text) ==
                if exists j :: 0 <= j < n && 0xd800 <= s[j] <= 0xdfff then VendorResult(Unsupported, [])
                else VendorResult(if n == 64 && s[64] != 0 then Truncated else Observed, s[..n])
      {
        VendorReported(s, n);
      }
      hide Vendor;
    }
  }

  lemma VariableShown(v: Option<Value>, st: SystemTable, w: Answers, x: Variable)
    requires TellsVariable(v, VariableOf(st, w, x))
    ensures ShowsVariable(v, st.variableService, w.variables(x))
  {
    VariableReported(w.variables(x).status, w.variables(x).size, w.variables(x).value);
    hide TellsStatus, Get, IsHex, ParseVar;
  }

  lemma LevelShown(v: Option<Value>, raw: uint64)
    requires TellsEl(v, DecodeEl(raw))
    ensures ShowsLevel(v, raw)
  {
    LevelReported(raw);
    hide TellsStatus, Get, IsHex, DecodeEl;
  }

  lemma PlainTold(v: Option<Value>, x: Facts)
    requires Tells(v, x)
    ensures TellsVendor(Get(v, "firmware_vendor"), x.vendor)
    ensures IsNumber(Get(v, "firmware_revision"), x.firmwareRevision as nat)
    ensures IsNumber(Get(v, "uefi_revision"), x.uefiRevision as nat)
    ensures TellsImage(Get(v, "loaded_image"), x.loaded, x.imageStatus) && TellsPath(Get(v, "device_path"), x.loaded)
    ensures TellsVariable(Get(v, "SecureBoot"), x.secure) && TellsVariable(Get(v, "SetupMode"), x.setup)
    ensures TellsEl(Get(v, "CurrentEL"), x.el)
  {
  }

  function ImageSeen(st: SystemTable, w: Answers): Option<LoadedImage> {
    if st.protocolService && w.protocol.0 < 0x8000_0000_0000_0000 then w.protocol.1 else None
  }

  function ImageAnswer(st: SystemTable, w: Answers): Status {
    if st.protocolService then w.protocol.0 else 0x8000_0000_0000_0003
  }

  lemma ImageIs(st: SystemTable, w: Answers)
    ensures LoadedOf(st, w) == ImageSeen(st, w) && ImageStatusOf(st, w) == ImageAnswer(st, w)
  {
  }

  lemma ShowsPlainIs(v: Option<Value>, st: SystemTable, w: Answers)
    requires ShowsVendor(Get(v, "firmware_vendor"), st.vendor)
    requires IsNumber(Get(v, "firmware_revision"), st.firmwareRevision as nat)
    requires IsNumber(Get(v, "uefi_revision"), st.revision as nat)
    requires TellsImage(Get(v, "loaded_image"), ImageSeen(st, w), ImageAnswer(st, w))
    requires TellsPath(Get(v, "device_path"), ImageSeen(st, w))
    requires ShowsVariable(Get(v, "SecureBoot"), st.variableService, w.variables(SecureBoot))
    requires ShowsVariable(Get(v, "SetupMode"), st.variableService, w.variables(SetupMode))
    requires ShowsLevel(Get(v, "CurrentEL"), w.el)
    ensures ShowsPlain(v, st, w)
  {
    hide Get, TellsImage, TellsPath, ShowsVendor, ShowsVariable, ShowsLevel, IsNumber, ImageSeen, ImageAnswer;
  }

  lemma PlainShown(v: Option<Value>, st: SystemTable, w: Answers)
    requires Borrowable(st) && Tells(v, FactsSeen(st, w))
    ensures ShowsPlain(v, st, w)
  {
    hide *;
    BorrowableMeans(st);
    SeenIs(st, w);
    ImageIs(st, w);
    PlainTold(v, FactsSeen(st, w));
    VendorShown(Get(v, "firmware_vendor"), st.vendor);
    VariableShown(Get(v, "SecureBoot"), st, w, SecureBoot);
    VariableShown(Get(v, "SetupMode"), st, w, SetupMode);
    LevelShown(Get(v, "CurrentEL"), w.el);
    ShowsPlainIs(v, st, w);
  }

  // Vendor text, revisions, loaded image, variables and exception level.
  lemma SuccessShows(st: SystemTable, w: Answers, calls: seq<Call>)
    requires Succeeds(st, w, calls)
    ensures ShowsPlain(Shown(calls), st, w)
  {
    hide *;
    SucceedsMeans(st, w, calls);
    SuccessTells(st, w, calls);
    PlainShown(Shown(calls), st, w);
  }

  // -------------------------------------------------------------------- the devicetree

  // The search, carried to what the probe sees: the first match decides.
  lemma DevicetreeSeen(st: SystemTable, w: Answers, i: nat)
    requires Borrowable(st) && st.tables.Some? && FirstMatch(st.tableCount, st.tables.value, i)
    ensures var x, table := FactsSeen(st, w).dt, st.tables.value[i].table;
            && x.searched == i + 1 && x.total == st.tableCount
            && (table.None? ==> x.dt == Refused(Malformed, TableNull, 0, 0, 0))
            && (x.dt.state == Observed <==>
                table.Some? && Declares(table.value) && exists rs, root :: Valid(Declared(table.value), rs, root))
  {
    hide FactsSeen, FindDt, ParseFirmware, FirstMatch, Declares, Valid, Searchable, Borrowable, RecordOf;
    SeenIs(st, w);
    SearchFound(st.tableCount, st.tables.value, i);
    ObservedDt(st.tableCount, st.tables.value, i);
  }

  lemma DevicetreeTold(v: Option<Value>, x: Facts)
    requires Tells(v, x)
    ensures TellsDt(Get(v, "firmware_dt"), x.dt)
  {
  }

  ghost predicate ShowsDt(v: Option<Value>, p: seq<uint8>, i: nat, total: uint64, root: Node) {
    && |p| >= 40
    && TellsStatus(v, Observed, NoDetail)
    && IsNumber(Get(v, "tables_searched"), i + 1)
    && IsNumber(Get(v, "tables_total"), total as nat)
    && IsNumber(Get(v, "size"), Be32(p, 4) as nat)
    && IsNumber(Get(v, "version"), Be32(p, 20) as nat)
    && IsNumber(Get(v, "last_comp_version"), Be32(p, 24) as nat)
    && TellsModel(Get(v, "model"), ModelOf(root), true)
  }

  lemma DtShown(v: Option<Value>, x: DtView, p: seq<uint8>, i: nat, root: Node)
    requires TellsDt(v, x) && |p| >= 40 && x.searched == i + 1
    requires x.dt == DtResult(Observed, NoDetail, Be32(p, 4), Be32(p, 20), Be32(p, 24), ModelOf(root))
    ensures ShowsDt(v, p, i, x.total, root)
  {
    hide Get, TellsStatus, TellsModel, ModelOf, IsNumber;
  }

  // The first match is entry `i`, and `p` is what lies behind it.
  ghost predicate FoundAt(st: SystemTable, i: nat, p: seq<uint8>) {
    && st.tables.Some? && FirstMatch(st.tableCount, st.tables.value, i)
    && st.tables.value[i].table == Some(p)
  }

  lemma FoundSeen(st: SystemTable, w: Answers, i: nat, p: seq<uint8>, rs: seq<Reservation>, root: Node)
    requires Borrowable(st) && FoundAt(st, i, p) && Declares(p) && Valid(Declared(p), rs, root)
    ensures |p| >= 40
    ensures FactsSeen(st, w).dt.searched == i + 1 && FactsSeen(st, w).dt.total == st.tableCount
    ensures FactsSeen(st, w).dt.dt ==
            DtResult(Observed, NoDetail, Be32(p, 4), Be32(p, 20), Be32(p, 24), ModelOf(root))
  {
    hide FactsSeen, FindDt, ParseFirmware, FirstMatch, Valid, Searchable, Borrowable, RecordOf, ModelOf, Be32;
    SeenIs(st, w);
    SearchFound(st.tableCount, st.tables.value, i);
    ObservedDt(st.tableCount, st.tables.value, i);
  }

  // After success the display names the model of the tree in the first table with the
  // devicetree GUID, when that table is a valid blob.
  lemma DevicetreeShown(st: SystemTable, w: Answers, calls: seq<Call>, i: nat, p: seq<uint8>, rs: seq<Reservation>,
                        root: Node)
    requires Succeeds(st, w, calls) && FoundAt(st, i, p) && Declares(p) && Valid(Declared(p), rs, root)
    ensures ShowsDt(Get(Shown(calls), "firmware_dt"), p, i, st.tableCount, root)
  {
    hide *;
    SucceedsMeans(st, w, calls);
    FoundSeen(st, w, i, p, rs, root);
    SuccessTells(st, w, calls);
    DevicetreeTold(Shown(calls), FactsSeen(st, w));
    DtShown(Get(Shown(calls), "firmware_dt"), FactsSeen(st, w).dt, p, i, root);
  }

  // -------------------------------------------------------------------- the memory map

  // Round `j`, the first whose buffer the map fits, reads these descriptors, all acceptable.
  ghost predicate Supplied(rounds: nat -> Round, j: nat, ds: seq<Descriptor>) {
    var r, offered := rounds(j), Offered(rounds, 0, 4096, j);
    && Decides(rounds, j) && Granted(r) && r.read == 0
    && r.version == 1 && 40 <= r.stride
    && ds != [] && r.size as nat == Offset(r.stride as nat, |ds|) && r.size as nat <= offered
    && LaidOut(Contents(r, offered), r.stride as nat, ds)
    && forall d :: d in ds ==> Acceptable(d)
  }

  lemma SuppliedSeen(rounds: nat -> Round, j: nat, ds: seq<Descriptor>)
    requires Supplied(rounds, j, ds)
    ensures var out := Acquisition(rounds, true).outcome;
            && Enumerates(out.result, ds, rounds(j).stride as nat)
            && out.attempts == j + 1 && out.efi == 0 && out.release == rounds(j).freed
  {
    CountOf(rounds(j).stride as nat, |ds|);
    OutcomeDecided(rounds, j);
    SmallStride(rounds(j).stride as nat, |ds|);
    hide Acquisition, LaidOut, Enumerates, Blames, Contents, Decides, Acceptable, Offset, Offered;
  }

  lemma SmallStride(stride: nat, n: nat)
    requires n > 0
    ensures stride <= Offset(stride, n) && (stride > 0 ==> Offset(stride, n) > 0)
  {
    Scaled(1, n, stride);
  }

  ghost predicate ShowsDescriptor(v: Option<Value>, d: Descriptor) {
    && IsNumber(Get(v, "type"), d.kind as nat)
    && IsHex(Get(v, "physical"), d.physical)
    && IsNumber(Get(v, "pages"), d.pages as nat)
    && IsHex(Get(v, "attributes"), d.attributes)
  }

  ghost predicate ShowsDescriptors(v: Option<Value>, ds: seq<Descriptor>) {
    && v.Some? && v.value.Arr?
    && |v.value.items| == (if |ds| < 12 then |ds| else 12)
    && forall i :: 0 <= i < |v.value.items| ==> ShowsDescriptor(Some(v.value.items[i]), ds[i])
  }

  ghost predicate ShowsMap(v: Option<Value>, stride: nat, attempts: nat, release: Status, ds: seq<Descriptor>) {
    && TellsStatus(v, Observed, NoDetail)
    && IsHex(Get(v, "efi_status"), 0)
    && IsNumber(Get(v, "attempts"), attempts)
    && IsHex(Get(v, "release_status"), release)
    && IsNumber(Get(v, "count"), |ds|)
    && IsNumber(Get(v, "descriptor_stride"), stride)
    && IsNumber(Get(v, "descriptor_version"), 1)
    && ShowsDescriptors(Get(v, "descriptors"), ds)
    && IsNumber(Get(v, "omitted"), if |ds| < 12 then 0 else |ds| - 12)
  }

  lemma EntriesShown(v: Option<Value>, m: MapResult, ds: seq<Descriptor>, stride: nat)
    requires TellsEntries(v, m.entries) && Enumerates(m, ds, stride)
    ensures ShowsDescriptors(v, ds)
  {
    hide Get, IsHex, IsNumber;
    forall i | 0 <= i < |m.entries|
      ensures ShowsDescriptor(Some(v.value.items[i]), ds[i])
    {
      assert TellsEntry(Some(v.value.items[i]), m.entries[i]);
    }
  }

  lemma MapShown(v: Option<Value>, a: Outcome, ds: seq<Descriptor>, stride: nat)
    requires TellsMap(v, a) && Enumerates(a.result, ds, stride) && a.efi == 0
    ensures ShowsMap(v, stride, a.attempts, a.release, ds)
  {
    EntriesShown(Get(v, "descriptors"), a.result, ds, stride);
    hide Get, IsHex, TellsStatus, TellsEntries, ShowsDescriptors;
  }

  lemma MapTold(v: Option<Value>, x: Facts)
    requires Tells(v, x)
    ensures TellsMap(Get(v, "boot_services_map"), x.acquired)
  {
  }

  // After success the display lists the first twelve descriptors the firmware supplied and
  // counts the others.
  lemma DescriptorsShown(st: SystemTable, w: Answers, calls: seq<Call>, j: nat, ds: seq<Descriptor>)
    requires Succeeds(st, w, calls) && st.poolServices && Supplied(w.rounds, j, ds)
    ensures ShowsMap(Get(Shown(calls), "boot_services_map"), w.rounds(j).stride as nat, j + 1, w.rounds(j).freed, ds)
  {
    hide *;
    SucceedsMeans(st, w, calls);
    SeenIs(st, w);
    SuppliedSeen(w.rounds, j, ds);
    SuccessTells(st, w, calls);
    MapTold(Shown(calls), FactsSeen(st, w));
    MapShown(Get(Shown(calls), "boot_services_map"), Acquisition(w.rounds, true).outcome, ds,
             w.rounds(j).stride as nat);
  }

  // -------------------------------------------------------------------- truncation

  // What is printed in place of a record that does not fit.
  function MarkerMembers(): seq<Member> {
    [Field(SchemaName(), Num(2)), Field(RecordTruncatedName(), Bool(true))]
  }

  lemma MarkerPieces()
    ensures Marker() ==
            "{" + ("\"" + "schema" + "\"") + ":" + "2" + "," + ("\"" + "record_truncated" + "\"") + ":" + "true" + "}"
            + Newline()
  {
    var first, second := "\"" + "schema" + "\"", "\"" + "record_truncated" + "\"";
    assert "{" + first + ":" + "2" + "," == "{\"schema\":2,";
    assert second + ":" + "true" + "}" + Newline() == "\"record_truncated\":true}\r\n";
  }

  lemma NameQuoted(k: PlainText, v: Value)
    ensures Quoted(Field(k, v).name) == "\"" + k + "\""
  {
    PlainEscape(k);
  }

  lemma SmallTexts()
    ensures Print(Num(2)) == "2" && Print(Bool(true)) == "true"
    ensures SchemaName() == "schema" && RecordTruncatedName() == "record_truncated"
  {
    assert Decimal(2) == "2";
  }

  lemma MarkerPrints()
    ensures Marker() == Print(Obj(MarkerMembers())) + Newline()
  {
    var m, n := Field(SchemaName(), Num(2)), Field(RecordTruncatedName(), Bool(true));
    assert MarkerMembers() == [m, n] && m.value == Num(2) && n.value == Bool(true);
    NameQuoted(SchemaName(), Num(2));
    NameQuoted(RecordTruncatedName(), Bool(true));
    hide *;
    SmallTexts();
    MarkerPieces();
    ObjectNotation(m, n);
  }

  lemma MarkerTells()
    ensures IsNumber(Get(Some(Obj(MarkerMembers())), "schema"), 2)
    ensures Get(Some(Obj(MarkerMembers())), "record_truncated") == Some(Bool(true))
  {
    var v := Obj(MarkerMembers());
    TopMarks();
    LastMarks();
    Leaves();
    FirstNameTexts();
    LaterNameTexts();
    assert Mark(v.members[0].name) != Mark(v.members[1].name);
    assert UniqueNames(v);
    hide UniqueNames, Field, Get, SchemaName, RecordTruncatedName;
    Named(v, 0, SchemaName(), Num(2));
    Named(v, 1, RecordTruncatedName(), Bool(true));
  }

  lemma ContractDisplayed(record: string, release: Status, capacity: nat, status: Status, calls: seq<Call>)
    requires Contract(record, release, capacity, status, calls) && AllDisplayed(calls)
    ensures Emitted(calls) == UnitsOf(WholeText(record, |record| > capacity - 1))
  {
    hide Emitted, UnitsOf, WholeText, Disciplined, AllDisplayed;
  }

  lemma MarkerWhole(record: string)
    ensures WholeText(record, true) == WholeText(Print(Obj(MarkerMembers())), false)
  {
    MarkerPrints();
    hide Banner, Marker, Newline, Print, MarkerMembers;
    Assoc(Banner(), Print(Obj(MarkerMembers())), Newline());
  }

  lemma ValueShown(v: Value, calls: seq<Call>)
    requires Emitted(calls) == UnitsOf(WholeText(Print(v), false))
    ensures Shown(calls) == Some(v)
  {
    ShownIs(calls);
    hide *;
    PrintPrintable(v);
    RecordPartIs(Print(v));
    RoundTrip(v);
  }

  // Whatever the capacity: when everything was displayed, the display is a JSON object of
  // schema 2 that says whether the record had to be left out, and if not, is the record.
  lemma TruncationTold(st: SystemTable, w: Answers, capacity: nat, status: Status, calls: seq<Call>)
    requires Borrowable(st) && MainRun(st, w, capacity, status, calls) && AllDisplayed(calls)
    ensures var truncated, v := |RecordOf(st, w)| > capacity - 1, Shown(calls);
            && IsNumber(Get(v, "schema"), 2) && Get(v, "record_truncated") == Some(Bool(truncated))
            && (!truncated ==> Tells(v, FactsSeen(st, w)))
  {
    hide *;
    RunContract(st, w, capacity, status, calls);
    ContractDisplayed(RecordOf(st, w), ReleaseIn(calls), capacity, status, calls);
    if |RecordOf(st, w)| > capacity - 1 {
      MarkerWhole(RecordOf(st, w));
      ValueShown(Obj(MarkerMembers()), calls);
      MarkerTells();
    } else {
      SeenIs(st, w);
      ValueShown(RecordValue(FactsSeen(st, w)), calls);
      ValueTells(FactsSeen(st, w));
      FlagTold(Shown(calls), FactsSeen(st, w));
    }
  }

  lemma FlagTold(v: Option<Value>, x: Facts)
    requires Tells(v, x)
    ensures IsNumber(Get(v, "schema"), 2) && Get(v, "record_truncated") == Some(Bool(false))
  {
  }
}
