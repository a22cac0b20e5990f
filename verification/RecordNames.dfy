// Member names are pairwise distinct in every object of the record, at every depth, so a
// reader may look any of them up by name.
module RecordNames {
  import opened Machine
  import opened Details
  import opened Blob
  import opened MemoryMap
  import opened FirmwareModel
  import opened MapProtocol
  import opened Json
  import opened WriterModel
  import opened RecordText
  import opened JsonAppend
  import opened Observations
  import opened Record

  predicate Distinct(ms: seq<Member>) {
    forall i, j :: 0 <= i < j < |ms| ==> ms[i].name != ms[j].name
  }

  predicate UniqueNames(v: Value) {
    match v
    case Obj(ms) => Distinct(ms) && forall i :: 0 <= i < |ms| ==> UniqueNames(ms[i].value)
    case Arr(items) => forall i :: 0 <= i < |items| ==> UniqueNames(items[i])
    case _ => true
  }

  // Length and first unit of a name: enough to tell the names of one object apart.
  function Mark(name: seq<uint16>): nat {
    if name == [] then 0 else Code(|name|, name[0] as nat)
  }

  function Code(length: nat, first: nat): nat {
    length * 256 + first
  }

  function MarkOf(k: PlainText): nat {
    Mark(UnitsOf(k))
  }

  // An object under construction, its names marked by `marks`.
  predicate Building(ms: seq<Member>, marks: set<nat>) {
    && Distinct(ms)
    && forall i :: 0 <= i < |ms| ==> UniqueNames(ms[i].value) && Mark(ms[i].name) in marks
  }

  lemma StartObject(k: PlainText, v: Value) returns (ms: seq<Member>, marks: set<nat>)
    requires UniqueNames(v)
    ensures ms == [Field(k, v)] && marks == {MarkOf(k)} && Building(ms, marks)
  {
    ms, marks := [Field(k, v)], {MarkOf(k)};
  }

  lemma Extend(before: seq<Member>, marked: set<nat>, k: PlainText, v: Value)
    returns (ms: seq<Member>, marks: set<nat>)
    requires Building(before, marked) && UniqueNames(v) && MarkOf(k) !in marked
    ensures ms == before + [Field(k, v)] && marks == marked + {MarkOf(k)} && Building(ms, marks)
  {
    hide UniqueNames, Mark, UnitsOf;
    ms, marks := before + [Field(k, v)], marked + {MarkOf(k)};
    forall i, j | 0 <= i < j < |ms|
      ensures ms[i].name != ms[j].name
    {
      if j == |before| {
        assert Mark(ms[i].name) != Mark(ms[j].name);
      }
    }
  }

  lemma Finish(ms: seq<Member>, marks: set<nat>)
    requires Building(ms, marks)
    ensures UniqueNames(Obj(ms))
  {
    hide Distinct, Mark;
  }

  // Numbers, texts and null have no members.
  lemma Leaves()
    ensures UniqueNames(Null) && (forall b :: UniqueNames(Bool(b))) && (forall n :: UniqueNames(Num(n)))
    ensures forall u :: UniqueNames(Str(u))
    ensures forall s :: UniqueNames(Phrase(s))
    ensures forall h :: UniqueNames(HexValueOf(h))
    ensures forall d :: UniqueNames(DetailValue(d))
    ensures forall known, n :: UniqueNames(NumIf(known, n))
  {
  }

  // -------------------------------------------------------------------- the marks

  lemma StatusMarks()
    ensures MarkOf(StatusName()) == Code(6, 's' as nat)
    ensures MarkOf(DetailName()) == Code(6, 'd' as nat)
    ensures MarkOf(EfiStatusName()) == Code(10, 'e' as nat)
    ensures MarkOf(ValueName()) == Code(5, 'v' as nat)
  {
  }

  lemma SmallMarks()
    ensures MarkOf(UnitsName()) == Code(5, 'u' as nat)
    ensures MarkOf(BaseName()) == Code(4, 'b' as nat)
    ensures MarkOf(SizeName()) == Code(4, 's' as nat)
    ensures MarkOf(RepresentationName()) == Code(14, 'r' as nat)
  {
  }

  lemma EntryMarks()
    ensures MarkOf(TypeName()) == Code(4, 't' as nat)
    ensures MarkOf(PhysicalName()) == Code(8, 'p' as nat)
    ensures MarkOf(PagesName()) == Code(5, 'p' as nat)
    ensures MarkOf(AttributesName()) == Code(10, 'a' as nat)
  {
  }

  lemma MapMarks()
    ensures MarkOf(AttemptsName()) == Code(8, 'a' as nat)
    ensures MarkOf(ReleaseStatusName()) == Code(14, 'r' as nat)
    ensures MarkOf(CountName()) == Code(5, 'c' as nat)
    ensures MarkOf(OmittedName()) == Code(7, 'o' as nat)
  {
  }

  lemma DescriptorMarks()
    ensures MarkOf(DescriptorStrideName()) == Code(17, 'd' as nat)
    ensures MarkOf(DescriptorVersionName()) == Code(18, 'd' as nat)
    ensures MarkOf(DescriptorsName()) == Code(11, 'd' as nat)
  {
  }

  lemma DtMarks()
    ensures MarkOf(TablesSearchedName()) == Code(15, 't' as nat)
    ensures MarkOf(TablesTotalName()) == Code(12, 't' as nat)
    ensures MarkOf(VersionName()) == Code(7, 'v' as nat)
    ensures MarkOf(LastCompVersionName()) == Code(17, 'l' as nat)
  {
  }

  lemma ModelMarks()
    ensures MarkOf(ModelName()) == Code(5, 'm' as nat)
    ensures MarkOf(LengthName()) == Code(6, 'l' as nat)
    ensures MarkOf(RawName()) == Code(3, 'r' as nat)
    ensures MarkOf(ReportedLevelName()) == Code(14, 'r' as nat)
  {
  }

  lemma TopMarks()
    ensures MarkOf(SchemaName()) == Code(6, 's' as nat)
    ensures MarkOf(BuildName()) == Code(5, 'b' as nat)
    ensures MarkOf(FirmwareVendorName()) == Code(15, 'f' as nat)
    ensures MarkOf(FirmwareRevisionName()) == Code(17, 'f' as nat)
  {
  }

  lemma MiddleMarks()
    ensures MarkOf(UefiRevisionName()) == Code(13, 'u' as nat)
    ensures MarkOf(LoadedImageName()) == Code(12, 'l' as nat)
    ensures MarkOf(DevicePathName()) == Code(11, 'd' as nat)
    ensures MarkOf(BootServicesMapName()) == Code(17, 'b' as nat)
  {
  }

  lemma LaterMarks()
    ensures MarkOf(FirmwareDtName()) == Code(11, 'f' as nat)
    ensures MarkOf(SecureBootName()) == Code(10, 'S' as nat)
    ensures MarkOf(SetupModeName()) == Code(9, 'S' as nat)
  {
  }

  lemma LastMarks()
    ensures MarkOf(CurrentElName()) == Code(9, 'C' as nat)
    ensures MarkOf(ExecutionContextName()) == Code(17, 'e' as nat)
    ensures MarkOf(RecordTruncatedName()) == Code(16, 'r' as nat)
  {
  }

  // -------------------------------------------------------------------- the objects

  function StatusMarked(): set<nat> {
    {MarkOf(StatusName()), MarkOf(DetailName())}
  }

  lemma StatusNames(s: State, d: Detail)
    ensures Building(StatusMembers(s, d), StatusMarked())
  {
    StatusMarks();
    Leaves();
    hide Building, MarkOf, UniqueNames, Field, Phrase, DetailValue, StateName;
    var ms, marks := StartObject(StatusName(), Phrase(StateName(s)));
    ms, marks := Extend(ms, marks, DetailName(), DetailValue(d));
    assert marks == StatusMarked();
  }

  lemma VendorNames(v: VendorResult)
    ensures UniqueNames(VendorValue(v))
  {
    StatusMarks();
    SmallMarks();
    Leaves();
    var state := v.state;
    var detail := if v.state == Unsupported then Ucs2Surrogate else NoDetail;
    StatusNames(state, detail);
    hide Building, MarkOf, UniqueNames, Field, StatusMembers, EntryValues, ModelValue, OmittedCount;
    hide Wide, NumIf, HexValueOf, Phrase, DetailValue;
    var ms, marks := StatusMembers(state, detail), StatusMarked();
    ms, marks := Extend(ms, marks, UnitsName(), Num(|v.text|));
    ms, marks := Extend(ms, marks, ValueName(), if HasText(v.state) then Str(v.text) else Null);
    Finish(ms, marks);
  }

  lemma ImageNames(loaded: Option<LoadedImage>, status: Status)
    ensures UniqueNames(ImageValue(loaded, status))
  {
    StatusMarks();
    SmallMarks();
    Leaves();
    var state := if loaded.Some? then Observed else Unavailable;
    var detail := if loaded.Some? then NoDetail else NoHandleProtocol;
    StatusNames(state, detail);
    hide Building, MarkOf, UniqueNames, Field, StatusMembers, EntryValues, ModelValue, OmittedCount;
    hide Wide, NumIf, HexValueOf, Phrase, DetailValue;
    var ms, marks := StatusMembers(state, detail), StatusMarked();
    ms, marks := Extend(ms, marks, EfiStatusName(), HexValueOf(status));
    ms, marks := Extend(ms, marks, BaseName(), if loaded.Some? then HexValueOf(loaded.value.base) else Null);
    ms, marks := Extend(ms, marks, SizeName(), if loaded.Some? then Num(loaded.value.size as nat) else Null);
    Finish(ms, marks);
  }

  lemma PathNames(loaded: Option<LoadedImage>)
    ensures UniqueNames(PathValue(loaded))
  {
    StatusMarks();
    SmallMarks();
    Leaves();
    var state := if loaded.None? then NotProbed else if loaded.value.hasPath then Observed else Unavailable;
    var detail := NoDetail;
    StatusNames(state, detail);
    hide Building, MarkOf, UniqueNames, Field, StatusMembers, EntryValues, ModelValue, OmittedCount;
    hide Wide, NumIf, HexValueOf, Phrase, DetailValue;
    var ms, marks := StatusMembers(state, detail), StatusMarked();
    ms, marks := Extend(ms, marks, RepresentationName(), Phrase(PointerPresentOnly()));
    Finish(ms, marks);
  }

  lemma EntryNames(e: Entry)
    ensures UniqueNames(EntryValue(e))
  {
    EntryMarks();
    Leaves();
    hide Building, MarkOf, UniqueNames, Field, StatusMembers, EntryValues, ModelValue, OmittedCount;
    hide Wide, NumIf, HexValueOf, Phrase, DetailValue;
    var ms, marks := StartObject(TypeName(), Num(e.kind as nat));
    ms, marks := Extend(ms, marks, PhysicalName(), HexValueOf(e.physical));
    ms, marks := Extend(ms, marks, PagesName(), Num(e.pages as nat));
    ms, marks := Extend(ms, marks, AttributesName(), HexValueOf(e.attributes));
    Finish(ms, marks);
  }

  lemma EntriesNames(es: seq<Entry>)
    ensures UniqueNames(Arr(EntryValues(es)))
  {
    hide EntryValue;
    EntryCount(es);
    forall i | 0 <= i < |es|
      ensures UniqueNames(EntryValues(es)[i])
    {
      EntryNames(es[i]);
    }
  }

  lemma MapNames(a: Outcome)
    ensures UniqueNames(MapValue(a))
  {
    StatusMarks();
    MapMarks();
    DescriptorMarks();
    Leaves();
    var m, ok := a.result, a.result.state == Observed;
    var listed := if ok then m.entries else [];
    EntriesNames(listed);
    StatusNames(a.result.state, a.result.detail);
    hide Building, MarkOf, UniqueNames, Field, StatusMembers, EntryValues, ModelValue, OmittedCount;
    hide Wide, NumIf, HexValueOf, Phrase, DetailValue;
    var ms, marks := StatusMembers(a.result.state, a.result.detail), StatusMarked();
    ms, marks := Extend(ms, marks, EfiStatusName(), HexValueOf(a.efi));
    ms, marks := Extend(ms, marks, AttemptsName(), Num(a.attempts));
    ms, marks := Extend(ms, marks, ReleaseStatusName(), HexValueOf(a.release));
    ms, marks := Extend(ms, marks, CountName(), NumIf(ok, m.count as nat));
    ms, marks := Extend(ms, marks, DescriptorStrideName(), NumIf(ok, m.stride as nat));
    ms, marks := Extend(ms, marks, DescriptorVersionName(), NumIf(ok, m.version as nat));
    ms, marks := Extend(ms, marks, DescriptorsName(), Arr(EntryValues(listed)));
    ms, marks := Extend(ms, marks, OmittedName(), NumIf(ok, OmittedCount(m.count as nat)));
    Finish(ms, marks);
  }

  lemma ModelNames(m: Model, ok: bool)
    ensures UniqueNames(ModelValue(m, ok))
  {
    StatusMarks();
    ModelMarks();
    Leaves();
    var has := ok && HasText(m.state);
    StatusNames(if ok then m.state else NotProbed, NoDetail);
    hide Building, MarkOf, UniqueNames, Field, StatusMembers, EntryValues, OmittedCount;
    hide Wide, NumIf, HexValueOf, Phrase, DetailValue;
    var ms, marks := StatusMembers(if ok then m.state else NotProbed, NoDetail), StatusMarked();
    ms, marks := Extend(ms, marks, LengthName(), NumIf(has, m.length));
    ms, marks := Extend(ms, marks, ValueName(), if has then Str(Wide(m.text)) else Null);
    Finish(ms, marks);
  }

  lemma DtNames(v: DtView)
    ensures UniqueNames(DtValue(v))
  {
    StatusMarks();
    DtMarks();
    SmallMarks();
    ModelMarks();
    Leaves();
    var d, ok := v.dt, v.dt.state == Observed;
    ModelNames(d.model, ok);
    StatusNames(v.dt.state, v.dt.detail);
    hide Building, MarkOf, UniqueNames, Field, StatusMembers, EntryValues, ModelValue, OmittedCount;
    hide Wide, NumIf, HexValueOf, Phrase, DetailValue;
    var ms, marks := StatusMembers(v.dt.state, v.dt.detail), StatusMarked();
    ms, marks := Extend(ms, marks, TablesSearchedName(), Num(v.searched));
    ms, marks := Extend(ms, marks, TablesTotalName(), Num(v.total as nat));
    ms, marks := Extend(ms, marks, SizeName(), NumIf(ok, d.size as nat));
    ms, marks := Extend(ms, marks, VersionName(), NumIf(ok, d.version as nat));
    ms, marks := Extend(ms, marks, LastCompVersionName(), NumIf(ok, d.lastComp as nat));
    ms, marks := Extend(ms, marks, ModelName(), ModelValue(d.model, ok));
    Finish(ms, marks);
  }

  lemma VariableNames(v: VarResult)
    ensures UniqueNames(VariableValue(v))
  {
    StatusMarks();
    Leaves();
    StatusNames(v.state, v.detail);
    hide Building, MarkOf, UniqueNames, Field, StatusMembers, EntryValues, ModelValue, OmittedCount;
    hide Wide, NumIf, HexValueOf, Phrase, DetailValue;
    var ms, marks := StatusMembers(v.state, v.detail), StatusMarked();
    ms, marks := Extend(ms, marks, EfiStatusName(), HexValueOf(v.status));
    ms, marks := Extend(ms, marks, ValueName(), NumIf(v.state == Observed, v.value as nat));
    Finish(ms, marks);
  }

  lemma ElNames(el: ElResult)
    ensures UniqueNames(ElValue(el))
  {
    StatusMarks();
    ModelMarks();
    Leaves();
    StatusNames(el.state, NoDetail);
    hide Building, MarkOf, UniqueNames, Field, StatusMembers, EntryValues, ModelValue, OmittedCount;
    hide Wide, NumIf, HexValueOf, Phrase, DetailValue;
    var ms, marks := StatusMembers(el.state, NoDetail), StatusMarked();
    ms, marks := Extend(ms, marks, RawName(), HexValueOf(el.raw));
    ms, marks := Extend(ms, marks, ReportedLevelName(), NumIf(el.state == Observed, el.level as nat));
    Finish(ms, marks);
  }

  // The first half of the record's members.
  ghost function FirstMembers(x: Facts): seq<Member> {
    [Field(SchemaName(), Num(2))]
    + [Field(BuildName(), Phrase(BuildId()))]
    + [Field(FirmwareVendorName(), VendorValue(x.vendor))]
    + [Field(FirmwareRevisionName(), Num(x.firmwareRevision as nat))]
    + [Field(UefiRevisionName(), Num(x.uefiRevision as nat))]
    + [Field(LoadedImageName(), ImageValue(x.loaded, x.imageStatus))]
    + [Field(DevicePathName(), PathValue(x.loaded))]
  }

  function FirstMarked(): set<nat> {
    {MarkOf(SchemaName()), MarkOf(BuildName()), MarkOf(FirmwareVendorName()), MarkOf(FirmwareRevisionName()),
     MarkOf(UefiRevisionName()), MarkOf(LoadedImageName()), MarkOf(DevicePathName())}
  }

  lemma FirstNames(x: Facts)
    ensures Building(FirstMembers(x), FirstMarked())
  {
    TopMarks();
    MiddleMarks();
    Leaves();
    VendorNames(x.vendor);
    ImageNames(x.loaded, x.imageStatus);
    PathNames(x.loaded);
    hide Building, MarkOf, UniqueNames, Field, Phrase, VendorValue, ImageValue, PathValue;
    hide SchemaName, BuildName, FirmwareVendorName, FirmwareRevisionName, UefiRevisionName;
    hide LoadedImageName, DevicePathName;
    var ms, marks := StartObject(SchemaName(), Num(2));
    ms, marks := Extend(ms, marks, BuildName(), Phrase(BuildId()));
    ms, marks := Extend(ms, marks, FirmwareVendorName(), VendorValue(x.vendor));
    ms, marks := Extend(ms, marks, FirmwareRevisionName(), Num(x.firmwareRevision as nat));
    ms, marks := Extend(ms, marks, UefiRevisionName(), Num(x.uefiRevision as nat));
    ms, marks := Extend(ms, marks, LoadedImageName(), ImageValue(x.loaded, x.imageStatus));
    ms, marks := Extend(ms, marks, DevicePathName(), PathValue(x.loaded));
    assert marks == FirstMarked();
  }

  lemma RecordUnique(x: Facts)
    ensures UniqueNames(RecordValue(x))
  {
    MiddleMarks();
    LaterMarks();
    LastMarks();
    Leaves();
    FirstNames(x);
    SplitMembers(x);
    FirstMarkedIs();
    hide Building, MarkOf, UniqueNames, Field, Phrase, FirstMembers, FirstMarked, RecordValue;
    hide MapValue, DtValue, VariableValue, ElValue;
    hide BootServicesMapName, FirmwareDtName, SecureBootName, SetupModeName;
    hide CurrentElName, ExecutionContextName, RecordTruncatedName;
    MapNames(x.acquired);
    DtNames(x.dt);
    VariableNames(x.secure);
    VariableNames(x.setup);
    ElNames(x.el);
    var ms, marks := FirstMembers(x), FirstMarked();
    ms, marks := Extend(ms, marks, BootServicesMapName(), MapValue(x.acquired));
    ms, marks := Extend(ms, marks, FirmwareDtName(), DtValue(x.dt));
    ms, marks := Extend(ms, marks, SecureBootName(), VariableValue(x.secure));
    ms, marks := Extend(ms, marks, SetupModeName(), VariableValue(x.setup));
    ms, marks := Extend(ms, marks, CurrentElName(), ElValue(x.el));
    ms, marks := Extend(ms, marks, ExecutionContextName(), Phrase(NotEstablished()));
    ms, marks := Extend(ms, marks, RecordTruncatedName(), Bool(false));
    Finish(ms, marks);
  }

  lemma FirstMarkedIs()
    ensures FirstMarked() == {Code(6, 's' as nat), Code(5, 'b' as nat), Code(15, 'f' as nat), Code(17, 'f' as nat),
                              Code(13, 'u' as nat), Code(12, 'l' as nat), Code(11, 'd' as nat)}
  {
    TopMarks();
    MiddleMarks();
  }

  lemma SplitMembers(x: Facts)
    ensures RecordValue(x) == Obj(
              FirstMembers(x)
              + [Field(BootServicesMapName(), MapValue(x.acquired))]
              + [Field(FirmwareDtName(), DtValue(x.dt))]
              + [Field(SecureBootName(), VariableValue(x.secure))]
              + [Field(SetupModeName(), VariableValue(x.setup))]
              + [Field(CurrentElName(), ElValue(x.el))]
              + [Field(ExecutionContextName(), Phrase(NotEstablished()))]
              + [Field(RecordTruncatedName(), Bool(false))])
  {
    hide Field, Phrase, VendorValue, ImageValue, PathValue, MapValue, DtValue, VariableValue, ElValue;
  }
}
