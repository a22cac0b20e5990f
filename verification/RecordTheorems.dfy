// What holds of every record: it is one JSON object that decodes to the reported value,
// it is printable ASCII, and it always fits the production buffer.
module RecordTheorems {
  import opened Machine
  import opened Details
  import opened Blob
  import opened MemoryMap
  import opened FirmwareModel
  import opened MapProtocol
  import opened Json
  import opened WriterModel
  import opened RecordText
  import opened JsonAppend
  import opened Observations
  import opened Record

  const RECORD_CAPACITY := 4096

  // -------------------------------------------------------------------- well-formed JSON

  lemma RecordDecodes(x: Facts)
    ensures Read(Print(RecordValue(x))) == Some(RecordValue(x))
    ensures RecordValue(x).Obj?
  {
    hide Print, Read, Members;
    RoundTrip(RecordValue(x));
  }

  predicate Printable(s: string) {
    forall i :: 0 <= i < |s| ==> ' ' <= s[i] <= '~'
  }

  lemma PrintableJoin(a: string, b: string)
    requires Printable(a) && Printable(b)
    ensures Printable(a + b)
  {
  }

  lemma {:induction false} EscapePrintable(u: seq<uint16>)
    ensures Printable(Escape(u))
  {
    if u != [] {
      EscapePrintable(u[1..]);
      PrintableJoin(EscapeUnit(u[0]), Escape(u[1..]));
    }
  }

  // Every printed value is made of bytes 0x20 to 0x7e.
  lemma {:induction false} PrintPrintable(v: Value)
    ensures Printable(Print(v))
    decreases v, 1
  {
    hide Escape, Decimal, PrintItems, PrintMembers;
    match v
    case Null =>
    case Bool(_) =>
    case Num(n) => DecimalHead(n); assert forall i :: 0 <= i < |Decimal(n)| ==> Decimal(n)[i] in Decimal(n);
    case Str(u) => EscapePrintable(u);
    case Arr(items) =>
      if items != [] {
        ItemsPrintable(items);
        PrintableJoin("[", PrintItems(items));
      }
    case Obj(members) =>
      if members != [] {
        MembersPrintable(members);
        PrintableJoin("{", PrintMembers(members));
      }
  }

  lemma {:induction false} ItemsPrintable(items: seq<Value>)
    requires items != []
    ensures Printable(PrintItems(items))
    decreases items, 0
  {
    hide Print;
    PrintPrintable(items[0]);
    if |items| > 1 {
      ItemsPrintable(items[1..]);
    }
  }

  lemma {:induction false} MembersPrintable(members: seq<Member>)
    requires members != []
    ensures Printable(PrintMembers(members))
    decreases members, 0
  {
    hide Print, Escape;
    EscapePrintable(members[0].name);
    PrintPrintable(members[0].value);
    if |members| > 1 {
      MembersPrintable(members[1..]);
    }
  }

  // In an observed map every descriptor is either listed, in order, or counted as omitted.
  lemma EveryDescriptorCounted(a: Outcome)
    requires a.result.state == Observed && Listed(a.result)
    ensures exists listed, omitted ::
              && Field(DescriptorsName(), Arr(listed)) in MapValue(a).members
              && Field(OmittedName(), Num(omitted)) in MapValue(a).members
              && Field(CountName(), Num(a.result.count as nat)) in MapValue(a).members
              && |listed| + omitted == a.result.count as nat
              && |listed| == |a.result.entries|
              && forall i :: 0 <= i < |listed| ==> listed[i] == EntryValue(a.result.entries[i])
  {
    EntryCount(a.result.entries);
    ListedMembers(a);
    hide *;
    var listed, omitted := EntryValues(a.result.entries), OmittedCount(a.result.count as nat);
    assert |listed| + omitted == a.result.count as nat;
  }

  lemma ListedMembers(a: Outcome)
    requires a.result.state == Observed && Listed(a.result)
    ensures var ms := MapValue(a).members;
            && Field(DescriptorsName(), Arr(EntryValues(a.result.entries))) in ms
            && Field(OmittedName(), Num(OmittedCount(a.result.count as nat))) in ms
            && Field(CountName(), Num(a.result.count as nat)) in ms
    ensures |a.result.entries| + OmittedCount(a.result.count as nat) == a.result.count as nat
  {
    hide Field, HexValueOf, StatusMembers, EntryValues;
    var ms := MapValue(a).members;
    var n := |ms|;
    assert ms[n - 1] == Field(OmittedName(), Num(OmittedCount(a.result.count as nat)));
    assert ms[n - 2] == Field(DescriptorsName(), Arr(EntryValues(a.result.entries)));
    assert ms[n - 5] == Field(CountName(), Num(a.result.count as nat));
  }

  // -------------------------------------------------------------------- size

  // Characters of an open object.
  function OpenSize(ms: seq<Member>): nat {
    |OpenTo("", ms)|
  }

  lemma Grow(ms: seq<Member>, k: PlainText, v: Value)
    requires ms != []
    ensures OpenSize(ms + [Field(k, v)]) == OpenSize(ms) + |k| + 4 + |Print(v)|
  {
    hide OpenTo, To, Print;
    OpenStep("", ms, k, v);
    ToPrints(KeyTo(OpenTo("", ms), k), v);
    PlainEscape(k);
  }

  lemma SizeStart(k: PlainText, v: Value)
    ensures OpenSize([Field(k, v)]) == |k| + 4 + |Print(v)|
  {
    hide OpenTo, To, Print;
    OpenFirst("", k, v);
    ToPrints("" + ("{\"" + k + "\":"), v);
  }

  lemma SizeWhole(ms: seq<Member>)
    ensures |Print(Obj(ms))| == OpenSize(ms) + 1
  {
    hide OpenTo, Print;
    ToPrints("", Obj(ms));
    Pieces("", 0, 0, [], ms);
  }

  lemma PhraseSize(s: PlainText)
    ensures |Print(Phrase(s))| == |s| + 2
  {
    PlainEscape(s);
  }

  lemma HexSize(v: uint64)
    ensures |Print(HexValueOf(v))| == 20
  {
    HexPiece("", v);
    ToPrints("", HexValueOf(v));
  }

  // Numbers below 2^32 take at most 10 characters, below 2^64 at most 20, and null 4.
  lemma NumSize(known: bool, n: nat)
    ensures n <= 0xffff_ffff ==> |Print(NumIf(known, n))| <= 10 && |Print(Num(n))| <= 10
    ensures n <= UINT64_MAX as nat ==> |Print(NumIf(known, n))| <= 20 && |Print(Num(n))| <= 20
  {
    hide Decimal;
    TwentyDigits();
    if n <= 0xffff_ffff {
      DecimalLength(n, 10);
    }
    if n <= UINT64_MAX as nat {
      DecimalLength(n, 20);
    }
  }

  lemma StrSize(u: seq<uint16>)
    ensures |Print(Str(u))| <= 6 * |u| + 2
  {
    EscapeLength(u);
  }

  lemma StatusSize(s: State, d: Detail)
    ensures StatusMembers(s, d) != [] && OpenSize(StatusMembers(s, d)) <= 68
  {
    hide OpenSize, Print, UnitsOf, StateName, DetailText;
    SizeStart(StatusName(), Phrase(StateName(s)));
    Grow([Field(StatusName(), Phrase(StateName(s)))], DetailName(), DetailValue(d));
    PhraseSize(StateName(s));
    PhraseSize(DetailText(d));
    NullSize();
  }

  lemma NullSize()
    ensures |Print(Null)| == 4 && |Print(Bool(false))| == 5
  {
  }

  lemma VendorSize(v: VendorResult)
    requires |v.text| <= VENDOR_LIMIT
    ensures |Print(VendorValue(v))| <= 483
  {
    hide OpenSize, Print, UnitsOf, StatusMembers;
    var d := if v.state == Unsupported then Ucs2Surrogate else NoDetail;
    var text := if HasText(v.state) then Str(v.text) else Null;
    var xs := StatusMembers(v.state, d);
    StatusSize(v.state, d);
    Grow(xs, UnitsName(), Num(|v.text|));
    NumSize(true, |v.text|);
    xs := xs + [Field(UnitsName(), Num(|v.text|))];
    Grow(xs, ValueName(), text);
    StrSize(v.text);
    NullSize();
    SizeWhole(xs + [Field(ValueName(), text)]);
  }

  lemma ImageSize(loaded: Option<LoadedImage>, status: Status)
    ensures |Print(ImageValue(loaded, status))| <= 159
  {
    hide OpenSize, Print, UnitsOf, StatusMembers, HexValueOf;
    var s, d := if loaded.Some? then Observed else Unavailable, if loaded.Some? then NoDetail else NoHandleProtocol;
    var base := if loaded.Some? then HexValueOf(loaded.value.base) else Null;
    var size := if loaded.Some? then Num(loaded.value.size as nat) else Null;
    var xs := StatusMembers(s, d);
    StatusSize(s, d);
    Grow(xs, EfiStatusName(), HexValueOf(status));
    HexSize(status);
    xs := xs + [Field(EfiStatusName(), HexValueOf(status))];
    Grow(xs, BaseName(), base);
    xs := xs + [Field(BaseName(), base)];
    Grow(xs, SizeName(), size);
    if loaded.Some? {
      HexSize(loaded.value.base);
      NumSize(true, loaded.value.size as nat);
    }
    NullSize();
    SizeWhole(xs + [Field(SizeName(), size)]);
  }

  lemma PathSize(loaded: Option<LoadedImage>)
    ensures |Print(PathValue(loaded))| <= 111
  {
    hide OpenSize, Print, UnitsOf, StatusMembers, PointerPresentOnly;
    var s := if loaded.None? then NotProbed else if loaded.value.hasPath then Observed else Unavailable;
    var xs := StatusMembers(s, NoDetail);
    StatusSize(s, NoDetail);
    Grow(xs, RepresentationName(), Phrase(PointerPresentOnly()));
    PhraseSize(PointerPresentOnly());
    SizeWhole(xs + [Field(RepresentationName(), Phrase(PointerPresentOnly()))]);
  }

  lemma EntrySize(e: Entry)
    ensures |Print(EntryValue(e))| <= 120
  {
    hide OpenSize, Print, UnitsOf, HexValueOf;
    SizeStart(TypeName(), Num(e.kind as nat));
    NumSize(true, e.kind as nat);
    var xs := [Field(TypeName(), Num(e.kind as nat))];
    Grow(xs, PhysicalName(), HexValueOf(e.physical));
    HexSize(e.physical);
    xs := xs + [Field(PhysicalName(), HexValueOf(e.physical))];
    Grow(xs, PagesName(), Num(e.pages as nat));
    NumSize(true, e.pages as nat);
    xs := xs + [Field(PagesName(), Num(e.pages as nat))];
    Grow(xs, AttributesName(), HexValueOf(e.attributes));
    HexSize(e.attributes);
    SizeWhole(xs + [Field(AttributesName(), HexValueOf(e.attributes))]);
  }

  lemma {:induction false} EntriesSize(es: seq<Entry>)
    ensures |ItemsTo("", EntryValues(es))| <= 1 + 121 * |es|
  {
    hide To, EntryValue, Print;
    if es == [] {
    } else {
      var init, e := es[..|es| - 1], es[|es| - 1];
      EntriesSize(init);
      var comma := if EntryValues(init) == [] then "" else ",";
      ItemStep("", EntryValues(init), EntryValue(e));
      ToPrints(ItemsTo("", EntryValues(init)) + comma, EntryValue(e));
      EntrySize(e);
    }
  }

  lemma ArraySize(es: seq<Entry>)
    ensures |Print(Arr(EntryValues(es)))| <= 2 + 121 * |es|
  {
    hide ItemsTo, EntryValues, Print;
    EntriesSize(es);
    ToPrints("", Arr(EntryValues(es)));
    ItemsClose("", EntryValues(es));
  }

  lemma MapSize(a: Outcome)
    requires a.attempts <= MAP_ATTEMPTS && Listed(a.result)
    ensures |Print(MapValue(a))| <= 1735
  {
    hide OpenSize, Print, UnitsOf, StatusMembers, HexValueOf, EntryValues, NumIf;
    var m, ok := a.result, a.result.state == Observed;
    var es := if ok then m.entries else [];
    var xs := StatusMembers(m.state, m.detail);
    StatusSize(m.state, m.detail);
    Grow(xs, EfiStatusName(), HexValueOf(a.efi));
    HexSize(a.efi);
    xs := xs + [Field(EfiStatusName(), HexValueOf(a.efi))];
    Grow(xs, AttemptsName(), Num(a.attempts));
    NumSize(true, a.attempts);
    xs := xs + [Field(AttemptsName(), Num(a.attempts))];
    Grow(xs, ReleaseStatusName(), HexValueOf(a.release));
    HexSize(a.release);
    xs := xs + [Field(ReleaseStatusName(), HexValueOf(a.release))];
    Grow(xs, CountName(), NumIf(ok, m.count as nat));
    NumSize(ok, m.count as nat);
    xs := xs + [Field(CountName(), NumIf(ok, m.count as nat))];
    Grow(xs, DescriptorStrideName(), NumIf(ok, m.stride as nat));
    NumSize(ok, m.stride as nat);
    xs := xs + [Field(DescriptorStrideName(), NumIf(ok, m.stride as nat))];
    Grow(xs, DescriptorVersionName(), NumIf(ok, m.version as nat));
    NumSize(ok, m.version as nat);
    xs := xs + [Field(DescriptorVersionName(), NumIf(ok, m.version as nat))];
    Grow(xs, DescriptorsName(), Arr(EntryValues(es)));
    ArraySize(es);
    xs := xs + [Field(DescriptorsName(), Arr(EntryValues(es)))];
    Grow(xs, OmittedName(), NumIf(ok, OmittedCount(m.count as nat)));
    NumSize(ok, OmittedCount(m.count as nat));
    SizeWhole(xs + [Field(OmittedName(), NumIf(ok, OmittedCount(m.count as nat)))]);
  }

  lemma ModelSize(m: Model, ok: bool)
    requires |m.text| <= MODEL_LIMIT && m.length <= 0xffff_ffff
    ensures |Print(ModelValue(m, ok))| <= 484
  {
    hide OpenSize, Print, UnitsOf, StatusMembers, NumIf;
    var has := ok && HasText(m.state);
    var s := if ok then m.state else NotProbed;
    var text := if has then Str(Wide(m.text)) else Null;
    var xs := StatusMembers(s, NoDetail);
    StatusSize(s, NoDetail);
    Grow(xs, LengthName(), NumIf(has, m.length));
    NumSize(has, m.length);
    xs := xs + [Field(LengthName(), NumIf(has, m.length))];
    Grow(xs, ValueName(), text);
    StrSize(Wide(m.text));
    NullSize();
    SizeWhole(xs + [Field(ValueName(), text)]);
  }

  lemma DtSize(v: DtView)
    requires v.searched <= TABLE_LIMIT as nat
    requires |v.dt.model.text| <= MODEL_LIMIT && v.dt.model.length <= 0xffff_ffff
    ensures |Print(DtValue(v))| <= 697
  {
    hide OpenSize, Print, UnitsOf, StatusMembers, NumIf, ModelValue;
    var d, ok := v.dt, v.dt.state == Observed;
    var xs := StatusMembers(d.state, d.detail);
    StatusSize(d.state, d.detail);
    Grow(xs, TablesSearchedName(), Num(v.searched));
    NumSize(true, v.searched);
    xs := xs + [Field(TablesSearchedName(), Num(v.searched))];
    Grow(xs, TablesTotalName(), Num(v.total as nat));
    NumSize(true, v.total as nat);
    xs := xs + [Field(TablesTotalName(), Num(v.total as nat))];
    Grow(xs, SizeName(), NumIf(ok, d.size as nat));
    NumSize(ok, d.size as nat);
    xs := xs + [Field(SizeName(), NumIf(ok, d.size as nat))];
    Grow(xs, VersionName(), NumIf(ok, d.version as nat));
    NumSize(ok, d.version as nat);
    xs := xs + [Field(VersionName(), NumIf(ok, d.version as nat))];
    Grow(xs, LastCompVersionName(), NumIf(ok, d.lastComp as nat));
    NumSize(ok, d.lastComp as nat);
    xs := xs + [Field(LastCompVersionName(), NumIf(ok, d.lastComp as nat))];
    Grow(xs, ModelName(), ModelValue(d.model, ok));
    ModelSize(d.model, ok);
    SizeWhole(xs + [Field(ModelName(), ModelValue(d.model, ok))]);
  }

  lemma VariableSize(v: VarResult)
    ensures |Print(VariableValue(v))| <= 122
  {
    hide OpenSize, Print, UnitsOf, StatusMembers, HexValueOf, NumIf;
    var xs := StatusMembers(v.state, v.detail);
    StatusSize(v.state, v.detail);
    Grow(xs, EfiStatusName(), HexValueOf(v.status));
    HexSize(v.status);
    xs := xs + [Field(EfiStatusName(), HexValueOf(v.status))];
    Grow(xs, ValueName(), NumIf(v.state == Observed, v.value as nat));
    NumSize(v.state == Observed, v.value as nat);
    SizeWhole(xs + [Field(ValueName(), NumIf(v.state == Observed, v.value as nat))]);
  }

  lemma ElSize(el: ElResult)
    ensures |Print(ElValue(el))| <= 134
  {
    hide OpenSize, Print, UnitsOf, StatusMembers, HexValueOf, NumIf;
    var xs := StatusMembers(el.state, NoDetail);
    StatusSize(el.state, NoDetail);
    Grow(xs, RawName(), HexValueOf(el.raw));
    HexSize(el.raw);
    xs := xs + [Field(RawName(), HexValueOf(el.raw))];
    Grow(xs, ReportedLevelName(), NumIf(el.state == Observed, el.level as nat));
    NumSize(el.state == Observed, el.level as nat);
    SizeWhole(xs + [Field(ReportedLevelName(), NumIf(el.state == Observed, el.level as nat))]);
  }

  // What the probe's own limits guarantee of the facts it reports.
  predicate Bounded(x: Facts) {
    && |x.vendor.text| <= VENDOR_LIMIT
    && x.acquired.attempts <= MAP_ATTEMPTS && Listed(x.acquired.result)
    && x.dt.searched <= TABLE_LIMIT as nat
    && |x.dt.dt.model.text| <= MODEL_LIMIT && x.dt.dt.model.length <= 0xffff_ffff
  }

  lemma {:induction false} TopSize(ms: seq<Member>, k: PlainText, v: Value, bound: nat)
    requires ms != [] && |Print(v)| <= bound
    ensures ms + [Field(k, v)] != [] && OpenSize(ms + [Field(k, v)]) <= OpenSize(ms) + 26 + bound
  {
    hide OpenSize, Print;
    Grow(ms, k, v);
  }

  // The worst case over every input is below the capacity.
  lemma RecordFits(x: Facts)
    requires Bounded(x)
    ensures |Print(RecordValue(x))| < RECORD_CAPACITY
  {
    hide OpenSize, Print, UnitsOf, Phrase, Bounded;
    hide SchemaName, BuildName, BuildId, FirmwareVendorName, FirmwareRevisionName, UefiRevisionName, LoadedImageName;
    hide DevicePathName, BootServicesMapName, FirmwareDtName, SecureBootName, SetupModeName, CurrentElName;
    hide ExecutionContextName, NotEstablished, RecordTruncatedName;
    hide VendorValue, ImageValue, PathValue, MapValue, DtValue, VariableValue, ElValue, Members;
    BoundedMeans(x);
    NumSize(true, 2);
    NumSize(true, x.firmwareRevision as nat);
    NumSize(true, x.uefiRevision as nat);
    PhraseSize(BuildId());
    PhraseSize(NotEstablished());
    NullSize();
    VendorSize(x.vendor);
    ImageSize(x.loaded, x.imageStatus);
    PathSize(x.loaded);
    MapSize(x.acquired);
    DtSize(x.dt);
    VariableSize(x.secure);
    VariableSize(x.setup);
    ElSize(x.el);
    SizeStart(SchemaName(), Num(2));
    var ms := [Field(SchemaName(), Num(2))];
    TopSize(ms, BuildName(), Phrase(BuildId()), 24);
    ms := ms + [Field(BuildName(), Phrase(BuildId()))];
    TopSize(ms, FirmwareVendorName(), VendorValue(x.vendor), 483);
    ms := ms + [Field(FirmwareVendorName(), VendorValue(x.vendor))];
    TopSize(ms, FirmwareRevisionName(), Num(x.firmwareRevision as nat), 10);
    ms := ms + [Field(FirmwareRevisionName(), Num(x.firmwareRevision as nat))];
    TopSize(ms, UefiRevisionName(), Num(x.uefiRevision as nat), 10);
    ms := ms + [Field(UefiRevisionName(), Num(x.uefiRevision as nat))];
    TopSize(ms, LoadedImageName(), ImageValue(x.loaded, x.imageStatus), 159);
    ms := ms + [Field(LoadedImageName(), ImageValue(x.loaded, x.imageStatus))];
    TopSize(ms, DevicePathName(), PathValue(x.loaded), 111);
    ms := ms + [Field(DevicePathName(), PathValue(x.loaded))];
    TopSize(ms, BootServicesMapName(), MapValue(x.acquired), 1735);
    ms := ms + [Field(BootServicesMapName(), MapValue(x.acquired))];
    TopSize(ms, FirmwareDtName(), DtValue(x.dt), 697);
    ms := ms + [Field(FirmwareDtName(), DtValue(x.dt))];
    TopSize(ms, SecureBootName(), VariableValue(x.secure), 122);
    ms := ms + [Field(SecureBootName(), VariableValue(x.secure))];
    TopSize(ms, SetupModeName(), VariableValue(x.setup), 122);
    ms := ms + [Field(SetupModeName(), VariableValue(x.setup))];
    TopSize(ms, CurrentElName(), ElValue(x.el), 134);
    ms := ms + [Field(CurrentElName(), ElValue(x.el))];
    TopSize(ms, ExecutionContextName(), Phrase(NotEstablished()), 24);
    ms := ms + [Field(ExecutionContextName(), Phrase(NotEstablished()))];
    TopSize(ms, RecordTruncatedName(), Bool(false), 5);
    MembersAre(x);
    SizeWhole(ms + [Field(RecordTruncatedName(), Bool(false))]);
  }

  lemma BoundedMeans(x: Facts)
    requires Bounded(x)
    ensures |x.vendor.text| <= VENDOR_LIMIT && x.acquired.attempts <= MAP_ATTEMPTS && Listed(x.acquired.result)
    ensures x.dt.searched <= TABLE_LIMIT as nat
    ensures |x.dt.dt.model.text| <= MODEL_LIMIT && x.dt.dt.model.length <= 0xffff_ffff
  {
  }
}
