// The record: its value as JSON, and the code that writes it.
module Record {
  import opened Machine
  import opened Details
  import opened Blob
  import opened DtParser
  import opened MemoryMap
  import opened FirmwareModel
  import opened MapProtocol
  import opened Json
  import opened WriterModel
  import opened RecordText
  import opened JsonAppend
  import opened Observations

  // Everything the record reports.
  datatype Facts = Facts(
    vendor: VendorResult, firmwareRevision: uint32, uefiRevision: uint32,
    loaded: Option<LoadedImage>, imageStatus: Status,
    acquired: Outcome, dt: DtView, secure: VarResult, setup: VarResult, el: ElResult)

  // -------------------------------------------------------------------- its value

  function Phrase(s: PlainText): Value {
    Str(UnitsOf(s))
  }

  function HexValueOf(v: uint64): Value {
    Str(UnitsOf(HexText(v)))
  }

  function NumIf(known: bool, n: nat): Value {
    if known then Num(n) else Null
  }

  function DetailValue(d: Detail): Value {
    if d == NoDetail then Null else Phrase(DetailText(d))
  }

  function StatusMembers(s: State, d: Detail): seq<Member> {
    [Field(StatusName(), Phrase(StateName(s)))] + [Field(DetailName(), DetailValue(d))]
  }

  predicate HasText(s: State) {
    s == Observed || s == Truncated
  }

  function VendorValue(v: VendorResult): Value {
    Obj(StatusMembers(v.state, if v.state == Unsupported then Ucs2Surrogate else NoDetail)
        + [Field(UnitsName(), Num(|v.text|))]
        + [Field(ValueName(), if HasText(v.state) then Str(v.text) else Null)])
  }

  function ImageValue(loaded: Option<LoadedImage>, status: Status): Value {
    Obj(StatusMembers(if loaded.Some? then Observed else Unavailable,
                      if loaded.Some? then NoDetail else NoHandleProtocol)
        + [Field(EfiStatusName(), HexValueOf(status))]
        + [Field(BaseName(), if loaded.Some? then HexValueOf(loaded.value.base) else Null)]
        + [Field(SizeName(), if loaded.Some? then Num(loaded.value.size as nat) else Null)])
  }

  function PathValue(loaded: Option<LoadedImage>): Value {
    Obj(StatusMembers(if loaded.None? then NotProbed else if loaded.value.hasPath then Observed else Unavailable,
                      NoDetail)
        + [Field(RepresentationName(), Phrase(PointerPresentOnly()))])
  }

  function EntryValue(e: Entry): Value {
    Obj([Field(TypeName(), Num(e.kind as nat))]
        + [Field(PhysicalName(), HexValueOf(e.physical))]
        + [Field(PagesName(), Num(e.pages as nat))]
        + [Field(AttributesName(), HexValueOf(e.attributes))])
  }

  function EntryValues(es: seq<Entry>): seq<Value> {
    if es == [] then [] else EntryValues(es[..|es| - 1]) + [EntryValue(es[|es| - 1])]
  }

  function OmittedCount(count: nat): nat {
    if count > REPORTED then count - REPORTED else 0
  }

  function MapValue(a: Outcome): Value {
    var m, ok := a.result, a.result.state == Observed;
    Obj(StatusMembers(m.state, m.detail)
        + [Field(EfiStatusName(), HexValueOf(a.efi))]
        + [Field(AttemptsName(), Num(a.attempts))]
        + [Field(ReleaseStatusName(), HexValueOf(a.release))]
        + [Field(CountName(), NumIf(ok, m.count as nat))]
        + [Field(DescriptorStrideName(), NumIf(ok, m.stride as nat))]
        + [Field(DescriptorVersionName(), NumIf(ok, m.version as nat))]
        + [Field(DescriptorsName(), Arr(EntryValues(if ok then m.entries else [])))]
        + [Field(OmittedName(), NumIf(ok, OmittedCount(m.count as nat)))])
  }

  function DtValue(v: DtView): Value {
    var d, ok := v.dt, v.dt.state == Observed;
    Obj(StatusMembers(d.state, d.detail)
        + [Field(TablesSearchedName(), Num(v.searched))]
        + [Field(TablesTotalName(), Num(v.total as nat))]
        + [Field(SizeName(), NumIf(ok, d.size as nat))]
        + [Field(VersionName(), NumIf(ok, d.version as nat))]
        + [Field(LastCompVersionName(), NumIf(ok, d.lastComp as nat))]
        + [Field(ModelName(), ModelValue(d.model, ok))])
  }

  function ModelValue(m: Model, ok: bool): Value {
    var has := ok && HasText(m.state);
    Obj(StatusMembers(if ok then m.state else NotProbed, NoDetail)
        + [Field(LengthName(), NumIf(has, m.length))]
        + [Field(ValueName(), if has then Str(Wide(m.text)) else Null)])
  }

  function VariableValue(v: VarResult): Value {
    Obj(StatusMembers(v.state, v.detail)
        + [Field(EfiStatusName(), HexValueOf(v.status))]
        + [Field(ValueName(), NumIf(v.state == Observed, v.value as nat))])
  }

  function ElValue(el: ElResult): Value {
    Obj(StatusMembers(el.state, NoDetail)
        + [Field(RawName(), HexValueOf(el.raw))]
        + [Field(ReportedLevelName(), NumIf(el.state == Observed, el.level as nat))])
  }

  function Members(x: Facts): seq<Member> {
    [Field(SchemaName(), Num(2))]
    + [Field(BuildName(), Phrase(BuildId()))]
    + [Field(FirmwareVendorName(), VendorValue(x.vendor))]
    + [Field(FirmwareRevisionName(), Num(x.firmwareRevision as nat))]
    + [Field(UefiRevisionName(), Num(x.uefiRevision as nat))]
    + [Field(LoadedImageName(), ImageValue(x.loaded, x.imageStatus))]
    + [Field(DevicePathName(), PathValue(x.loaded))]
    + [Field(BootServicesMapName(), MapValue(x.acquired))]
    + [Field(FirmwareDtName(), DtValue(x.dt))]
    + [Field(SecureBootName(), VariableValue(x.secure))]
    + [Field(SetupModeName(), VariableValue(x.setup))]
    + [Field(CurrentElName(), ElValue(x.el))]
    + [Field(ExecutionContextName(), Phrase(NotEstablished()))]
    + [Field(RecordTruncatedName(), Bool(false))]
  }

  function RecordValue(x: Facts): Value {
    Obj(Members(x))
  }

  // -------------------------------------------------------------------- the code

  method Key(w: Writer, k: PlainText)
    requires w.Valid()
    modifies w`length, w`truncated, w`full, w.data
    ensures w.Valid() && w.Terminated() && w.full == KeyTo(old(w.full), k)
  {
    hide w.Valid, w.Terminated, Escape;
    PlainEscape(k);
    w.Put(",\"");
    w.Put(k);
    w.Put("\":");
  }

  // status_field writes quotes and keys in larger pieces than the value's own steps.
  lemma OpeningPiece(acc: string, k: string)
    ensures acc + ("{\"" + k + "\":\"") == acc + ("{\"" + k + "\":") + "\""
  {
  }

  lemma MiddlePiece(acc: string, k: string)
    ensures acc + ("\",\"" + k + "\":") == acc + "\"" + ",\"" + k + "\":"
  {
  }

  lemma StatusText(acc: string, s: State, d: Detail)
    ensures var started := acc + ("{\"" + StatusName() + "\":\"") + StateName(s) + ("\",\"" + DetailName() + "\":");
            OpenTo(acc, StatusMembers(s, d)) ==
            if d == NoDetail then started + "null" else started + "\"" + DetailText(d) + "\""
  {
    hide OpenTo, StatusName, StateName, DetailName, DetailText, Escape, Decimal;
    var first := [Field(StatusName(), Phrase(StateName(s)))];
    OpenFirst(acc, StatusName(), Phrase(StateName(s)));
    OpenStep(acc, first, DetailName(), DetailValue(d));
    PlainEscape(StateName(s));
    PlainEscape(DetailName());
    PlainEscape(DetailText(d));
    OpeningPiece(acc, StatusName());
    MiddlePiece(acc + ("{\"" + StatusName() + "\":\"") + StateName(s), DetailName());
  }

  // status_field: the object is left open for further members.
  method StatusField(w: Writer, k: PlainText, s: State, d: Detail)
    requires w.Valid()
    modifies w`length, w`truncated, w`full, w.data
    ensures w.Valid() && w.Terminated() && w.full == OpenTo(KeyTo(old(w.full), k), StatusMembers(s, d))
  {
    hide *;
    Key(w, k);
    StatusText(w.full, s, d);
    w.Put("{\"" + StatusName() + "\":\"");
    w.Put(StateName(s));
    w.Put("\",\"" + DetailName() + "\":");
    if d != NoDetail {
      w.Put("\"");
      w.Put(DetailText(d));
      w.Put("\"");
    } else {
      w.Put("null");
    }
  }

  // -------------------------------------------------------------------- members of an open object
  //
  // Each method below continues an object whose text so far is OpenTo(acc, ms).

  lemma Pieces(acc: string, n: nat, v: uint64, u: seq<uint16>, ms: seq<Member>)
    ensures To(acc, Null) == acc + "null" && To(acc, Bool(false)) == acc + "false"
    ensures To(acc, Num(n)) == acc + Decimal(n)
    ensures To(acc, Str(u)) == acc + "\"" + Escape(u) + "\""
    ensures To(acc, Obj(ms)) == OpenTo(acc, ms) + "}"
  {
  }

  lemma HexPiece(acc: string, v: uint64)
    ensures To(acc, HexValueOf(v)) == acc + ("\"" + HexText(v) + "\"")
  {
    HexPlain(v as nat, 16);
    assert PlainChar('0') && PlainChar('x');
    PlainEscape(HexText(v));
    assert acc + "\"" + HexText(v) + "\"" == acc + ("\"" + HexText(v) + "\"");
  }

  lemma {:induction false} HexPlain(v: nat, n: nat)
    ensures Plain(HexDigits(v, n))
  {
    if n > 0 {
      HexPlain(v / 16, n - 1);
    }
  }

  method NumberField(w: Writer, k: PlainText, known: bool, v: uint64, ghost acc: string, ghost ms: seq<Member>)
    requires w.Valid() && ms != [] && w.full == OpenTo(acc, ms)
    modifies w`length, w`truncated, w`full, w.data
    ensures w.Valid() && w.Terminated() && w.full == OpenTo(acc, ms + [Field(k, NumIf(known, v as nat))])
  {
    hide *;
    Key(w, k);
    OpenStep(acc, ms, k, NumIf(known, v as nat));
    Pieces(w.full, v as nat, 0, [], []);
    NumIfCases(known, v as nat);
    if known {
      w.Number(v);
    } else {
      w.Put("null");
    }
  }

  lemma NumIfCases(known: bool, n: nat)
    ensures NumIf(known, n) == if known then Num(n) else Null
  {
  }

  method HexField(w: Writer, k: PlainText, known: bool, v: uint64, ghost acc: string, ghost ms: seq<Member>)
    requires w.Valid() && ms != [] && w.full == OpenTo(acc, ms)
    modifies w`length, w`truncated, w`full, w.data
    ensures w.Valid() && w.Terminated()
    ensures w.full == OpenTo(acc, ms + [Field(k, if known then HexValueOf(v) else Null)])
  {
    hide *;
    Key(w, k);
    OpenStep(acc, ms, k, if known then HexValueOf(v) else Null);
    Pieces(w.full, 0, 0, [], []);
    HexPiece(w.full, v);
    if known {
      w.Hex(v);
    } else {
      w.Put("null");
    }
  }

  // A fixed text written with its quotes in one piece.
  method TextField(w: Writer, k: PlainText, text: PlainText, ghost acc: string, ghost ms: seq<Member>)
    requires w.Valid() && ms != [] && w.full == OpenTo(acc, ms)
    modifies w`length, w`truncated, w`full, w.data
    ensures w.Valid() && w.Terminated() && w.full == OpenTo(acc, ms + [Field(k, Phrase(text))])
  {
    hide *;
    Key(w, k);
    OpenStep(acc, ms, k, Phrase(text));
    PhrasePiece(w.full, text);
    w.Put("\"" + text + "\"");
  }

  lemma PhrasePiece(acc: string, text: PlainText)
    ensures To(acc, Phrase(text)) == acc + ("\"" + text + "\"")
  {
    PlainEscape(text);
    assert acc + "\"" + text + "\"" == acc + ("\"" + text + "\"");
  }

  method Close(w: Writer, ghost acc: string, ghost ms: seq<Member>)
    requires w.Valid() && w.full == OpenTo(acc, ms)
    modifies w`length, w`truncated, w`full, w.data
    ensures w.Valid() && w.Terminated() && w.full == To(acc, Obj(ms))
  {
    hide *;
    Pieces(acc, 0, 0, [], ms);
    w.Put("}");
  }

  // -------------------------------------------------------------------- the observations

  method VendorSection(w: Writer, v: VendorResult, ghost acc: string, ghost ms: seq<Member>)
    requires w.Valid() && ms != [] && w.full == OpenTo(acc, ms) && |v.text| <= VENDOR_LIMIT
    modifies w`length, w`truncated, w`full, w.data
    ensures w.Valid() && w.Terminated() && w.full == OpenTo(acc, ms + [Field(FirmwareVendorName(), VendorValue(v))])
  {
    hide OpenTo, To, Escape, UnitsOf, FirmwareVendorName, UnitsName, ValueName, KeyTo, Field, StatusMembers;
    OpenStep(acc, ms, FirmwareVendorName(), VendorValue(v));
    ghost var inner := KeyTo(w.full, FirmwareVendorName());
    var d := if v.state == Unsupported then Ucs2Surrogate else NoDetail;
    StatusField(w, FirmwareVendorName(), v.state, d);
    ghost var a := StatusMembers(v.state, d);
    NonEmpty(v.state, d);
    NumberField(w, UnitsName(), true, |v.text| as uint64, inner, a);
    ghost var b := a + [Field(UnitsName(), Num(|v.text|))];
    OpenStep(inner, b, ValueName(), if HasText(v.state) then Str(v.text) else Null);
    Key(w, ValueName());
    Pieces(w.full, 0, 0, v.text, []);
    if v.state == Observed || v.state == Truncated {
      w.Put("\"");
      w.Escaped16(v.text);
      w.Put("\"");
    } else {
      w.Put("null");
    }
    Close(w, inner, b + [Field(ValueName(), if HasText(v.state) then Str(v.text) else Null)]);
  }

  lemma NonEmpty(s: State, d: Detail)
    ensures StatusMembers(s, d) != []
  {
  }

  method ImageSection(w: Writer, loaded: Option<LoadedImage>, status: Status, ghost acc: string, ghost ms: seq<Member>)
    requires w.Valid() && ms != [] && w.full == OpenTo(acc, ms)
    modifies w`length, w`truncated, w`full, w.data
    ensures w.Valid() && w.Terminated()
    ensures w.full == OpenTo(acc, ms + [Field(LoadedImageName(), ImageValue(loaded, status))])
  {
    hide OpenTo, To, UnitsOf, LoadedImageName, EfiStatusName, BaseName, SizeName, KeyTo, Field, StatusMembers,
        HexValueOf;
    OpenStep(acc, ms, LoadedImageName(), ImageValue(loaded, status));
    ghost var inner := KeyTo(w.full, LoadedImageName());
    var s, d := if loaded.Some? then Observed else Unavailable, if loaded.Some? then NoDetail else NoHandleProtocol;
    StatusField(w, LoadedImageName(), s, d);
    ghost var a := StatusMembers(s, d);
    NonEmpty(s, d);
    HexField(w, EfiStatusName(), true, status, inner, a);
    ghost var b := a + [Field(EfiStatusName(), HexValueOf(status))];
    var base, size := if loaded.Some? then loaded.value.base else 0, if loaded.Some? then loaded.value.size else 0;
    HexField(w, BaseName(), loaded.Some?, base, inner, b);
    ghost var c := b + [Field(BaseName(), if loaded.Some? then HexValueOf(base) else Null)];
    NumberField(w, SizeName(), loaded.Some?, size, inner, c);
    Close(w, inner, c + [Field(SizeName(), NumIf(loaded.Some?, size as nat))]);
  }

  // The file path is never followed; only whether the pointer is there is reported.
  method PathSection(w: Writer, loaded: Option<LoadedImage>, ghost acc: string, ghost ms: seq<Member>)
    requires w.Valid() && ms != [] && w.full == OpenTo(acc, ms)
    modifies w`length, w`truncated, w`full, w.data
    ensures w.Valid() && w.Terminated() && w.full == OpenTo(acc, ms + [Field(DevicePathName(), PathValue(loaded))])
  {
    hide OpenTo, To, UnitsOf, DevicePathName, RepresentationName, PointerPresentOnly, KeyTo, Field, StatusMembers,
        Phrase;
    OpenStep(acc, ms, DevicePathName(), PathValue(loaded));
    ghost var inner := KeyTo(w.full, DevicePathName());
    var s := if loaded.Some? && loaded.value.hasPath then Observed else if loaded.Some? then Unavailable else NotProbed;
    StatusField(w, DevicePathName(), s, NoDetail);
    NonEmpty(s, NoDetail);
    TextField(w, RepresentationName(), PointerPresentOnly(), inner, StatusMembers(s, NoDetail));
    Close(w, inner, StatusMembers(s, NoDetail) + [Field(RepresentationName(), Phrase(PointerPresentOnly()))]);
  }

  method EntrySection(w: Writer, e: Entry)
    requires w.Valid()
    modifies w`length, w`truncated, w`full, w.data
    ensures w.Valid() && w.Terminated() && w.full == To(old(w.full), EntryValue(e))
  {
    hide OpenTo, To, UnitsOf, TypeName, PhysicalName, PagesName, AttributesName, Field, HexValueOf;
    ghost var acc := w.full;
    OpenFirst(acc, TypeName(), Num(e.kind as nat));
    w.Put("{\"" + TypeName() + "\":");
    Pieces(w.full, e.kind as nat, 0, [], []);
    w.Number(e.kind as uint64);
    ghost var a := [Field(TypeName(), Num(e.kind as nat))];
    HexField(w, PhysicalName(), true, e.physical, acc, a);
    ghost var b := a + [Field(PhysicalName(), HexValueOf(e.physical))];
    NumberField(w, PagesName(), true, e.pages, acc, b);
    ghost var c := b + [Field(PagesName(), Num(e.pages as nat))];
    HexField(w, AttributesName(), true, e.attributes, acc, c);
    Close(w, acc, c + [Field(AttributesName(), HexValueOf(e.attributes))]);
  }

  method EntriesSection(w: Writer, es: seq<Entry>)
    requires w.Valid()
    modifies w`length, w`truncated, w`full, w.data
    ensures w.Valid() && w.Terminated() && w.full == To(old(w.full), Arr(EntryValues(es)))
  {
    hide To, EntryValue;
    ghost var acc := w.full;
    w.Put("[");
    var i := 0;
    while i < |es|
      invariant 0 <= i <= |es|
      invariant w.Valid() && w.full == ItemsTo(acc, EntryValues(es[..i]))
    {
      ghost var done, next := EntryValues(es[..i]), es[..i + 1];
      assert next[..i] == es[..i] && next[i] == es[i];
      ItemStep(acc, done, EntryValue(es[i]));
      EntryCount(es[..i]);
      if i > 0 {
        w.Put(",");
      } else {
        assert w.full + "" == w.full;
      }
      EntrySection(w, es[i]);
      i := i + 1;
    }
    assert es[..|es|] == es;
    ItemsClose(acc, EntryValues(es));
    w.Put("]");
  }

  lemma ItemsClose(acc: string, items: seq<Value>)
    ensures To(acc, Arr(items)) == ItemsTo(acc, items) + "]"
  {
  }

  lemma {:induction false} EntryCount(es: seq<Entry>)
    ensures |EntryValues(es)| == |es|
    ensures forall i :: 0 <= i < |es| ==> EntryValues(es)[i] == EntryValue(es[i])
  {
    hide EntryValue;
    if es != [] {
      EntryCount(es[..|es| - 1]);
    }
  }

  method MapSection(w: Writer, a: MapAcquisition, ghost acc: string, ghost ms: seq<Member>)
    requires w.Valid() && ms != [] && w.full == OpenTo(acc, ms) && Listed(a.result)
    modifies w`length, w`truncated, w`full, w.data
    ensures w.Valid() && w.Terminated()
    ensures w.full == OpenTo(acc, ms + [Field(BootServicesMapName(), MapValue(a.View()))])
  {
    hide OpenTo, To, UnitsOf, KeyTo, Field, StatusMembers, HexValueOf, EntryValues, BootServicesMapName, EfiStatusName;
    hide AttemptsName, ReleaseStatusName, CountName, DescriptorStrideName, DescriptorVersionName, DescriptorsName,
        OmittedName;
    var m, ok := a.result, a.result.state == Observed;
    OpenStep(acc, ms, BootServicesMapName(), MapValue(a.View()));
    ghost var inner := KeyTo(w.full, BootServicesMapName());
    StatusField(w, BootServicesMapName(), m.state, m.detail);
    ghost var xs := StatusMembers(m.state, m.detail);
    NonEmpty(m.state, m.detail);
    HexField(w, EfiStatusName(), true, a.efiStatus, inner, xs);
    xs := xs + [Field(EfiStatusName(), HexValueOf(a.efiStatus))];
    NumberField(w, AttemptsName(), true, a.attempts as uint64, inner, xs);
    xs := xs + [Field(AttemptsName(), Num(a.attempts as nat))];
    HexField(w, ReleaseStatusName(), true, a.releaseStatus, inner, xs);
    xs := xs + [Field(ReleaseStatusName(), HexValueOf(a.releaseStatus))];
    NumberField(w, CountName(), ok, m.count as uint64, inner, xs);
    xs := xs + [Field(CountName(), NumIf(ok, m.count as nat))];
    NumberField(w, DescriptorStrideName(), ok, m.stride as uint64, inner, xs);
    xs := xs + [Field(DescriptorStrideName(), NumIf(ok, m.stride as nat))];
    NumberField(w, DescriptorVersionName(), ok, m.version as uint64, inner, xs);
    xs := xs + [Field(DescriptorVersionName(), NumIf(ok, m.version as nat))];
    var listed := if ok then m.entries else [];
    OpenStep(inner, xs, DescriptorsName(), Arr(EntryValues(listed)));
    Key(w, DescriptorsName());
    EntriesSection(w, listed);
    xs := xs + [Field(DescriptorsName(), Arr(EntryValues(listed)))];
    var omitted: uint32 := if m.count > REPORTED as uint32 then m.count - REPORTED as uint32 else 0;
    NumberField(w, OmittedName(), ok, omitted as uint64, inner, xs);
    Close(w, inner, xs + [Field(OmittedName(), NumIf(ok, omitted as nat))]);
  }

  // An observed map lists its first descriptors.
  predicate Listed(m: MapResult) {
    m.state == Observed ==> |m.entries| == Min(m.count as nat, REPORTED)
  }

  method ModelSection(w: Writer, d: DtReport, ghost acc: string, ghost ms: seq<Member>)
    requires w.Valid() && ms != [] && w.full == OpenTo(acc, ms) && d.Valid() && Strlen(d.model[..]) < d.model.Length
    modifies w`length, w`truncated, w`full, w.data
    ensures w.Valid() && w.Terminated()
    ensures w.full == OpenTo(acc, ms + [Field(ModelName(), ModelValue(d.ModelView(), d.state == Observed))])
  {
    hide OpenTo, To, UnitsOf, KeyTo, Field, StatusMembers, ModelName, LengthName, ValueName, Escape, Wide,
        Machine.Text, Strlen;
    var ok := d.state == Observed;
    ghost var value := ModelValue(d.ModelView(), ok);
    OpenStep(acc, ms, ModelName(), value);
    ghost var inner := KeyTo(w.full, ModelName());
    var s := if ok then d.modelState else NotProbed;
    StatusField(w, ModelName(), s, NoDetail);
    ghost var xs := StatusMembers(s, NoDetail);
    NonEmpty(s, NoDetail);
    var has := ok && (d.modelState == Observed || d.modelState == Truncated);
    NumberField(w, LengthName(), has, d.modelLength as uint64, inner, xs);
    xs := xs + [Field(LengthName(), NumIf(has, d.modelLength as nat))];
    ghost var text := Wide(Machine.Text(d.model[..]));
    OpenStep(inner, xs, ValueName(), if has then Str(text) else Null);
    Key(w, ValueName());
    Pieces(w.full, 0, 0, text, []);
    if has {
      w.Put("\"");
      w.Escaped(d.model[..]);
      w.Put("\"");
    } else {
      w.Put("null");
    }
    Close(w, inner, xs + [Field(ValueName(), if has then Str(text) else Null)]);
  }

  method DtSection(w: Writer, dt: DtSearch, ghost acc: string, ghost ms: seq<Member>)
    requires w.Valid() && ms != [] && w.full == OpenTo(acc, ms)
    requires dt.dt.Valid() && Strlen(dt.dt.model[..]) < dt.dt.model.Length
    modifies w`length, w`truncated, w`full, w.data
    ensures w.Valid() && w.Terminated() && w.full == OpenTo(acc, ms + [Field(FirmwareDtName(), DtValue(dt.View()))])
  {
    hide OpenTo, To, UnitsOf, KeyTo, Field, StatusMembers, FirmwareDtName, TablesSearchedName, TablesTotalName,
        SizeName;
    hide VersionName, LastCompVersionName, ModelName, ModelValue, Strlen, Machine.Text;
    var d := dt.dt;
    var ok := d.state == Observed;
    OpenStep(acc, ms, FirmwareDtName(), DtValue(dt.View()));
    ghost var inner := KeyTo(w.full, FirmwareDtName());
    StatusField(w, FirmwareDtName(), d.state, d.detail);
    ghost var xs := StatusMembers(d.state, d.detail);
    NonEmpty(d.state, d.detail);
    NumberField(w, TablesSearchedName(), true, dt.searched, inner, xs);
    xs := xs + [Field(TablesSearchedName(), Num(dt.searched as nat))];
    NumberField(w, TablesTotalName(), true, dt.total, inner, xs);
    xs := xs + [Field(TablesTotalName(), Num(dt.total as nat))];
    NumberField(w, SizeName(), ok, d.size as uint64, inner, xs);
    xs := xs + [Field(SizeName(), NumIf(ok, d.size as nat))];
    NumberField(w, VersionName(), ok, d.version as uint64, inner, xs);
    xs := xs + [Field(VersionName(), NumIf(ok, d.version as nat))];
    NumberField(w, LastCompVersionName(), ok, d.lastComp as uint64, inner, xs);
    xs := xs + [Field(LastCompVersionName(), NumIf(ok, d.lastComp as nat))];
    ModelSection(w, d, inner, xs);
    Close(w, inner, xs + [Field(ModelName(), ModelValue(d.ModelView(), ok))]);
  }

  // var_field
  method VariableSection(w: Writer, k: PlainText, v: VarResult, ghost acc: string, ghost ms: seq<Member>)
    requires w.Valid() && ms != [] && w.full == OpenTo(acc, ms)
    modifies w`length, w`truncated, w`full, w.data
    ensures w.Valid() && w.Terminated() && w.full == OpenTo(acc, ms + [Field(k, VariableValue(v))])
  {
    hide OpenTo, To, UnitsOf, KeyTo, Field, StatusMembers, HexValueOf, EfiStatusName, ValueName;
    OpenStep(acc, ms, k, VariableValue(v));
    ghost var inner := KeyTo(w.full, k);
    StatusField(w, k, v.state, v.detail);
    ghost var xs := StatusMembers(v.state, v.detail);
    NonEmpty(v.state, v.detail);
    HexField(w, EfiStatusName(), true, v.status, inner, xs);
    xs := xs + [Field(EfiStatusName(), HexValueOf(v.status))];
    NumberField(w, ValueName(), v.state == Observed, v.value as uint64, inner, xs);
    Close(w, inner, xs + [Field(ValueName(), NumIf(v.state == Observed, v.value as nat))]);
  }

  method ElSection(w: Writer, el: ElResult, ghost acc: string, ghost ms: seq<Member>)
    requires w.Valid() && ms != [] && w.full == OpenTo(acc, ms)
    modifies w`length, w`truncated, w`full, w.data
    ensures w.Valid() && w.Terminated() && w.full == OpenTo(acc, ms + [Field(CurrentElName(), ElValue(el))])
  {
    hide OpenTo, To, UnitsOf, KeyTo, Field, StatusMembers, HexValueOf, CurrentElName, RawName, ReportedLevelName;
    OpenStep(acc, ms, CurrentElName(), ElValue(el));
    ghost var inner := KeyTo(w.full, CurrentElName());
    StatusField(w, CurrentElName(), el.state, NoDetail);
    ghost var xs := StatusMembers(el.state, NoDetail);
    NonEmpty(el.state, NoDetail);
    HexField(w, RawName(), true, el.raw, inner, xs);
    xs := xs + [Field(RawName(), HexValueOf(el.raw))];
    NumberField(w, ReportedLevelName(), el.state == Observed, el.level, inner, xs);
    Close(w, inner, xs + [Field(ReportedLevelName(), NumIf(el.state == Observed, el.level as nat))]);
  }

  // -------------------------------------------------------------------- the whole record

  ghost function FactsOf(vendor: VendorResult, firmwareRevision: uint32, uefiRevision: uint32,
                         loaded: Option<LoadedImage>, imageStatus: Status, a: MapAcquisition, dt: DtSearch,
                         secure: VarResult, setup: VarResult, el: ElResult): Facts
    reads a, dt.dt, dt.dt.model
  {
    Facts(vendor, firmwareRevision, uefiRevision, loaded, imageStatus, a.View(), dt.View(), secure, setup, el)
  }

  // build_record: whatever the observations, the writer is asked for the printed form of
  // the record's value, no more and no less.
  method BuildRecord(w: Writer, vendorText: Option<seq<uint16>>, firmwareRevision: uint32, uefiRevision: uint32,
                     loaded: Option<LoadedImage>, imageStatus: Status, a: MapAcquisition, dt: DtSearch,
                     secure: VarResult, setup: VarResult, el: ElResult)
    requires w.Valid() && w.full == ""
    requires vendorText.Some? ==> ReadableText(vendorText.value)
    requires Listed(a.result)
    requires dt.dt.Valid() && Strlen(dt.dt.model[..]) < dt.dt.model.Length
    modifies w`length, w`truncated, w`full, w.data
    ensures w.Valid() && w.Terminated()
    ensures w.full == Print(RecordValue(FactsOf(Vendor(vendorText), firmwareRevision, uefiRevision, loaded, imageStatus,
                                                a, dt, secure, setup, el)))
  {
    hide *;
    var vendor := ReadVendor(vendorText);
    VendorText(vendorText);
    ghost var x := FactsOf(vendor, firmwareRevision, uefiRevision, loaded, imageStatus, a, dt, secure, setup, el);
    FactsAre(vendor, firmwareRevision, uefiRevision, loaded, imageStatus, a, dt, secure, setup, el);
    SchemaPiece();
    w.Put("{\"" + SchemaName() + "\":2");
    ghost var ms := [Field(SchemaName(), Num(2))];
    TextField(w, BuildName(), BuildId(), "", ms);
    ms := ms + [Field(BuildName(), Phrase(BuildId()))];
    VendorSection(w, vendor, "", ms);
    ms := ms + [Field(FirmwareVendorName(), VendorValue(vendor))];
    NumberField(w, FirmwareRevisionName(), true, firmwareRevision as uint64, "", ms);
    NumIfCases(true, firmwareRevision as nat);
    ms := ms + [Field(FirmwareRevisionName(), Num(firmwareRevision as nat))];
    NumberField(w, UefiRevisionName(), true, uefiRevision as uint64, "", ms);
    NumIfCases(true, uefiRevision as nat);
    ms := ms + [Field(UefiRevisionName(), Num(uefiRevision as nat))];
    ImageSection(w, loaded, imageStatus, "", ms);
    ms := ms + [Field(LoadedImageName(), ImageValue(loaded, imageStatus))];
    PathSection(w, loaded, "", ms);
    ms := ms + [Field(DevicePathName(), PathValue(loaded))];
    MapSection(w, a, "", ms);
    ms := ms + [Field(BootServicesMapName(), MapValue(x.acquired))];
    DtSection(w, dt, "", ms);
    ms := ms + [Field(FirmwareDtName(), DtValue(x.dt))];
    VariableSection(w, SecureBootName(), secure, "", ms);
    ms := ms + [Field(SecureBootName(), VariableValue(secure))];
    VariableSection(w, SetupModeName(), setup, "", ms);
    ms := ms + [Field(SetupModeName(), VariableValue(setup))];
    ElSection(w, el, "", ms);
    ms := ms + [Field(CurrentElName(), ElValue(el))];
    TextField(w, ExecutionContextName(), NotEstablished(), "", ms);
    ms := ms + [Field(ExecutionContextName(), Phrase(NotEstablished()))];
    Key(w, RecordTruncatedName());
    LastPiece(ms);
    w.Put("false}");
    MembersAre(x);
  }

  lemma FactsAre(vendor: VendorResult, firmwareRevision: uint32, uefiRevision: uint32, loaded: Option<LoadedImage>,
                 imageStatus: Status, a: MapAcquisition, dt: DtSearch, secure: VarResult, setup: VarResult,
                 el: ElResult)
    ensures var x := FactsOf(vendor, firmwareRevision, uefiRevision, loaded, imageStatus, a, dt, secure, setup, el);
            && x.vendor == vendor && x.firmwareRevision == firmwareRevision && x.uefiRevision == uefiRevision
            && x.loaded == loaded && x.imageStatus == imageStatus && x.acquired == a.View() && x.dt == dt.View()
            && x.secure == secure && x.setup == setup && x.el == el
  {
  }

  lemma SchemaPiece()
    ensures "" + ("{\"" + SchemaName() + "\":2") == OpenTo("", [Field(SchemaName(), Num(2))])
  {
    hide SchemaName, UnitsOf;
    OpenFirst("", SchemaName(), Num(2));
    Pieces("" + ("{\"" + SchemaName() + "\":"), 2, 0, [], []);
    assert Decimal(2) == "2";
    assert "" + ("{\"" + SchemaName() + "\":2") == "" + ("{\"" + SchemaName() + "\":") + "2";
  }

  // The closing literal ends the last member and the record in one piece.
  lemma LastPiece(ms: seq<Member>)
    requires ms != []
    ensures KeyTo(OpenTo("", ms), RecordTruncatedName()) + "false}" ==
            Print(Obj(ms + [Field(RecordTruncatedName(), Bool(false))]))
  {
    hide OpenTo, To, KeyTo, Print, RecordTruncatedName, UnitsOf;
    var all := ms + [Field(RecordTruncatedName(), Bool(false))];
    var acc := KeyTo(OpenTo("", ms), RecordTruncatedName());
    OpenStep("", ms, RecordTruncatedName(), Bool(false));
    Pieces(acc, 0, 0, [], []);
    Pieces("", 0, 0, [], all);
    ToPrints("", Obj(all));
    assert acc + "false}" == acc + "false" + "}";
    assert "" + Print(Obj(all)) == Print(Obj(all));
  }

  lemma MembersAre(x: Facts)
    ensures RecordValue(x) == Obj(
              [Field(SchemaName(), Num(2))]
              + [Field(BuildName(), Phrase(BuildId()))]
              + [Field(FirmwareVendorName(), VendorValue(x.vendor))]
              + [Field(FirmwareRevisionName(), Num(x.firmwareRevision as nat))]
              + [Field(UefiRevisionName(), Num(x.uefiRevision as nat))]
              + [Field(LoadedImageName(), ImageValue(x.loaded, x.imageStatus))]
              + [Field(DevicePathName(), PathValue(x.loaded))]
              + [Field(BootServicesMapName(), MapValue(x.acquired))]
              + [Field(FirmwareDtName(), DtValue(x.dt))]
              + [Field(SecureBootName(), VariableValue(x.secure))]
              + [Field(SetupModeName(), VariableValue(x.setup))]
              + [Field(CurrentElName(), ElValue(x.el))]
              + [Field(ExecutionContextName(), Phrase(NotEstablished()))]
              + [Field(RecordTruncatedName(), Bool(false))])
  {
  }
}
