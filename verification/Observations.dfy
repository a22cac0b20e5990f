// The other observations of the record: vendor text, variables, exception level, and the
// search for the devicetree in the configuration tables.
module Observations {
  import opened Machine
  import opened Details
  import opened Blob
  import opened BlobTheorems
  import opened DtParser

  const VENDOR_LIMIT := 64
  const TABLE_LIMIT: uint64 := 256

  // -------------------------------------------------------------------- FirmwareVendor

  // `text` holds the reported units.
  datatype VendorResult = VendorResult(state: State, text: seq<uint16>)

  predicate Surrogate(c: uint16) {
    0xd800 <= c <= 0xdfff
  }

  // Units before the first NUL, at most `n` of them.
  function Prefix(s: seq<uint16>, n: nat): (p: seq<uint16>)
    ensures |p| <= n && p <= s
    ensures forall i :: 0 <= i < |p| ==> p[i] != 0
    ensures |p| < n && |p| < |s| ==> s[|p|] == 0
  {
    if n == 0 || s == [] || s[0] == 0 then [] else [s[0]] + Prefix(s[1..], n - 1)
  }

  // The reader may look at VENDOR_LIMIT + 1 units, or up to a NUL.
  predicate ReadableText(s: seq<uint16>) {
    |s| > VENDOR_LIMIT || exists i :: 0 <= i < |s| && s[i] == 0
  }

  function Vendor(text: Option<seq<uint16>>): VendorResult
    requires text.Some? ==> ReadableText(text.value)
  {
    match text
    case None => VendorResult(Unavailable, [])
    case Some(s) =>
      var p := Prefix(s, VENDOR_LIMIT);
      if exists i :: 0 <= i < |p| && Surrogate(p[i]) then VendorResult(Unsupported, [])
      else VendorResult(if |p| == VENDOR_LIMIT && s[VENDOR_LIMIT] != 0 then Truncated else Observed, p)
  }

  method ReadVendor(text: Option<seq<uint16>>) returns (r: VendorResult)
    requires text.Some? ==> ReadableText(text.value)
    ensures r == Vendor(text)
  {
    if text.None? {
      return VendorResult(Unavailable, []);
    }
    var s := text.value;
    ghost var p := Prefix(s, VENDOR_LIMIT);
    var buffer := new uint16[VENDOR_LIMIT + 1](_ => 0);
    var i := 0;
    while i < VENDOR_LIMIT && s[i] != 0
      invariant 0 <= i <= |p| && (i < VENDOR_LIMIT ==> i < |s|)
      invariant buffer[..i] == s[..i]
      invariant forall j :: 0 <= j < i ==> s[j] != 0 && !Surrogate(s[j])
    {
      if s[i] >= 0xd800 && s[i] <= 0xdfff {
        assert Surrogate(p[i]);
        return VendorResult(Unsupported, []);
      }
      buffer[i] := s[i];
      i := i + 1;
      assert i <= |p|;
    }
    assert i == |p| && buffer[..i] == p;
    buffer[i] := 0;
    r := VendorResult(if i == VENDOR_LIMIT && s[i] != 0 then Truncated else Observed, buffer[..i]);
  }

  // A reported vendor text holds no NUL and no surrogate, so its escaped form decodes to it.
  lemma VendorText(text: Option<seq<uint16>>)
    requires text.Some? ==> ReadableText(text.value)
    ensures var r := Vendor(text);
            && |r.text| <= VENDOR_LIMIT
            && (forall i :: 0 <= i < |r.text| ==> r.text[i] != 0 && !Surrogate(r.text[i]))
            && (r.state == Observed || r.state == Truncated ==> text.Some? && r.text <= text.value)
            && (r.state == Observed ==> |r.text| < |text.value| && text.value[|r.text|] == 0)
  {
  }

  // -------------------------------------------------------------------- variables, CurrentEL

  datatype VarResult = VarResult(state: State, detail: Detail, status: Status, value: uint8)

  function ParseVar(s: Status, size: uint64, v: uint8): VarResult {
    if s == EFI_NOT_FOUND then VarResult(Unavailable, VariableNotFound, s, 0)
    else if s == EFI_BUFFER_TOO_SMALL then VarResult(Malformed, VariableSize, s, 0)
    else if s == EFI_UNSUPPORTED then VarResult(Unsupported, ServiceUnsupported, s, 0)
    else if IsError(s) then VarResult(Unavailable, EfiErrorDetail, s, 0)
    else if s != EFI_SUCCESS then VarResult(Unsupported, WarningStatus, s, 0)
    else if size != 1 then VarResult(Malformed, VariableSize, s, 0)
    else if v > 1 then VarResult(Malformed, ValueRange, s, 0)
    else VarResult(Observed, NoDetail, s, v)
  }

  datatype ElResult = ElResult(state: State, raw: uint64, level: uint64)

  // Only bits 3:2 may be set, and not both clear.
  function DecodeEl(raw: uint64): ElResult {
    if raw % 4 == 0 && 0 < raw / 4 < 4 then ElResult(Observed, raw, raw / 4)
    else ElResult(Malformed, raw, 0)
  }

  // -------------------------------------------------------------------- the configuration tables

  datatype ConfigEntry = ConfigEntry(guid: seq<uint8>, table: Option<seq<uint8>>)

  const DT_GUID: seq<uint8> := [0xd5, 0x21, 0xb6, 0xb1, 0x9c, 0xf1, 0xa5, 0x41, 0x83, 0x0b, 0xd9, 0x15, 0x2c, 0x69,
                                0xaa, 0xe0]

  // A blob pointer the firmware entry may follow.
  predicate Followable(p: seq<uint8>) {
    && |p| >= 8
    && (Be32(p, 0) == FDT_MAGIC && HEADER <= Be32(p, 4) as nat <= DT_LIMIT ==> Be32(p, 4) as nat <= |p|)
  }

  // Entries the search may look at.
  function Span(total: uint64): nat {
    if total > TABLE_LIMIT then TABLE_LIMIT as nat else total as nat
  }

  // What must be readable: those entries, and the blob behind the first one with the
  // devicetree GUID. No other entry's pointer is followed.
  predicate Searchable(total: uint64, tables: Option<seq<ConfigEntry>>) {
    tables.Some? ==>
      && Span(total) <= |tables.value|
      && var i := FirstDt(tables.value, Span(total), 0);
         (i < Span(total) && tables.value[i].table.Some? ==> Followable(tables.value[i].table.value))
  }

  // The first entry with the devicetree GUID at or after `i`, or `n`.
  function FirstDt(es: seq<ConfigEntry>, n: nat, i: nat): (r: nat)
    requires i <= n <= |es|
    ensures i <= r <= n
    ensures forall j :: i <= j < r ==> es[j].guid != DT_GUID
    ensures r < n ==> es[r].guid == DT_GUID
    decreases n - i
  {
    if i == n || es[i].guid == DT_GUID then i else FirstDt(es, n, i + 1)
  }

  datatype DtView = DtView(dt: DtResult, searched: nat, total: uint64)

  function FindDt(total: uint64, tables: Option<seq<ConfigEntry>>): DtView
    requires Searchable(total, tables)
  {
    if total == 0 then DtView(Refused(Unavailable, Absent, 0, 0, 0), 0, 0)
    else
      match tables
      case None => DtView(Refused(Malformed, ConfigTableNull, 0, 0, 0), 0, total)
      case Some(es) =>
        var n := Span(total);
        var i := FirstDt(es, n, 0);
        if i < n then
          var dt := if es[i].table.None? then Refused(Malformed, TableNull, 0, 0, 0)
                    else ParseFirmware(es[i].table);
          DtView(dt, i + 1, total)
        else if total as nat > n then DtView(Refused(NotProbed, SearchLimit, 0, 0, 0), n, total)
        else DtView(Refused(Unavailable, Absent, 0, 0, 0), n, total)
  }

  // Absence is reported exactly when there is no configuration table, or when all of it was
  // looked at and no entry has the devicetree GUID; when only the first entries could be
  // looked at and none has it, the blob counts as not probed.
  lemma AbsenceConfirmed(total: uint64, tables: Option<seq<ConfigEntry>>)
    requires Searchable(total, tables)
    ensures var state := FindDt(total, tables).dt.state;
            && (state == Unavailable <==>
                total == 0 || (tables.Some? && total <= TABLE_LIMIT && NoneFound(tables.value, total as nat)))
            && (state == NotProbed <==>
                tables.Some? && total > TABLE_LIMIT && NoneFound(tables.value, TABLE_LIMIT as nat))
  {
    hide Parse, Followable;
    if total != 0 && tables.Some? {
      var es, n := tables.value, Span(total);
      var i := FirstDt(es, n, 0);
      if i < n && es[i].table.Some? {
        FollowableMeans(es[i].table.value);
        FirmwareStates(es[i].table.value);
      }
    }
  }

  predicate NoneFound(es: seq<ConfigEntry>, n: nat) {
    n <= |es| && forall i :: 0 <= i < n ==> es[i].guid != DT_GUID
  }

  lemma FirmwareStates(p: seq<uint8>)
    requires Followable(p)
    ensures ParseFirmware(Some(p)).state !in {Unavailable, NotProbed, Truncated}
  {
    hide Parse;
    if Be32(p, 4) as nat <= |p| {
      RefusalReportsNothing(Some(p[..Be32(p, 4) as nat]));
    }
  }

  datatype DtSearch = DtSearch(dt: DtReport, searched: uint64, total: uint64) {
    ghost function View(): DtView
      reads dt, dt.model
    {
      DtView(dt.View(), searched as nat, total)
    }
  }

  method NewReport(s: State, d: Detail) returns (r: DtReport)
    ensures fresh(r) && fresh(r.model) && r.Valid() && r.View() == Refused(s, d, 0, 0, 0)
  {
    r := new DtReport();
    r.state, r.detail := s, d;
  }

  // find_dt
  method SearchDt(total: uint64, tables: Option<seq<ConfigEntry>>) returns (s: DtSearch)
    requires Searchable(total, tables)
    ensures fresh(s.dt) && fresh(s.dt.model) && s.dt.Valid()
    ensures s.View() == FindDt(total, tables)
  {
    hide ParseFirmware, Followable;
    if total == 0 {
      var r := NewReport(Unavailable, Absent);
      return DtSearch(r, 0, 0);
    }
    if tables.None? {
      var r := NewReport(Malformed, ConfigTableNull);
      return DtSearch(r, 0, total);
    }
    var es := tables.value;
    var n := if total > TABLE_LIMIT then TABLE_LIMIT else total;
    var i: uint64 := 0;
    while i < n
      invariant 0 <= i <= n
      invariant FirstDt(es, n as nat, 0) == FirstDt(es, n as nat, i as nat)
      decreases n - i
    {
      var e := es[i];
      if e.guid == DT_GUID {
        if e.table.None? {
          var r := NewReport(Malformed, TableNull);
          return DtSearch(r, i + 1, total);
        }
        FollowableMeans(e.table.value);
        var r := ParseFirmwareDt(e.table);
        return DtSearch(r, i + 1, total);
      }
      i := i + 1;
    }
    var r;
    if total > n {
      r := NewReport(NotProbed, SearchLimit);
    } else {
      r := NewReport(Unavailable, Absent);
    }
    return DtSearch(r, n, total);
  }

  lemma FollowableMeans(p: seq<uint8>)
    requires Followable(p)
    ensures |p| >= 8
    ensures Be32(p, 0) == FDT_MAGIC && HEADER <= Be32(p, 4) as nat <= DT_LIMIT ==> Be32(p, 4) as nat <= |p|
  {
  }
}
