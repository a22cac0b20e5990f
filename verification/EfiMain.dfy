// efi_main: the observations, the record, the output, and the return status.
module EfiMain {
  import opened Machine
  import opened Details
  import opened Devicetree
  import opened Blob
  import opened BlobTheorems
  import opened MemoryMap
  import opened FirmwareModel
  import opened MapProtocol
  import opened Json
  import opened WriterModel
  import opened RecordText
  import opened Observations
  import opened Record
  import opened RecordNames
  import opened RecordTheorems
  import opened Probe

  // What the probe finds in the system table. Services that are absent are null pointers
  // in the original; `console` means ConOut and its OutputString are both there.
  datatype SystemTable = SystemTable(
    console: bool, vendor: Option<seq<uint16>>, firmwareRevision: uint32, revision: uint32,
    protocolService: bool, poolServices: bool, variableService: bool,
    tableCount: uint64, tables: Option<seq<ConfigEntry>>)

  // The memory the probe may read through the borrowed pointers.
  predicate Borrowable(st: SystemTable) {
    && (st.vendor.Some? ==> ReadableText(st.vendor.value))
    && Searchable(st.tableCount, st.tables)
  }

  // The firmware's fixed answers, and the CurrentEL register.
  datatype Answers = Answers(rounds: nat -> Round, outputs: nat -> Status, protocol: (Status, Option<LoadedImage>),
                             variables: Variable -> VariableAnswer, el: uint64)

  // -------------------------------------------------------------------- the run as a function

  function LoadedOf(st: SystemTable, w: Answers): Option<LoadedImage> {
    if st.protocolService && !IsError(w.protocol.0) then w.protocol.1 else None
  }

  function ImageStatusOf(st: SystemTable, w: Answers): Status {
    if st.protocolService then w.protocol.0 else EFI_UNSUPPORTED
  }

  function VariableOf(st: SystemTable, w: Answers, v: Variable): VarResult {
    if st.variableService then ParseVar(w.variables(v).status, w.variables(v).size, w.variables(v).value)
    else VarResult(Unavailable, ServiceMissing, EFI_SUCCESS, 0)
  }

  ghost function FactsSeen(st: SystemTable, w: Answers): Facts
    requires Borrowable(st)
  {
    Facts(Vendor(st.vendor), st.firmwareRevision, st.revision, LoadedOf(st, w),
          ImageStatusOf(st, w), Acquisition(w.rounds, st.poolServices).outcome, FindDt(st.tableCount, st.tables),
          VariableOf(st, w, SecureBoot), VariableOf(st, w, SetupMode), DecodeEl(w.el))
  }

  ghost function RecordOf(st: SystemTable, w: Answers): string
    requires Borrowable(st)
  {
    Print(RecordValue(FactsSeen(st, w)))
  }

  // The firmware calls made before anything is printed.
  ghost function Observing(st: SystemTable, w: Answers): seq<Call> {
    (if st.protocolService then [HandleProtocol(w.protocol.0)] else [])
    + Acquisition(w.rounds, st.poolServices).calls
    + (if st.variableService then [GetVariable(SecureBoot, w.variables(SecureBoot).status)] else [])
    + (if st.variableService then [GetVariable(SetupMode, w.variables(SetupMode).status)] else [])
  }

  function Banner(): string {
    "EFI inventory Phase A: " + "boot-services snapshot; " + "returning to caller\r\n"
  }

  function Marker(): string {
    "{\"schema\":2," + "\"record_truncated\":true}\r\n"
  }

  function Newline(): string {
    "\r\n"
  }

  function Messages(record: string, truncated: bool): seq<string> {
    if truncated then [Banner(), Marker()] else [Banner(), record, Newline()]
  }

  // Output errors outrank a cleanup failure, which outranks truncation.
  function ReturnStatus(output: Status, release: Status, truncated: bool): Status {
    if IsError(output) then output
    else if release != EFI_SUCCESS then release
    else if truncated then EFI_BUFFER_TOO_SMALL
    else EFI_SUCCESS
  }

  // -------------------------------------------------------------------- the code

  method ObserveVariable(fw: Firmware, st: SystemTable, v: Variable, ghost w: Answers) returns (r: VarResult)
    requires fw.variables == w.variables
    modifies fw`calls
    ensures r == VariableOf(st, w, v)
    ensures fw.calls == old(fw.calls) + if st.variableService then [GetVariable(v, w.variables(v).status)] else []
  {
    if !st.variableService {
      return VarResult(Unavailable, ServiceMissing, EFI_SUCCESS, 0);
    }
    var status, size, value := fw.Variable(v);
    r := ParseVar(status, size, value);
  }

  method ObserveImage(fw: Firmware, st: SystemTable, ghost w: Answers)
    returns (loaded: Option<LoadedImage>, status: Status)
    requires fw.protocol == w.protocol
    modifies fw`calls
    ensures loaded == LoadedOf(st, w)
    ensures status == ImageStatusOf(st, w)
    ensures fw.calls == old(fw.calls) + if st.protocolService then [HandleProtocol(w.protocol.0)] else []
  {
    loaded, status := None, EFI_UNSUPPORTED;
    if st.protocolService {
      var interface;
      status, interface := fw.Protocol();
      if !IsError(status) {
        loaded := interface;
      }
    }
  }

  // Everything that is asked of the firmware, in order.
  method Gather(fw: Firmware, st: SystemTable, ghost answers: Answers)
    returns (loaded: Option<LoadedImage>, imageStatus: Status, a: MapAcquisition, dt: DtSearch, secure: VarResult,
             setup: VarResult)
    requires Searchable(st.tableCount, st.tables) && fw.attempt == 0 && fw.live == null
    requires fw.rounds == answers.rounds && fw.protocol == answers.protocol && fw.variables == answers.variables
    modifies fw`attempt, fw`live, fw`calls
    ensures fw.live == null && fw.calls == old(fw.calls) + Observing(st, answers)
    ensures loaded == LoadedOf(st, answers) && imageStatus == ImageStatusOf(st, answers)
    ensures fresh(a) && a.View() == Acquisition(answers.rounds, st.poolServices).outcome
    ensures fresh(dt.dt) && fresh(dt.dt.model) && dt.dt.Valid() && dt.View() == FindDt(st.tableCount, st.tables)
    ensures secure == VariableOf(st, answers, SecureBoot) && setup == VariableOf(st, answers, SetupMode)
  {
    hide *;
    loaded, imageStatus := ObserveImage(fw, st, answers);
    a := AcquireMap(fw, st.poolServices);
    dt := SearchDt(st.tableCount, st.tables);
    secure := ObserveVariable(fw, st, SecureBoot, answers);
    setup := ObserveVariable(fw, st, SetupMode, answers);
    ObservingIs(st, answers);
  }

  // The observations, ending in a filled writer.
  method Observe(fw: Firmware, st: SystemTable, el: uint64, w: Writer, ghost answers: Answers) returns (release: Status)
    requires Borrowable(st) && fw.attempt == 0 && fw.live == null && w.Valid() && w.full == ""
    requires answers == Answers(fw.rounds, fw.outputs, fw.protocol, fw.variables, el)
    modifies fw`attempt, fw`live, fw`calls, w`length, w`truncated, w`full, w.data
    ensures fw.live == null && fw.calls == old(fw.calls) + Observing(st, answers)
    ensures w.Valid() && w.Terminated() && w.full == RecordOf(st, answers)
    ensures release == Acquisition(answers.rounds, st.poolServices).outcome.release
  {
    hide *;
    AcquisitionListed(fw.rounds, st.poolServices);
    BorrowableMeans(st);
    SearchedModelFits(st.tableCount, st.tables);
    var loaded, imageStatus, a, dt, secure, setup := Gather(fw, st, answers);
    var level := DecodeEl(el);
    ViewsOf(a, dt);
    SeenIs(st, answers);
    FactsAre(Vendor(st.vendor), st.firmwareRevision, st.revision, loaded, imageStatus, a, dt, secure, setup, level);
    BuildRecord(w, st.vendor, st.firmwareRevision, st.revision, loaded, imageStatus, a, dt, secure, setup, level);
    release := a.releaseStatus;
  }

  lemma BorrowableMeans(st: SystemTable)
    requires Borrowable(st)
    ensures st.vendor.Some? ==> ReadableText(st.vendor.value)
    ensures Searchable(st.tableCount, st.tables)
  {
  }

  lemma ObservingIs(st: SystemTable, w: Answers)
    ensures Observing(st, w) ==
            (if st.protocolService then [HandleProtocol(w.protocol.0)] else [])
            + Acquisition(w.rounds, st.poolServices).calls
            + (if st.variableService then [GetVariable(SecureBoot, w.variables(SecureBoot).status)] else [])
            + (if st.variableService then [GetVariable(SetupMode, w.variables(SetupMode).status)] else [])
  {
  }

  lemma SeenIs(st: SystemTable, w: Answers)
    requires Borrowable(st)
    ensures (st.vendor.Some? ==> ReadableText(st.vendor.value)) && Searchable(st.tableCount, st.tables)
    ensures var x := FactsSeen(st, w);
            && x.vendor == Vendor(st.vendor)
            && x.firmwareRevision == st.firmwareRevision && x.uefiRevision == st.revision
            && x.loaded == LoadedOf(st, w) && x.imageStatus == ImageStatusOf(st, w)
            && x.acquired == Acquisition(w.rounds, st.poolServices).outcome && x.dt == FindDt(st.tableCount, st.tables)
            && x.secure == VariableOf(st, w, SecureBoot) && x.setup == VariableOf(st, w, SetupMode)
            && x.el == DecodeEl(w.el)
    ensures RecordOf(st, w) == Print(RecordValue(FactsSeen(st, w)))
  {
    hide Print, RecordValue;
  }

  lemma ViewsOf(a: MapAcquisition, dt: DtSearch)
    ensures a.View().result == a.result && a.View().release == a.releaseStatus
    ensures dt.View().dt == dt.dt.View()
    ensures |dt.dt.View().model.text| == Strlen(dt.dt.model[..])
        && (dt.dt.Valid() ==> dt.dt.model.Length == MODEL_LIMIT + 1)
  {
  }

  lemma EmitAllCons(m: string, rest: seq<string>, outputs: nat -> Status, k: nat)
    ensures var first := Emit(m, outputs, k);
            var after := EmitAll(rest, outputs, k + |first.calls|);
            EmitAll([m] + rest, outputs, k) ==
            if IsError(first.status) then first else Emission(after.status, first.calls + after.calls)
  {
    hide Emit;
    assert ([m] + rest)[1..] == rest;
  }

  lemma EmitAllOne(m: string, outputs: nat -> Status, k: nat)
    ensures EmitAll([m], outputs, k) == Emit(m, outputs, k)
  {
    hide Emit;
    EmitContract(m, outputs, k);
    assert [m][1..] == [];
    assert Emit(m, outputs, k).calls + [] == Emit(m, outputs, k).calls;
  }

  // A string literal of C.
  function Literal(s: string): seq<char> {
    s + ['\0']
  }

  lemma LiteralHolds(s: string)
    requires CText(s)
    ensures CString(Literal(s), s)
  {
    assert Literal(s)[..|s|] == s;
  }

  // The record in its buffer, then the line end.
  method PrintRecord(fw: Firmware, memory: seq<char>, ghost record: string) returns (status: Status)
    requires CString(memory, record)
    modifies fw`printed, fw`calls
    ensures var e := EmitAll([record, Newline()], fw.outputs, old(fw.printed));
            status == e.status && fw.calls == old(fw.calls) + e.calls
  {
    hide *;
    EmitAllCons(record, [Newline()], fw.outputs, fw.printed);
    assert [record] + [Newline()] == [record, Newline()];
    status := PrintText(fw, memory, record);
    if !IsError(status) {
      EmitAllOne(Newline(), fw.outputs, fw.printed);
      FixedTexts();
      status := PrintText(fw, Literal(Newline()), Newline());
    }
  }

  // The printing half of efi_main.
  method Report(fw: Firmware, w: Writer, release: Status) returns (status: Status)
    requires w.Valid() && w.Terminated() && w.capacity > 0 && CText(w.full) && fw.printed == 0
    modifies fw`printed, fw`calls
    ensures var truncated := |w.full| > w.Room();
            var output := EmitAll(Messages(w.full, truncated), fw.outputs, 0);
            && status == ReturnStatus(output.status, release, truncated)
            && fw.calls == old(fw.calls) + output.calls
  {
    hide *;
    FixedTexts();
    Kept(w);
    MessagesSplit(w.full, w.truncated);
    var rest := if w.truncated then [Marker()] else [w.full, Newline()];
    EmitAllCons(Banner(), rest, fw.outputs, 0);
    ReturnStatusCases(release, w.truncated);
    status := PrintText(fw, Literal(Banner()), Banner());
    if IsError(status) {
      return;
    }
    if w.truncated {
      EmitAllOne(Marker(), fw.outputs, fw.printed);
      status := PrintText(fw, Literal(Marker()), Marker());
      return if IsError(status) then status else if release != EFI_SUCCESS then release else EFI_BUFFER_TOO_SMALL;
    }
    status := PrintRecord(fw, w.data[..], w.full);
    return if IsError(status) then status else release;
  }

  lemma MessagesSplit(record: string, truncated: bool)
    ensures Messages(record, truncated) == [Banner()] + if truncated then [Marker()] else [record, Newline()]
  {
    hide Banner, Marker, Newline;
  }

  lemma ReturnStatusCases(release: Status, truncated: bool)
    ensures forall s :: ReturnStatus(s, release, truncated) ==
                        if IsError(s) then s
                        else if release != EFI_SUCCESS then release
                        else if truncated then EFI_BUFFER_TOO_SMALL else EFI_SUCCESS
  {
  }

  lemma FixedTexts()
    ensures CString(Literal(Banner()), Banner()) && CString(Literal(Marker()), Marker())
    ensures CString(Literal(Newline()), Newline())
  {
    BannerText();
    MarkerText();
    hide Banner, Marker, CString, Literal;
    LiteralHolds(Banner());
    LiteralHolds(Marker());
    LiteralHolds(Newline());
  }

  lemma BannerWords()
    ensures Banner() == "EFI inventory Phase A: boot-services snapshot; returning to caller\r\n"
  {
    var a, b, c := "EFI inventory Phase A: ", "boot-services snapshot; ", "returning to caller\r\n";
    assert a + b == "EFI inventory Phase A: boot-services snapshot; ";
  }

  lemma Constants()
    ensures RECORD_CAPACITY == 4096 && MAP_LIMIT == 0x4_0000 && MAP_INITIAL == 4096 && MAP_ATTEMPTS == 5
    ensures DT_LIMIT == 0x10_0000 && DEPTH_LIMIT == 64 && MODEL_LIMIT == 64 && VENDOR_LIMIT == 64
    ensures TABLE_LIMIT == 256 && REPORTED == 12 && CHUNK == 126
    ensures EFI_SUCCESS == 0 && EFI_INVALID_PARAMETER == 0x8000_0000_0000_0002
    ensures EFI_UNSUPPORTED == 0x8000_0000_0000_0003 && EFI_BUFFER_TOO_SMALL == 0x8000_0000_0000_0005
  {
  }

  lemma BannerText()
    ensures CText(Banner())
  {
    var a, b, c := "EFI inventory Phase A: ", "boot-services snapshot; ", "returning to caller\r\n";
    assert CText(a);
    assert CText(b);
    assert CText(c);
  }

  lemma MarkerText()
    ensures CText(Marker())
  {
    var a, b := "{\"schema\":2,", "\"record_truncated\":true}\r\n";
    assert CText(a);
    assert CText(b);
  }

  // An untruncated buffer, up to its NUL, holds the whole text.
  lemma Kept(w: Writer)
    requires w.Valid() && w.Terminated() && w.capacity > 0 && CText(w.full)
    ensures w.truncated <==> |w.full| > w.Room()
    ensures !w.truncated ==> CString(w.data[..], w.full)
  {
    if !w.truncated {
      assert w.data[..][..w.length] == w.data[..w.length] == w.full[..w.length] == w.full;
    }
  }

  // efi_main; `capacity` is RECORD_CAPACITY, which the tests shrink.
  method EfiMain(fw: Firmware, table: Option<SystemTable>, el: uint64, capacity: uint64) returns (status: Status)
    requires table.Some? ==> Borrowable(table.value)
    requires fw.attempt == 0 && fw.printed == 0 && fw.live == null && fw.calls == [] && capacity > 0
    modifies fw`attempt, fw`printed, fw`live, fw`calls
    ensures fw.live == null
    ensures table.None? ==> status == EFI_INVALID_PARAMETER && fw.calls == []
    ensures table.Some? && !table.value.console ==> status == EFI_UNSUPPORTED && fw.calls == []
    ensures table.Some? && table.value.console ==>
              MainRun(table.value, Answers(fw.rounds, fw.outputs, fw.protocol, fw.variables, el), capacity as nat,
                      status, fw.calls)
  {
    hide *;
    if table.None? {
      return EFI_INVALID_PARAMETER;
    }
    var st := table.value;
    if !st.console {
      return EFI_UNSUPPORTED;
    }
    ghost var answers := Answers(fw.rounds, fw.outputs, fw.protocol, fw.variables, el);
    var record := new char[capacity](_ => '\0');
    var w := new Writer(record);
    var release := Observe(fw, st, el, w, answers);
    RecordIsText(st, answers);
    RoomOf(w);
    status := Report(fw, w, release);
    ConcludesIs(RecordOf(st, answers), release, Observing(st, answers), fw.outputs, capacity as nat, status, fw.calls);
    MainRunIs(st, answers, capacity as nat, status, fw.calls);
  }

  lemma RoomOf(w: Writer)
    ensures w.capacity > 0 ==> w.Room() == w.capacity as nat - 1
  {
  }

  lemma RecordIsText(st: SystemTable, w: Answers)
    requires Borrowable(st)
    ensures CText(RecordOf(st, w)) && Printable(RecordOf(st, w))
  {
    hide Print, RecordValue, FactsSeen;
    PrintPrintable(RecordValue(FactsSeen(st, w)));
  }

  // How a run ends once its record is written: the messages after the quiet calls made so
  // far, and the status that follows.
  predicate Concludes(record: string, release: Status, quiet: seq<Call>, outputs: nat -> Status, capacity: nat,
                 status: Status, calls: seq<Call>) {
    var truncated := |record| > capacity - 1;
    var output := EmitAll(Messages(record, truncated), outputs, 0);
    calls == quiet + output.calls && status == ReturnStatus(output.status, release, truncated)
  }

  lemma ConcludesIs(record: string, release: Status, quiet: seq<Call>, outputs: nat -> Status, capacity: nat,
               status: Status, calls: seq<Call>)
    requires var output := EmitAll(Messages(record, |record| > capacity - 1), outputs, 0);
             calls == quiet + output.calls && status == ReturnStatus(output.status, release, |record| > capacity - 1)
    ensures Concludes(record, release, quiet, outputs, capacity, status, calls)
  {
    hide EmitAll, Messages, ReturnStatus;
  }

  lemma MainRunIs(st: SystemTable, w: Answers, capacity: nat, status: Status, calls: seq<Call>)
    requires Borrowable(st)
    requires Concludes(RecordOf(st, w), Acquisition(w.rounds, st.poolServices).outcome.release, Observing(st, w),
                       w.outputs, capacity, status, calls)
    ensures MainRun(st, w, capacity, status, calls)
  {
  }

  // The whole run: the observations, then the messages, and the status that follows.
  ghost predicate MainRun(st: SystemTable, w: Answers, capacity: nat, status: Status, calls: seq<Call>)
    requires Borrowable(st)
  {
    Concludes(RecordOf(st, w), Acquisition(w.rounds, st.poolServices).outcome.release, Observing(st, w), w.outputs,
         capacity, status, calls)
  }

  lemma {:induction false} RunListed(rounds: nat -> Round, k: nat, capacity: uint64, efi: Status)
    requires k <= MAP_ATTEMPTS
    ensures Listed(RunFrom(rounds, k, capacity, efi).outcome.result)
    decreases MAP_ATTEMPTS - k
  {
    hide Interpret, Next;
    if k < MAP_ATTEMPTS {
      InterpretedListed(rounds(k), capacity);
      StopNotObserved(capacity, rounds(k).size, rounds(k).stride);
      match RoundOf(rounds(k), k, capacity, efi)
      case Done(_, _) =>
      case Again(next, _) => RunListed(rounds, k + 1, next, EFI_BUFFER_TOO_SMALL);
    }
  }

  lemma StopNotObserved(capacity: uint64, required: uint64, stride: uint64)
    ensures var g := Next(capacity, required, stride); g.Stop? ==> g.state != Observed
  {
  }

  lemma InterpretedListed(r: Round, capacity: uint64)
    ensures Listed(Interpret(r, capacity))
  {
    hide ReadMap, Decode, DescriptorAt, AllSound, Filled;
    ReadMapReads(Some(Filled(r, capacity)), capacity, r.size, r.stride, r.version);
  }

  lemma AcquisitionListed(rounds: nat -> Round, present: bool)
    ensures Listed(Acquisition(rounds, present).outcome.result)
  {
    hide RunFrom;
    RunListed(rounds, 0, MAP_INITIAL, EFI_SUCCESS);
  }

  lemma SearchedModelFits(total: uint64, tables: Option<seq<ConfigEntry>>)
    requires Searchable(total, tables)
    ensures var v := FindDt(total, tables);
            v.searched <= TABLE_LIMIT as nat && |v.dt.model.text| <= MODEL_LIMIT && v.dt.model.length <= 0xffff_ffff
  {
    hide ParseFirmware, Followable;
    if total != 0 && tables.Some? {
      var es, n := tables.value, Span(total);
      var i := FirstDt(es, n, 0);
      if i < n && es[i].table.Some? {
        FollowableMeans(es[i].table.value);
        FirmwareModelFits(es[i].table.value);
      }
    }
  }

  lemma FirmwareModelFits(p: seq<uint8>)
    requires Followable(p)
    ensures var m := ParseFirmware(Some(p)).model; |m.text| <= MODEL_LIMIT && m.length <= 0xffff_ffff
  {
    hide Parse;
    if HEADER <= Be32(p, 4) as nat <= DT_LIMIT && Be32(p, 0) == FDT_MAGIC {
      ReportedModelFits(Some(p[..Be32(p, 4) as nat]));
    }
  }

  // -------------------------------------------------------------------- the theorems

  // Whatever the firmware answers, the facts stay within the record's limits.
  lemma FactsBounded(st: SystemTable, w: Answers)
    requires Borrowable(st)
    ensures Bounded(FactsSeen(st, w))
  {
    hide RunFrom, FindDt, Vendor, LoadedOf, VariableOf, DecodeEl, Listed;
    VendorText(st.vendor);
    Ownership(w.rounds, 0, MAP_INITIAL, EFI_SUCCESS);
    AcquisitionListed(w.rounds, st.poolServices);
    SearchedModelFits(st.tableCount, st.tables);
  }

  // So the production record is never truncated.
  lemma NeverTruncated(st: SystemTable, w: Answers)
    requires Borrowable(st)
    ensures |RecordOf(st, w)| < RECORD_CAPACITY
  {
    hide Bounded, FactsSeen, Print, RecordValue;
    FactsBounded(st, w);
    RecordFits(FactsSeen(st, w));
  }

  predicate Silent(calls: seq<Call>) {
    forall i :: 0 <= i < |calls| ==> !calls[i].OutputString?
  }

  lemma {:induction false} RunSilent(rounds: nat -> Round, k: nat, capacity: uint64, efi: Status)
    requires k <= MAP_ATTEMPTS
    ensures Silent(RunFrom(rounds, k, capacity, efi).calls)
    decreases MAP_ATTEMPTS - k
  {
    hide Interpret, Next;
    if k < MAP_ATTEMPTS {
      match RoundOf(rounds(k), k, capacity, efi)
      case Done(_, _) =>
      case Again(next, _) => RunSilent(rounds, k + 1, next, EFI_BUFFER_TOO_SMALL);
    }
  }

  // Nothing is printed before every observation is made.
  lemma ObservingSilent(st: SystemTable, w: Answers)
    ensures Silent(Observing(st, w))
  {
    hide RunFrom;
    RunSilent(w.rounds, 0, MAP_INITIAL, EFI_SUCCESS);
  }

  lemma {:induction false} SilentEmits(calls: seq<Call>)
    requires Silent(calls)
    ensures Emitted(calls) == []
  {
    if calls != [] {
      SilentEmits(calls[1..]);
    }
  }

  // No output call failed.
  predicate AllDisplayed(calls: seq<Call>) {
    forall i :: 0 <= i < |calls| && calls[i].OutputString? ==> !IsError(calls[i].status)
  }

  // Every chunk is non-empty and at most CHUNK units, and no call at all follows one that
  // failed to display.
  predicate Disciplined(calls: seq<Call>) {
    && (forall i :: 0 <= i < |calls| && calls[i].OutputString? ==> 0 < |calls[i].text| <= CHUNK)
    && (forall i :: 0 <= i < |calls| - 1 && calls[i].OutputString? ==> !IsError(calls[i].status))
  }

  lemma SilentThenDelivers(quiet: seq<Call>, e: Emission, text: seq<uint16>)
    requires Silent(quiet) && Delivers(e, text)
    ensures var calls := quiet + e.calls;
            && Disciplined(calls)
            && Emitted(calls) == Emitted(e.calls)
            && (AllDisplayed(calls) <==> !IsError(e.status))
            && (IsError(e.status) ==>
                && calls != [] && calls[|calls| - 1].OutputString?
                && calls[|calls| - 1].status == e.status)
  {
    hide Emitted;
    var calls := quiet + e.calls;
    EmittedAppend(quiet, e.calls);
    SilentEmits(quiet);
    assert forall i :: 0 <= i < |quiet| ==> calls[i] == quiet[i];
    assert forall i :: |quiet| <= i < |calls| ==> calls[i] == e.calls[i - |quiet|];
    assert forall i :: 0 <= i < |e.calls| ==> e.calls[i] == calls[i + |quiet|];
  }

  function WholeText(record: string, truncated: bool): string {
    if truncated then Banner() + Marker() else Banner() + record + Newline()
  }

  lemma MessagesJoined(record: string, truncated: bool)
    ensures Joined(Messages(record, truncated)) == WholeText(record, truncated)
  {
    hide Banner, Marker, Newline;
    var ms := Messages(record, truncated);
    assert Joined([]) == "";
    if truncated {
      assert ms[1..] == [Marker()] && ms[1..][1..] == [];
      assert Joined(ms[1..]) == Marker();
    } else {
      assert ms[1..] == [record, Newline()] && ms[1..][1..] == [Newline()] && ms[1..][1..][1..] == [];
      assert Joined([Newline()]) == Newline();
      assert Joined(ms[1..]) == record + Newline();
    }
  }

  // The output contract of a run that had this record to print: what is emitted is a
  // prefix of the banner and the record (or the marker), nothing follows an output error,
  // and the status is the first of output error, cleanup failure, truncation, success.
  predicate Contract(record: string, release: Status, capacity: nat, status: Status, calls: seq<Call>) {
    var truncated := |record| > capacity - 1;
    var text := UnitsOf(WholeText(record, truncated));
    && Disciplined(calls)
    && Emitted(calls) <= text
    && if AllDisplayed(calls) then
         && Emitted(calls) == text
         && status == (if release != EFI_SUCCESS then release
                       else if truncated then EFI_BUFFER_TOO_SMALL
                       else EFI_SUCCESS)
       else
         && calls[|calls| - 1].OutputString?
         && IsError(status) && status == calls[|calls| - 1].status
  }

  lemma ContractHolds(record: string, release: Status, quiet: seq<Call>, outputs: nat -> Status, capacity: nat,
                      status: Status, calls: seq<Call>)
    requires Silent(quiet) && Concludes(record, release, quiet, outputs, capacity, status, calls)
    ensures Contract(record, release, capacity, status, calls)
  {
    hide UnitsOf, WholeText, Disciplined, Emitted, AllDisplayed, EmitAll, Messages, Delivers, Joined, Silent,
        ReturnStatus;
    var truncated := |record| > capacity - 1;
    var messages := Messages(record, truncated);
    var e := EmitAll(messages, outputs, 0);
    OutputContract(messages, outputs, 0);
    MessagesJoined(record, truncated);
    SilentThenDelivers(quiet, e, UnitsOf(Joined(messages)));
    DeliversMeans(e, UnitsOf(Joined(messages)));
    ReturnStatusCases(release, truncated);
  }

  // Printing and the other services leave the pool alone, so what holds of the acquisition
  // holds of the whole trace.
  lemma RunAccount(st: SystemTable, w: Answers, after: seq<Call>)
    requires NoPool(after)
    ensures AccountOf(Observing(st, w) + after, false) == AccountOf(Acquisition(w.rounds, st.poolServices).calls, false)
  {
    hide *;
    var pool := Acquisition(w.rounds, st.poolServices).calls;
    var image, variables := ObservingParts(st, w);
    NoPoolJoin(variables, after);
    Assoc(image, pool + variables, after);
    Assoc(pool, variables, after);
    AccountAfter(image, pool + (variables + after), false);
    AccountBefore(pool, variables + after, false);
  }

  lemma ObservingParts(st: SystemTable, w: Answers) returns (image: seq<Call>, variables: seq<Call>)
    ensures Observing(st, w) == image + (Acquisition(w.rounds, st.poolServices).calls + variables)
    ensures NoPool(image) && NoPool(variables)
  {
    hide Acquisition;
    var pool := Acquisition(w.rounds, st.poolServices).calls;
    image := if st.protocolService then [HandleProtocol(w.protocol.0)] else [];
    var secure := if st.variableService then [GetVariable(SecureBoot, w.variables(SecureBoot).status)] else [];
    var setup := if st.variableService then [GetVariable(SetupMode, w.variables(SetupMode).status)] else [];
    variables := secure + setup;
    Assoc(image + pool, secure, setup);
    Assoc(image, pool, variables);
  }

  lemma NoPoolJoin(a: seq<Call>, b: seq<Call>)
    requires NoPool(a) && NoPool(b)
    ensures NoPool(a + b)
  {
  }

  lemma AcquisitionAccount(rounds: nat -> Round, present: bool)
    ensures var run := Acquisition(rounds, present);
            var pool := AccountOf(run.calls, false);
            && pool.owns && pool.attempts <= MAP_ATTEMPTS && pool.frees == pool.grants
            && pool.release == run.outcome.release
  {
    hide RunFrom;
    if present {
      Ownership(rounds, 0, MAP_INITIAL, EFI_SUCCESS);
      ReleasePolicy(rounds, 0, MAP_INITIAL, EFI_SUCCESS);
      ReleaseInLast(Acquisition(rounds, present).calls, Acquisition(rounds, present).outcome.release);
    }
  }

  // Every run, whatever the capacity, over its whole trace: each pool buffer granted is
  // freed once, at most one is held at a time, and the release status recorded is the first
  // in the trace that is not success.
  lemma RunOwns(st: SystemTable, w: Answers, capacity: nat, status: Status, calls: seq<Call>)
    requires Borrowable(st) && MainRun(st, w, capacity, status, calls)
    ensures Owns(calls, false) && Attempts(calls) <= MAP_ATTEMPTS && Frees(calls) == Grants(calls)
    ensures StopsAfterFailure(calls)
    ensures ReleaseIn(calls) == Acquisition(w.rounds, st.poolServices).outcome.release
  {
    hide *;
    var after := AfterObserving(st, w, capacity, status, calls);
    RunAccount(st, w, after);
    AcquisitionAccount(w.rounds, st.poolServices);
    AccountIs(calls);
    AccountIs(Acquisition(w.rounds, st.poolServices).calls);
    RunStops(st, w, after);
  }

  lemma RunStops(st: SystemTable, w: Answers, after: seq<Call>)
    requires NoPool(after)
    ensures StopsAfterFailure(Observing(st, w) + after)
  {
    hide *;
    var run := Acquisition(w.rounds, st.poolServices);
    var image, variables := ObservingParts(st, w);
    NoPoolJoin(variables, after);
    Assoc(image, run.calls + variables, after);
    Assoc(run.calls, variables, after);
    AcquisitionReleases(w.rounds, st.poolServices);
    FailureIsLast(image, run.calls, variables + after, run.outcome.release);
  }

  lemma AcquisitionReleases(rounds: nat -> Round, present: bool)
    ensures var run := Acquisition(rounds, present); Released(run.calls, run.outcome.release)
  {
    hide RunFrom;
    if present {
      ReleasePolicy(rounds, 0, MAP_INITIAL, EFI_SUCCESS);
    }
  }

  lemma AfterObserving(st: SystemTable, w: Answers, capacity: nat, status: Status, calls: seq<Call>)
    returns (after: seq<Call>)
    requires Borrowable(st) && MainRun(st, w, capacity, status, calls)
    ensures calls == Observing(st, w) + after && NoPool(after)
  {
    MainRunMeans(st, w, capacity, status, calls);
    hide *;
    after := ConcludesQuietly(RecordOf(st, w), Acquisition(w.rounds, st.poolServices).outcome.release, Observing(st, w),
                         w.outputs, capacity, status, calls);
  }

  lemma ConcludesQuietly(record: string, release: Status, quiet: seq<Call>, outputs: nat -> Status, capacity: nat,
                    status: Status, calls: seq<Call>) returns (after: seq<Call>)
    requires Concludes(record, release, quiet, outputs, capacity, status, calls)
    ensures calls == quiet + after && NoPool(after)
  {
    hide UnitsOf, EmitAll, Messages, Delivers, Joined, ReturnStatus, NoPool;
    var messages := Messages(record, |record| > capacity - 1);
    after := EmitAll(messages, outputs, 0).calls;
    OutputContract(messages, outputs, 0);
    DeliversMeans(EmitAll(messages, outputs, 0), UnitsOf(Joined(messages)));
  }

  // What every run puts out, with the first failed release in its trace as cleanup status.
  lemma RunContract(st: SystemTable, w: Answers, capacity: nat, status: Status, calls: seq<Call>)
    requires Borrowable(st) && MainRun(st, w, capacity, status, calls)
    ensures Contract(RecordOf(st, w), ReleaseIn(calls), capacity, status, calls)
  {
    hide *;
    RunOwns(st, w, capacity, status, calls);
    MainRunMeans(st, w, capacity, status, calls);
    ObservingSilent(st, w);
    ContractHolds(RecordOf(st, w), ReleaseIn(calls), Observing(st, w), w.outputs, capacity, status, calls);
  }

  lemma AccountIs(calls: seq<Call>)
    ensures AccountOf(calls, false) ==
            Account(Owns(calls, false), Attempts(calls), Frees(calls), Grants(calls), ReleaseIn(calls))
  {
  }

  lemma DeliversMeans(e: Emission, text: seq<uint16>)
    requires Delivers(e, text)
    ensures Emitted(e.calls) <= text && (!IsError(e.status) ==> Emitted(e.calls) == text)
    ensures NoPool(e.calls)
  {
  }

  lemma MainRunMeans(st: SystemTable, w: Answers, capacity: nat, status: Status, calls: seq<Call>)
    requires Borrowable(st) && MainRun(st, w, capacity, status, calls)
    ensures Concludes(RecordOf(st, w), Acquisition(w.rounds, st.poolServices).outcome.release, Observing(st, w),
                      w.outputs, capacity, status, calls)
  {
  }

  // The order of all firmware calls of a run: the loaded image, the memory map, SecureBoot,
  // SetupMode, and after that nothing but output.
  lemma CallOrder(st: SystemTable, w: Answers, capacity: nat, status: Status, calls: seq<Call>)
    returns (image: seq<Call>, secure: seq<Call>, setup: seq<Call>, output: seq<Call>)
    requires Borrowable(st) && MainRun(st, w, capacity, status, calls)
    ensures calls == image + Acquisition(w.rounds, st.poolServices).calls + secure + setup + output
    ensures if st.protocolService then image == [HandleProtocol(w.protocol.0)] else image == []
    ensures if st.variableService then
              && secure == [GetVariable(SecureBoot, w.variables(SecureBoot).status)]
              && setup == [GetVariable(SetupMode, w.variables(SetupMode).status)]
            else secure == [] && setup == []
    ensures forall i :: 0 <= i < |output| ==> output[i].OutputString?
  {
    hide *;
    MainRunMeans(st, w, capacity, status, calls);
    ObservingIs(st, w);
    output := ConcludesLoudly(RecordOf(st, w), Acquisition(w.rounds, st.poolServices).outcome.release, Observing(st, w),
                              w.outputs, capacity, status, calls);
    image := if st.protocolService then [HandleProtocol(w.protocol.0)] else [];
    secure := if st.variableService then [GetVariable(SecureBoot, w.variables(SecureBoot).status)] else [];
    setup := if st.variableService then [GetVariable(SetupMode, w.variables(SetupMode).status)] else [];
  }

  lemma ConcludesLoudly(record: string, release: Status, quiet: seq<Call>, outputs: nat -> Status, capacity: nat,
                        status: Status, calls: seq<Call>) returns (output: seq<Call>)
    requires Concludes(record, release, quiet, outputs, capacity, status, calls)
    ensures calls == quiet + output && forall i :: 0 <= i < |output| ==> output[i].OutputString?
  {
    hide UnitsOf, EmitAll, Messages, Joined, ReturnStatus;
    var messages := Messages(record, |record| > capacity - 1);
    output := EmitAll(messages, outputs, 0).calls;
    OutputContract(messages, outputs, 0);
  }

  // In the production build success means that the banner, the whole record and the line
  // end were displayed and every release succeeded, and nothing less does.
  lemma SuccessMeansDelivered(st: SystemTable, w: Answers, status: Status, calls: seq<Call>)
    requires Borrowable(st) && MainRun(st, w, RECORD_CAPACITY, status, calls)
    ensures status == EFI_SUCCESS <==>
              Emitted(calls) == UnitsOf(WholeText(RecordOf(st, w), false)) && AllDisplayed(calls) && AllReleased(calls)
  {
    hide *;
    NeverTruncated(st, w);
    RunContract(st, w, RECORD_CAPACITY, status, calls);
    ReleaseInSucceeds(calls);
    ContractSuccess(RecordOf(st, w), ReleaseIn(calls), status, calls);
  }

  lemma ContractSuccess(record: string, release: Status, status: Status, calls: seq<Call>)
    requires |record| < RECORD_CAPACITY && Contract(record, release, RECORD_CAPACITY, status, calls)
    ensures status == EFI_SUCCESS <==>
              Emitted(calls) == UnitsOf(WholeText(record, false)) && AllDisplayed(calls) && release == EFI_SUCCESS
  {
    hide Emitted, UnitsOf, WholeText, AllDisplayed, Disciplined;
  }

  // The characters a console shows for printable units.
  function TextOf(u: seq<uint16>): string {
    seq(|u|, i requires 0 <= i < |u| => if u[i] < 0x80 then u[i] as char else '?')
  }

  // The units between the banner and the line end.
  function RecordPart(u: seq<uint16>): seq<uint16> {
    if |u| < |Banner()| + |Newline()| then [] else u[|Banner()|..|u| - |Newline()|]
  }

  // End to end: after success, whoever reads the text between banner and line end as JSON
  // gets back every fact the probe saw, each under a name unique in its object.
  lemma SuccessDecodes(st: SystemTable, w: Answers, status: Status, calls: seq<Call>)
    requires Borrowable(st) && MainRun(st, w, RECORD_CAPACITY, status, calls) && status == EFI_SUCCESS
    ensures UniqueNames(RecordValue(FactsSeen(st, w)))
    ensures Read(TextOf(RecordPart(Emitted(calls)))) == Some(RecordValue(FactsSeen(st, w)))
  {
    hide *;
    SuccessMeansDelivered(st, w, status, calls);
    RecordIsText(st, w);
    SeenIs(st, w);
    RecordUnique(FactsSeen(st, w));
    RecordDecodes(FactsSeen(st, w));
    RecordPartIs(RecordOf(st, w));
  }

  lemma RecordPartIs(record: string)
    requires Printable(record)
    ensures TextOf(RecordPart(UnitsOf(WholeText(record, false)))) == record
  {
    hide Banner, Newline;
    var u := UnitsOf(WholeText(record, false));
    assert RecordPart(u) == UnitsOf(record);
  }
}
