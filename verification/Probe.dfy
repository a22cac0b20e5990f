// The top-level run: observe, build the record, print it, and choose the return status.
module Probe {
  import opened Machine
  import opened FirmwareModel
  import opened WriterModel
  import opened RecordText

  const CHUNK := 126

  // -------------------------------------------------------------------- printing

  // The content of a C string: bytes other than NUL.
  predicate CText(s: string) {
    forall i :: 0 <= i < |s| ==> 0 < s[i] as nat < 0x100
  }

  datatype Emission = Emission(status: Status, calls: seq<Call>)

  // One message in chunks from output call number `k` on, stopping at the first error.
  function Emit(s: string, outputs: nat -> Status, k: nat): Emission
    decreases |s|
  {
    if s == "" then Emission(EFI_SUCCESS, [])
    else
      var n := Min(|s|, CHUNK);
      var call := OutputString(UnitsOf(s[..n]), outputs(k));
      if IsError(outputs(k)) then Emission(outputs(k), [call])
      else
        var rest := Emit(s[n..], outputs, k + 1);
        Emission(rest.status, [call] + rest.calls)
  }

  lemma EmitStep(s: string, at: nat, outputs: nat -> Status, k: nat)
    requires at < |s|
    ensures 0 < Min(|s| - at, CHUNK) <= |s| - at
    ensures var n := Min(|s| - at, CHUNK);
            var call := OutputString(UnitsOf(s[at..at + n]), outputs(k));
            var rest := Emit(s[at + n..], outputs, k + 1);
            Emit(s[at..], outputs, k) ==
            if IsError(outputs(k)) then Emission(outputs(k), [call]) else Emission(rest.status, [call] + rest.calls)
  {
    var n, t := Min(|s| - at, CHUNK), s[at..];
    assert t[..n] == s[at..at + n] && t[n..] == s[at + n..];
  }

  // `memory` starts with the C string `s` and its NUL; what follows is not looked at.
  predicate CString(memory: seq<char>, s: string) {
    |s| < |memory| && memory[..|s|] == s && memory[|s|] == '\0' && CText(s)
  }

  lemma CStringAt(memory: seq<char>, s: string, i: nat)
    requires CString(memory, s) && i <= |s|
    ensures i < |memory| && (memory[i] == '\0' <==> i == |s|)
    ensures i < |s| ==> memory[i] == s[i] && (memory[i] as nat) < 0x100
  {
    if i < |s| {
      assert memory[i] == memory[..|s|][i];
    }
  }

  // print; the console is known to be usable.
  method PrintText(fw: Firmware, memory: seq<char>, ghost s: string) returns (status: Status)
    requires CString(memory, s)
    modifies fw`printed, fw`calls
    ensures var e := Emit(s, fw.outputs, old(fw.printed));
            && status == e.status && fw.calls == old(fw.calls) + e.calls
            && fw.printed == old(fw.printed) + |e.calls|
  {
    EmitNothing(fw.outputs);
    hide *;
    ghost var e := Emit(s, fw.outputs, fw.printed);
    ghost var trace, total := fw.calls + e.calls, fw.printed + |e.calls|;
    var buffer := new uint16[128](_ => 0);
    var at := 0;
    assert s[0..] == s;
    CStringAt(memory, s, 0);
    while memory[at] != '\0'
      invariant 0 <= at <= |s| < |memory| && (memory[at] == '\0' <==> at == |s|)
      invariant var rest := Emit(s[at..], fw.outputs, fw.printed);
                && rest.status == e.status && fw.calls + rest.calls == trace
                && fw.printed + |rest.calls| == total
      decreases |s| - at
    {
      var n;
      status, n := PrintChunk(fw, buffer, memory, at, s);
      if IsError(status) {
        return;
      }
      at := at + n;
      CStringAt(memory, s, at);
    }
    assert s[at..] == "";
    status := EFI_SUCCESS;
  }

  // One chunk; unless it fails, what is left to emit has shrunk by just its call.
  method PrintChunk(fw: Firmware, buffer: array<uint16>, memory: seq<char>, at: nat, ghost s: string)
    returns (status: Status, n: nat)
    requires buffer.Length == 128 && CString(memory, s) && at < |s|
    modifies buffer, fw`printed, fw`calls
    ensures 0 < n <= |s| - at
    ensures var e := Emit(s[at..], fw.outputs, old(fw.printed));
            if IsError(status) then
              status == e.status && fw.calls == old(fw.calls) + e.calls && fw.printed == old(fw.printed) + |e.calls|
            else
              var rest := Emit(s[at + n..], fw.outputs, fw.printed);
              && rest.status == e.status && fw.calls + rest.calls == old(fw.calls) + e.calls
              && fw.printed + |rest.calls| == old(fw.printed) + |e.calls|
  {
    EmitStep(s, at, fw.outputs, fw.printed);
    hide *;
    n := FillChunk(buffer, memory, at, s);
    ChunkUnits(buffer[..], s[at..at + n]);
    ghost var before, k := fw.calls, fw.printed;
    status := fw.Output(buffer);
    Assoc(before, [OutputString(UnitsOf(s[at..at + n]), status)], Emit(s[at + n..], fw.outputs, k + 1).calls);
  }

  lemma EmitNothing(outputs: nat -> Status)
    ensures forall k :: Emit("", outputs, k) == Emission(EFI_SUCCESS, [])
  {
  }

  // Copies up to 126 characters into the buffer and terminates it.
  method FillChunk(buffer: array<uint16>, memory: seq<char>, at: nat, ghost s: string) returns (n: nat)
    requires buffer.Length == 128 && CString(memory, s) && at < |s|
    modifies buffer
    ensures n == Min(|s| - at, CHUNK) && CText(s[at..at + n])
    ensures buffer[..n] == UnitsOf(s[at..at + n]) && buffer[n] == 0
  {
    n := 0;
    CStringAt(memory, s, at);
    while n < CHUNK && memory[at + n] != '\0'
      invariant 0 <= n <= Min(|s| - at, CHUNK) && at + n < |memory|
      invariant memory[at + n] == '\0' <==> at + n == |s|
      invariant forall i :: 0 <= i < n ==> buffer[i] as nat == s[at + i] as nat
      decreases CHUNK - n
    {
      CStringAt(memory, s, at + n);
      buffer[n] := memory[at + n] as uint16;
      n := n + 1;
      CStringAt(memory, s, at + n);
    }
    buffer[n] := 0;
  }

  lemma {:induction false} ChunkUnits(b: seq<uint16>, s: string)
    requires |s| < |b| && b[..|s|] == UnitsOf(s) && b[|s|] == 0
    requires CText(s)
    ensures Units(b) == UnitsOf(s)
  {
    if s == "" {
    } else {
      assert b[0] == b[..|s|][0] == UnitsOf(s)[0] != 0;
      assert b[1..][..|s[1..]|] == b[..|s|][1..] == UnitsOf(s)[1..];
      assert UnitsOf(s)[1..] == UnitsOf(s[1..]);
      ChunkUnits(b[1..], s[1..]);
    }
  }

  // Several messages, one after another, stopping at the first error.
  function EmitAll(messages: seq<string>, outputs: nat -> Status, k: nat): Emission {
    if messages == [] then Emission(EFI_SUCCESS, [])
    else
      var first := Emit(messages[0], outputs, k);
      if IsError(first.status) then first
      else
        var rest := EmitAll(messages[1..], outputs, k + |first.calls|);
        Emission(rest.status, first.calls + rest.calls)
  }

  // -------------------------------------------------------------------- what a trace emits

  function Shown(call: Call): seq<uint16> {
    if call.OutputString? then call.text else []
  }

  function Emitted(calls: seq<Call>): seq<uint16> {
    if calls == [] then [] else Shown(calls[0]) + Emitted(calls[1..])
  }

  // A trace of output calls in which every chunk is non-empty and bounded, and only the
  // last call may have failed.
  predicate Chunked(calls: seq<Call>) {
    && (forall i :: 0 <= i < |calls| ==> calls[i].OutputString? && 0 < |calls[i].text| <= CHUNK)
    && (forall i :: 0 <= i < |calls| - 1 ==> !IsError(calls[i].status))
  }

  function Joined(messages: seq<string>): string {
    if messages == [] then "" else messages[0] + Joined(messages[1..])
  }

  lemma {:induction false} EmittedAppend(a: seq<Call>, b: seq<Call>)
    ensures Emitted(a + b) == Emitted(a) + Emitted(b)
  {
    hide Shown;
    if a == [] {
      assert a + b == b;
    } else {
      EmittedAppend(a[1..], b);
      assert (a + b)[0] == a[0] && (a + b)[1..] == a[1..] + b;
      Assoc(Shown(a[0]), Emitted(a[1..]), Emitted(b));
    }
  }

  predicate AllButLastFull(calls: seq<Call>) {
    forall i :: 0 <= i < |calls| - 1 ==> calls[i].OutputString? && |calls[i].text| == 126
  }

  // Every chunk but the last is full.
  lemma {:induction false} FullChunks(s: string, outputs: nat -> Status, k: nat)
    ensures AllButLastFull(Emit(s, outputs, k).calls)
    decreases |s|
  {
    if s != "" {
      var n := Min(|s|, CHUNK);
      FullChunks(s[n..], outputs, k + 1);
      EmitNothing(outputs);
      UnitsLength(s[..n]);
      assert |s| <= CHUNK ==> s[n..] == "";
      FullFirst(OutputString(UnitsOf(s[..n]), outputs(k)), Emit(s[n..], outputs, k + 1).calls);
    }
  }

  lemma FullFirst(call: Call, rest: seq<Call>)
    requires call.OutputString? && AllButLastFull(rest) && (rest != [] ==> |call.text| == 126)
    ensures AllButLastFull([call]) && AllButLastFull([call] + rest)
  {
  }

  lemma UnitsLength(s: string)
    ensures |UnitsOf(s)| == |s|
  {
  }

  // The emission delivers a prefix of `text` in such a trace: all of it exactly when no
  // call failed, and otherwise the reported status is that of the last call.
  predicate Delivers(e: Emission, text: seq<uint16>) {
    && Chunked(e.calls)
    && Emitted(e.calls) <= text
    && (if IsError(e.status) then e.calls != [] && e.calls[|e.calls| - 1].status == e.status
        else e.status == EFI_SUCCESS && Emitted(e.calls) == text
             && forall i :: 0 <= i < |e.calls| ==> !IsError(e.calls[i].status))
  }

  lemma DeliversBoth(a: Emission, b: Emission, x: seq<uint16>, y: seq<uint16>)
    requires Delivers(a, x) && Delivers(b, y) && !IsError(a.status)
    ensures Delivers(Emission(b.status, a.calls + b.calls), x + y)
  {
    hide Emitted;
    EmittedAppend(a.calls, b.calls);
    var all := a.calls + b.calls;
    assert forall i :: 0 <= i < |all| ==> all[i] == if i < |a.calls| then a.calls[i] else b.calls[i - |a.calls|];
    if b.calls == [] {
      assert all == a.calls;
    }
  }

  lemma DeliversNothing()
    ensures Delivers(Emission(EFI_SUCCESS, []), [])
  {
  }

  lemma DeliversOne(call: Call)
    requires call.OutputString? && 0 < |call.text| <= CHUNK
    ensures !IsError(call.status) ==> Delivers(Emission(EFI_SUCCESS, [call]), call.text)
    ensures IsError(call.status) ==> Delivers(Emission(call.status, [call]), call.text)
  {
    assert [call][1..] == [];
  }

  lemma DeliversLess(e: Emission, text: seq<uint16>, more: seq<uint16>)
    requires Delivers(e, text) && IsError(e.status)
    ensures Delivers(e, text + more)
  {
  }

  // One message.
  lemma {:induction false} EmitContract(s: string, outputs: nat -> Status, k: nat)
    ensures Delivers(Emit(s, outputs, k), UnitsOf(s))
    decreases |s|
  {
    DeliversNothing();
    hide Delivers, Emitted;
    if s == "" {
      assert UnitsOf(s) == [];
    } else {
      var n := Min(|s|, CHUNK);
      var call := OutputString(UnitsOf(s[..n]), outputs(k));
      DeliversOne(call);
      assert UnitsOf(s) == UnitsOf(s[..n]) + UnitsOf(s[n..]);
      if IsError(outputs(k)) {
        DeliversLess(Emission(outputs(k), [call]), call.text, UnitsOf(s[n..]));
      } else {
        EmitContract(s[n..], outputs, k + 1);
        DeliversBoth(Emission(EFI_SUCCESS, [call]), Emit(s[n..], outputs, k + 1), call.text, UnitsOf(s[n..]));
      }
    }
  }

  // All messages together.
  lemma {:induction false} OutputContract(messages: seq<string>, outputs: nat -> Status, k: nat)
    ensures Delivers(EmitAll(messages, outputs, k), UnitsOf(Joined(messages)))
    decreases |messages|
  {
    AllNone(outputs, k);
    hide *;
    if messages != [] {
      var m, more, first := messages[0], Joined(messages[1..]), Emit(messages[0], outputs, k);
      AllStep(messages, outputs, k);
      EmitContract(m, outputs, k);
      UnitsAppend(m, more);
      if IsError(first.status) {
        DeliversLess(first, UnitsOf(m), UnitsOf(more));
      } else {
        OutputContract(messages[1..], outputs, k + |first.calls|);
        DeliversBoth(first, EmitAll(messages[1..], outputs, k + |first.calls|), UnitsOf(m), UnitsOf(more));
        DeliversSuccess(first, UnitsOf(m));
      }
    }
  }

  lemma AllNone(outputs: nat -> Status, k: nat)
    ensures Delivers(EmitAll([], outputs, k), UnitsOf(Joined([])))
  {
  }

  lemma AllStep(messages: seq<string>, outputs: nat -> Status, k: nat)
    requires messages != []
    ensures Joined(messages) == messages[0] + Joined(messages[1..])
    ensures var first := Emit(messages[0], outputs, k);
            var rest := EmitAll(messages[1..], outputs, k + |first.calls|);
            EmitAll(messages, outputs, k) ==
            if IsError(first.status) then first else Emission(rest.status, first.calls + rest.calls)
  {
    hide Emit;
  }

  lemma UnitsAppend(a: string, b: string)
    ensures UnitsOf(a + b) == UnitsOf(a) + UnitsOf(b)
  {
  }

  lemma DeliversSuccess(e: Emission, text: seq<uint16>)
    requires Delivers(e, text) && !IsError(e.status)
    ensures e.status == EFI_SUCCESS
  {
  }
}
