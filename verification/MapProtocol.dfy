// Acquiring the memory map: at most five allocate / read / free rounds against arbitrary
// firmware (UEFI 2.10 sections 7.2.3 to 7.2.5).
module MapProtocol {
  import opened Machine
  import opened Details
  import opened MemoryMap
  import opened FirmwareModel

  const MAP_ATTEMPTS := 5

  datatype Outcome = Outcome(result: MapResult, efi: Status, release: Status, attempts: nat, releases: nat)

  datatype Run = Run(outcome: Outcome, calls: seq<Call>)

  // What the buffer of a round holds after GetMemoryMap.
  function Filled(r: Round, capacity: uint64): (b: seq<uint8>)
    ensures |b| == capacity as nat
  {
    seq(capacity as nat, i requires 0 <= i => r.content(i))
  }

  // -------------------------------------------------------------------- the run as a function

  // The map result a finished read stands for.
  ghost function Interpret(r: Round, capacity: uint64): MapResult {
    if IsError(r.read) then Failed(Unavailable, EfiErrorDetail)
    else if r.read != EFI_SUCCESS then Failed(Unsupported, WarningStatus)
    else ReadMap(Some(Filled(r, capacity)), capacity, r.size, r.stride, r.version)
  }

  function RoundCalls(r: Round, capacity: uint64): seq<Call> {
    [AllocatePool(capacity, r.alloc, r.given), GetMemoryMap(capacity, r.read), FreePool(r.freed)]
  }

  // How one round ends: with an outcome, or cleanly with a larger capacity to try.
  datatype RoundEnd = Done(outcome: Outcome, calls: seq<Call>) | Again(next: uint64, calls: seq<Call>)

  // Round number `k` (from 0); `efi` is the status the previous round recorded.
  ghost function RoundOf(r: Round, k: nat, capacity: uint64, efi: Status): RoundEnd {
    if IsError(r.alloc) then
      Done(Outcome(Failed(Unavailable, AllocationFailed), r.alloc, EFI_SUCCESS, k + 1, k), RoundCalls(r, capacity)[..1])
    else if !r.given then
      Done(Outcome(Failed(Malformed, AllocationNull), efi, EFI_SUCCESS, k + 1, k), RoundCalls(r, capacity)[..1])
    else
      var g := Next(capacity, r.size, r.stride);
      if r.read == EFI_BUFFER_TOO_SMALL && r.freed == EFI_SUCCESS && g.Grow? then
        Again(g.next, RoundCalls(r, capacity))
      else
        var m := if r.read != EFI_BUFFER_TOO_SMALL then Interpret(r, capacity)
                 else if r.freed != EFI_SUCCESS then Failed(NotProbed, ReleaseFailed)
                 else Failed(g.state, g.detail);
        Done(Outcome(m, r.read, r.freed, k + 1, k + 1), RoundCalls(r, capacity))
  }

  // The rest of a run after `k` rounds that each ended in a clean release.
  ghost function RunFrom(rounds: nat -> Round, k: nat, capacity: uint64, efi: Status): Run
    requires k <= MAP_ATTEMPTS
    decreases MAP_ATTEMPTS - k
  {
    if k == MAP_ATTEMPTS then Run(Outcome(Failed(Unsupported, RetryLimit), efi, EFI_SUCCESS, k, k), [])
    else
      match RoundOf(rounds(k), k, capacity, efi)
      case Done(outcome, calls) => Run(outcome, calls)
      case Again(next, calls) =>
        var rest := RunFrom(rounds, k + 1, next, EFI_BUFFER_TOO_SMALL);
        Run(rest.outcome, calls + rest.calls)
  }

  // -------------------------------------------------------------------- the code

  class MapAcquisition {
    var result: MapResult
    var efiStatus: Status
    var releaseStatus: Status
    var attempts: uint32
    var releases: uint32

    constructor ()
      ensures View() == Outcome(Failed(Unavailable, ServiceMissing), EFI_SUCCESS, EFI_SUCCESS, 0, 0)
    {
      result := Failed(Unavailable, ServiceMissing);
      efiStatus, releaseStatus, attempts, releases := EFI_SUCCESS, EFI_SUCCESS, 0, 0;
    }

    ghost function View(): Outcome
      reads this
    {
      Outcome(result, efiStatus, releaseStatus, attempts as nat, releases as nat)
    }
  }

  // release: one FreePool, counted, the first failure kept.
  method Release(fw: Firmware, buffer: array<uint8>, a: MapAcquisition) returns (ok: bool)
    requires buffer == fw.live && fw.attempt > 0 && a.releases < 5
    modifies buffer, fw`live, fw`calls, a`releases, a`releaseStatus
    ensures var s := fw.rounds(fw.attempt - 1).freed;
            && ok == (s == EFI_SUCCESS)
            && a.releaseStatus == (if old(a.releaseStatus) == EFI_SUCCESS then s else old(a.releaseStatus))
            && fw.calls == old(fw.calls) + [FreePool(s)]
    ensures a.releases == old(a.releases) + 1 && fw.live == null
  {
    var s := fw.Free(buffer);
    a.releases := a.releases + 1;
    if s != EFI_SUCCESS && a.releaseStatus == EFI_SUCCESS {
      a.releaseStatus := s;
    }
    return s == EFI_SUCCESS;
  }

  // One pass of the loop: the next capacity, or nothing when the outcome is settled.
  method TryOnce(fw: Firmware, a: MapAcquisition, capacity: uint64) returns (next: Option<uint64>)
    requires fw.live == null && 0 < capacity <= MAP_LIMIT
    requires a.attempts < 5 && fw.attempt == a.attempts as nat && a.releases == a.attempts
    requires a.releaseStatus == EFI_SUCCESS
    modifies fw`attempt, fw`live, fw`calls, a
    ensures fw.live == null
    ensures match RoundOf(fw.rounds(old(fw.attempt)), old(fw.attempt), capacity, old(a.efiStatus))
            case Done(outcome, calls) =>
              next == None && a.View() == outcome && fw.calls == old(fw.calls) + calls
            case Again(larger, calls) =>
              && next == Some(larger) && capacity < larger <= MAP_LIMIT && fw.calls == old(fw.calls) + calls
              && a.attempts == old(a.attempts) + 1 && a.releases == a.attempts && fw.attempt == a.attempts as nat
              && a.efiStatus == EFI_BUFFER_TOO_SMALL && a.releaseStatus == EFI_SUCCESS
  {
    hide ReadMap, Filled, Next;
    ghost var r, before := fw.rounds(fw.attempt), fw.calls;
    next := None;
    a.attempts := a.attempts + 1;
    var allocation, buffer := fw.Allocate(capacity);
    if IsError(allocation) {
      a.efiStatus := allocation;
      a.result := Failed(Unavailable, AllocationFailed);
      assert RoundCalls(r, capacity)[..1] == [AllocatePool(capacity, r.alloc, r.given)];
      return;
    }
    if buffer == null {
      a.result := Failed(Malformed, AllocationNull);
      assert RoundCalls(r, capacity)[..1] == [AllocatePool(capacity, r.alloc, r.given)];
      return;
    }
    var s, size, stride, version := fw.ReadMap(buffer, capacity);
    a.efiStatus := s;
    if s == EFI_BUFFER_TOO_SMALL {
      var grow := NextCapacity(capacity, size, stride);
      NextFits(capacity, size, stride);
      var ok := Release(fw, buffer, a);
      assert fw.calls == before + RoundCalls(r, capacity);
      if !ok {
        a.result := Failed(NotProbed, ReleaseFailed);
      } else if grow.Stop? {
        a.result := Failed(grow.state, grow.detail);
      } else {
        next := Some(grow.next);
      }
      return;
    }
    assert buffer[..] == Filled(r, capacity) by {
      FilledBuffer(r, capacity, buffer[..]);
    }
    if IsError(s) {
      a.result := Failed(Unavailable, EfiErrorDetail);
    } else if s != EFI_SUCCESS {
      a.result := Failed(Unsupported, WarningStatus);
    } else {
      a.result := ParseMap(Some(buffer[..]), capacity, size, stride, version);
    }
    var _ := Release(fw, buffer, a);
    assert fw.calls == before + RoundCalls(r, capacity);
  }

  lemma FilledBuffer(r: Round, capacity: uint64, b: seq<uint8>)
    requires b == seq(capacity as nat, i requires 0 <= i => r.content(i))
    ensures b == Filled(r, capacity)
  {
  }

  // A next capacity is larger and within the limit.
  lemma NextFits(capacity: uint64, required: uint64, stride: uint64)
    ensures Next(capacity, required, stride).Grow? ==> capacity < Next(capacity, required, stride).next <= MAP_LIMIT
  {
  }

  // acquire_map; `present` says that all three pool and map services exist.
  method AcquireMap(fw: Firmware, present: bool) returns (a: MapAcquisition)
    requires fw.attempt == 0 && fw.live == null
    modifies fw`attempt, fw`live, fw`calls
    ensures fresh(a) && fw.live == null
    ensures var run := Acquisition(fw.rounds, present);
            a.View() == run.outcome && fw.calls == old(fw.calls) + run.calls
  {
    hide RoundOf;
    a := new MapAcquisition();
    if !present {
      return;
    }
    var capacity := MAP_INITIAL;
    ghost var run := RunFrom(fw.rounds, 0, MAP_INITIAL, EFI_SUCCESS);
    while true
      invariant fresh(a) && fw.live == null && 0 < capacity <= MAP_LIMIT
      invariant a.attempts <= 5 && fw.attempt == a.attempts as nat && a.releases == a.attempts
      invariant a.releaseStatus == EFI_SUCCESS
      invariant var rest := RunFrom(fw.rounds, a.attempts as nat, capacity, a.efiStatus);
                run.outcome == rest.outcome && old(fw.calls) + run.calls == fw.calls + rest.calls
      decreases 5 - a.attempts
    {
      if a.attempts == MAP_ATTEMPTS as uint32 {
        a.result := Failed(Unsupported, RetryLimit);
        return;
      }
      var next := TryOnce(fw, a, capacity);
      if next.None? {
        return;
      }
      capacity := next.value;
    }
  }

  ghost function Acquisition(rounds: nat -> Round, present: bool): Run {
    if present then RunFrom(rounds, 0, MAP_INITIAL, EFI_SUCCESS)
    else Run(Outcome(Failed(Unavailable, ServiceMissing), EFI_SUCCESS, EFI_SUCCESS, 0, 0), [])
  }

  // -------------------------------------------------------------------- ownership

  // A trace in which every buffer granted is freed exactly once, nothing is read or freed
  // that is not held, and at most one buffer is held at any time.
  predicate Owns(calls: seq<Call>, held: bool) {
    if calls == [] then !held
    else
      match calls[0]
      case AllocatePool(_, s, given) => !held && Owns(calls[1..], !IsError(s) && given)
      case GetMemoryMap(_, _) => held && Owns(calls[1..], held)
      case FreePool(_) => held && Owns(calls[1..], false)
      case _ => Owns(calls[1..], held)
  }

  function Attempts(calls: seq<Call>): nat {
    if calls == [] then 0 else (if calls[0].AllocatePool? then 1 else 0) + Attempts(calls[1..])
  }

  function Frees(calls: seq<Call>): nat {
    if calls == [] then 0 else (if calls[0].FreePool? then 1 else 0) + Frees(calls[1..])
  }

  function Grants(calls: seq<Call>): nat {
    if calls == [] then 0
    else (if calls[0].AllocatePool? && !IsError(calls[0].status) && calls[0].given then 1 else 0) + Grants(calls[1..])
  }

  lemma RoundOwns(r: Round, capacity: uint64, rest: seq<Call>)
    requires !IsError(r.alloc) && r.given
    ensures var calls := RoundCalls(r, capacity) + rest;
            && Owns(calls, false) == Owns(rest, false)
            && Attempts(calls) == 1 + Attempts(rest) && Frees(calls) == 1 + Frees(rest)
            && Grants(calls) == 1 + Grants(rest)
  {
    var calls := RoundCalls(r, capacity) + rest;
    var tail := [FreePool(r.freed)] + rest;
    assert tail[1..] == rest;
    var middle := [GetMemoryMap(capacity, r.read)] + tail;
    assert middle[1..] == tail;
    assert calls[1..] == middle;
    assert Owns(tail, true) == Owns(rest, false) && Owns(middle, true) == Owns(tail, true);
    assert Attempts(middle) == Attempts(tail) == Attempts(rest);
    assert Frees(middle) == Frees(tail) == 1 + Frees(rest);
    assert Grants(middle) == Grants(tail) == Grants(rest);
  }

  lemma FailedAllocation(call: Call)
    requires call.AllocatePool? && (IsError(call.status) || !call.given)
    ensures Owns([call], false) && Attempts([call]) == 1 && Frees([call]) == 0 && Grants([call]) == 0
  {
    assert [call][1..] == [];
  }

  // Every run from round `k` on, whatever the firmware answers.
  lemma {:induction false} Ownership(rounds: nat -> Round, k: nat, capacity: uint64, efi: Status)
    requires k <= MAP_ATTEMPTS
    ensures var run := RunFrom(rounds, k, capacity, efi);
            && Owns(run.calls, false)
            && run.outcome.attempts == k + Attempts(run.calls) <= MAP_ATTEMPTS
            && run.outcome.releases == k + Frees(run.calls) && Frees(run.calls) == Grants(run.calls)
    decreases MAP_ATTEMPTS - k
  {
    hide Interpret, Next;
    if k < MAP_ATTEMPTS {
      var r := rounds(k);
      match RoundOf(r, k, capacity, efi)
      case Done(outcome, calls) =>
        if !IsError(r.alloc) && r.given {
          RoundOwns(r, capacity, []);
          assert calls + [] == calls;
        } else {
          assert calls == [AllocatePool(capacity, r.alloc, r.given)];
          FailedAllocation(calls[0]);
        }
      case Again(next, calls) =>
        Ownership(rounds, k + 1, next, EFI_BUFFER_TOO_SMALL);
        RoundOwns(r, capacity, RunFrom(rounds, k + 1, next, EFI_BUFFER_TOO_SMALL).calls);
    }
  }

  // A release that did not succeed is the last call made, and is exactly what is reported.
  predicate Released(calls: seq<Call>, release: Status) {
    var last := |calls| - 1;
    && (forall i :: 0 <= i < last && calls[i].FreePool? ==> calls[i].status == EFI_SUCCESS)
    && release == if last >= 0 && calls[last].FreePool? then calls[last].status else EFI_SUCCESS
  }

  lemma {:induction false} ReleasePolicy(rounds: nat -> Round, k: nat, capacity: uint64, efi: Status)
    requires k <= MAP_ATTEMPTS
    ensures var run := RunFrom(rounds, k, capacity, efi); Released(run.calls, run.outcome.release)
    decreases MAP_ATTEMPTS - k
  {
    hide Interpret, Next;
    if k < MAP_ATTEMPTS {
      match RoundOf(rounds(k), k, capacity, efi)
      case Done(_, _) =>
      case Again(next, calls) =>
        ReleasePolicy(rounds, k + 1, next, EFI_BUFFER_TOO_SMALL);
        var rest := RunFrom(rounds, k + 1, next, EFI_BUFFER_TOO_SMALL);
        RoundReleases(rounds(k), capacity, rest.calls, rest.outcome.release);
    }
  }

  lemma RoundReleases(r: Round, capacity: uint64, rest: seq<Call>, release: Status)
    requires r.freed == EFI_SUCCESS && Released(rest, release)
    ensures Released(RoundCalls(r, capacity) + rest, release)
  {
    var all := RoundCalls(r, capacity) + rest;
    assert forall i :: 3 <= i < |all| ==> all[i] == rest[i - 3];
  }

  // -------------------------------------------------------------------- inside a longer trace

  // The first FreePool status in a trace that is not success.
  function ReleaseIn(calls: seq<Call>): Status {
    if calls == [] then EFI_SUCCESS
    else if calls[0].FreePool? && calls[0].status != EFI_SUCCESS then calls[0].status
    else ReleaseIn(calls[1..])
  }

  predicate AllReleased(calls: seq<Call>) {
    forall i :: 0 <= i < |calls| && calls[i].FreePool? ==> calls[i].status == EFI_SUCCESS
  }

  lemma {:induction false} ReleaseInSucceeds(calls: seq<Call>)
    ensures ReleaseIn(calls) == EFI_SUCCESS <==> AllReleased(calls)
  {
    if calls != [] {
      ReleaseInSucceeds(calls[1..]);
      assert forall i :: 1 <= i < |calls| ==> calls[i] == calls[1..][i - 1];
      assert forall i :: 0 <= i < |calls| - 1 ==> calls[1..][i] == calls[i + 1];
    }
  }

  lemma {:induction false} ReleaseInLast(calls: seq<Call>, release: Status)
    requires Released(calls, release)
    ensures ReleaseIn(calls) == release
  {
    if |calls| > 1 {
      assert Released(calls[1..], release);
      ReleaseInLast(calls[1..], release);
    }
  }

  predicate PoolCall(call: Call) {
    call.AllocatePool? || call.GetMemoryMap? || call.FreePool?
  }

  // Nothing more is asked of the pool after a release that did not succeed.
  predicate StopsAfterFailure(calls: seq<Call>) {
    forall i, j :: 0 <= i < j < |calls| && calls[i].FreePool? && calls[i].status != EFI_SUCCESS ==> !PoolCall(calls[j])
  }

  lemma FailureIsLast(quiet: seq<Call>, calls: seq<Call>, after: seq<Call>, release: Status)
    requires NoPool(quiet) && NoPool(after) && Released(calls, release)
    ensures StopsAfterFailure(quiet + (calls + after))
  {
    var n, m := |quiet|, |quiet| + |calls|;
    var all := quiet + (calls + after);
    assert forall i :: 0 <= i < n ==> all[i] == quiet[i];
    assert forall i :: n <= i < m ==> all[i] == calls[i - n];
    assert forall i :: m <= i < |all| ==> all[i] == after[i - m];
  }

  // What a trace says about the pool.
  datatype Account = Account(owns: bool, attempts: nat, frees: nat, grants: nat, release: Status)

  function AccountOf(calls: seq<Call>, held: bool): Account {
    Account(Owns(calls, held), Attempts(calls), Frees(calls), Grants(calls), ReleaseIn(calls))
  }

  predicate NoPool(calls: seq<Call>) {
    forall i :: 0 <= i < |calls| ==> calls[i].HandleProtocol? || calls[i].GetVariable? || calls[i].OutputString?
  }

  lemma {:induction false} AccountAfter(quiet: seq<Call>, calls: seq<Call>, held: bool)
    requires NoPool(quiet)
    ensures AccountOf(quiet + calls, held) == AccountOf(calls, held)
  {
    if quiet == [] {
      assert quiet + calls == calls;
    } else {
      AccountAfter(quiet[1..], calls, held);
      assert (quiet + calls)[0] == quiet[0] && (quiet + calls)[1..] == quiet[1..] + calls;
    }
  }

  lemma {:induction false} AccountBefore(calls: seq<Call>, quiet: seq<Call>, held: bool)
    requires NoPool(quiet)
    ensures AccountOf(calls + quiet, held) == AccountOf(calls, held)
    decreases |calls|
  {
    if calls == [] {
      AccountAfter(quiet, [], held);
      assert calls + quiet == quiet + [];
    } else {
      assert (calls + quiet)[0] == calls[0] && (calls + quiet)[1..] == calls[1..] + quiet;
      AccountBefore(calls[1..], quiet, true);
      AccountBefore(calls[1..], quiet, false);
    }
  }

  // -------------------------------------------------------------------- growth

  // Every capacity asked for is at least `floor` and within the limit, and each is larger
  // than the ones before it.
  predicate Growing(calls: seq<Call>, floor: uint64) {
    && (forall i :: 0 <= i < |calls| && calls[i].AllocatePool? ==> floor <= calls[i].size <= MAP_LIMIT)
    && (forall i, j :: 0 <= i < j < |calls| && calls[i].AllocatePool? && calls[j].AllocatePool? ==>
          calls[i].size < calls[j].size)
  }

  lemma RoundGrows(r: Round, capacity: uint64, next: uint64, rest: seq<Call>)
    requires capacity < next <= MAP_LIMIT && Growing(rest, next)
    ensures Growing(RoundCalls(r, capacity) + rest, capacity)
  {
    var all := RoundCalls(r, capacity) + rest;
    assert all[0].size == capacity && !all[1].AllocatePool? && !all[2].AllocatePool?;
    assert forall i :: 3 <= i < |all| ==> all[i] == rest[i - 3];
    forall i, j | 0 <= i < j < |all| && all[i].AllocatePool? && all[j].AllocatePool?
      ensures all[i].size < all[j].size
    {
      assert all[j] == rest[j - 3];
      if i >= 3 {
        assert all[i] == rest[i - 3];
      }
    }
  }

  // Requested capacities grow strictly and stay within the limit.
  lemma {:induction false} CapacitiesGrow(rounds: nat -> Round, k: nat, capacity: uint64, efi: Status)
    requires k <= MAP_ATTEMPTS && 0 < capacity <= MAP_LIMIT
    ensures Growing(RunFrom(rounds, k, capacity, efi).calls, capacity)
    decreases MAP_ATTEMPTS - k
  {
    hide Interpret, Next;
    if k < MAP_ATTEMPTS {
      match RoundOf(rounds(k), k, capacity, efi)
      case Done(_, _) =>
      case Again(next, calls) =>
        hide Growing;
        NextFits(capacity, rounds(k).size, rounds(k).stride);
        CapacitiesGrow(rounds, k + 1, next, EFI_BUFFER_TOO_SMALL);
        RoundGrows(rounds(k), capacity, next, RunFrom(rounds, k + 1, next, EFI_BUFFER_TOO_SMALL).calls);
    }
  }

  // The `buffer` rejection of parse_map never reaches a report.
  lemma {:induction false} BufferAlwaysFits(rounds: nat -> Round, k: nat, capacity: uint64, efi: Status)
    requires k <= MAP_ATTEMPTS && 0 < capacity <= MAP_LIMIT
    ensures RunFrom(rounds, k, capacity, efi).outcome.result.detail != BufferDetail
    decreases MAP_ATTEMPTS - k
  {
    hide RoundOf;
    if k < MAP_ATTEMPTS {
      RoundDetail(rounds(k), k, capacity, efi);
      match RoundOf(rounds(k), k, capacity, efi)
      case Done(_, _) =>
      case Again(next, _) => BufferAlwaysFits(rounds, k + 1, next, EFI_BUFFER_TOO_SMALL);
    }
  }

  lemma RoundDetail(r: Round, k: nat, capacity: uint64, efi: Status)
    requires 0 < capacity <= MAP_LIMIT
    ensures match RoundOf(r, k, capacity, efi)
            case Done(outcome, _) => outcome.result.detail != BufferDetail
            case Again(next, _) => capacity < next <= MAP_LIMIT
  {
    hide Interpret, Next, RoundCalls;
    InterpretedDetail(r, capacity);
    NextFits(capacity, r.size, r.stride);
    StopDetail(capacity, r.size, r.stride);
  }

  lemma StopDetail(capacity: uint64, required: uint64, stride: uint64)
    ensures var g := Next(capacity, required, stride); g.Stop? ==> g.detail != BufferDetail
  {
  }

  lemma InterpretedDetail(r: Round, capacity: uint64)
    requires 0 < capacity <= MAP_LIMIT
    ensures Interpret(r, capacity).detail !in
            {BufferDetail, RetryLimit, SizeLimit, TooSmallStride, TooSmallInconsistent}
  {
    hide ReadMap, Decode, DescriptorAt, AllSound, Filled;
    var m := ReadMap(Some(Filled(r, capacity)), capacity, r.size, r.stride, r.version);
    ReadMapReads(Some(Filled(r, capacity)), capacity, r.size, r.stride, r.version);
    if Gate(true, capacity, r.size, r.stride, r.version).state == Observed && m.state != Observed {
      var b, length, stride := Filled(r, capacity), r.size as nat, r.stride as nat;
      var i :| FirstFailure(b, length, stride, i, m);
    }
  }

  // -------------------------------------------------------------------- convergence

  // What round `j` of a run started at round `k` allocates, when it gets that far.
  function Offered(rounds: nat -> Round, k: nat, capacity: uint64, j: nat): nat {
    if j <= k then capacity as nat else rounds(j - 1).size as nat + 2 * rounds(j - 1).stride as nat
  }

  // A round in which the buffer was granted, found too small, and released.
  predicate Clean(r: Round) {
    !IsError(r.alloc) && r.given && r.read == EFI_BUFFER_TOO_SMALL && r.freed == EFI_SUCCESS
  }

  // A round that ends cleanly with the map not fitting the buffer offered, and the next
  // buffer still within the limit.
  predicate Outgrown(r: Round, offered: nat) {
    && Clean(r)
    && DESCRIPTOR_BYTES <= r.stride && offered < r.size as nat
    && r.size as nat + 2 * r.stride as nat <= MAP_LIMIT as nat
  }

  predicate AllOutgrown(rounds: nat -> Round, k: nat, capacity: uint64) {
    forall j :: k <= j < MAP_ATTEMPTS ==> Outgrown(rounds(j), Offered(rounds, k, capacity, j))
  }

  lemma OutgrownStep(rounds: nat -> Round, k: nat, capacity: uint64, next: uint64)
    requires k < MAP_ATTEMPTS && next as nat == rounds(k).size as nat + 2 * rounds(k).stride as nat
    ensures AllOutgrown(rounds, k, capacity) <==>
            Outgrown(rounds(k), capacity as nat) && AllOutgrown(rounds, k + 1, next)
  {
    hide Outgrown;
    assert forall j :: k < j ==> Offered(rounds, k, capacity, j) == Offered(rounds, k + 1, next, j);
    assert Offered(rounds, k, capacity, k) == capacity as nat;
  }

  lemma AllOutgrownEnd(rounds: nat -> Round, capacity: uint64)
    ensures AllOutgrown(rounds, MAP_ATTEMPTS, capacity)
  {
  }

  lemma OutgrownFirst(rounds: nat -> Round, k: nat, capacity: uint64)
    requires k < MAP_ATTEMPTS
    ensures AllOutgrown(rounds, k, capacity) ==> Outgrown(rounds(k), capacity as nat)
  {
    hide Outgrown;
    assert Offered(rounds, k, capacity, k) == capacity as nat;
  }

  // Against any firmware, the attempts run out exactly when every round outgrows the
  // buffer that the one before it asked for.
  lemma {:induction false} RetriesExhausted(rounds: nat -> Round, k: nat, capacity: uint64, efi: Status)
    requires k <= MAP_ATTEMPTS && 0 < capacity <= MAP_LIMIT
    ensures var m := RunFrom(rounds, k, capacity, efi).outcome.result;
            && (m.detail == RetryLimit <==> AllOutgrown(rounds, k, capacity))
            && (m.detail == RetryLimit ==> m == Failed(Unsupported, RetryLimit))
    decreases MAP_ATTEMPTS - k
  {
    AllOutgrownEnd(rounds, capacity);
    hide RoundOf, Outgrown, AllOutgrown, Offered;
    if k < MAP_ATTEMPTS {
      RoundExhausts(rounds(k), k, capacity, efi);
      match RoundOf(rounds(k), k, capacity, efi)
      case Done(_, _) =>
        OutgrownFirst(rounds, k, capacity);
      case Again(next, _) =>
        RetriesExhausted(rounds, k + 1, next, EFI_BUFFER_TOO_SMALL);
        OutgrownStep(rounds, k, capacity, next);
    }
  }

  lemma RoundExhausts(r: Round, k: nat, capacity: uint64, efi: Status)
    requires 0 < capacity <= MAP_LIMIT
    ensures match RoundOf(r, k, capacity, efi)
            case Done(outcome, _) => !Outgrown(r, capacity as nat) && outcome.result.detail != RetryLimit
            case Again(next, _) =>
              && Outgrown(r, capacity as nat)
              && next as nat == r.size as nat + 2 * r.stride as nat && 0 < next <= MAP_LIMIT
  {
    hide Interpret, RoundCalls;
    InterpretedDetail(r, capacity);
  }

  // Why a clean round ends the attempts, if it does.
  function GrowthFault(r: Round, offered: nat): Detail {
    if !Clean(r) then NoDetail
    else if r.stride < DESCRIPTOR_BYTES || r.stride > MAP_LIMIT then TooSmallStride
    else if r.size as nat <= offered then TooSmallInconsistent
    else if r.size as nat + 2 * r.stride as nat > MAP_LIMIT as nat then SizeLimit
    else NoDetail
  }

  // All rounds before `j` were outgrown.
  ghost predicate Reached(rounds: nat -> Round, k: nat, capacity: uint64, j: nat) {
    k <= j < MAP_ATTEMPTS && forall i :: k <= i < j ==> Outgrown(rounds(i), Offered(rounds, k, capacity, i))
  }

  // Round `j` is reached and ends the attempts for reason `d`.
  ghost predicate StopsAt(rounds: nat -> Round, k: nat, capacity: uint64, j: nat, d: Detail) {
    Reached(rounds, k, capacity, j) && GrowthFault(rounds(j), Offered(rounds, k, capacity, j)) == d
  }

  ghost predicate StopsFor(rounds: nat -> Round, k: nat, capacity: uint64, d: Detail) {
    exists j :: StopsAt(rounds, k, capacity, j, d)
  }

  lemma StopsFirst(rounds: nat -> Round, k: nat, capacity: uint64, d: Detail)
    requires k < MAP_ATTEMPTS && !Outgrown(rounds(k), capacity as nat)
    ensures StopsFor(rounds, k, capacity, d) <==> GrowthFault(rounds(k), capacity as nat) == d
  {
    hide Outgrown, GrowthFault;
    assert Offered(rounds, k, capacity, k) == capacity as nat;
    assert StopsAt(rounds, k, capacity, k, d) <==> GrowthFault(rounds(k), capacity as nat) == d;
  }

  lemma ReachedLater(rounds: nat -> Round, k: nat, capacity: uint64, next: uint64, j: nat)
    requires k < j && Outgrown(rounds(k), capacity as nat)
    requires next as nat == rounds(k).size as nat + 2 * rounds(k).stride as nat
    ensures Offered(rounds, k, capacity, j) == Offered(rounds, k + 1, next, j)
    ensures Reached(rounds, k, capacity, j) <==> Reached(rounds, k + 1, next, j)
  {
    hide Outgrown;
    assert Offered(rounds, k, capacity, k) == capacity as nat;
    assert forall i :: k < i ==> Offered(rounds, k, capacity, i) == Offered(rounds, k + 1, next, i);
  }

  lemma StopsAtLater(rounds: nat -> Round, k: nat, capacity: uint64, next: uint64, j: nat, d: Detail)
    requires Outgrown(rounds(k), capacity as nat) && d != NoDetail
    requires next as nat == rounds(k).size as nat + 2 * rounds(k).stride as nat
    ensures StopsAt(rounds, k, capacity, j, d) <==> StopsAt(rounds, k + 1, next, j, d)
  {
    if j <= k {
      assert GrowthFault(rounds(k), Offered(rounds, k, capacity, k)) == NoDetail;
    } else {
      hide Outgrown, GrowthFault, Offered, Reached;
      ReachedLater(rounds, k, capacity, next, j);
      assert StopsAt(rounds, k, capacity, j, d) <==> StopsAt(rounds, k + 1, next, j, d);
    }
  }

  lemma StopsLater(rounds: nat -> Round, k: nat, capacity: uint64, next: uint64, d: Detail)
    requires Outgrown(rounds(k), capacity as nat) && d != NoDetail
    requires next as nat == rounds(k).size as nat + 2 * rounds(k).stride as nat
    ensures StopsFor(rounds, k, capacity, d) <==> StopsFor(rounds, k + 1, next, d)
  {
    hide Outgrown, StopsAt;
    if StopsFor(rounds, k, capacity, d) {
      var j :| StopsAt(rounds, k, capacity, j, d);
      StopsAtLater(rounds, k, capacity, next, j, d);
    }
    if StopsFor(rounds, k + 1, next, d) {
      var j :| StopsAt(rounds, k + 1, next, j, d);
      StopsAtLater(rounds, k, capacity, next, j, d);
    }
  }

  // Against any firmware: a map for which the limit leaves no room ends the attempts as
  // unsupported, and a stride outside its bounds or a size that is no excuse for the answer
  // as malformed; each exactly when that is what the first round not outgrown reports.
  lemma {:induction false} GrowthStops(rounds: nat -> Round, k: nat, capacity: uint64, efi: Status, d: Detail)
    requires k <= MAP_ATTEMPTS && 0 < capacity <= MAP_LIMIT
    requires d in {SizeLimit, TooSmallStride, TooSmallInconsistent}
    ensures var m := RunFrom(rounds, k, capacity, efi).outcome.result;
            && (m.detail == d <==> StopsFor(rounds, k, capacity, d))
            && (m.detail == d ==> m == Failed(if d == SizeLimit then Unsupported else Malformed, d))
    decreases MAP_ATTEMPTS - k
  {
    NeverStops(rounds, capacity, d);
    hide RoundOf, Outgrown, StopsFor, GrowthFault;
    if k < MAP_ATTEMPTS {
      RoundExhausts(rounds(k), k, capacity, efi);
      RoundStops(rounds(k), k, capacity, efi, d);
      match RoundOf(rounds(k), k, capacity, efi)
      case Done(_, _) =>
        StopsFirst(rounds, k, capacity, d);
      case Again(next, _) =>
        GrowthStops(rounds, k + 1, next, EFI_BUFFER_TOO_SMALL, d);
        StopsLater(rounds, k, capacity, next, d);
    }
  }

  lemma NeverStops(rounds: nat -> Round, capacity: uint64, d: Detail)
    ensures !StopsFor(rounds, MAP_ATTEMPTS, capacity, d)
  {
    hide Outgrown, GrowthFault;
  }

  lemma RoundStops(r: Round, k: nat, capacity: uint64, efi: Status, d: Detail)
    requires 0 < capacity <= MAP_LIMIT && d in {SizeLimit, TooSmallStride, TooSmallInconsistent}
    ensures match RoundOf(r, k, capacity, efi)
            case Done(outcome, _) =>
              && (outcome.result.detail == d <==> GrowthFault(r, capacity as nat) == d)
              && (outcome.result.detail == d ==>
                  outcome.result == Failed(if d == SizeLimit then Unsupported else Malformed, d))
            case Again(_, _) => true
  {
    hide Interpret, RoundCalls;
    InterpretedDetail(r, capacity);
  }

  // Hence a map that from one round to the next grows by no more than the two descriptors
  // of slack never exhausts the attempts.
  lemma SlackConverges(rounds: nat -> Round, j: nat)
    requires j < MAP_ATTEMPTS - 1
    requires rounds(j + 1).size as nat <= rounds(j).size as nat + 2 * rounds(j).stride as nat
    ensures Acquisition(rounds, true).outcome.result.detail != RetryLimit
  {
    RetriesExhausted(rounds, 0, MAP_INITIAL, EFI_SUCCESS);
    assert Offered(rounds, 0, MAP_INITIAL, j + 1) == rounds(j).size as nat + 2 * rounds(j).stride as nat;
    assert !Outgrown(rounds(j + 1), Offered(rounds, 0, MAP_INITIAL, j + 1));
  }

  // Firmware that keeps the rules of GetMemoryMap: it answers the size of the current map,
  // and success exactly when the buffer holds it.
  predicate Conformant(r: Round, capacity: uint64, stride: uint64) {
    && !IsError(r.alloc) && r.given && r.freed == EFI_SUCCESS
    && r.stride == stride && r.version == DESCRIPTOR_VERSION
    && r.read == if r.size <= capacity then EFI_SUCCESS else EFI_BUFFER_TOO_SMALL
  }

  // When the map plus two descriptors fits the limit and grows by at most two before the
  // retry, the second attempt reads it.
  lemma SecondAttemptReads(rounds: nat -> Round, stride: uint64)
    requires DESCRIPTOR_BYTES <= stride
    requires var needed := rounds(0).size as nat + 2 * stride as nat;
             && MAP_INITIAL < rounds(0).size && needed <= MAP_LIMIT as nat
             && Conformant(rounds(0), MAP_INITIAL, stride)
             && Conformant(rounds(1), needed as uint64, stride) && rounds(1).size as nat <= needed
    ensures var next := (rounds(0).size as nat + 2 * stride as nat) as uint64;
            var run := Acquisition(rounds, true);
            && run.outcome == Outcome(ReadMap(Some(Filled(rounds(1), next)), next, rounds(1).size, stride,
                                              DESCRIPTOR_VERSION),
                                      EFI_SUCCESS, EFI_SUCCESS, 2, 2)
            && Gate(true, next, rounds(1).size, stride, DESCRIPTOR_VERSION).detail
               in {NoDetail, EmptyMap, PartialDescriptor}
  {
    hide ReadMap, Filled;
    var next := (rounds(0).size as nat + 2 * stride as nat) as uint64;
    assert RoundOf(rounds(0), 0, MAP_INITIAL, EFI_SUCCESS) == Again(next, RoundCalls(rounds(0), MAP_INITIAL));
    assert RoundOf(rounds(1), 1, next, EFI_BUFFER_TOO_SMALL).Done?;
    assert RunFrom(rounds, 1, next, EFI_BUFFER_TOO_SMALL).outcome ==
           RoundOf(rounds(1), 1, next, EFI_BUFFER_TOO_SMALL).outcome;
  }
}
