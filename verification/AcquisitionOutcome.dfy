// What an acquisition reports, in terms of the firmware's answers: the first round that the
// map did not outgrow decides.
module AcquisitionOutcome {
  import opened Machine
  import opened Details
  import opened MemoryMap
  import opened MapLayout
  import opened FirmwareModel
  import opened MapProtocol

  // The first round the map did not outgrow.
  ghost predicate Decides(rounds: nat -> Round, j: nat) {
    Reached(rounds, 0, 4096, j) && !Outgrown(rounds(j), Offered(rounds, 0, 4096, j))
  }

  // GetMemoryMap is called in a round exactly when a buffer was granted.
  predicate Granted(r: Round) {
    r.alloc < 0x8000_0000_0000_0000 && r.given
  }

  const TOO_SMALL: Status := 0x8000_0000_0000_0005

  // What the deciding round `j`, offered a buffer of `offered` bytes, amounts to.
  ghost predicate Settles(m: MapResult, r: Round, offered: nat) {
    if r.alloc >= 0x8000_0000_0000_0000 then m == Failed(Unavailable, AllocationFailed)
    else if !r.given then m == Failed(Malformed, AllocationNull)
    else if r.read == TOO_SMALL then
      if r.freed != 0 then m == Failed(NotProbed, ReleaseFailed)
      else if r.stride < 40 || r.stride > 0x4_0000 then m == Failed(Malformed, TooSmallStride)
      else if r.size as nat <= offered then m == Failed(Malformed, TooSmallInconsistent)
      else m == Failed(Unsupported, SizeLimit)
    else if r.read >= 0x8000_0000_0000_0000 then m == Failed(Unavailable, EfiErrorDetail)
    else if r.read != 0 then m == Failed(Unsupported, WarningStatus)
    else MapOf(m, Contents(r, offered), offered, r.size as nat, r.stride as nat, r.version)
  }

  function Contents(r: Round, offered: nat): (b: seq<uint8>)
    ensures |b| == offered
  {
    seq(offered, i requires 0 <= i => r.content(i))
  }

  // What a returned map amounts to: a reason given before any descriptor is looked at, or
  // what its descriptors say.
  ghost predicate MapOf(m: MapResult, b: seq<uint8>, capacity: nat, length: nat, stride: nat, version: uint32) {
    if length > capacity then m == Failed(Malformed, SizeExceedsBuffer)
    else if version != 1 then m == Failed(Unsupported, DescriptorVersion)
    else if stride < 40 || stride > capacity then m == Failed(Malformed, StrideDetail)
    else if length == 0 then m == Failed(Malformed, EmptyMap)
    else if length % stride != 0 then m == Failed(Malformed, PartialDescriptor)
    else
      forall ds :: ds != [] && LaidOut(b, stride, ds) && length == Offset(stride, |ds|) ==>
        if forall d :: d in ds ==> Acceptable(d) then Enumerates(m, ds, stride) else Blames(m, ds)
  }

  // -------------------------------------------------------------------- reaching a round

  // A buffer of this many bytes; none offered exceeds the limit of 2^18.
  function Bytes(offered: nat): (n: uint64)
    ensures offered <= 0x4_0000 ==> n as nat == offered
  {
    if offered <= 0x4_0000 then offered as uint64 else 0
  }

  // The calls of a round in which a buffer was granted, and of one in which none was.
  function FullRound(r: Round, capacity: uint64): seq<Call> {
    [AllocatePool(capacity, r.alloc, true), GetMemoryMap(capacity, r.read), FreePool(r.freed)]
  }

  function FailedRound(r: Round, capacity: uint64): seq<Call> {
    [AllocatePool(capacity, r.alloc, r.given)]
  }

  // The calls before round `j`, all earlier rounds being outgrown.
  function CallsBefore(rounds: nat -> Round, j: nat): seq<Call> {
    if j == 0 then []
    else CallsBefore(rounds, j - 1) + FullRound(rounds(j - 1), Bytes(Offered(rounds, 0, 4096, j - 1)))
  }

  // An outgrown round hands the run on to the next.
  lemma RunAgain(rounds: nat -> Round, k: nat, capacity: uint64, efi: Status) returns (next: uint64)
    requires k < MAP_ATTEMPTS && Outgrown(rounds(k), capacity as nat) && 0 < capacity <= MAP_LIMIT
    ensures next as nat == rounds(k).size as nat + 2 * rounds(k).stride as nat && 0 < next <= MAP_LIMIT
    ensures var run, rest := RunFrom(rounds, k, capacity, efi), RunFrom(rounds, k + 1, next, TOO_SMALL);
            run.outcome == rest.outcome && run.calls == FullRound(rounds(k), capacity) + rest.calls
  {
    RoundExhausts(rounds(k), k, capacity, efi);
    assert RoundOf(rounds(k), k, capacity, efi).Again? ==>
             RoundOf(rounds(k), k, capacity, efi).calls == FullRound(rounds(k), capacity);
    hide RoundOf, Outgrown;
    next := RoundOf(rounds(k), k, capacity, efi).next;
  }

  function StatusBefore(j: nat): Status {
    if j == 0 then 0 else TOO_SMALL
  }

  // The whole run goes on as one started at round `j` with the buffer that round is offered.
  ghost predicate Continues(rounds: nat -> Round, j: nat) {
    && j <= MAP_ATTEMPTS
    && 0 < Offered(rounds, 0, 4096, j) <= MAP_LIMIT as nat
    && var run := Acquisition(rounds, true);
       var rest := RunFrom(rounds, j, Bytes(Offered(rounds, 0, 4096, j)), StatusBefore(j));
       run.outcome == rest.outcome && run.calls == CallsBefore(rounds, j) + rest.calls
  }

  lemma ContinuesOn(rounds: nat -> Round, j: nat)
    requires j < MAP_ATTEMPTS && Continues(rounds, j) && Outgrown(rounds(j), Offered(rounds, 0, 4096, j))
    ensures Continues(rounds, j + 1)
  {
    var capacity := Bytes(Offered(rounds, 0, 4096, j));
    var next := RunAgain(rounds, j, capacity, StatusBefore(j));
    hide RunFrom, Outgrown, FullRound, Acquisition;
    assert next == Bytes(Offered(rounds, 0, 4096, j + 1));
    Assoc(CallsBefore(rounds, j), FullRound(rounds(j), capacity), RunFrom(rounds, j + 1, next, TOO_SMALL).calls);
  }

  lemma ReachedBefore(rounds: nat -> Round, j: nat)
    requires Reached(rounds, 0, 4096, j)
    ensures j < MAP_ATTEMPTS
    ensures j > 0 ==> Reached(rounds, 0, 4096, j - 1) && Outgrown(rounds(j - 1), Offered(rounds, 0, 4096, j - 1))
  {
    hide Outgrown, Offered;
  }

  // A run whose rounds before `j` were outgrown goes on as one started at round `j`.
  lemma {:induction false} RunReaches(rounds: nat -> Round, j: nat)
    requires Reached(rounds, 0, 4096, j)
    ensures Continues(rounds, j)
  {
    ReachedBefore(rounds, j);
    hide RunFrom, Outgrown, Reached;
    if j > 0 {
      RunReaches(rounds, j - 1);
      ContinuesOn(rounds, j - 1);
    }
  }

  // Some round decides, unless all five were outgrown.
  lemma RoundDecides(rounds: nat -> Round)
    ensures AllOutgrown(rounds, 0, 4096) <==> !exists j :: Decides(rounds, j)
  {
    hide Outgrown, Offered;
    if !AllOutgrown(rounds, 0, 4096) {
      var j := FirstNotOutgrown(rounds, 0);
      assert Decides(rounds, j);
    }
  }

  lemma {:induction false} FirstNotOutgrown(rounds: nat -> Round, k: nat) returns (j: nat)
    requires k <= MAP_ATTEMPTS && forall i :: 0 <= i < k ==> Outgrown(rounds(i), Offered(rounds, 0, 4096, i))
    requires !AllOutgrown(rounds, 0, 4096)
    ensures Decides(rounds, j)
    decreases MAP_ATTEMPTS - k
  {
    hide Outgrown, Offered;
    if k < MAP_ATTEMPTS && Outgrown(rounds(k), Offered(rounds, 0, 4096, k)) {
      j := FirstNotOutgrown(rounds, k + 1);
    } else {
      j := k;
    }
  }

  // -------------------------------------------------------------------- the deciding round

  lemma RoundSettles(r: Round, k: nat, capacity: uint64, efi: Status)
    requires 0 < capacity <= MAP_LIMIT && !Outgrown(r, capacity as nat)
    ensures RoundOf(r, k, capacity, efi).Done?
    ensures var out := RoundOf(r, k, capacity, efi).outcome;
            && Settles(out.result, r, capacity as nat)
            && out.attempts == k + 1
            && (r.alloc >= 0x8000_0000_0000_0000 ==> out.efi == r.alloc)
            && (r.alloc < 0x8000_0000_0000_0000 && !r.given ==> out.efi == efi)
            && (Granted(r) ==> out.efi == r.read && out.release == r.freed && out.releases == k + 1)
            && (!Granted(r) ==> out.release == 0 && out.releases == k)
    ensures RoundOf(r, k, capacity, efi).calls ==
            if Granted(r) then FullRound(r, capacity) else FailedRound(r, capacity)
  {
    hide Interpret, MapOf, Contents;
    if Granted(r) && r.read == 0 {
      InterpretIs(r, capacity);
    }
    InterpretOther(r, capacity);
  }

  lemma InterpretOther(r: Round, capacity: uint64)
    ensures IsError(r.read) ==> Interpret(r, capacity) == Failed(Unavailable, EfiErrorDetail)
    ensures !IsError(r.read) && r.read != 0 ==> Interpret(r, capacity) == Failed(Unsupported, WarningStatus)
  {
    hide ReadMap;
  }

  lemma InterpretIs(r: Round, capacity: uint64)
    requires 0 < capacity <= MAP_LIMIT && r.read == 0
    ensures MapOf(Interpret(r, capacity), Contents(r, capacity as nat), capacity as nat, r.size as nat, r.stride as nat,
                  r.version)
  {
    var b := Contents(r, capacity as nat);
    assert b == Filled(r, capacity);
    var m := Interpret(r, capacity);
    assert m == ReadMap(Some(b), capacity, r.size, r.stride, r.version);
    MapRefusals(Some(b), capacity, r.size, r.stride, r.version);
    hide Interpret, ReadMap, Filled, Contents;
    if r.size <= capacity && r.version == 1 && 40 <= r.stride <= capacity {
      forall ds | ds != [] && LaidOut(b, r.stride as nat, ds) && r.size as nat == Offset(r.stride as nat, |ds|)
        ensures if forall d :: d in ds ==> Acceptable(d) then Enumerates(m, ds, r.stride as nat) else Blames(m, ds)
      {
        MapMeaning(b, capacity, r.size, r.stride, ds);
      }
    }
  }

  // Against any firmware: when round `j` decides, its answers give the outcome.
  lemma OutcomeDecided(rounds: nat -> Round, j: nat)
    requires Decides(rounds, j)
    ensures var out := Acquisition(rounds, true).outcome;
            var r := rounds(j);
            && Settles(out.result, r, Offered(rounds, 0, 4096, j))
            && out.attempts == j + 1
            && (r.alloc >= 0x8000_0000_0000_0000 ==> out.efi == r.alloc)
            && (r.alloc < 0x8000_0000_0000_0000 && !r.given ==> out.efi == if j == 0 then 0 else TOO_SMALL)
            && (Granted(r) ==> out.efi == r.read && out.release == r.freed && out.releases == j + 1)
            && (!Granted(r) ==> out.release == 0 && out.releases == j)
    ensures var capacity := Bytes(Offered(rounds, 0, 4096, j));
            Acquisition(rounds, true).calls ==
            CallsBefore(rounds, j)
            + if Granted(rounds(j)) then FullRound(rounds(j), capacity) else FailedRound(rounds(j), capacity)
  {
    RunReaches(rounds, j);
    hide Settles, Outgrown, Offered, Bytes, FullRound, FailedRound, CallsBefore, Acquisition;
    RoundSettles(rounds(j), j, Bytes(Offered(rounds, 0, 4096, j)), StatusBefore(j));
    hide RoundOf;
  }

  // When none does, the attempts are used up; without the services nothing is tried.
  lemma OutcomeExhausted(rounds: nat -> Round)
    ensures Acquisition(rounds, false) == Run(Outcome(Failed(Unavailable, ServiceMissing), 0, 0, 0, 0), [])
    ensures AllOutgrown(rounds, 0, 4096) ==>
              && Acquisition(rounds, true).outcome == Outcome(Failed(Unsupported, RetryLimit), TOO_SMALL, 0, 5, 5)
              && Acquisition(rounds, true).calls == CallsBefore(rounds, 5)
  {
    if AllOutgrown(rounds, 0, 4096) {
      LastReached(rounds);
      hide RunFrom, Outgrown, Offered, CallsBefore, Acquisition;
      RunReaches(rounds, 4);
      ContinuesOn(rounds, 4);
      LastOutcome(rounds, Bytes(Offered(rounds, 0, 4096, 5)), TOO_SMALL);
      assert CallsBefore(rounds, 5) + [] == CallsBefore(rounds, 5);
    }
  }

  lemma LastReached(rounds: nat -> Round)
    requires AllOutgrown(rounds, 0, 4096)
    ensures MAP_ATTEMPTS == 5 && Reached(rounds, 0, 4096, 4) && Outgrown(rounds(4), Offered(rounds, 0, 4096, 4))
  {
    hide Outgrown, Offered;
  }

  lemma LastOutcome(rounds: nat -> Round, capacity: uint64, efi: Status)
    ensures MAP_ATTEMPTS == 5
    ensures RunFrom(rounds, 5, capacity, efi) == Run(Outcome(Failed(Unsupported, RetryLimit), efi, 0, 5, 5), [])
  {
  }
}
