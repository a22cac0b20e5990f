// The firmware as the probe meets it: arbitrary answers fixed in advance (a deterministic
// caller cannot tell an adaptive adversary from one), and a ghost trace of the calls made.
module FirmwareModel {
  import opened Machine

  // What the firmware does in one allocate / read / free round.
  datatype Round = Round(
    alloc: Status, given: bool,                                        // AllocatePool: status, non-null pointer
    read: Status, size: uint64, stride: uint64, version: uint32,       // GetMemoryMap
    content: nat -> uint8,                                             // the bytes it leaves in the buffer
    freed: Status)                                                     // FreePool

  datatype Call =
    | AllocatePool(size: uint64, status: Status, given: bool)
    | GetMemoryMap(capacity: uint64, status: Status)
    | FreePool(status: Status)
    | HandleProtocol(status: Status)
    | GetVariable(variable: Variable, status: Status)
    | OutputString(text: seq<uint16>, status: Status)

  datatype Variable = SecureBoot | SetupMode

  datatype VariableAnswer = VariableAnswer(status: Status, size: uint64, value: uint8)

  datatype LoadedImage = LoadedImage(base: uint64, size: uint64, hasPath: bool)

  // Text in a CHAR16 buffer, up to the first NUL.
  function Units(s: seq<uint16>): seq<uint16> {
    if s == [] || s[0] == 0 then [] else [s[0]] + Units(s[1..])
  }

  class Firmware {
    const rounds: nat -> Round
    const outputs: nat -> Status
    const protocol: (Status, Option<LoadedImage>)
    const variables: Variable -> VariableAnswer

    var attempt: nat                     // AllocatePool calls so far
    var printed: nat                     // OutputString calls so far
    ghost var live: array?<uint8>        // the pool buffer the probe owns
    ghost var calls: seq<Call>

    constructor (rounds: nat -> Round, outputs: nat -> Status, protocol: (Status, Option<LoadedImage>),
                 variables: Variable -> VariableAnswer)
      ensures this.rounds == rounds && this.outputs == outputs
      ensures this.protocol == protocol && this.variables == variables
      ensures attempt == 0 && printed == 0 && live == null && calls == []
    {
      this.rounds, this.outputs, this.protocol, this.variables := rounds, outputs, protocol, variables;
      attempt, printed, live, calls := 0, 0, null, [];
    }

    // Only a non-error, non-null answer transfers ownership, and only while none is held.
    method Allocate(size: uint64) returns (status: Status, buffer: array?<uint8>)
      requires live == null
      modifies this`attempt, this`live, this`calls
      ensures attempt == old(attempt) + 1
      ensures var r := rounds(old(attempt));
              && status == r.alloc
              && (buffer != null <==> r.given)
              && (buffer != null ==> fresh(buffer) && buffer.Length == size as nat)
              && live == (if IsError(status) then null else buffer)
              && calls == old(calls) + [AllocatePool(size, status, r.given)]
    {
      var r := rounds(attempt);
      status, buffer := r.alloc, null;
      if r.given {
        buffer := new uint8[size];
      }
      attempt := attempt + 1;
      live := if IsError(status) then null else buffer;
      calls := calls + [AllocatePool(size, status, r.given)];
    }

    // Fills the owned buffer as it likes and answers any size, stride and version.
    method ReadMap(buffer: array<uint8>, capacity: uint64)
      returns (status: Status, size: uint64, stride: uint64, version: uint32)
      requires buffer == live && buffer.Length == capacity as nat && attempt > 0
      modifies buffer, this`calls
      ensures var r := rounds(attempt - 1);
              && status == r.read && size == r.size && stride == r.stride && version == r.version
              && buffer[..] == seq(capacity as nat, i requires 0 <= i => r.content(i))
              && calls == old(calls) + [GetMemoryMap(capacity, status)]
    {
      var r := rounds(attempt - 1);
      forall i | 0 <= i < buffer.Length {
        buffer[i] := r.content(i);
      }
      status, size, stride, version := r.read, r.size, r.stride, r.version;
      calls := calls + [GetMemoryMap(capacity, status)];
    }

    // One release attempt. Whatever the answer, the memory is the firmware's again: what
    // the buffer holds afterwards is unknown to the probe.
    method Free(buffer: array<uint8>) returns (status: Status)
      requires buffer == live && attempt > 0
      modifies buffer, this`live, this`calls
      ensures status == rounds(attempt - 1).freed && live == null
      ensures calls == old(calls) + [FreePool(status)]
    {
      status := rounds(attempt - 1).freed;
      forall i | 0 <= i < buffer.Length {
        buffer[i] := 0xff - buffer[i];
      }
      live := null;
      calls := calls + [FreePool(status)];
    }

    method Protocol() returns (status: Status, interface: Option<LoadedImage>)
      modifies this`calls
      ensures (status, interface) == protocol && calls == old(calls) + [HandleProtocol(status)]
    {
      status, interface := protocol.0, protocol.1;
      calls := calls + [HandleProtocol(status)];
    }

    method Variable(v: Variable) returns (status: Status, size: uint64, value: uint8)
      modifies this`calls
      ensures VariableAnswer(status, size, value) == variables(v) && calls == old(calls) + [GetVariable(v, status)]
    {
      var a := variables(v);
      status, size, value := a.status, a.size, a.value;
      calls := calls + [GetVariable(v, status)];
    }

    method Output(buffer: array<uint16>) returns (status: Status)
      modifies this`printed, this`calls
      ensures status == outputs(old(printed)) && printed == old(printed) + 1
      ensures calls == old(calls) + [OutputString(Units(buffer[..]), status)]
    {
      status := outputs(printed);
      printed := printed + 1;
      calls := calls + [OutputString(Units(buffer[..]), status)];
    }
  }
}
