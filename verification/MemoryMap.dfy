// The UEFI memory map (UEFI 2.10 section 7.2.3): growing the buffer and checking the
// descriptors the firmware returned.
module MemoryMap {
  import opened Machine
  import opened Details

  const MAP_LIMIT: uint64 := 0x4_0000
  const MAP_INITIAL: uint64 := 4096
  const PAGE_BYTES: uint64 := 4096
  const DESCRIPTOR_BYTES: uint64 := 40
  const DESCRIPTOR_VERSION: uint32 := 1
  const REPORTED := 12

  datatype Descriptor = Descriptor(kind: uint32, physical: uint64, virtual: uint64, pages: uint64, attributes: uint64)

  datatype Entry = Entry(kind: uint32, physical: uint64, pages: uint64, attributes: uint64)

  // `entries` holds the first REPORTED descriptors.
  datatype MapResult = MapResult(state: State, detail: Detail, count: uint32, stride: uint32, version: uint32,
                                 entries: seq<Entry>)

  function Failed(s: State, d: Detail): MapResult {
    MapResult(s, d, 0, 0, 0, [])
  }

  // -------------------------------------------------------------------- descriptors

  function Decode(b: seq<uint8>, at: nat): Descriptor
    requires at + 40 <= |b|
  {
    Descriptor(Le32(b, at), Le64(b, at + 8), Le64(b, at + 16), Le64(b, at + 24), Le64(b, at + 32))
  }

  function EntryOf(d: Descriptor): Entry {
    Entry(d.kind, d.physical, d.pages, d.attributes)
  }

  // A region [start, start + pages * 4096) whose exclusive end fits 64 bits.
  predicate Representable(start: uint64, pages: uint64) {
    start as nat + pages as nat * 4096 <= UINT64_MAX as nat
  }

  // The first check a descriptor fails.
  function Fault(d: Descriptor): Detail {
    if d.pages as nat * 4096 > UINT64_MAX as nat then PagesOverflow
    else if !Representable(d.physical, d.pages) || !Representable(d.virtual, d.pages) then RangeOverflow
    else if d.physical % 4096 != 0 then UnalignedPhysical
    else NoDetail
  }

  // Whole descriptors in a map of `length` bytes.
  function Count(length: nat, stride: nat): nat {
    if stride == 0 then 0 else length / stride
  }

  lemma Inside(length: nat, stride: nat, i: nat)
    requires stride > 0 && length % stride == 0 && i < Count(length, stride)
    ensures i * stride + stride <= length
  {
    WholeDescriptors(length, stride);
    Scaled(i + 1, Count(length, stride), stride);
    assert (i + 1) * stride == i * stride + stride;
  }

  lemma WholeDescriptors(length: nat, stride: nat)
    requires stride > 0 && length % stride == 0
    ensures length / stride * stride == length
  {
  }

  lemma Scaled(a: nat, b: nat, c: nat)
    requires a <= b
    ensures a * c <= b * c
  {
  }

  ghost predicate Strided(b: seq<uint8>, length: nat, stride: nat) {
    40 <= stride && length % stride == 0 && length <= |b|
  }

  ghost function DescriptorAt(b: seq<uint8>, length: nat, stride: nat, i: nat): Descriptor
    requires Strided(b, length, stride) && i < Count(length, stride)
  {
    Inside(length, stride, i);
    Decode(b, i * stride)
  }

  ghost predicate AllSound(b: seq<uint8>, length: nat, stride: nat, n: nat)
    requires Strided(b, length, stride) && n <= Count(length, stride)
  {
    forall i :: 0 <= i < n ==> Fault(DescriptorAt(b, length, stride, i)) == NoDetail
  }

  // The checks made before any descriptor byte is read.
  function Gate(present: bool, capacity: uint64, length: uint64, stride: uint64, version: uint32): MapResult {
    if !present || capacity == 0 || capacity > MAP_LIMIT then Failed(Malformed, BufferDetail)
    else if length > capacity then Failed(Malformed, SizeExceedsBuffer)
    else if version != DESCRIPTOR_VERSION then Failed(Unsupported, DescriptorVersion)
    else if stride < DESCRIPTOR_BYTES || stride > capacity then Failed(Malformed, StrideDetail)
    else if length == 0 then Failed(Malformed, EmptyMap)
    else if length % stride != 0 then Failed(Malformed, PartialDescriptor)
    else Failed(Observed, NoDetail)
  }

  // What a result says about the bytes of an accepted buffer: all descriptors sound and
  // the first ones listed, or the first failing check of the first failing descriptor.
  ghost predicate Reads(r: MapResult, b: seq<uint8>, length: nat, stride: nat)
    requires Strided(b, length, stride)
  {
    var n := Count(length, stride);
    if r.state == Observed then
      && AllSound(b, length, stride, n)
      && r.detail == NoDetail && r.count as nat == n && r.stride as nat == stride && r.version == DESCRIPTOR_VERSION
      && |r.entries| == (if n < REPORTED then n else REPORTED)
      && forall i :: 0 <= i < |r.entries| ==> r.entries[i] == EntryOf(DescriptorAt(b, length, stride, i))
    else
      exists i :: FirstFailure(b, length, stride, i, r)
  }

  ghost predicate FirstFailure(b: seq<uint8>, length: nat, stride: nat, i: nat, r: MapResult)
    requires Strided(b, length, stride)
  {
    && i < Count(length, stride)
    && AllSound(b, length, stride, i)
    && Fault(DescriptorAt(b, length, stride, i)) != NoDetail
    && r == Failed(Malformed, Fault(DescriptorAt(b, length, stride, i)))
  }

  // The first failing check among descriptors i, i + 1, ...
  ghost function FirstFault(b: seq<uint8>, length: nat, stride: nat, i: nat): (d: Detail)
    requires Strided(b, length, stride) && i <= Count(length, stride)
    ensures d == NoDetail ==> forall j :: i <= j < Count(length, stride) ==>
        Fault(DescriptorAt(b, length, stride, j)) == NoDetail
    ensures d != NoDetail ==>
              exists j :: i <= j < Count(length, stride) && Fault(DescriptorAt(b, length, stride, j)) == d
                          && forall k :: i <= k < j ==> Fault(DescriptorAt(b, length, stride, k)) == NoDetail
    decreases Count(length, stride) - i
  {
    if i == Count(length, stride) then NoDetail
    else if Fault(DescriptorAt(b, length, stride, i)) != NoDetail then Fault(DescriptorAt(b, length, stride, i))
    else FirstFault(b, length, stride, i + 1)
  }

  ghost function Listing(b: seq<uint8>, length: nat, stride: nat): MapResult
    requires Strided(b, length, stride) && stride <= MAP_LIMIT as nat && length <= MAP_LIMIT as nat
  {
    var n := Count(length, stride);
    assert n <= length;
    MapResult(Observed, NoDetail, n as uint32, stride as uint32, DESCRIPTOR_VERSION,
              seq(if n < REPORTED then n else REPORTED,
                  i requires 0 <= i < n => EntryOf(DescriptorAt(b, length, stride, i))))
  }

  lemma ListingReads(b: seq<uint8>, length: nat, stride: nat)
    requires Strided(b, length, stride) && stride <= MAP_LIMIT as nat && length <= MAP_LIMIT as nat
    requires FirstFault(b, length, stride, 0) == NoDetail
    ensures Reads(Listing(b, length, stride), b, length, stride)
  {
    hide FirstFault, Fault, Decode, DescriptorAt;
  }

  lemma FaultReads(b: seq<uint8>, length: nat, stride: nat)
    requires Strided(b, length, stride)
    requires FirstFault(b, length, stride, 0) != NoDetail
    ensures Reads(Failed(Malformed, FirstFault(b, length, stride, 0)), b, length, stride)
  {
    hide FirstFault, Fault, Decode, DescriptorAt;
    var d := FirstFault(b, length, stride, 0);
    var j :| 0 <= j < Count(length, stride) && Fault(DescriptorAt(b, length, stride, j)) == d
             && forall k :: 0 <= k < j ==> Fault(DescriptorAt(b, length, stride, k)) == NoDetail;
    assert FirstFailure(b, length, stride, j, Failed(Malformed, d));
  }

  // The one result `Reads` admits.
  ghost function ReadMap(data: Option<seq<uint8>>, capacity: uint64, length: uint64, stride: uint64,
                         version: uint32): MapResult
    requires data.Some? ==> capacity as nat <= |data.value|
  {
    var gate := Gate(data.Some?, capacity, length, stride, version);
    if gate.state != Observed then gate
    else if FirstFault(data.value, length as nat, stride as nat, 0) != NoDetail then
      Failed(Malformed, FirstFault(data.value, length as nat, stride as nat, 0))
    else Listing(data.value, length as nat, stride as nat)
  }

  lemma ReadMapReads(data: Option<seq<uint8>>, capacity: uint64, length: uint64, stride: uint64, version: uint32)
    requires data.Some? ==> capacity as nat <= |data.value|
    ensures var gate := Gate(data.Some?, capacity, length, stride, version);
            var r := ReadMap(data, capacity, length, stride, version);
            if gate.state != Observed then r == gate
            else Strided(data.value, length as nat, stride as nat) && Reads(r, data.value, length as nat, stride as nat)
  {
    hide FirstFault, Fault, Decode, DescriptorAt, Listing, Reads;
    if Gate(data.Some?, capacity, length, stride, version).state == Observed {
      if FirstFault(data.value, length as nat, stride as nat, 0) == NoDetail {
        ListingReads(data.value, length as nat, stride as nat);
      } else {
        FaultReads(data.value, length as nat, stride as nat);
      }
    }
  }

  // parse_map: reads [0, length) of the buffer, and only when length fits its capacity.
  method ParseMap(data: Option<seq<uint8>>, capacity: uint64, length: uint64, stride: uint64, version: uint32)
    returns (r: MapResult)
    requires data.Some? ==> capacity as nat <= |data.value|
    ensures var gate := Gate(data.Some?, capacity, length, stride, version);
            if gate.state != Observed then r == gate
            else Strided(data.value, length as nat, stride as nat) && Reads(r, data.value, length as nat, stride as nat)
    ensures r == ReadMap(data, capacity, length, stride, version)
  {
    if data.None? || capacity == 0 || capacity > MAP_LIMIT {
      return Failed(Malformed, BufferDetail);
    }
    if length > capacity {
      return Failed(Malformed, SizeExceedsBuffer);
    }
    if version != DESCRIPTOR_VERSION {
      return Failed(Unsupported, DescriptorVersion);
    }
    if stride < DESCRIPTOR_BYTES || stride > capacity {
      return Failed(Malformed, StrideDetail);
    }
    if length == 0 {
      return Failed(Malformed, EmptyMap);
    }
    if length % stride != 0 {
      return Failed(Malformed, PartialDescriptor);
    }
    r := ReadDescriptors(data.value, length, stride);
    ReadMapReads(data, capacity, length, stride, version);
    hide ReadMap, Reads;
    ReadsOnce(r, ReadMap(data, capacity, length, stride, version), data.value, length as nat, stride as nat);
  }

  method ReadDescriptors(p: seq<uint8>, length: uint64, stride: uint64) returns (r: MapResult)
    requires Strided(p, length as nat, stride as nat) && length <= MAP_LIMIT && stride <= MAP_LIMIT
    ensures Reads(r, p, length as nat, stride as nat)
  {
    var n: uint64 := length / stride;
    assert n as nat == Count(length as nat, stride as nat);
    hide Count, Reads, Strided;
    r := ScanDescriptors(p, length, stride, n);
  }

  // The loop over the `n` descriptors.
  method ScanDescriptors(p: seq<uint8>, length: uint64, stride: uint64, n: uint64) returns (r: MapResult)
    requires Strided(p, length as nat, stride as nat) && length <= MAP_LIMIT && stride <= MAP_LIMIT
    requires n as nat == Count(length as nat, stride as nat) <= length as nat
    ensures Reads(r, p, length as nat, stride as nat)
  {
    ghost var size, step := length as nat, stride as nat;
    assert AllSound(p, size, step, 0);
    var entries := new Entry[REPORTED](_ => Entry(0, 0, 0, 0));
    var count: uint32 := 0;
    var i: uint64 := 0;
    assert Reported(entries[..], p, size, step, 0);
    hide Decode, Fault, EntryOf, DescriptorAt, AllSound, FirstFailure, Reads, Strided, Count, Reported;
    while i < n
      invariant 0 <= i <= n && count as nat == i as nat
      invariant AllSound(p, size, step, i as nat)
      invariant Reported(entries[..], p, size, step, i as nat)
    {
      var d := DescriptorOf(p, length, stride, i);
      var fault := CheckDescriptor(d);
      SoundStep(p, size, step, i as nat);
      if fault != NoDetail {
        return Failed(Malformed, fault);
      }
      ghost var es := entries[..];
      ReportedStep(es, p, size, step, i as nat);
      if count < REPORTED as uint32 {
        entries[count] := EntryOf(d);
        assert entries[..] == es[i := EntryOf(d)];
      }
      count := count + 1;
      i := i + 1;
    }
    var listed := if count < REPORTED as uint32 then count else REPORTED as uint32;
    r := MapResult(Observed, NoDetail, count, stride as uint32, DESCRIPTOR_VERSION, entries[..listed]);
    assert entries[..listed] == entries[..][..listed];
    SoundReads(r, p, size, step, entries[..]);
  }

  // Among the first `i` descriptors, those the array has room for are in it.
  ghost predicate Reported(es: seq<Entry>, b: seq<uint8>, length: nat, stride: nat, i: nat)
    requires Strided(b, length, stride) && i <= Count(length, stride)
  {
    forall j :: 0 <= j < |es| && j < i ==> es[j] == EntryOf(DescriptorAt(b, length, stride, j))
  }

  lemma ReportedStep(es: seq<Entry>, b: seq<uint8>, length: nat, stride: nat, i: nat)
    requires Strided(b, length, stride) && i < Count(length, stride) && Reported(es, b, length, stride, i)
    ensures if i < |es| then Reported(es[i := EntryOf(DescriptorAt(b, length, stride, i))], b, length, stride, i + 1)
            else Reported(es, b, length, stride, i + 1)
  {
    hide DescriptorAt, EntryOf;
  }

  // The bytes from i * stride on.
  method DescriptorOf(p: seq<uint8>, length: uint64, stride: uint64, i: uint64) returns (d: Descriptor)
    requires Strided(p, length as nat, stride as nat) && length <= MAP_LIMIT && stride <= MAP_LIMIT
    requires i as nat < Count(length as nat, stride as nat)
    ensures d == DescriptorAt(p, length as nat, stride as nat, i as nat)
  {
    ghost var at := DecodeAt(p, length as nat, stride as nat, i as nat);
    hide Decode, DescriptorAt, Strided;
    d := Decode(p, (i * stride) as nat);
  }

  lemma DecodeAt(b: seq<uint8>, length: nat, stride: nat, i: nat) returns (at: nat)
    requires Strided(b, length, stride) && i < Count(length, stride)
    ensures at == i * stride && at + 40 <= length <= |b| && DescriptorAt(b, length, stride, i) == Decode(b, at)
  {
    Inside(length, stride, i);
    at := i * stride;
  }

  // One more sound descriptor, or the first that is not.
  lemma SoundStep(b: seq<uint8>, length: nat, stride: nat, i: nat)
    requires Strided(b, length, stride) && i < Count(length, stride) && AllSound(b, length, stride, i)
    ensures var fault := Fault(DescriptorAt(b, length, stride, i));
            if fault == NoDetail then AllSound(b, length, stride, i + 1)
            else Reads(Failed(Malformed, fault), b, length, stride)
  {
    hide Fault, DescriptorAt;
    var fault := Fault(DescriptorAt(b, length, stride, i));
    assert fault != NoDetail ==> FirstFailure(b, length, stride, i, Failed(Malformed, fault));
  }

  lemma SoundReads(r: MapResult, b: seq<uint8>, length: nat, stride: nat, es: seq<Entry>)
    requires Strided(b, length, stride) && AllSound(b, length, stride, Count(length, stride))
    requires r.state == Observed && r.detail == NoDetail && r.version == DESCRIPTOR_VERSION
    requires r.count as nat == Count(length, stride) && r.stride as nat == stride
    requires |es| == REPORTED && Reported(es, b, length, stride, Count(length, stride))
    requires r.entries == es[..if r.count as nat < REPORTED then r.count as nat else REPORTED]
    ensures Reads(r, b, length, stride)
  {
    hide AllSound, DescriptorAt, EntryOf;
  }

  // Page count first, so that the byte count it guards cannot wrap.
  method CheckDescriptor(d: Descriptor) returns (fault: Detail)
    ensures fault == Fault(d)
  {
    if d.pages > UINT64_MAX / PAGE_BYTES {
      return PagesOverflow;
    }
    var bytes := d.pages * PAGE_BYTES;
    if !(bytes <= UINT64_MAX - d.physical) || !(bytes <= UINT64_MAX - d.virtual) {
      return RangeOverflow;
    }
    if d.physical % PAGE_BYTES != 0 {
      return UnalignedPhysical;
    }
    return NoDetail;
  }

  // A result is determined by the bytes: two answers that fit the same buffer are equal.
  lemma ReadsOnce(r: MapResult, r': MapResult, b: seq<uint8>, length: nat, stride: nat)
    requires Strided(b, length, stride)
    requires Reads(r, b, length, stride) && Reads(r', b, length, stride)
    ensures r == r'
  {
    if r.state == Observed && r'.state == Observed {
      assert r.entries == r'.entries;
    } else if r.state != Observed && r'.state != Observed {
      var i :| FirstFailure(b, length, stride, i, r);
      var j :| FirstFailure(b, length, stride, j, r');
      assert i == j;
    }
  }

  // -------------------------------------------------------------------- growth

  datatype Growth = Grow(next: uint64) | Stop(state: State, detail: Detail)

  // map_next_capacity: two descriptors of slack, because the next allocation may itself
  // split a region.
  method NextCapacity(capacity: uint64, required: uint64, stride: uint64) returns (g: Growth)
    ensures g == Next(capacity, required, stride)
  {
    if stride < DESCRIPTOR_BYTES || stride > MAP_LIMIT {
      return Stop(Malformed, TooSmallStride);
    }
    if required <= capacity {
      return Stop(Malformed, TooSmallInconsistent);
    }
    if required > MAP_LIMIT || MAP_LIMIT - required < 2 * stride {
      return Stop(Unsupported, SizeLimit);
    }
    return Grow(required + 2 * stride);
  }

  // The same on unbounded numbers, where the slack is simply added.
  function Next(capacity: uint64, required: uint64, stride: uint64): Growth {
    if !(40 <= stride as nat <= MAP_LIMIT as nat) then Stop(Malformed, TooSmallStride)
    else if required <= capacity then Stop(Malformed, TooSmallInconsistent)
    else if required as nat + 2 * stride as nat <= MAP_LIMIT as nat then
      Grow((required as nat + 2 * stride as nat) as uint64)
    else Stop(Unsupported, SizeLimit)
  }

  // A consistent answer for which the limit leaves no room is reported as unsupported, as
  // documented for every limit, with one exception: when the stride alone exceeds the
  // limit the answer counts as malformed.
  lemma GrowthPolicy(capacity: uint64, required: uint64, stride: uint64)
    requires stride >= DESCRIPTOR_BYTES && required > capacity
    requires required as nat + 2 * stride as nat > MAP_LIMIT as nat
    ensures Next(capacity, required, stride) ==
            if stride > MAP_LIMIT then Stop(Malformed, TooSmallStride) else Stop(Unsupported, SizeLimit)
  {
  }

  // One byte over is enough.
  lemma StrideOverLimit()
    ensures Next(MAP_INITIAL, MAP_INITIAL + 1, MAP_LIMIT + 1) == Stop(Malformed, TooSmallStride)
  {
  }
}
