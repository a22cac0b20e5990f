// The memory map as the firmware lays it out: descriptors with little-endian fields, a
// stride apart (UEFI 2.10 section 7.2.3). What parse_map reports, in terms of the fields.
module MapLayout {
  import opened Machine
  import opened Details
  import opened ByteOrder
  import opened MemoryMap

  const TWO_64: nat := 0x1_0000_0000_0000_0000

  // -------------------------------------------------------------------- the layout

  // One descriptor at `at`: the type, four bytes of padding, then four 64-bit fields.
  predicate Laid(b: seq<uint8>, at: nat, d: Descriptor) {
    && Little(b, at, 4, d.kind as nat)
    && Little(b, at + 8, 8, d.physical as nat)
    && Little(b, at + 16, 8, d.virtual as nat)
    && Little(b, at + 24, 8, d.pages as nat)
    && Little(b, at + 32, 8, d.attributes as nat)
  }

  function Offset(stride: nat, i: nat): nat {
    i * stride
  }

  // All of them, whatever the padding and the bytes beyond the known fields.
  predicate LaidOut(b: seq<uint8>, stride: nat, ds: seq<Descriptor>) {
    forall i :: 0 <= i < |ds| ==> Laid(b, Offset(stride, i), ds[i])
  }

  function FieldBytes(v: nat, n: nat): (s: seq<uint8>)
    ensures |s| == n && Little(s, 0, n, v)
  {
    seq(n, i requires 0 <= i => (v / Pow256(i) % 256) as uint8)
  }

  // What is not a field of a descriptor: the padding and the bytes up to the stride.
  datatype Filler = Filler(pad: seq<uint8>, tail: seq<uint8>)

  function DescriptorBytes(d: Descriptor, f: Filler): seq<uint8> {
    FieldBytes(d.kind as nat, 4) + f.pad + FieldBytes(d.physical as nat, 8) + FieldBytes(d.virtual as nat, 8)
    + FieldBytes(d.pages as nat, 8) + FieldBytes(d.attributes as nat, 8) + f.tail
  }

  function MapBytes(ds: seq<Descriptor>, fs: seq<Filler>): seq<uint8>
    requires |fs| == |ds|
  {
    if ds == [] then [] else DescriptorBytes(ds[0], fs[0]) + MapBytes(ds[1..], fs[1..])
  }

  // A field keeps its place when bytes are put around it.
  lemma LittleAt(b: seq<uint8>, at: nat, field: seq<uint8>, n: nat, v: nat)
    requires |field| == n && Little(field, 0, n, v) && at + n <= |b| && b[at..at + n] == field
    ensures Little(b, at, n, v)
  {
    hide Pow256;
    forall i | 0 <= i < n
      ensures b[at + i] as nat == v / Pow256(i) % 256
    {
      assert b[at + i] == b[at..at + n][i] == field[0 + i];
    }
  }

  lemma DescriptorLaid(d: Descriptor, f: Filler)
    requires |f.pad| == 4
    ensures |DescriptorBytes(d, f)| == 40 + |f.tail| && Laid(DescriptorBytes(d, f), 0, d)
  {
    hide FieldBytes, Little;
    var b := DescriptorBytes(d, f);
    LittleAt(b, 0, FieldBytes(d.kind as nat, 4), 4, d.kind as nat);
    LittleAt(b, 8, FieldBytes(d.physical as nat, 8), 8, d.physical as nat);
    LittleAt(b, 16, FieldBytes(d.virtual as nat, 8), 8, d.virtual as nat);
    LittleAt(b, 24, FieldBytes(d.pages as nat, 8), 8, d.pages as nat);
    LittleAt(b, 32, FieldBytes(d.attributes as nat, 8), 8, d.attributes as nat);
  }

  lemma LaidInside(a: seq<uint8>, b: seq<uint8>, c: seq<uint8>, at: nat, d: Descriptor)
    requires Laid(b, at, d)
    ensures Laid(a + b + c, |a| + at, d)
  {
    hide Pow256;
    var s := a + b + c;
    assert forall i :: 0 <= i < |b| ==> s[|a| + i] == b[i];
    LittleInside(a, b, c, at, 4, d.kind as nat);
    LittleInside(a, b, c, at + 8, 8, d.physical as nat);
    LittleInside(a, b, c, at + 16, 8, d.virtual as nat);
    LittleInside(a, b, c, at + 24, 8, d.pages as nat);
    LittleInside(a, b, c, at + 32, 8, d.attributes as nat);
  }

  lemma LittleInside(a: seq<uint8>, b: seq<uint8>, c: seq<uint8>, at: nat, n: nat, v: nat)
    requires Little(b, at, n, v)
    ensures Little(a + b + c, |a| + at, n, v)
  {
    hide Pow256;
    forall i | 0 <= i < n
      ensures (a + b + c)[|a| + at + i] as nat == v / Pow256(i) % 256
    {
      assert (a + b + c)[|a| + at + i] == b[at + i];
    }
  }

  lemma LaidFirst(head: seq<uint8>, rest: seq<uint8>, ds: seq<Descriptor>, stride: nat)
    requires ds != [] && |head| == stride && Laid(head, 0, ds[0]) && LaidOut(rest, stride, ds[1..])
    ensures LaidOut(head + rest, stride, ds)
  {
    hide Laid, Offset;
    OffsetStep(stride, 0);
    var b := head + rest;
    assert b == [] + head + rest && b == head + rest + [];
    LaidInside([], head, rest, 0, ds[0]);
    forall i | 0 <= i < |ds|
      ensures Laid(b, Offset(stride, i), ds[i])
    {
      if i > 0 {
        OffsetStep(stride, i - 1);
        assert ds[1..][i - 1] == ds[i];
        LaidInside(head, rest, [], Offset(stride, i - 1), ds[i]);
      }
    }
  }

  // Printing puts every field where the layout wants it.
  lemma {:induction false} MapBytesLaidOut(ds: seq<Descriptor>, fs: seq<Filler>, stride: nat)
    requires |fs| == |ds| && forall i :: 0 <= i < |fs| ==> |fs[i].pad| == 4 && 40 + |fs[i].tail| == stride
    ensures |MapBytes(ds, fs)| == Offset(stride, |ds|) && LaidOut(MapBytes(ds, fs), stride, ds)
  {
    OffsetStep(stride, 0);
    hide DescriptorBytes, Laid, Offset;
    if ds != [] {
      DescriptorLaid(ds[0], fs[0]);
      MapBytesLaidOut(ds[1..], fs[1..], stride);
      OffsetStep(stride, |ds| - 1);
      LaidFirst(DescriptorBytes(ds[0], fs[0]), MapBytes(ds[1..], fs[1..]), ds, stride);
    }
  }

  lemma OffsetStep(stride: nat, i: nat)
    ensures Offset(stride, 0) == 0 && Offset(stride, i + 1) == Offset(stride, i) + stride
  {
  }

  // -------------------------------------------------------------------- decoding

  // The layout determines the fields, and any 40 bytes lay out some descriptor.
  lemma DecodeLaid(b: seq<uint8>, at: nat, d: Descriptor)
    requires at + 40 <= |b|
    ensures Decode(b, at) == d <==> Laid(b, at, d)
  {
    LittleWord(b, at, d.kind);
    LittleDoubleWord(b, at + 8, d.physical);
    LittleDoubleWord(b, at + 16, d.virtual);
    LittleDoubleWord(b, at + 24, d.pages);
    LittleDoubleWord(b, at + 32, d.attributes);
    hide Le32, Le64, Little;
  }

  lemma CountOf(stride: nat, n: nat)
    requires stride > 0
    ensures Offset(stride, n) % stride == 0 && Count(Offset(stride, n), stride) == n
  {
    var m := n * stride;
    var q, r := m / stride, m % stride;
    DivisionIs(m, stride);
    if q > n {
      Scaled(n + 1, q, stride);
      OffsetStep(stride, n);
    } else if q < n {
      Scaled(q + 1, n, stride);
      OffsetStep(stride, q);
    }
  }

  lemma DivisionIs(m: nat, stride: nat)
    requires stride > 0
    ensures m == Offset(stride, m / stride) + m % stride
  {
  }

  // -------------------------------------------------------------------- what is reported

  // A region of whole pages from `start` on ends below 2^64.
  predicate Fits(start: uint64, pages: uint64) {
    start as nat + pages as nat * 4096 < TWO_64
  }

  predicate Acceptable(d: Descriptor) {
    && d.pages as nat * 4096 < TWO_64
    && Fits(d.physical, d.pages) && Fits(d.virtual, d.pages)
    && d.physical % 4096 == 0
  }

  // The reason for the first check that a descriptor fails.
  predicate Reason(d: Descriptor, why: Detail) {
    if d.pages as nat * 4096 >= TWO_64 then why == PagesOverflow
    else if !Fits(d.physical, d.pages) || !Fits(d.virtual, d.pages) then why == RangeOverflow
    else d.physical % 4096 != 0 && why == UnalignedPhysical
  }

  predicate FirstBad(ds: seq<Descriptor>, k: nat) {
    k < |ds| && !Acceptable(ds[k]) && forall i :: 0 <= i < k ==> Acceptable(ds[i])
  }

  lemma FaultIs(d: Descriptor)
    ensures Fault(d) == NoDetail <==> Acceptable(d)
    ensures !Acceptable(d) ==> Reason(d, Fault(d))
  {
  }

  lemma DescriptorIs(b: seq<uint8>, stride: nat, ds: seq<Descriptor>, length: nat, i: nat)
    requires LaidOut(b, stride, ds) && length == Offset(stride, |ds|) && Strided(b, length, stride) && i < |ds|
    ensures Count(length, stride) == |ds| && DescriptorAt(b, length, stride, i) == ds[i]
  {
    CountOf(stride, |ds|);
    Inside(length, stride, i);
    DecodeLaid(b, i * stride, ds[i]);
    assert Laid(b, Offset(stride, i), ds[i]);
    hide Decode, Laid;
  }

  // The result that lists the descriptors: their number, and the first twelve field by field.
  predicate Enumerates(r: MapResult, ds: seq<Descriptor>, stride: nat) {
    && r.state == Observed && r.detail == NoDetail
    && r.count as nat == |ds| && r.stride as nat == stride && r.version == 1
    && |r.entries| == (if |ds| < 12 then |ds| else 12)
    && forall i :: 0 <= i < |r.entries| ==>
         && r.entries[i].kind == ds[i].kind && r.entries[i].physical == ds[i].physical
         && r.entries[i].pages == ds[i].pages && r.entries[i].attributes == ds[i].attributes
  }

  // The result that names the first failing check of the first descriptor failing one.
  ghost predicate Blames(r: MapResult, ds: seq<Descriptor>) {
    && r == Failed(Malformed, r.detail)
    && exists k: nat :: FirstBad(ds, k) && Reason(ds[k], r.detail)
  }

  // For every list of descriptors laid out at any stride that fits: the map is observed
  // exactly when all of them are acceptable, and then the first twelve are listed field by
  // field; otherwise the reason is the first failing check of the first one that is not.
  lemma MapMeaning(b: seq<uint8>, capacity: uint64, length: uint64, stride: uint64, ds: seq<Descriptor>)
    requires ds != [] && LaidOut(b, stride as nat, ds) && length as nat == Offset(stride as nat, |ds|)
    requires 40 <= stride && length <= capacity <= 0x4_0000 && capacity as nat <= |b|
    ensures var r := ReadMap(Some(b), capacity, length, stride, 1);
            if forall d :: d in ds ==> Acceptable(d) then Enumerates(r, ds, stride as nat) else Blames(r, ds)
  {
    CountOf(stride as nat, |ds|);
    Scaled(1, |ds|, stride as nat);
    ReadMapReads(Some(b), capacity, length, stride, 1);
    var r := ReadMap(Some(b), capacity, length, stride, 1);
    if r.state == Observed {
      ReadsObserved(b, stride as nat, ds, length as nat, r);
    } else {
      ReadsRefused(b, stride as nat, ds, length as nat, r);
    }
  }

  lemma ReadsObserved(b: seq<uint8>, stride: nat, ds: seq<Descriptor>, length: nat, r: MapResult)
    requires LaidOut(b, stride, ds) && length == Offset(stride, |ds|) && Strided(b, length, stride)
    requires Reads(r, b, length, stride) && r.state == Observed
    ensures (forall d :: d in ds ==> Acceptable(d)) && Enumerates(r, ds, stride)
  {
    CountOf(stride, |ds|);
    forall i | 0 <= i < |ds|
      ensures DescriptorAt(b, length, stride, i) == ds[i] && Acceptable(ds[i])
    {
      DescriptorIs(b, stride, ds, length, i);
      FaultIs(ds[i]);
    }
    hide DescriptorAt, Fault, Acceptable, Offset, LaidOut, Strided, Count;
  }

  lemma ReadsRefused(b: seq<uint8>, stride: nat, ds: seq<Descriptor>, length: nat, r: MapResult)
    requires LaidOut(b, stride, ds) && length == Offset(stride, |ds|) && Strided(b, length, stride)
    requires Reads(r, b, length, stride) && r.state != Observed
    ensures Blames(r, ds) && exists d :: d in ds && !Acceptable(d)
  {
    var k: nat :| FirstFailure(b, length, stride, k, r);
    hide Acceptable, Reason, LaidOut, Offset, FirstFailure, Strided;
    BlamedAt(b, stride, ds, length, k, r);
    assert ds[k] in ds;
  }

  lemma BlamedAt(b: seq<uint8>, stride: nat, ds: seq<Descriptor>, length: nat, k: nat, r: MapResult)
    requires LaidOut(b, stride, ds) && length == Offset(stride, |ds|) && Strided(b, length, stride)
    requires FirstFailure(b, length, stride, k, r)
    ensures FirstBad(ds, k) && Reason(ds[k], r.detail) && r == Failed(Malformed, r.detail)
  {
    CountOf(stride, |ds|);
    assert k < |ds|;
    FaultIs(ds[k]);
    DescriptorIs(b, stride, ds, length, k);
    hide DescriptorAt, Fault, Acceptable, Reason, Offset, LaidOut, Strided, Count;
    forall i | 0 <= i < k
      ensures Acceptable(ds[i])
    {
      DescriptorIs(b, stride, ds, length, i);
      FaultIs(ds[i]);
      assert Fault(DescriptorAt(b, length, stride, i)) == NoDetail;
    }
  }

  // Every byte string of whole strides lays out some list, so this covers all maps.
  lemma AnyMapLaidOut(b: seq<uint8>, stride: nat, n: nat) returns (ds: seq<Descriptor>)
    requires stride >= 40 && Offset(stride, n) <= |b|
    ensures |ds| == n && LaidOut(b, stride, ds)
  {
    var length := Offset(stride, n);
    CountOf(stride, n);
    assert Strided(b, length, stride);
    ds := seq(n, i requires 0 <= i < n => DescriptorAt(b, length, stride, i));
    forall i | 0 <= i < n
      ensures Laid(b, Offset(stride, i), ds[i])
    {
      Inside(length, stride, i);
      DecodeLaid(b, i * stride, ds[i]);
    }
  }

  // Before any descriptor is looked at: each reason, and the inputs it is given for when no
  // earlier one applies.
  lemma MapRefusals(data: Option<seq<uint8>>, capacity: uint64, length: uint64, stride: uint64, version: uint32)
    requires data.Some? ==> capacity as nat <= |data.value|
    ensures var r := ReadMap(data, capacity, length, stride, version);
            var usable := data.Some? && 0 < capacity <= 0x4_0000;
            var fits := usable && length <= capacity;
            var known := fits && version == 1;
            var spaced := known && 40 <= stride <= capacity;
            && (!usable <==> r == Failed(Malformed, BufferDetail))
            && (usable && length > capacity <==> r == Failed(Malformed, SizeExceedsBuffer))
            && (fits && version != 1 <==> r == Failed(Unsupported, DescriptorVersion))
            && (known && !(40 <= stride <= capacity) <==> r == Failed(Malformed, StrideDetail))
            && (spaced && length == 0 <==> r == Failed(Malformed, EmptyMap))
            && (spaced && length != 0 && length % stride != 0 <==> r == Failed(Malformed, PartialDescriptor))
  {
    hide FirstFault, DescriptorAt, Listing;
    if Gate(data.Some?, capacity, length, stride, version).state == Observed {
      FaultNames(data.value, length as nat, stride as nat, 0);
      ListingState(data.value, length as nat, stride as nat);
    }
  }

  lemma ListingState(b: seq<uint8>, length: nat, stride: nat)
    requires Strided(b, length, stride) && stride <= MAP_LIMIT as nat && length <= MAP_LIMIT as nat
    ensures Listing(b, length, stride).state == Observed
  {
  }

  lemma FaultNames(b: seq<uint8>, length: nat, stride: nat, i: nat)
    requires Strided(b, length, stride) && i <= Count(length, stride)
    ensures FirstFault(b, length, stride, i) in {NoDetail, PagesOverflow, RangeOverflow, UnalignedPhysical}
  {
    hide DescriptorAt;
    if FirstFault(b, length, stride, i) != NoDetail {
      var j :| i <= j < Count(length, stride)
               && Fault(DescriptorAt(b, length, stride, j)) == FirstFault(b, length, stride, i);
    }
  }
}
