// A flattened devicetree blob: header, reservation block, structure block, strings block
// (sections 5.2 to 5.5 of the Devicetree Specification), what a valid one is, and the
// result the probe reports for any byte string.
module Blob {
  import opened Machine
  import opened Details
  import opened Devicetree
  import opened TreeReader
  import opened StructureWalk

  const HEADER := 40
  const DT_LIMIT := 0x10_0000
  const MODEL_LIMIT := 64
  const FDT_MAGIC: uint32 := 0xd00d_feed

  // -------------------------------------------------------------------- header fields

  function Total(p: seq<uint8>): nat requires |p| >= HEADER { Be32(p, 4) as nat }
  function OffStruct(p: seq<uint8>): nat requires |p| >= HEADER { Be32(p, 8) as nat }
  function OffStrings(p: seq<uint8>): nat requires |p| >= HEADER { Be32(p, 12) as nat }
  function OffRsv(p: seq<uint8>): nat requires |p| >= HEADER { Be32(p, 16) as nat }
  function VersionOf(p: seq<uint8>): uint32 requires |p| >= HEADER { Be32(p, 20) }
  function LastCompOf(p: seq<uint8>): uint32 requires |p| >= HEADER { Be32(p, 24) }
  function SizeStrings(p: seq<uint8>): nat requires |p| >= HEADER { Be32(p, 32) as nat }
  function SizeStruct(p: seq<uint8>): nat requires |p| >= HEADER { Be32(p, 36) as nat }

  predicate VersionOk(p: seq<uint8>)
    requires |p| >= HEADER
  {
    VersionOf(p) >= 17 && LastCompOf(p) <= 17 && LastCompOf(p) <= VersionOf(p)
  }

  predicate Aligned(p: seq<uint8>)
    requires |p| >= HEADER
  {
    OffRsv(p) % 8 == 0 && OffStruct(p) % 4 == 0 && SizeStruct(p) % 4 == 0
  }

  predicate InBounds(p: seq<uint8>)
    requires |p| >= HEADER
  {
    && HEADER <= OffRsv(p) <= Total(p)
    && HEADER <= OffStruct(p) && OffStruct(p) + SizeStruct(p) <= Total(p)
    && HEADER <= OffStrings(p) && OffStrings(p) + SizeStrings(p) <= Total(p)
  }

  // Extents [a, a+al) and [b, b+bl), with an empty one still placed at its offset.
  predicate Apart(a: nat, al: nat, b: nat, bl: nat) {
    a + al <= b || b + bl <= a
  }

  function StructBlock(p: seq<uint8>): seq<uint8>
    requires |p| >= HEADER && InBounds(p) && Total(p) <= |p|
  {
    p[..OffStruct(p) + SizeStruct(p)][OffStruct(p)..]
  }

  function StringsBlock(p: seq<uint8>): seq<uint8>
    requires |p| >= HEADER && InBounds(p) && Total(p) <= |p|
  {
    p[..OffStrings(p) + SizeStrings(p)][OffStrings(p)..]
  }

  // -------------------------------------------------------------------- reservation block

  datatype Reservation = Reservation(address: uint64, size: uint64)

  // An entry is not the terminator and its exclusive end is representable.
  predicate Reservable(e: Reservation) {
    && !(e.address == 0 && e.size == 0)
    && e.address as nat + e.size as nat <= UINT64_MAX as nat
  }

  // `s` starts with exactly these entries and the all-zero terminator.
  ghost predicate Lists(s: seq<uint8>, es: seq<Reservation>)
    decreases |es|
  {
    && |s| >= 16
    && if es == [] then Be64(s, 0) == 0 && Be64(s, 8) == 0
       else
         && Reservable(es[0])
         && Be64(s, 0) == es[0].address && Be64(s, 8) == es[0].size
         && Lists(s[16..], es[1..])
  }

  function Extent(es: seq<Reservation>): nat {
    16 * |es| + 16
  }

  datatype RsvVerdict = RsvRejected(detail: Detail) | RsvAccepted(entries: seq<Reservation>)

  function RsvWalk(s: seq<uint8>): (r: RsvVerdict)
    ensures r.RsvRejected? ==> r.detail == RsvmapUnterminated || r.detail == RsvmapRange
    decreases |s|
  {
    if |s| < 16 then RsvRejected(RsvmapUnterminated)
    else
      var e := Reservation(Be64(s, 0), Be64(s, 8));
      if e.address == 0 && e.size == 0 then RsvAccepted([])
      else if !Reservable(e) then RsvRejected(RsvmapRange)
      else
        match RsvWalk(s[16..])
        case RsvRejected(d) => RsvRejected(d)
        case RsvAccepted(es) => RsvAccepted([e] + es)
  }

  // The reservation block must end before the next non-empty block that follows it.
  function RsvLimit(p: seq<uint8>): nat
    requires |p| >= HEADER
  {
    var l := Total(p);
    var l := if SizeStruct(p) != 0 && OffStruct(p) > OffRsv(p) && OffStruct(p) < l then OffStruct(p) else l;
    if SizeStrings(p) != 0 && OffStrings(p) > OffRsv(p) && OffStrings(p) < l then OffStrings(p) else l
  }

  predicate Overlapping(p: seq<uint8>)
    requires |p| >= HEADER
  {
    || !Apart(OffRsv(p), 1, OffStruct(p), SizeStruct(p))
    || !Apart(OffRsv(p), 1, OffStrings(p), SizeStrings(p))
    || !Apart(OffStruct(p), SizeStruct(p), OffStrings(p), SizeStrings(p))
  }

  // -------------------------------------------------------------------- the reported model

  // `text` is the reported prefix, `length` the true length without the NUL.
  datatype Model = Model(state: State, length: nat, text: seq<uint8>)

  const NO_MODEL := Model(NotProbed, 0, [])
  const MODEL_NAME: seq<uint8> := [0x6d, 0x6f, 0x64, 0x65, 0x6c]

  function ModelValues(ps: seq<Property>): seq<seq<uint8>> {
    if ps == [] then []
    else (if ps[0].name == MODEL_NAME then [ps[0].value] else []) + ModelValues(ps[1..])
  }

  predicate Ascii(s: seq<uint8>) {
    forall c :: c in s ==> 0 < c < 0x80
  }

  function ClassifyOne(v: seq<uint8>): Model {
    if v == [] || v[|v| - 1] != 0 then Model(Malformed, 0, [])
    else
      var body := v[..|v| - 1];
      if !Ascii(body) then Model(Unsupported, 0, [])
      else if |body| > MODEL_LIMIT then Model(Truncated, |body|, body[..MODEL_LIMIT])
      else Model(Observed, |body|, body)
  }

  function Classify(vs: seq<seq<uint8>>): Model {
    if |vs| == 0 then Model(Unavailable, 0, [])
    else if |vs| == 1 then ClassifyOne(vs[0])
    else Model(Malformed, 0, [])
  }

  function ModelOf(root: Node): Model {
    Classify(ModelValues(root.props))
  }

  // -------------------------------------------------------------------- the result for any bytes

  datatype DtResult = DtResult(state: State, detail: Detail, size: uint32, version: uint32, lastComp: uint32,
                               model: Model)

  function Refused(state: State, detail: Detail, size: uint32, version: uint32, lastComp: uint32): DtResult {
    DtResult(state, detail, size, version, lastComp, NO_MODEL)
  }

  function LayoutFault(p: seq<uint8>): Detail
    requires |p| >= HEADER && Total(p) <= |p|
  {
    if !Aligned(p) then Alignment
    else if !InBounds(p) then BlockBounds
    else if Overlapping(p) then BlockOverlap
    else
      match RsvWalk(p[..RsvLimit(p)][OffRsv(p)..])
      case RsvRejected(d) => d
      case RsvAccepted(_) => NoDetail
  }

  function Parse(data: Option<seq<uint8>>): DtResult {
    match data
    case None => Refused(Malformed, NullBlob, 0, 0, 0)
    case Some(p) =>
      if |p| < HEADER then Refused(Malformed, HeaderTruncated, 0, 0, 0)
      else if Be32(p, 0) != FDT_MAGIC then Refused(Malformed, Magic, 0, 0, 0)
      else
        var v, l := VersionOf(p), LastCompOf(p);
        if !VersionOk(p) then Refused(Unsupported, Version, 0, v, l)
        else if Total(p) > DT_LIMIT then Refused(Unsupported, SizeLimit, 0, v, l)
        else if Total(p) < HEADER then Refused(Malformed, TotalSize, 0, v, l)
        else if Total(p) > |p| then Refused(Malformed, TotalSizeExceedsSpan, 0, v, l)
        else if LayoutFault(p) != NoDetail then Refused(Malformed, LayoutFault(p), Be32(p, 4), v, l)
        else
          match Walk(StructBlock(p), StringsBlock(p), START)
          case Rejected(s, d) => Refused(s, d, Be32(p, 4), v, l)
          case Accepted(root) => DtResult(Observed, NoDetail, Be32(p, 4), v, l, ModelOf(root))
  }

  // The firmware entry: no length is supplied, so only magic and totalsize are looked at
  // before the declared length is trusted.
  function ParseFirmware(data: Option<seq<uint8>>): DtResult
    requires data.Some? ==> |data.value| >= 8
    requires data.Some? && Be32(data.value, 0) == FDT_MAGIC && HEADER <= Be32(data.value, 4) as nat <= DT_LIMIT ==>
               Be32(data.value, 4) as nat <= |data.value|
  {
    match data
    case None => Refused(Malformed, NullBlob, 0, 0, 0)
    case Some(p) =>
      var total := Be32(p, 4) as nat;
      if Be32(p, 0) != FDT_MAGIC then Refused(Malformed, Magic, 0, 0, 0)
      else if total > DT_LIMIT then Refused(Unsupported, SizeLimit, 0, 0, 0)
      else if total < HEADER then Refused(Malformed, TotalSize, 0, 0, 0)
      else Parse(Some(p[..total]))
  }

  // -------------------------------------------------------------------- validity, independently

  // The reservation block keeps clear of a block that holds anything.
  predicate Clear(a: nat, al: nat, b: nat, bl: nat) {
    bl == 0 || Apart(a, al, b, bl)
  }

  ghost predicate Valid(p: seq<uint8>, es: seq<Reservation>, root: Node) {
    && |p| >= HEADER
    && Be32(p, 0) == FDT_MAGIC
    && VersionOk(p)
    && HEADER <= Total(p) <= DT_LIMIT && Total(p) <= |p|
    && Aligned(p)
    && InBounds(p)
    && Apart(OffStruct(p), SizeStruct(p), OffStrings(p), SizeStrings(p))
    && Lists(p[OffRsv(p)..], es)
    && OffRsv(p) + Extent(es) <= Total(p)
    && Clear(OffRsv(p), Extent(es), OffStruct(p), SizeStruct(p))
    && Clear(OffRsv(p), Extent(es), OffStrings(p), SizeStrings(p))
    && Encodes(StructBlock(p), StringsBlock(p), root)
  }
}
