// Why a blob is refused before its structure is walked, in terms of the words in its header
// and the entries of its reservation block; and what is reported of a `model` value.
module BlobRefusals {
  import opened Machine
  import opened Details
  import opened Devicetree
  import opened TreeReader
  import opened StructureWalk
  import opened Blob
  import opened BlobTheorems

  const TWO_64: nat := 0x1_0000_0000_0000_0000

  // -------------------------------------------------------------------- the header

  predicate HasMagic(p: seq<uint8>) {
    |p| >= 40 && Be32(p, 0) == 0xd00d_feed
  }

  // Readable by a version 17 reader.
  predicate Readable(p: seq<uint8>) {
    HasMagic(p) && Be32(p, 20) >= 17 && Be32(p, 24) <= 17 && Be32(p, 24) <= Be32(p, 20)
  }

  predicate SizeOk(p: seq<uint8>) {
    Readable(p) && 40 <= Be32(p, 4) <= 0x10_0000
  }

  predicate Spanned(p: seq<uint8>) {
    SizeOk(p) && Be32(p, 4) as nat <= |p|
  }

  // Offsets of the structure, strings and reservation blocks are words 2, 3 and 4; sizes of
  // the strings and structure blocks are words 8 and 9.
  predicate WordsAligned(p: seq<uint8>) {
    Spanned(p) && Be32(p, 16) % 8 == 0 && Be32(p, 8) % 4 == 0 && Be32(p, 36) % 4 == 0
  }

  predicate WordsInBounds(p: seq<uint8>) {
    && WordsAligned(p)
    && 40 <= Be32(p, 16) <= Be32(p, 4)
    && 40 <= Be32(p, 8) && Be32(p, 8) as nat + Be32(p, 36) as nat <= Be32(p, 4) as nat
    && 40 <= Be32(p, 12) && Be32(p, 12) as nat + Be32(p, 32) as nat <= Be32(p, 4) as nat
  }

  // Each check before the layout, in order: the answer it gives, and the inputs it gives it for.
  lemma HeaderReasons(p: seq<uint8>)
    ensures Parse(None) == Refused(Malformed, NullBlob, 0, 0, 0)
    ensures |p| < 40 <==> Parse(Some(p)) == Refused(Malformed, HeaderTruncated, 0, 0, 0)
    ensures |p| >= 40 && !HasMagic(p) <==> Parse(Some(p)) == Refused(Malformed, Magic, 0, 0, 0)
    ensures HasMagic(p) ==> Parse(Some(p)).version == Be32(p, 20) && Parse(Some(p)).lastComp == Be32(p, 24)
    ensures HasMagic(p) && !Readable(p) <==>
            |p| >= 40 && Parse(Some(p)) == Refused(Unsupported, Version, 0, Be32(p, 20), Be32(p, 24))
    ensures Readable(p) && Be32(p, 4) > 0x10_0000 <==>
            |p| >= 40 && Parse(Some(p)) == Refused(Unsupported, SizeLimit, 0, Be32(p, 20), Be32(p, 24))
    ensures Readable(p) && Be32(p, 4) < 40 <==>
            |p| >= 40 && Parse(Some(p)) == Refused(Malformed, TotalSize, 0, Be32(p, 20), Be32(p, 24))
    ensures SizeOk(p) && !Spanned(p) <==>
            |p| >= 40 && Parse(Some(p)) == Refused(Malformed, TotalSizeExceedsSpan, 0, Be32(p, 20), Be32(p, 24))
    ensures Spanned(p) ==> Parse(Some(p)).size == Be32(p, 4)
  {
    LaterReasons(p);
    hide Be32, Walk, LayoutFault, InBounds;
  }

  // The reasons given from the layout checks on are none of those above.
  lemma LaterReasons(p: seq<uint8>)
    ensures |p| >= HEADER && Total(p) <= |p| ==>
              LayoutFault(p) in {NoDetail, Alignment, BlockBounds, BlockOverlap, RsvmapUnterminated, RsvmapRange}
    ensures |p| >= HEADER && Total(p) <= |p| && InBounds(p) ==>
              var v := Walk(StructBlock(p), StringsBlock(p), START); v.Rejected? ==> v.detail in WALK_REASONS
  {
    if |p| >= HEADER && Total(p) <= |p| && InBounds(p) {
      Refusals(StructBlock(p), StringsBlock(p), START);
    }
    hide Be32, Walk, RsvWalk;
  }

  predicate Disjoint3(p: seq<uint8>)
    requires |p| >= 40
  {
    && Clear1(Be32(p, 16) as nat, Be32(p, 8) as nat, Be32(p, 36) as nat)
    && Clear1(Be32(p, 16) as nat, Be32(p, 12) as nat, Be32(p, 32) as nat)
    && Apart(Be32(p, 8) as nat, Be32(p, 36) as nat, Be32(p, 12) as nat, Be32(p, 32) as nat)
  }

  // The byte at `a` is not one of the block's.
  predicate Clear1(a: nat, b: nat, size: nat) {
    a < b || b + size <= a
  }

  // The layout decides before the structure does.
  lemma LayoutFirst(p: seq<uint8>, d: Detail)
    requires Spanned(p)
    requires d in {Alignment, BlockBounds, BlockOverlap, RsvmapUnterminated, RsvmapRange}
    ensures LayoutFault(p) == d <==> Parse(Some(p)) == Refused(Malformed, d, Be32(p, 4), Be32(p, 20), Be32(p, 24))
  {
    hide Be32, Walk, LayoutFault, Parse;
    assert VersionOk(p);
    if LayoutFault(p) == NoDetail {
      assert Walkable(p);
      ParseWalkable(p);
      LaterReasons(p);
    } else {
      LayoutRefusal(p);
    }
  }

  // Each layout check, in order. Size and versions are reported with it.
  lemma LayoutReasons(p: seq<uint8>)
    requires Spanned(p)
    ensures !WordsAligned(p) <==>
            Parse(Some(p)) == Refused(Malformed, Alignment, Be32(p, 4), Be32(p, 20), Be32(p, 24))
    ensures WordsAligned(p) && !WordsInBounds(p) <==>
            Parse(Some(p)) == Refused(Malformed, BlockBounds, Be32(p, 4), Be32(p, 20), Be32(p, 24))
    ensures WordsInBounds(p) && !Disjoint3(p) <==>
            Parse(Some(p)) == Refused(Malformed, BlockOverlap, Be32(p, 4), Be32(p, 20), Be32(p, 24))
  {
    LayoutFirst(p, Alignment);
    LayoutFirst(p, BlockBounds);
    LayoutFirst(p, BlockOverlap);
    LayoutNames(p);
    WordsMean(p);
    hide *;
  }

  lemma WordsMean(p: seq<uint8>)
    requires Spanned(p)
    ensures |p| >= HEADER && Total(p) <= |p|
    ensures WordsAligned(p) <==> Aligned(p)
    ensures WordsInBounds(p) <==> Aligned(p) && InBounds(p)
    ensures Disjoint3(p) <==> !Overlapping(p)
  {
    hide Be32;
  }

  lemma LayoutNames(p: seq<uint8>)
    requires |p| >= HEADER && Total(p) <= |p|
    ensures if !Aligned(p) then LayoutFault(p) == Alignment
            else if !InBounds(p) then LayoutFault(p) == BlockBounds
            else if Overlapping(p) then LayoutFault(p) == BlockOverlap
            else LayoutFault(p) in {NoDetail, RsvmapUnterminated, RsvmapRange}
  {
    hide Be32, RsvWalk;
  }

  // The firmware entry: what it answers by itself, and when it hands the blob on.
  lemma FirmwareReasons(p: seq<uint8>)
    requires |p| >= 8
    requires Be32(p, 0) == FDT_MAGIC && HEADER <= Be32(p, 4) as nat <= DT_LIMIT ==> Be32(p, 4) as nat <= |p|
    ensures ParseFirmware(None) == Refused(Malformed, NullBlob, 0, 0, 0)
    ensures Be32(p, 0) != 0xd00d_feed <==> ParseFirmware(Some(p)) == Refused(Malformed, Magic, 0, 0, 0)
    ensures Be32(p, 0) == 0xd00d_feed && Be32(p, 4) > 0x10_0000 <==>
            ParseFirmware(Some(p)) == Refused(Unsupported, SizeLimit, 0, 0, 0)
    ensures Be32(p, 0) == 0xd00d_feed && Be32(p, 4) < 40 <==>
            ParseFirmware(Some(p)) == Refused(Malformed, TotalSize, 0, 0, 0)
    ensures Be32(p, 0) == 0xd00d_feed && 40 <= Be32(p, 4) <= 0x10_0000 ==>
            ParseFirmware(Some(p)) == Parse(Some(p[..Be32(p, 4)]))
  {
    if Be32(p, 0) == 0xd00d_feed && 40 <= Be32(p, 4) <= 0x10_0000 {
      var q := p[..Be32(p, 4)];
      SameWord(p, q, |q|, 0);
      SameWord(p, q, |q|, 4);
      HeaderReasons(q);
    }
    hide Be32, Parse;
  }

  // -------------------------------------------------------------------- the reservations

  // Entry `k` of the block is there, is not the terminator, and ends below 2^64.
  predicate GoodEntry(s: seq<uint8>, k: nat) {
    && 16 * k + 16 <= |s|
    && !(Be64(s, 16 * k) == 0 && Be64(s, 16 * k + 8) == 0)
    && Be64(s, 16 * k) as nat + Be64(s, 16 * k + 8) as nat < TWO_64
  }

  predicate Overflowing(s: seq<uint8>, k: nat) {
    16 * k + 16 <= |s| && Be64(s, 16 * k) as nat + Be64(s, 16 * k + 8) as nat >= TWO_64
  }

  ghost predicate FirstOverflow(s: seq<uint8>, k: nat) {
    Overflowing(s, k) && forall i: nat :: i < k ==> GoodEntry(s, i)
  }

  ghost predicate AllGood(s: seq<uint8>) {
    forall k: nat :: 16 * k + 16 <= |s| ==> GoodEntry(s, k)
  }

  ghost predicate Overflows(s: seq<uint8>) {
    exists k: nat :: FirstOverflow(s, k)
  }

  lemma EntryShift(s: seq<uint8>, k: nat)
    requires |s| >= 16
    ensures GoodEntry(s, k + 1) <==> GoodEntry(s[16..], k)
    ensures Overflowing(s, k + 1) <==> Overflowing(s[16..], k)
  {
    if 16 * k + 32 <= |s| {
      assert Be64(s, 16 * (k + 1)) == Be64(s[16..], 16 * k);
      assert Be64(s, 16 * (k + 1) + 8) == Be64(s[16..], 16 * k + 8);
    }
    hide Be64;
  }

  lemma AllGoodStep(s: seq<uint8>)
    requires |s| >= 16
    ensures AllGood(s) <==> GoodEntry(s, 0) && AllGood(s[16..])
  {
    hide GoodEntry;
    if AllGood(s) {
      assert 16 * 0 + 16 <= |s| ==> GoodEntry(s, 0);
      forall k: nat | 16 * k + 16 <= |s[16..]|
        ensures GoodEntry(s[16..], k)
      {
        EntryShift(s, k);
      }
    }
    if GoodEntry(s, 0) && AllGood(s[16..]) {
      forall k: nat | 16 * k + 16 <= |s|
        ensures GoodEntry(s, k)
      {
        if k > 0 {
          EntryShift(s, k - 1);
        }
      }
    }
  }

  lemma FirstOverflowStep(s: seq<uint8>, k: nat)
    requires |s| >= 16
    ensures FirstOverflow(s, 0) <==> Overflowing(s, 0)
    ensures FirstOverflow(s, k + 1) <==> GoodEntry(s, 0) && FirstOverflow(s[16..], k)
  {
    hide GoodEntry, Overflowing;
    EntryShift(s, k);
    if FirstOverflow(s, k + 1) {
      forall i: nat | i < k
        ensures GoodEntry(s[16..], i)
      {
        EntryShift(s, i);
      }
    }
    if GoodEntry(s, 0) && FirstOverflow(s[16..], k) {
      forall i: nat | i < k + 1
        ensures GoodEntry(s, i)
      {
        if i > 0 {
          EntryShift(s, i - 1);
        }
      }
    }
  }

  lemma OverflowsStep(s: seq<uint8>)
    requires |s| >= 16
    ensures Overflows(s) <==> Overflowing(s, 0) || (GoodEntry(s, 0) && Overflows(s[16..]))
  {
    hide GoodEntry, Overflowing, FirstOverflow;
    if Overflows(s) {
      var k: nat :| FirstOverflow(s, k);
      FirstOverflowStep(s, if k == 0 then 0 else k - 1);
    }
    if GoodEntry(s, 0) && Overflows(s[16..]) {
      var k: nat :| FirstOverflow(s[16..], k);
      FirstOverflowStep(s, k);
    }
    if Overflowing(s, 0) {
      FirstOverflowStep(s, 0);
    }
  }

  // Unterminated when every entry before the limit is a good one, out of range when the
  // first that is not good overflows.
  lemma {:induction false} ReservationReasons(s: seq<uint8>)
    ensures RsvWalk(s) == RsvRejected(RsvmapUnterminated) <==> AllGood(s)
    ensures RsvWalk(s) == RsvRejected(RsvmapRange) <==> Overflows(s)
    decreases |s|
  {
    hide Be64, AllGood, Overflows;
    if |s| >= 16 {
      ReservationReasons(s[16..]);
      AllGoodStep(s);
      OverflowsStep(s);
    } else {
      ShortBlock(s);
    }
  }

  lemma ShortBlock(s: seq<uint8>)
    requires |s| < 16
    ensures AllGood(s) && !Overflows(s)
  {
  }

  // The refusals for the reservation block, which is read up to the next block that holds
  // anything or the end of the blob.
  lemma ReservationRefusals(p: seq<uint8>)
    requires Spanned(p) && WordsInBounds(p) && Disjoint3(p)
    ensures InBounds(p) && OffRsv(p) <= RsvLimit(p) <= |p|
    ensures var entries := p[..RsvLimit(p)][OffRsv(p)..];
            var size, v, l := Be32(p, 4), Be32(p, 20), Be32(p, 24);
            && (AllGood(entries) <==> Parse(Some(p)) == Refused(Malformed, RsvmapUnterminated, size, v, l))
            && (Overflows(entries) <==> Parse(Some(p)) == Refused(Malformed, RsvmapRange, size, v, l))
  {
    WordsMean(p);
    LimitInBounds(p);
    ReservationReasons(p[..RsvLimit(p)][OffRsv(p)..]);
    LayoutFirst(p, RsvmapUnterminated);
    LayoutFirst(p, RsvmapRange);
    hide Be32, Parse, RsvWalk, RsvLimit, AllGood, Overflows, Aligned, InBounds, Overlapping, Spanned, WordsInBounds;
  }

  // -------------------------------------------------------------------- the model value

  // A value without a final NUL is malformed; one with a NUL or a byte above 0x7f before it
  // is unsupported; any other is reported, cut off after 64 bytes.
  lemma ModelStates(v: seq<uint8>)
    ensures var m := ClassifyOne(v);
            var odd := exists i :: 0 <= i < |v| - 1 && (v[i] == 0 || v[i] >= 0x80);
            && (m.state == Malformed <==> !TextEnd(v))
            && (m.state == Unsupported <==> TextEnd(v) && odd)
            && (m.state == Observed <==> TextEnd(v) && !odd && |v| <= 65)
            && (m.state == Truncated <==> TextEnd(v) && !odd && |v| > 65)
            && (!TextEnd(v) || odd ==> m.length == 0 && m.text == [])
            && (TextEnd(v) && !odd ==> m.length == |v| - 1 && m.text == v[..if |v| <= 65 then |v| - 1 else 64])
  {
    if TextEnd(v) {
      var body := v[..|v| - 1];
      assert forall i :: 0 <= i < |body| ==> body[i] in body && body[i] == v[i];
    }
  }

  // The one `model` value of a valid blob decides what is reported of it.
  lemma ModelReported(p: seq<uint8>, es: seq<Reservation>, root: Node, i: nat)
    requires Valid(p, es, root) && i < |root.props| && root.props[i].name == MODEL_NAME
    requires forall j :: 0 <= j < |root.props| && j != i ==> root.props[j].name != MODEL_NAME
    ensures var v := root.props[i].value;
            var m := Parse(Some(p)).model;
            var odd := exists i :: 0 <= i < |v| - 1 && (v[i] == 0 || v[i] >= 0x80);
            && (m.state == Malformed <==> !TextEnd(v))
            && (m.state == Unsupported <==> TextEnd(v) && odd)
            && (m.state == Observed <==> TextEnd(v) && !odd && |v| <= 65)
            && (m.state == Truncated <==> TextEnd(v) && !odd && |v| > 65)
            && (TextEnd(v) && !odd ==> m.length == |v| - 1 && m.text == v[..if |v| <= 65 then |v| - 1 else 64])
  {
    hide Parse, Valid, ModelOf, ClassifyOne;
    ValidIsObserved(p, es, root);
    ModelMeaning(root);
    ModelStates(root.props[i].value);
  }
}
