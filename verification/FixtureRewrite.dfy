// The fixture generator's blob rewrite: one FDT_NOP more in the structure block, and the
// proof that the reader reports the same tree.
module FixtureRewrite {
  import opened Machine
  import opened Details
  import opened Devicetree
  import opened TreeReader
  import opened StructureWalk
  import opened Blob
  import opened BlobTheorems

  // The layout the generator asserts: reservations, structure, strings, in that order.
  predicate Ordered(p: seq<uint8>)
    requires |p| >= HEADER
  {
    OffRsv(p) < OffStruct(p) < OffStrings(p) && SizeStruct(p) + OffStruct(p) <= OffStrings(p)
  }

  // `q` is `p` with a NOP word `cut` bytes into the structure block and the three header
  // words that count it adjusted.
  ghost predicate Rewrites(p: seq<uint8>, q: seq<uint8>, cut: nat) {
    && |p| >= HEADER && HEADER <= OffStruct(p) + cut <= |p|
    && |q| == |p| + 4
    && Total(q) == Total(p) + 4
    && OffStrings(q) == OffStrings(p) + 4
    && SizeStruct(q) == SizeStruct(p) + 4
    && (forall i :: i in {0, 8, 16, 20, 24, 28, 32} ==> Be32(q, i) == Be32(p, i))
    && q[HEADER..] == p[HEADER..OffStruct(p) + cut] + NOP_WORD + p[OffStruct(p) + cut..]
  }

  lemma RewriteSlice(p: seq<uint8>, q: seq<uint8>, cut: nat, lo: nat, hi: nat)
    requires Rewrites(p, q, cut)
    requires HEADER <= lo <= hi <= |p|
    ensures hi <= OffStruct(p) + cut ==> q[..hi][lo..] == p[..hi][lo..]
    ensures OffStruct(p) + cut <= lo ==> q[..hi + 4][lo + 4..] == p[..hi][lo..]
  {
    hide Be32;
    var at := OffStruct(p) + cut;
    assert forall i :: HEADER <= i < at ==> q[i] == q[HEADER..][i - HEADER] == p[i];
    assert forall i :: at <= i < |p| ==> q[i + 4] == q[HEADER..][i + 4 - HEADER] == p[i];
  }

  lemma RewriteBlock(p: seq<uint8>, q: seq<uint8>, cut: nat)
    requires Rewrites(p, q, cut) && cut <= SizeStruct(p)
    requires InBounds(p) && InBounds(q) && Total(p) <= |p| && Total(q) <= |q|
    ensures StructBlock(q) == InsertNop(StructBlock(p), cut)
  {
    hide Be32;
    var off, at, end := OffStruct(p), OffStruct(p) + cut, OffStruct(p) + SizeStruct(p);
    assert OffStruct(q) == off;
    RewriteSlice(p, q, cut, off, at);
    RewriteSlice(p, q, cut, at, end);
    var a, c := q[..at][off..], q[..end + 4][at + 4..];
    assert q[at..at + 4] == NOP_WORD by {
      assert q[at..at + 4] == q[HEADER..][at - HEADER..at + 4 - HEADER];
    }
    assert StructBlock(q) == a + q[at..at + 4] + c;
    assert StructBlock(p)[..cut] == p[..at][off..];
    assert StructBlock(p)[cut..] == p[..end][at..];
  }

  lemma RewriteLayout(p: seq<uint8>, q: seq<uint8>, cut: nat)
    requires Walkable(p) && Rewrites(p, q, cut) && Total(p) + 4 <= DT_LIMIT
    requires Ordered(p) && 0 < SizeStruct(p) && cut <= SizeStruct(p)
    ensures Walkable(q)
    ensures VersionOf(q) == VersionOf(p) && LastCompOf(q) == LastCompOf(p) && InBounds(p) && InBounds(q)
    ensures StringsBlock(q) == StringsBlock(p)
  {
    hide Be32, RsvWalk;
    assert OffStruct(q) == OffStruct(p) && OffRsv(q) == OffRsv(p) && SizeStrings(q) == SizeStrings(p);
    assert VersionOf(q) == VersionOf(p) && LastCompOf(q) == LastCompOf(p);
    RewriteSlice(p, q, cut, OffRsv(p), OffStruct(p));
    RewriteSlice(p, q, cut, OffStrings(p), OffStrings(p) + SizeStrings(p));
    assert RsvLimit(p) == OffStruct(p) == RsvLimit(q);
  }

  // Two blobs that differ by a NOP at a token boundary the reader gets to, wherever their
  // blocks lie: same acceptance and model, or the same refusal.
  lemma NopInvariance(p: seq<uint8>, q: seq<uint8>, before: seq<Token>, cut: nat)
    requires Walkable(p) && Walkable(q) && InBounds(p) && InBounds(q)
    requires VersionOf(q) == VersionOf(p) && LastCompOf(q) == LastCompOf(p)
    requires StringsBlock(q) == StringsBlock(p) && cut <= |StructBlock(p)|
    requires StructBlock(q) == InsertNop(StructBlock(p), cut)
    requires Boundary(StructBlock(p), StringsBlock(p), before, cut) && Feed(START, before).Some?
    ensures Parse(Some(q)) == Parse(Some(p)).(size := Be32(q, 4))
  {
    AlignedWhenWalkable(p);
    NopInsertion(StructBlock(p), StringsBlock(p), START, before, cut);
    ParseWalkable(p);
    ParseWalkable(q);
  }

  // The rewrite puts one in place, in a blob of the generator's block order.
  lemma RewriteInvariance(p: seq<uint8>, q: seq<uint8>, before: seq<Token>, cut: nat)
    requires Walkable(p) && Rewrites(p, q, cut) && Total(p) + 4 <= DT_LIMIT
    requires Ordered(p) && 0 < SizeStruct(p) && InBounds(p)
    requires Boundary(StructBlock(p), StringsBlock(p), before, cut) && Feed(START, before).Some?
    ensures Parse(Some(q)) == Parse(Some(p)).(size := Be32(p, 4) + 4)
  {
    BoundaryInside(StructBlock(p), StringsBlock(p), before, cut);
    AlignedWhenWalkable(p);
    RewriteLayout(p, q, cut);
    RewriteBlock(p, q, cut);
    NopInvariance(p, q, before, cut);
  }

  // The generator's own case: an accepted blob with a NOP before its root is accepted again,
  // with the same model, exactly when it still fits the size limit.
  lemma LeadingNop(p: seq<uint8>, q: seq<uint8>)
    requires Parse(Some(p)).state == Observed && Ordered(p) && Rewrites(p, q, 0)
    ensures Parse(Some(q)) ==
            if Total(p) + 4 <= DT_LIMIT then Parse(Some(p)).(size := Be32(p, 4) + 4)
            else Refused(Unsupported, SizeLimit, 0, VersionOf(p), LastCompOf(p))
    ensures Parse(Some(q)).state == Observed <==> Total(p) + 4 <= DT_LIMIT
  {
    AcceptedIsWalkable(p);
    if Total(p) + 4 <= DT_LIMIT {
      RewriteInvariance(p, q, [], 0);
    } else {
      hide Walk, RsvWalk;
      assert VersionOf(q) == VersionOf(p) && LastCompOf(q) == LastCompOf(p) && Be32(q, 0) == Be32(p, 0);
    }
  }

  lemma AcceptedIsWalkable(p: seq<uint8>)
    requires Parse(Some(p)).state == Observed
    ensures Walkable(p) && InBounds(p) && 0 < SizeStruct(p)
  {
    hide Be32, RsvWalk, Walk;
    if |p| >= HEADER && Walkable(p) {
      AlignedWhenWalkable(p);
      Unfold(StructBlock(p), StringsBlock(p), START);
      Refusals(StructBlock(p), StringsBlock(p), START);
    }
  }

  // -------------------------------------------------------------------- the generator

  // Python's data[lo:hi], which clamps instead of failing.
  function PySlice(s: seq<uint8>, lo: nat, hi: nat): seq<uint8> {
    var h := if hi < |s| then hi else |s|;
    if lo < h then s[lo..h] else []
  }

  // struct.pack(">10I", ...): every word must fit 32 bits.
  predicate Packable(p: seq<uint8>)
    requires |p| >= HEADER
  {
    && Total(p) + 4 < 0x1_0000_0000 && OffStrings(p) + 4 < 0x1_0000_0000 && SizeStruct(p) + 4 < 0x1_0000_0000
  }

  // struct.unpack(">10I", data[:40])
  method Unpack(data: seq<uint8>) returns (words: array<int>)
    requires |data| >= HEADER
    ensures fresh(words) && words.Length == 10
    ensures forall k :: 0 <= k < 10 ==> words[k] == Be32(data, 4 * k) as int
  {
    hide Be32;
    words := new int[10];
    var i := 0;
    while i < 10
      invariant 0 <= i <= 10
      invariant forall k :: 0 <= k < i ==> words[k] == Be32(data, 4 * k) as int
    {
      words[i] := Be32(data, 4 * i) as int;
      i := i + 1;
    }
  }

  // struct.pack(">10I", *words): fails when a word does not fit.
  method Pack(words: seq<int>) returns (header: Option<seq<uint8>>)
    requires |words| == 10 && forall k :: 0 <= k < 10 ==> 0 <= words[k]
    ensures header.Some? <==> forall k :: 0 <= k < 10 ==> words[k] < 0x1_0000_0000
    ensures header.Some? ==> |header.value| == HEADER
    ensures header.Some? ==> forall k :: 0 <= k < 10 ==> Be32(header.value, 4 * k) as int == words[k]
  {
    hide Be32;
    var packed := [];
    var i := 0;
    while i < 10
      invariant 0 <= i <= 10 && |packed| == 4 * i
      invariant forall k :: 0 <= k < i ==> words[k] < 0x1_0000_0000
      invariant forall k :: 0 <= k < i ==> Be32(packed, 4 * k) as int == words[k]
    {
      if words[i] >= 0x1_0000_0000 {
        return None;
      }
      HeaderGrows(packed, words[i] as uint32);
      packed := packed + Word(words[i] as uint32);
      i := i + 1;
    }
    return Some(packed);
  }

  // For an accepted blob of its block order the generator always succeeds.
  lemma AcceptedIsRewritable(p: seq<uint8>)
    requires Parse(Some(p)).state == Observed && |p| >= HEADER && Ordered(p)
    ensures Packable(p) && HEADER <= OffStruct(p) <= |p|
  {
    AcceptedIsWalkable(p);
    hide Be32, RsvWalk, Parse;
  }

  // What the generator does with any bytes; `None` stands for the exceptions: a short header,
  // a failed assertion, a word overflow.
  ghost predicate Generates(data: seq<uint8>, out: Option<seq<uint8>>) {
    && (out.Some? <==> |data| >= HEADER && Ordered(data) && Packable(data))
    && (out.Some? && HEADER <= OffStruct(data) <= |data| ==> Rewrites(data, out.value, 0))
    && (out.Some? && !(HEADER <= OffStruct(data) <= |data|) ==>
        && |out.value| >= HEADER
        && out.value[HEADER..] ==
           PySlice(data, HEADER, OffStruct(data)) + NOP_WORD + PySlice(data, OffStruct(data), |data|))
  }

  // For an accepted blob of its block order the generator always succeeds, and its output is
  // accepted with the same model as long as it fits.
  lemma GeneratorKeepsTree(p: seq<uint8>, out: Option<seq<uint8>>)
    requires Parse(Some(p)).state == Observed && |p| >= HEADER && Ordered(p) && Generates(p, out)
    ensures out.Some?
    ensures Parse(out) ==
            if Total(p) + 4 <= DT_LIMIT then Parse(Some(p)).(size := Be32(p, 4) + 4)
            else Refused(Unsupported, SizeLimit, 0, VersionOf(p), LastCompOf(p))
  {
    hide Parse, Be32, Rewrites;
    AcceptedIsRewritable(p);
    LeadingNop(p, out.value);
  }

  method WithLeadingNop(data: seq<uint8>) returns (out: Option<seq<uint8>>)
    ensures Generates(data, out)
  {
    if |data| < HEADER {
      return None;
    }
    hide Be32, Rewrites;
    var words := Unpack(data);
    var total, offStruct, offStrings, offRsv := words[1], words[2], words[3], words[4];
    if !(offRsv < offStruct < offStrings && words[9] + offStruct <= offStrings) {
      return None;
    }
    words[1] := total + 4;
    words[3] := offStrings + 4;
    words[9] := words[9] + 4;
    var body := PySlice(data, HEADER, offStruct) + [0, 0, 0, 4] + PySlice(data, offStruct, |data|);
    assert words[1] == Total(data) + 4 && words[3] == OffStrings(data) + 4 && words[9] == SizeStruct(data) + 4;
    assert Packable(data) <==> forall k :: 0 <= k < 10 ==> words[k] < 0x1_0000_0000;
    var header := Pack(words[..]);
    if header.None? {
      return None;
    }
    if HEADER <= offStruct <= |data| {
      PackedRewrite(data, header.value, body, words[..]);
    }
    Prepended(header.value, body);
    return Some(header.value + body);
  }

  lemma PackedRewrite(data: seq<uint8>, header: seq<uint8>, body: seq<uint8>, words: seq<int>)
    requires |data| >= HEADER && |header| == HEADER && |words| == 10 && HEADER <= OffStruct(data) <= |data|
    requires forall k :: 0 <= k < 10 ==> Be32(header, 4 * k) as int == words[k]
    requires forall k :: 0 <= k < 10 && k != 1 && k != 3 && k != 9 ==> words[k] == Be32(data, 4 * k) as int
    requires words[1] == Total(data) + 4 && words[3] == OffStrings(data) + 4 && words[9] == SizeStruct(data) + 4
    requires body == data[HEADER..OffStruct(data)] + NOP_WORD + data[OffStruct(data)..]
    ensures Rewrites(data, header + body, 0)
  {
    hide Be32;
    Prepended(header, body);
    var q := header + body;
    forall i | i in {0, 8, 16, 20, 24, 28, 32}
      ensures Be32(q, i) == Be32(data, i)
    {
      var k := i / 4;
      assert i == 4 * k && words[k] == Be32(data, 4 * k) as int;
    }
    assert Be32(q, 4 * 1) as int == words[1] && Be32(q, 4 * 3) as int == words[3] && Be32(q, 4 * 9) as int == words[9];
  }

  lemma HeaderGrows(header: seq<uint8>, w: uint32)
    ensures forall k :: 0 <= k && 4 * k + 4 <= |header| ==> Be32(header + Word(w), 4 * k) == Be32(header, 4 * k)
    ensures Be32(header + Word(w), |header|) == w
  {
    var word := Word(w);
    assert Be32(header + word, |header|) == Be32(word, 0);
  }

  lemma Prepended(header: seq<uint8>, body: seq<uint8>)
    ensures forall k :: 0 <= k && 4 * k + 4 <= |header| ==> Be32(header + body, 4 * k) == Be32(header, 4 * k)
    ensures (header + body)[|header|..] == body
  {
  }
}
