// Writing a tree out in the layout of the test builder: header, reservation block at 40,
// structure block, strings block. Reading it back gives the tree.
module BlobPrinter {
  import opened Machine
  import opened Details
  import opened Devicetree
  import opened Blob
  import opened BlobTheorems

  function Word32(n: nat): (b: seq<uint8>)
    ensures |b| == 4 && (n < 0x1_0000_0000 ==> Be32(b, 0) as nat == n)
  {
    Word((n % 0x1_0000_0000) as uint32)
  }

  function Zeros(n: nat): seq<uint8> {
    seq(n, _ => 0)
  }

  // `off` is where the next property name goes in the strings block.
  function EncodeToken(t: Token, off: nat): seq<uint8> {
    match t
    case BeginNode(name) => Word32(1) + (name + Zeros(Pad4(|name| + 1) - |name|))
    case EndNode => Word32(2)
    case Prop(p) => Word32(3) + (Word32(|p.value|) + (Word32(off) + (p.value + Zeros(Pad4(|p.value|) - |p.value|))))
    case Nop => Word32(4)
  }

  function NameEntry(t: Token): seq<uint8> {
    if t.Prop? then t.property.name + [0] else []
  }

  function Names(toks: seq<Token>): seq<uint8> {
    if toks == [] then [] else NameEntry(toks[0]) + Names(toks[1..])
  }

  function EncodeTokens(toks: seq<Token>, off: nat): seq<uint8> {
    if toks == [] then Word32(9)
    else EncodeToken(toks[0], off) + EncodeTokens(toks[1..], off + |NameEntry(toks[0])|)
  }

  predicate NulFree(t: Token) {
    match t
    case BeginNode(name) => 0 !in name
    case Prop(p) => 0 !in p.name
    case EndNode => true
    case Nop => true
  }

  // -------------------------------------------------------------------- the structure block

  lemma BeginSpelled(name: seq<uint8>, rest: seq<uint8>, strings: seq<uint8>, off: nat)
    requires 0 !in name
    ensures Spells(EncodeToken(BeginNode(name), off) + rest, BeginNode(name), strings)
    ensures |EncodeToken(BeginNode(name), off)| == Size(BeginNode(name))
  {
    hide Be32, Word32, Word, StartsWithName, Pad4;
    var pad := Zeros(Pad4(|name| + 1) - |name|);
    var s := EncodeToken(BeginNode(name), off) + rest;
    Assoc(Word32(1), name + pad, rest);
    Assoc(name, pad, rest);
    WordHead(1, name + (pad + rest));
    assert (pad + rest)[0] == 0;
    NameAtHead(name, pad + rest);
  }

  lemma NameAtHead(name: seq<uint8>, tail: seq<uint8>)
    requires 0 !in name && tail != [] && tail[0] == 0
    ensures StartsWithName(name + tail, name)
  {
  }

  // A word in front of some bytes is read back, and the bytes keep their words.
  lemma WordHead(n: nat, rest: seq<uint8>)
    requires n < 0x1_0000_0000
    ensures var s := Word32(n) + rest;
            && |s| == 4 + |rest| && Be32(s, 0) as nat == n && s[4..] == rest
            && (forall i :: 0 <= i && i + 4 <= |rest| ==> Be32(s, 4 + i) == Be32(rest, i))
  {
    hide Word32;
    var s := Word32(n) + rest;
    assert Be32(s, 0) == Be32(Word32(n), 0);
  }

  lemma PropSpelled(p: Property, rest: seq<uint8>, before: seq<uint8>, after: seq<uint8>)
    requires 0 !in p.name && |EncodeToken(Prop(p), |before|)| < 0x1_0000_0000 && |before| < 0x1_0000_0000
    ensures Spells(EncodeToken(Prop(p), |before|) + rest, Prop(p), before + (p.name + [0]) + after)
    ensures |EncodeToken(Prop(p), |before|)| == Size(Prop(p))
  {
    hide Be32, Word32, Word, StartsWithName, Pad4;
    var pad := Zeros(Pad4(|p.value|) - |p.value|);
    var a, b, c := Word32(3), Word32(|p.value|), Word32(|before|);
    Assoc(a, b + (c + (p.value + pad)), rest);
    Assoc(b, c + (p.value + pad), rest);
    Assoc(c, p.value + pad, rest);
    Assoc(p.value, pad, rest);
    PropWords(p.value, |before|, pad + rest);
    NameInside(p.name, before, after);
  }

  lemma PropWords(value: seq<uint8>, off: nat, tail: seq<uint8>)
    requires |value| < 0x1_0000_0000 && off < 0x1_0000_0000
    ensures var s := Word32(3) + (Word32(|value|) + (Word32(off) + (value + tail)));
            && |s| == 12 + |value| + |tail|
            && Be32(s, 0) == 3 && Be32(s, 4) as nat == |value| && Be32(s, 8) as nat == off
            && s[12..][..|value|] == value
  {
    hide Be32, Word32, Word;
    var r3 := value + tail;
    var r2 := Word32(off) + r3;
    var r1 := Word32(|value|) + r2;
    WordHead(off, r3);
    WordHead(|value|, r2);
    WordHead(3, r1);
    var s := Word32(3) + r1;
    assert Be32(s, 4 + 0) == Be32(r1, 0) && Be32(s, 4 + 4) == Be32(r1, 4 + 0) == Be32(r2, 0);
    assert s[12..] == s[4..][4..][4..] == r3;
  }

  lemma NameInside(name: seq<uint8>, before: seq<uint8>, after: seq<uint8>)
    requires 0 !in name
    ensures var strings := before + (name + [0]) + after;
            |before| < |strings| && StartsWithName(strings[|before|..], name)
  {
    var strings := before + (name + [0]) + after;
    assert strings[|before|..] == name + ([0] + after);
  }

  // A word written between two stretches of bytes is read back in place.
  lemma WordInside(a: seq<uint8>, n: nat, b: seq<uint8>, s: seq<uint8>)
    requires s == a + Word32(n) + b && n < 0x1_0000_0000
    ensures Be32(s, |a|) as nat == n
  {
    hide Word32;
    assert Be32(s, |a|) == Be32(Word32(n), 0);
  }

  lemma DoubleWordInside(a: seq<uint8>, n: uint64, b: seq<uint8>, s: seq<uint8>)
    requires s == a + DoubleWord(n) + b
    ensures Be64(s, |a|) == n
  {
    hide DoubleWord;
    assert Be64(s, |a|) == Be64(DoubleWord(n), 0);
  }

  lemma {:induction false} TokensSpelled(toks: seq<Token>, before: seq<uint8>, strings: seq<uint8>)
    requires forall t :: t in toks ==> NulFree(t)
    requires strings == before + Names(toks) && |strings| < 0x1_0000_0000
    requires |EncodeTokens(toks, |before|)| < 0x1_0000_0000
    ensures Serialises(EncodeTokens(toks, |before|), toks, strings)
    ensures |EncodeTokens(toks, |before|)| % 4 == 0
    decreases |toks|
  {
    hide Spells, Be32, Word32, EncodeToken, Size, Word, NulFree;
    if toks == [] {
      assert EncodeTokens(toks, |before|) == Word32(9);
      WordInside([], 9, [], Word32(9));
    } else {
      var t, entry := toks[0], NameEntry(toks[0]);
      var rest := EncodeTokens(toks[1..], |before| + |entry|);
      var s := EncodeToken(t, |before|) + rest;
      assert t in toks && NulFree(t);
      Assoc(before, entry, Names(toks[1..]));
      TokenSpelled(t, rest, before, Names(toks[1..]));
      assert s[Size(t)..] == rest;
      TokensSpelled(toks[1..], before + entry, strings);
    }
  }

  // One token, its name (if any) sitting after `before` in the strings block.
  lemma TokenSpelled(t: Token, rest: seq<uint8>, before: seq<uint8>, after: seq<uint8>)
    requires NulFree(t) && |EncodeToken(t, |before|)| < 0x1_0000_0000 && |before| < 0x1_0000_0000
    ensures Spells(EncodeToken(t, |before|) + rest, t, before + NameEntry(t) + after)
    ensures |EncodeToken(t, |before|)| == Size(t)
  {
    hide Spells, Be32, Word32, EncodeToken, Size, Word;
    var strings := before + NameEntry(t) + after;
    match t
    case BeginNode(name) => BeginSpelled(name, rest, strings, |before|);
    case Prop(p) => PropSpelled(p, rest, before, after);
    case EndNode => BareSpelled(t, |before|, rest, strings);
    case Nop => BareSpelled(t, |before|, rest, strings);
  }

  lemma BareSpelled(t: Token, off: nat, rest: seq<uint8>, strings: seq<uint8>)
    requires t.EndNode? || t.Nop?
    ensures Spells(EncodeToken(t, off) + rest, t, strings) && |EncodeToken(t, off)| == Size(t)
  {
    assert Be32(EncodeToken(t, off) + rest, 0) == Be32(EncodeToken(t, off), 0);
  }

  // -------------------------------------------------------------------- the reservation block

  function RsvBytes(es: seq<Reservation>): seq<uint8> {
    if es == [] then Zeros(16)
    else DoubleWord(es[0].address) + DoubleWord(es[0].size) + RsvBytes(es[1..])
  }

  lemma ZeroWords(s: seq<uint8>)
    requires |s| >= 16 && forall i :: 0 <= i < 16 ==> s[i] == 0
    ensures Be64(s, 0) == 0 && Be64(s, 8) == 0
  {
  }

  lemma {:induction false} RsvListed(es: seq<Reservation>, tail: seq<uint8>)
    requires forall e :: e in es ==> Reservable(e)
    ensures |RsvBytes(es)| == Extent(es)
    ensures Lists(RsvBytes(es) + tail, es)
  {
    hide DoubleWord, Be32;
    var s := RsvBytes(es) + tail;
    if es == [] {
      ZeroWords(s);
    } else {
      var a, z := DoubleWord(es[0].address), DoubleWord(es[0].size);
      RsvListed(es[1..], tail);
      assert s == a + z + (RsvBytes(es[1..]) + tail);
      DoubleWordInside([], es[0].address, z + (RsvBytes(es[1..]) + tail), s);
      DoubleWordInside(a, es[0].size, RsvBytes(es[1..]) + tail, s);
      assert s[16..] == RsvBytes(es[1..]) + tail;
    }
  }

  // -------------------------------------------------------------------- the blob

  function Header(total: nat, offStruct: nat, offStrings: nat, sizeStrings: nat, sizeStruct: nat): seq<uint8> {
    Word32(0xd00d_feed) + Word32(total) + Word32(offStruct) + Word32(offStrings) + Word32(HEADER)
    + Word32(17) + Word32(16) + Word32(0) + Word32(sizeStrings) + Word32(sizeStruct)
  }

  function Build(es: seq<Reservation>, toks: seq<Token>): seq<uint8> {
    var rsv, block, strings := RsvBytes(es), EncodeTokens(toks, 0), Names(toks);
    var offStruct := HEADER + |rsv|;
    var offStrings := offStruct + |block|;
    Header(offStrings + |strings|, offStruct, offStrings, |strings|, |block|) + rsv + block + strings
  }

  lemma HeaderReads(total: nat, offStruct: nat, offStrings: nat, sizeStrings: nat, sizeStruct: nat, rest: seq<uint8>)
    requires total <= DT_LIMIT && offStruct <= DT_LIMIT && offStrings <= DT_LIMIT
    requires sizeStrings <= DT_LIMIT && sizeStruct <= DT_LIMIT
    ensures var p := Header(total, offStruct, offStrings, sizeStrings, sizeStruct) + rest;
            && |p| == HEADER + |rest| && p[HEADER..] == rest
            && Be32(p, 0) == FDT_MAGIC && Be32(p, 4) as nat == total && Total(p) == total && OffStruct(p) == offStruct
            && OffStrings(p) == offStrings && OffRsv(p) == HEADER && VersionOf(p) == 17 && LastCompOf(p) == 16
            && SizeStrings(p) == sizeStrings && SizeStruct(p) == sizeStruct
  {
    hide Be32, Word32, Word;
    var a := Word32(0xd00d_feed) + Word32(total) + Word32(offStruct) + Word32(offStrings);
    var b := Word32(HEADER) + Word32(17) + Word32(16) + Word32(0);
    var p := Header(total, offStruct, offStrings, sizeStrings, sizeStruct) + rest;
    var c := Word32(sizeStrings) + Word32(sizeStruct) + rest;
    assert p == a + b + c;
    assert p == [] + a + (b + c);
    FourWords([], 0xd00d_feed, total, offStruct, offStrings, b + c, p);
    FourWords(a, HEADER, 17, 16, 0, c, p);
    assert p == (a + b) + Word32(sizeStrings) + (Word32(sizeStruct) + rest);
    WordInside(a + b, sizeStrings, Word32(sizeStruct) + rest, p);
    assert p == (a + b + Word32(sizeStrings)) + Word32(sizeStruct) + rest;
    WordInside(a + b + Word32(sizeStrings), sizeStruct, rest, p);
  }

  lemma FourWords(pre: seq<uint8>, n0: nat, n1: nat, n2: nat, n3: nat, post: seq<uint8>, s: seq<uint8>)
    requires n0 < 0x1_0000_0000 && n1 < 0x1_0000_0000 && n2 < 0x1_0000_0000 && n3 < 0x1_0000_0000
    requires s == pre + (Word32(n0) + Word32(n1) + Word32(n2) + Word32(n3)) + post
    ensures Be32(s, |pre|) as nat == n0 && Be32(s, |pre| + 4) as nat == n1
    ensures Be32(s, |pre| + 8) as nat == n2 && Be32(s, |pre| + 12) as nat == n3
  {
    hide Be32, Word32, Word;
    var a, b, c, d := Word32(n0), Word32(n1), Word32(n2), Word32(n3);
    assert s == pre + a + (b + c + d + post);
    assert s == (pre + a) + b + (c + d + post);
    assert s == (pre + a + b) + c + (d + post);
    assert s == (pre + a + b + c) + d + post;
    WordInside(pre, n0, b + c + d + post, s);
    WordInside(pre + a, n1, c + d + post, s);
    WordInside(pre + a + b, n2, d + post, s);
    WordInside(pre + a + b + c, n3, post, s);
  }

  lemma {:induction false} StripKeeps(toks: seq<Token>, t: Token)
    requires t in toks
    ensures t.Nop? || t in Strip(toks)
  {
    if t != toks[0] {
      StripKeeps(toks[1..], t);
    }
  }

  // Completeness as a round trip: any bounded tree with NUL-free names, any reservation
  // list and any placement of NOPs that fits is read back as itself.
  lemma RoundTrip(es: seq<Reservation>, toks: seq<Token>, root: Node)
    requires forall e :: e in es ==> Reservable(e)
    requires Strip(toks) == Tokens(root) && forall t :: t in Tokens(root) ==> NulFree(t)
    requires root.name == [] && Height(root) <= DEPTH_LIMIT
    requires |Build(es, toks)| <= DT_LIMIT
    ensures Valid(Build(es, toks), es, root)
    ensures Parse(Some(Build(es, toks))) ==
            DtResult(Observed, NoDetail, |Build(es, toks)| as uint32, 17, 16, ModelOf(root))
  {
    hide *;
    var p := Build(es, toks);
    BuildSize(es, toks);
    TokensEncode(toks, root);
    BuildParts(es, toks);
    RsvListed(es, p[OffStruct(p)..]);
    ContiguousValid(p, es, root);
    ValidIsObserved(p, es, root);
  }

  // A blob whose empty strings block lies inside its structure block, so that no two blocks
  // share a byte, is refused for overlap all the same.
  lemma EmptyBlockRefused()
    ensures var p := Header(72, 56, 60, 0, 16) + (Zeros(16) + (Word32(1) + Word32(0) + Word32(2) + Word32(9)));
            && |p| == 72 && Parse(Some(p)) == Refused(Malformed, BlockOverlap, 72, 17, 16)
            && !Share(OffRsv(p), 1, OffStruct(p), SizeStruct(p)) && !Share(OffRsv(p), 1, OffStrings(p), SizeStrings(p))
            && !Share(OffStruct(p), SizeStruct(p), OffStrings(p), SizeStrings(p))
  {
    var rest := Zeros(16) + (Word32(1) + Word32(0) + Word32(2) + Word32(9));
    var p := Header(72, 56, 60, 0, 16) + rest;
    HeaderReads(72, 56, 60, 0, 16, rest);
    assert VersionOk(p) && Aligned(p) && InBounds(p);
    ApartMeans(40, 1, 56, 16);
    ApartMeans(40, 1, 60, 0);
    assert !Share(56, 16, 60, 0);
    assert EmptyInside(60, 0, 56, 16);
    OverlapExactly(p);
    hide *;
    LayoutRefusal(p);
  }

  lemma TokensEncode(toks: seq<Token>, root: Node)
    requires Strip(toks) == Tokens(root) && forall t :: t in Tokens(root) ==> NulFree(t)
    requires root.name == [] && Height(root) <= DEPTH_LIMIT
    requires |EncodeTokens(toks, 0)| <= DT_LIMIT && |Names(toks)| <= DT_LIMIT
    ensures |EncodeTokens(toks, 0)| % 4 == 0
    ensures Encodes(EncodeTokens(toks, 0), Names(toks), root)
  {
    hide NulFree, EncodeTokens, Names, Serialises;
    forall t | t in toks
      ensures NulFree(t)
    {
      StripKeeps(toks, t);
      NopNulFree(t);
    }
    assert [] + Names(toks) == Names(toks);
    TokensSpelled(toks, [], Names(toks));
    assert Spelling(EncodeTokens(toks, 0), Names(toks), root, toks);
  }

  lemma NopNulFree(t: Token)
    ensures t.Nop? ==> NulFree(t)
  {
  }

  // Blocks laid one after another are disjoint.
  lemma ContiguousValid(p: seq<uint8>, es: seq<Reservation>, root: Node)
    requires |p| >= HEADER && |p| == Total(p) <= DT_LIMIT && Be32(p, 0) == FDT_MAGIC
    requires VersionOf(p) == 17 && LastCompOf(p) == 16 && Aligned(p) && InBounds(p)
    requires OffStruct(p) == OffRsv(p) + Extent(es) && OffStrings(p) == OffStruct(p) + SizeStruct(p)
    requires Lists(p[OffRsv(p)..], es) && Encodes(StructBlock(p), StringsBlock(p), root)
    ensures Valid(p, es, root)
  {
    hide Be32, Encodes, Lists;
  }

  // Where the parts of a built blob lie.
  lemma BuildParts(es: seq<Reservation>, toks: seq<Token>)
    requires |Build(es, toks)| <= DT_LIMIT && |EncodeTokens(toks, 0)| % 4 == 0
    requires forall e :: e in es ==> Reservable(e)
    ensures var p := Build(es, toks);
            && |p| >= HEADER && Be32(p, 0) == FDT_MAGIC && Total(p) == |p| && Be32(p, 4) as nat == |p|
            && VersionOf(p) == 17 && LastCompOf(p) == 16
            && OffRsv(p) == HEADER && OffStruct(p) == HEADER + Extent(es)
            && Aligned(p) && InBounds(p) && OffStruct(p) <= |p|
            && OffStrings(p) == OffStruct(p) + SizeStruct(p)
            && StructBlock(p) == EncodeTokens(toks, 0) && StringsBlock(p) == Names(toks)
            && p[OffRsv(p)..] == RsvBytes(es) + p[OffStruct(p)..]
  {
    hide Be32, EncodeTokens, RsvBytes, Names, Build;
    BuildHeader(es, toks);
    WholeWords(|es|);
  }

  lemma BuildHeader(es: seq<Reservation>, toks: seq<Token>)
    requires |Build(es, toks)| <= DT_LIMIT
    requires forall e :: e in es ==> Reservable(e)
    ensures var p := Build(es, toks);
            && |p| >= HEADER && Be32(p, 0) == FDT_MAGIC && Total(p) == |p| && Be32(p, 4) as nat == |p|
            && VersionOf(p) == 17 && LastCompOf(p) == 16
            && OffRsv(p) == HEADER && OffStruct(p) == HEADER + Extent(es)
            && OffStrings(p) == OffStruct(p) + SizeStruct(p)
            && SizeStruct(p) == |EncodeTokens(toks, 0)| && SizeStrings(p) == |Names(toks)|
            && |p| == OffStrings(p) + SizeStrings(p)
            && p[..OffStruct(p) + SizeStruct(p)][OffStruct(p)..] == EncodeTokens(toks, 0)
            && p[..|p|][OffStrings(p)..] == Names(toks)
            && p[HEADER..] == RsvBytes(es) + p[OffStruct(p)..]
  {
    hide Be32, EncodeTokens, RsvBytes, Header, Names;
    var rsv, block, strings := RsvBytes(es), EncodeTokens(toks, 0), Names(toks);
    var p := Build(es, toks);
    var offStruct := HEADER + |rsv|;
    var offStrings := offStruct + |block|;
    var h := Header(offStrings + |strings|, offStruct, offStrings, |strings|, |block|);
    RsvListed(es, []);
    HeaderLength(offStrings + |strings|, offStruct, offStrings, |strings|, |block|);
    HeaderReads(offStrings + |strings|, offStruct, offStrings, |strings|, |block|, rsv + block + strings);
    assert p == h + (rsv + block + strings);
    Parts(h, rsv, block, strings, p);
  }

  lemma WholeWords(n: nat)
    ensures (16 * n + 16) % 4 == 0 && (HEADER + 16 * n + 16) % 4 == 0
  {
  }

  lemma BuildSize(es: seq<Reservation>, toks: seq<Token>)
    ensures |Build(es, toks)| >= |EncodeTokens(toks, 0)| && |Build(es, toks)| >= |Names(toks)|
  {
    hide EncodeTokens, RsvBytes, Header, Names;
  }

  lemma Parts(h: seq<uint8>, rsv: seq<uint8>, block: seq<uint8>, strings: seq<uint8>, p: seq<uint8>)
    requires p == h + (rsv + block + strings)
    ensures |p| == |h| + |rsv| + |block| + |strings|
    ensures p[..|h| + |rsv| + |block|][|h| + |rsv|..] == block
    ensures p[..|p|][|h| + |rsv| + |block|..] == strings
    ensures p[|h|..] == rsv + p[|h| + |rsv|..]
  {
  }

  lemma HeaderLength(total: nat, offStruct: nat, offStrings: nat, sizeStrings: nat, sizeStruct: nat)
    ensures |Header(total, offStruct, offStrings, sizeStrings, sizeStruct)| == HEADER
  {
  }
}
