// What the result function means: it observes exactly the valid blobs, reports the model
// of the one tree they hold, looks at nothing past the declared size, and is unmoved by
// FDT_NOP.
module BlobTheorems {
  import opened Machine
  import opened Details
  import opened Devicetree
  import opened TreeReader
  import opened StructureWalk
  import opened StructureDefects
  import opened Blob

  // Scanning up to a limit accepts exactly the lists that end by it.
  lemma {:induction false} RsvWalkDecides(s: seq<uint8>, k: nat, es: seq<Reservation>)
    requires k <= |s|
    ensures RsvWalk(s[..k]) == RsvAccepted(es) <==> Lists(s, es) && Extent(es) <= k
    decreases |s|
  {
    var t := s[..k];
    if k >= 16 {
      assert Be64(t, 0) == Be64(s, 0) && Be64(t, 8) == Be64(s, 8);
      assert t[16..] == s[16..][..k - 16];
      if es == [] {
      } else {
        RsvWalkDecides(s[16..], k - 16, es[1..]);
        assert es == [es[0]] + es[1..];
      }
    }
  }

  // The code compares only the first byte of the reservation block for overlap; together
  // with the limit this keeps the whole scanned extent clear of both blocks.
  lemma ReservationSeparation(p: seq<uint8>, extent: nat)
    requires |p| >= HEADER && InBounds(p) && extent >= 16
    ensures && Apart(OffRsv(p), 1, OffStruct(p), SizeStruct(p))
            && Apart(OffRsv(p), 1, OffStrings(p), SizeStrings(p))
            && OffRsv(p) + extent <= RsvLimit(p)
        <==>
            && OffRsv(p) + extent <= Total(p)
            && Clear(OffRsv(p), extent, OffStruct(p), SizeStruct(p))
            && Clear(OffRsv(p), extent, OffStrings(p), SizeStrings(p))
  {
    hide Be32;
  }

  // -------------------------------------------------------------------- overlap

  predicate Covers(a: nat, al: nat, i: nat) {
    a <= i < a + al
  }

  ghost predicate Share(a: nat, al: nat, b: nat, bl: nat) {
    exists i: nat :: Covers(a, al, i) && Covers(b, bl, i)
  }

  // An empty extent strictly inside another, with which it shares no byte.
  predicate EmptyInside(a: nat, al: nat, b: nat, bl: nat) {
    al == 0 && b < a < b + bl
  }

  // The extent test is byte disjointness, except that it also refuses an empty extent
  // strictly inside the other.
  lemma ApartMeans(a: nat, al: nat, b: nat, bl: nat)
    ensures !Apart(a, al, b, bl) <==> Share(a, al, b, bl) || EmptyInside(a, al, b, bl) || EmptyInside(b, bl, a, al)
  {
    if !Apart(a, al, b, bl) && al > 0 && bl > 0 {
      var i := if a < b then b else a;
      assert Covers(a, al, i) && Covers(b, bl, i);
    }
  }

  // So a blob is refused for overlap when its blocks share a byte, or one of the structure
  // and strings blocks is empty and lies strictly inside the other; and only then.
  lemma OverlapExactly(p: seq<uint8>)
    requires |p| >= HEADER && Total(p) <= |p| && Aligned(p) && InBounds(p)
    ensures LayoutFault(p) == BlockOverlap <==>
            || Share(OffRsv(p), 1, OffStruct(p), SizeStruct(p))
            || Share(OffRsv(p), 1, OffStrings(p), SizeStrings(p))
            || Share(OffStruct(p), SizeStruct(p), OffStrings(p), SizeStrings(p))
            || EmptyInside(OffStrings(p), SizeStrings(p), OffStruct(p), SizeStruct(p))
            || EmptyInside(OffStruct(p), SizeStruct(p), OffStrings(p), SizeStrings(p))
  {
    ApartMeans(OffRsv(p), 1, OffStruct(p), SizeStruct(p));
    ApartMeans(OffRsv(p), 1, OffStrings(p), SizeStrings(p));
    ApartMeans(OffStruct(p), SizeStruct(p), OffStrings(p), SizeStrings(p));
    hide Be32, RsvWalk, Apart, Share;
  }

  lemma LayoutRefusal(p: seq<uint8>)
    requires |p| >= HEADER && Be32(p, 0) == FDT_MAGIC && VersionOk(p)
    requires HEADER <= Total(p) <= DT_LIMIT && Total(p) <= |p|
    requires LayoutFault(p) != NoDetail
    ensures Parse(Some(p)) == Refused(Malformed, LayoutFault(p), Be32(p, 4), VersionOf(p), LastCompOf(p))
  {
    hide Be32, Walk, LayoutFault, VersionOk;
  }

  // -------------------------------------------------------------------- the whole reader

  // Completeness: every valid blob is observed, with the model of its tree.
  lemma ValidIsObserved(p: seq<uint8>, es: seq<Reservation>, root: Node)
    requires Valid(p, es, root)
    ensures Parse(Some(p)) == DtResult(Observed, NoDetail, Be32(p, 4), VersionOf(p), LastCompOf(p), ModelOf(root))
  {
    hide Be32, Walk, RsvWalk, Lists, RsvLimit, Aligned, Encodes;
    LimitInBounds(p);
    var rsv, limit := p[OffRsv(p)..], RsvLimit(p);
    assert p[..limit][OffRsv(p)..] == rsv[..limit - OffRsv(p)];
    RsvWalkDecides(rsv, limit - OffRsv(p), es);
    ReservationSeparation(p, Extent(es));
    BlockAligned(p);
    WalkDecides(StructBlock(p), StringsBlock(p), root);
  }

  // Soundness: nothing else is.
  lemma ObservedIsValid(p: seq<uint8>)
    requires Parse(Some(p)).state == Observed
    ensures exists es, root :: Valid(p, es, root)
  {
    hide Be32, Walk, RsvWalk, Lists, RsvLimit, Aligned, Encodes;
    LimitInBounds(p);
    var rsv, limit := p[OffRsv(p)..], RsvLimit(p);
    var extent := limit - OffRsv(p);
    assert p[..limit][OffRsv(p)..] == rsv[..extent];
    var es := RsvWalk(rsv[..extent]).entries;
    RsvWalkDecides(rsv, extent, es);
    ReservationSeparation(p, Extent(es));
    BlockAligned(p);
    Refusals(StructBlock(p), StringsBlock(p), START);
    var root := Walk(StructBlock(p), StringsBlock(p), START).root;
    WalkDecides(StructBlock(p), StringsBlock(p), root);
    assert Valid(p, es, root);
  }

  lemma ObservedExactlyValid(p: seq<uint8>)
    ensures Parse(Some(p)).state == Observed <==> exists es, root :: Valid(p, es, root)
  {
    hide Parse, Valid;
    if Parse(Some(p)).state == Observed {
      ObservedIsValid(p);
    } else if exists es, root :: Valid(p, es, root) {
      var es, root :| Valid(p, es, root);
      ValidIsObserved(p, es, root);
    }
  }

  lemma LimitInBounds(p: seq<uint8>)
    requires |p| >= HEADER && InBounds(p)
    ensures OffRsv(p) <= RsvLimit(p) <= Total(p)
  {
    hide Be32;
  }

  lemma BlockAligned(p: seq<uint8>)
    requires |p| >= HEADER && InBounds(p) && Total(p) <= |p|
    ensures Aligned(p) ==> |StructBlock(p)| % 4 == 0
  {
    hide Be32;
  }

  // A byte string is a valid blob in at most one way.
  lemma OneMeaning(p: seq<uint8>, es: seq<Reservation>, es': seq<Reservation>, root: Node, root': Node)
    requires Valid(p, es, root) && Valid(p, es', root')
    ensures es == es' && root == root'
  {
    hide Be32, Walk, RsvWalk, Lists, Aligned, Encodes;
    BlockAligned(p);
    OneTree(StructBlock(p), StringsBlock(p), root, root');
    OneList(p[OffRsv(p)..], es, es');
  }

  lemma {:induction false} OneList(s: seq<uint8>, es: seq<Reservation>, es': seq<Reservation>)
    requires Lists(s, es) && Lists(s, es')
    ensures es == es'
    decreases |es|
  {
    if es != [] && es' != [] {
      OneList(s[16..], es[1..], es'[1..]);
      assert es == [es[0]] + es[1..] && es' == [es'[0]] + es'[1..];
    }
  }

  // Every other result is a malformed or unsupported blob of which no model is reported.
  lemma RefusalReportsNothing(data: Option<seq<uint8>>)
    ensures var r := Parse(data);
            || (r.state == Observed && r.detail == NoDetail)
            || ((r.state == Malformed || r.state == Unsupported) && r.detail != NoDetail && r.model == NO_MODEL)
  {
    hide Be32, Walk, RsvWalk;
    if data.Some? {
      var p := data.value;
      if |p| >= HEADER && Total(p) <= |p| && InBounds(p) {
        Refusals(StructBlock(p), StringsBlock(p), START);
      }
    }
  }

  // -------------------------------------------------------------------- locality

  lemma SameWord(p: seq<uint8>, q: seq<uint8>, n: nat, i: nat)
    requires i + 4 <= n <= |p| && n <= |q| && p[..n] == q[..n]
    ensures Be32(p, i) == Be32(q, i)
  {
    assert forall k :: i <= k < i + 4 ==> p[k] == p[..n][k] == q[k];
  }

  lemma SameHeader(p: seq<uint8>, q: seq<uint8>)
    requires |p| >= HEADER && |q| >= HEADER && p[..HEADER] == q[..HEADER]
    ensures Be32(p, 0) == Be32(q, 0) && Total(p) == Total(q) && Be32(p, 4) == Be32(q, 4)
    ensures VersionOf(p) == VersionOf(q) && LastCompOf(p) == LastCompOf(q)
    ensures OffStruct(p) == OffStruct(q) && OffStrings(p) == OffStrings(q) && OffRsv(p) == OffRsv(q)
    ensures SizeStrings(p) == SizeStrings(q) && SizeStruct(p) == SizeStruct(q)
    ensures VersionOk(p) == VersionOk(q) && Aligned(p) == Aligned(q) && InBounds(p) == InBounds(q)
    ensures Overlapping(p) == Overlapping(q) && RsvLimit(p) == RsvLimit(q)
  {
    forall i | i in [0, 4, 8, 12, 16, 20, 24, 32, 36]
      ensures Be32(p, i) == Be32(q, i)
    {
      SameWord(p, q, HEADER, i);
    }
  }

  // Nothing past the declared size is looked at.
  lemma Locality(p: seq<uint8>, q: seq<uint8>)
    requires |p| >= HEADER && |q| >= HEADER
    requires HEADER <= Total(p) <= |p| && Total(p) <= |q|
    requires p[..Total(p)] == q[..Total(p)]
    ensures Parse(Some(p)) == Parse(Some(q))
  {
    hide Be32, Walk, RsvWalk;
    var n := Total(p);
    assert p[..HEADER] == p[..n][..HEADER] == q[..HEADER];
    SameHeader(p, q);
    if InBounds(p) {
      SameBlocks(p, q);
    }
    hide VersionOk, Aligned, Overlapping, RsvLimit, InBounds, StructBlock, StringsBlock;
    assert LayoutFault(p) == LayoutFault(q);
  }

  lemma SameBlocks(p: seq<uint8>, q: seq<uint8>)
    requires |p| >= HEADER && |q| >= HEADER && HEADER <= Total(p) <= |p| && Total(p) <= |q|
    requires p[..Total(p)] == q[..Total(p)] && p[..HEADER] == q[..HEADER]
    requires InBounds(p)
    ensures InBounds(q) && OffRsv(p) <= RsvLimit(p) <= |p| && OffRsv(q) <= RsvLimit(q) <= |q|
    ensures StructBlock(p) == StructBlock(q) && StringsBlock(p) == StringsBlock(q)
    ensures p[..RsvLimit(p)][OffRsv(p)..] == q[..RsvLimit(q)][OffRsv(q)..]
  {
    hide Be32;
    SameHeader(p, q);
    LimitInBounds(p);
    SameSlice(p, q, Total(p), OffRsv(p), RsvLimit(p));
    SameSlice(p, q, Total(p), OffStruct(p), OffStruct(p) + SizeStruct(p));
    SameSlice(p, q, Total(p), OffStrings(p), OffStrings(p) + SizeStrings(p));
  }

  lemma SameSlice(p: seq<uint8>, q: seq<uint8>, n: nat, lo: nat, hi: nat)
    requires n <= |p| && n <= |q| && p[..n] == q[..n]
    requires lo <= hi <= n
    ensures p[..hi][lo..] == q[..hi][lo..]
  {
    assert p[..hi] == p[..n][..hi] == q[..hi];
  }

  // The firmware entry agrees with the bounded one for every span that covers the blob.
  lemma EntryPointsAgree(p: seq<uint8>, n: nat)
    requires 8 <= |p| && Be32(p, 0) == FDT_MAGIC
    requires HEADER <= Be32(p, 4) as nat <= DT_LIMIT
    requires Be32(p, 4) as nat <= n <= |p|
    ensures ParseFirmware(Some(p)) == Parse(Some(p[..n]))
  {
    var total := Be32(p, 4) as nat;
    assert p[..n][..total] == p[..total];
    assert p[..total][..total] == p[..total];
    SameWord(p, p[..n], total, 4);
    SameWord(p, p[..total], total, 4);
    Locality(p[..total], p[..n]);
  }

  // -------------------------------------------------------------------- refusals over inputs

  // What the reader needs of a blob before it walks the structure block.
  predicate Walkable(p: seq<uint8>) {
    && |p| >= HEADER && Be32(p, 0) == FDT_MAGIC && VersionOk(p)
    && HEADER <= Total(p) <= |p| && Total(p) <= DT_LIMIT
    && LayoutFault(p) == NoDetail
  }

  lemma AlignedWhenWalkable(p: seq<uint8>)
    requires Walkable(p)
    ensures InBounds(p) && |StructBlock(p)| % 4 == 0 && |StructBlock(p)| == SizeStruct(p)
  {
    hide Be32, RsvWalk;
  }

  lemma ParseWalkable(p: seq<uint8>)
    requires Walkable(p)
    ensures InBounds(p)
    ensures Parse(Some(p)) ==
            match Walk(StructBlock(p), StringsBlock(p), START) {
              case Rejected(s, d) => Refused(s, d, Be32(p, 4), VersionOf(p), LastCompOf(p))
              case Accepted(root) => DtResult(Observed, NoDetail, Be32(p, 4), VersionOf(p), LastCompOf(p),
                                              ModelOf(root))
            }
  {
    hide Be32, RsvWalk, Walk;
  }

  // Once the layout passes, the reason reported is that of the first token at fault, and a
  // blob with a token at fault is refused for it.
  lemma RefusalNamesDefect(p: seq<uint8>, d: Detail)
    requires Walkable(p) && d != NoDetail && InBounds(p)
    ensures Parse(Some(p)) == Refused(FaultState(d), d, Be32(p, 4), VersionOf(p), LastCompOf(p)) <==>
            exists before, cut :: DefectAt(StructBlock(p), StringsBlock(p), START, before, cut, d)
  {
    hide Be32, Walk, DefectAt, LayoutFault, InBounds, Parse, VersionOf, LastCompOf, StructBlock, StringsBlock;
    AlignedWhenWalkable(p);
    ParseWalkable(p);
    RefusedExactly(StructBlock(p), StringsBlock(p), FaultState(d), d);
  }

  // `unsupported` is the answer exactly to a version outside the contract, a declared size
  // over its limit, or, once the layout passes, a nesting over its limit.
  lemma UnsupportedExactly(p: seq<uint8>)
    ensures Parse(Some(p)).state == Unsupported <==>
            && |p| >= HEADER && Be32(p, 0) == FDT_MAGIC
            && (!VersionOk(p) || Total(p) > DT_LIMIT || OverNested(p))
    ensures Parse(Some(p)).state == Unsupported ==>
            Parse(Some(p)).detail ==
            if !VersionOk(p) then Version else if Total(p) > DT_LIMIT then SizeLimit else DepthLimit
    ensures Parse(Some(p)).state == Unsupported <==> Parse(Some(p)).detail in {Version, SizeLimit, DepthLimit}
  {
    if |p| >= HEADER && Total(p) <= |p| {
      LayoutDetails(p);
    }
    hide Be32, Walk, LayoutFault, TooDeep, VersionOk, InBounds, StructBlock, StringsBlock;
    if Walkable(p) {
      AlignedWhenWalkable(p);
      ParseWalkable(p);
      Refusals(StructBlock(p), StringsBlock(p), START);
      DepthLimitExactly(StructBlock(p), StringsBlock(p));
    }
  }

  lemma LayoutDetails(p: seq<uint8>)
    requires |p| >= HEADER && Total(p) <= |p|
    ensures LayoutFault(p) !in {Version, SizeLimit, DepthLimit}
  {
    hide Be32, RsvWalk;
  }

  ghost predicate OverNested(p: seq<uint8>) {
    Walkable(p) && InBounds(p) && TooDeep(StructBlock(p), StringsBlock(p))
  }

  // The same for the entry the probe calls, where the size comes before the version.
  lemma FirmwareUnsupported(p: seq<uint8>)
    requires |p| >= 8
    requires Be32(p, 0) == FDT_MAGIC && HEADER <= Be32(p, 4) as nat <= DT_LIMIT ==> Be32(p, 4) as nat <= |p|
    ensures Be32(p, 0) == FDT_MAGIC && Be32(p, 4) as nat > DT_LIMIT ==>
            ParseFirmware(Some(p)) == Refused(Unsupported, SizeLimit, 0, 0, 0)
    ensures ParseFirmware(Some(p)).state == Unsupported <==>
            && Be32(p, 0) == FDT_MAGIC
            && (|| Be32(p, 4) as nat > DT_LIMIT
                || (Be32(p, 4) as nat >= HEADER && (!VersionOk(p) || OverNested(p))))
  {
    hide Parse, OverNested, VersionOk;
    if Be32(p, 0) == FDT_MAGIC && HEADER <= Be32(p, 4) as nat <= DT_LIMIT {
      EntryPointsAgree(p, |p|);
      assert p[..|p|] == p;
      UnsupportedExactly(p);
    }
  }

  // A blob that passes the layout checks and spells a tree nested deeper than the limit is
  // unsupported, not malformed.
  lemma DeepTreeUnsupported(p: seq<uint8>, root: Node, toks: seq<Token>)
    requires Walkable(p) && InBounds(p) && Spelling(StructBlock(p), StringsBlock(p), root, toks)
    requires root.name == [] && Height(root) > DEPTH_LIMIT
    ensures Parse(Some(p)) == Refused(Unsupported, DepthLimit, Be32(p, 4), VersionOf(p), LastCompOf(p))
  {
    hide Be32, Walk, Spelling, Height, Parse, LayoutFault, InBounds, StructBlock, StringsBlock, VersionOf, LastCompOf;
    AlignedWhenWalkable(p);
    ParseWalkable(p);
    DeepTreeRefused(StructBlock(p), StringsBlock(p), root, toks);
  }

  // -------------------------------------------------------------------- the model, by index

  lemma {:induction false} ModelValuesAppend(ps: seq<Property>, p: Property)
    ensures ModelValues(ps + [p]) == ModelValues(ps) + (if p.name == MODEL_NAME then [p.value] else [])
  {
    if ps == [] {
      assert ps + [p] == [p];
    } else {
      ModelValuesAppend(ps[1..], p);
      assert (ps + [p])[1..] == ps[1..] + [p];
    }
  }

  lemma {:induction false} NoModel(ps: seq<Property>)
    requires forall i :: 0 <= i < |ps| ==> ps[i].name != MODEL_NAME
    ensures ModelValues(ps) == []
  {
    if ps != [] {
      NoModel(ps[1..]);
    }
  }

  lemma {:induction false} SomeModel(ps: seq<Property>, i: nat)
    requires i < |ps| && ps[i].name == MODEL_NAME
    ensures ModelValues(ps) == ModelValues(ps[..i]) + [ps[i].value] + ModelValues(ps[i + 1..])
  {
    if i == 0 {
      assert ps[..0] == [];
    } else {
      SomeModel(ps[1..], i - 1);
      assert ps[1..][..i - 1] == ps[..i][1..];
      assert ps[1..][i..] == ps[i + 1..];
      assert ps[..i][0] == ps[0];
    }
  }

  lemma ModelPresent(ps: seq<Property>, i: nat)
    requires i < |ps| && ps[i].name == MODEL_NAME
    ensures Classify(ModelValues(ps)).state != Unavailable
  {
    SomeModel(ps, i);
  }

  lemma ModelTwice(ps: seq<Property>, i: nat, j: nat)
    requires i < j < |ps| && ps[i].name == MODEL_NAME && ps[j].name == MODEL_NAME
    ensures Classify(ModelValues(ps)) == Model(Malformed, 0, [])
  {
    SomeModel(ps, i);
    assert ps[i + 1..][j - i - 1] == ps[j];
    SomeModel(ps[i + 1..], j - i - 1);
  }

  lemma ModelOnce(ps: seq<Property>, i: nat)
    requires i < |ps| && ps[i].name == MODEL_NAME
    requires forall j :: 0 <= j < |ps| && j != i ==> ps[j].name != MODEL_NAME
    ensures Classify(ModelValues(ps)) == ClassifyOne(ps[i].value)
  {
    SomeModel(ps, i);
    NoModel(ps[..i]);
    NoModel(ps[i + 1..]);
    hide ClassifyOne, ModelValues;
    assert [] + [ps[i].value] + [] == [ps[i].value];
  }

  // The model state of an observed blob as a function of the root's properties.
  lemma ModelMeaning(root: Node)
    ensures ModelOf(root).state == Unavailable <==>
        forall i :: 0 <= i < |root.props| ==> root.props[i].name != MODEL_NAME
    ensures forall i, j :: 0 <= i < j < |root.props|
                           && root.props[i].name == MODEL_NAME && root.props[j].name == MODEL_NAME ==>
              ModelOf(root) == Model(Malformed, 0, [])
    ensures forall i :: 0 <= i < |root.props| && root.props[i].name == MODEL_NAME
                        && (forall j :: 0 <= j < |root.props| && j != i ==> root.props[j].name != MODEL_NAME) ==>
              ModelOf(root) == ClassifyOne(root.props[i].value)
  {
    var ps := root.props;
    if forall i :: 0 <= i < |ps| ==> ps[i].name != MODEL_NAME {
      NoModel(ps);
    }
    hide Classify, ClassifyOne, ModelValues;
    forall i | 0 <= i < |ps| && ps[i].name == MODEL_NAME
      ensures ModelOf(root).state != Unavailable
    {
      ModelPresent(ps, i);
    }
    forall i, j | 0 <= i < j < |ps| && ps[i].name == MODEL_NAME && ps[j].name == MODEL_NAME
      ensures ModelOf(root) == Model(Malformed, 0, [])
    {
      ModelTwice(ps, i, j);
    }
    forall i | 0 <= i < |ps| && ps[i].name == MODEL_NAME
               && forall j :: 0 <= j < |ps| && j != i ==> ps[j].name != MODEL_NAME
      ensures ModelOf(root) == ClassifyOne(ps[i].value)
    {
      ModelOnce(ps, i);
    }
  }

  predicate TextEnd(v: seq<uint8>) {
    v != [] && v[|v| - 1] == 0
  }

  predicate OddByte(c: uint8) {
    c == 0 || c >= 0x80
  }

  // What is reported of a model value: the true prefix, all of it non-NUL ASCII. A value
  // without a final NUL is malformed, one with another NUL or a byte above 0x7f unsupported.
  lemma ModelText(v: seq<uint8>)
    ensures var m := ClassifyOne(v);
            && (m.state == Observed || m.state == Truncated <==>
                v != [] && v[|v| - 1] == 0 && forall i :: 0 <= i < |v| - 1 ==> 0 < v[i] < 0x80)
            && (m.state == Observed || m.state == Truncated ==>
                && m.length == |v| - 1
                && m.text == v[..if m.length < MODEL_LIMIT then m.length else MODEL_LIMIT]
                && (m.state == Truncated <==> m.length > MODEL_LIMIT))
            && (m.state != Observed && m.state != Truncated ==> m.length == 0 && m.text == [])
            && Ascii(m.text) && |m.text| <= MODEL_LIMIT
            && (m.state == Malformed <==> !TextEnd(v))
            && (m.state == Unsupported <==> TextEnd(v) && exists i :: 0 <= i < |v| - 1 && OddByte(v[i]))
  {
    if v != [] && v[|v| - 1] == 0 {
      var body := v[..|v| - 1];
      assert forall i :: 0 <= i < |body| ==> body[i] in body;
      assert |body| > MODEL_LIMIT ==> body[..MODEL_LIMIT] == v[..MODEL_LIMIT];
    }
  }

  predicate PrintableByte(c: uint8) {
    0x20 <= c <= 0x7e
  }

  // The documented form of a reportable value: NUL-terminated printable ASCII.
  predicate DocumentedModel(v: seq<uint8>) {
    v != [] && v[|v| - 1] == 0 && forall i :: 0 <= i < |v| - 1 ==> PrintableByte(v[i])
  }

  // Every documented value is reported. Beyond them exactly those are reported that hold
  // an ASCII control character, the terminator apart; and the reported prefix is printable
  // just when those first bytes of the value are.
  lemma ModelDocumented(v: seq<uint8>)
    ensures var m := ClassifyOne(v);
            var reported := m.state == Observed || m.state == Truncated;
            && (DocumentedModel(v) ==> reported)
            && (reported && !DocumentedModel(v) <==>
                && v != [] && v[|v| - 1] == 0
                && (forall i :: 0 <= i < |v| - 1 ==> 0 < v[i] < 0x80)
                && exists i :: 0 <= i < |v| - 1 && !PrintableByte(v[i]))
            && (reported ==>
                ((forall i :: 0 <= i < |m.text| ==> PrintableByte(m.text[i])) <==>
                 (forall i :: 0 <= i < |v| - 1 && i < MODEL_LIMIT ==> PrintableByte(v[i]))))
  {
    ModelText(v);
    hide ClassifyOne;
  }

  // A single tab is reported as it stands.
  lemma ControlCharacterReported()
    ensures ClassifyOne([9, 0]) == Model(Observed, 1, [9]) && !DocumentedModel([9, 0])
  {
    var v: seq<uint8> := [9, 0];
    assert v[..|v| - 1] == [9];
    assert v[0] == 9 && !PrintableByte(v[0]);
  }

  // -------------------------------------------------------------------- bounds on the reported model

  lemma {:induction false} SpelledValue(s: seq<uint8>, toks: seq<Token>, strings: seq<uint8>, t: Token)
    requires Serialises(s, toks, strings) && t in toks && t.Prop?
    ensures |t.property.value| <= 0xffff_ffff
    decreases |toks|
  {
    if t != toks[0] {
      SpelledValue(s[Size(toks[0])..], toks[1..], strings, t);
    }
  }

  lemma {:induction false} StripSubset(toks: seq<Token>, t: Token)
    requires t in Strip(toks)
    ensures t in toks
  {
    if toks[0].Nop? {
      StripSubset(toks[1..], t);
    } else if t != toks[0] {
      assert t in Strip(toks[1..]);
      StripSubset(toks[1..], t);
    }
  }

  lemma {:induction false} ModelValueIn(ps: seq<Property>, v: seq<uint8>)
    requires v in ModelValues(ps)
    ensures exists p :: p in ps && p.value == v && Prop(p) in PropTokens(ps)
  {
    if ps[0].name == MODEL_NAME && v == ps[0].value {
      assert Prop(ps[0]) in PropTokens(ps);
    } else {
      assert v in ModelValues(ps[1..]);
      ModelValueIn(ps[1..], v);
    }
  }

  // The true length fits the 32-bit field it is kept in, and the reported text its buffer.
  lemma ReportedModelFits(data: Option<seq<uint8>>)
    ensures var m := Parse(data).model; |m.text| <= MODEL_LIMIT && Ascii(m.text) && m.length <= 0xffff_ffff
  {
    hide Be32, Walk, RsvWalk, LayoutFault, Encodes, Lists, Parse, Valid;
    RefusalReportsNothing(data);
    if Parse(data).state == Observed {
      NullIsRefused(data);
      ObservedIsValid(data.value);
      var es, root :| Valid(data.value, es, root);
      ValidIsObserved(data.value, es, root);
      EncodedModelFits(data.value, es, root);
    }
  }

  lemma NullIsRefused(data: Option<seq<uint8>>)
    ensures Parse(data).state == Observed ==> data.Some?
  {
    hide Be32, Walk, RsvWalk, LayoutFault;
  }

  lemma EncodedModelFits(p: seq<uint8>, es: seq<Reservation>, root: Node)
    requires Valid(p, es, root)
    ensures var m := ModelOf(root); |m.text| <= MODEL_LIMIT && Ascii(m.text) && m.length <= 0xffff_ffff
  {
    hide Be32, Serialises, Lists, ClassifyOne, ModelValues;
    var vs := ModelValues(root.props);
    if |vs| == 1 {
      var toks :| Spelling(StructBlock(p), StringsBlock(p), root, toks);
      ModelValueIn(root.props, vs[0]);
      var q :| q in root.props && q.value == vs[0] && Prop(q) in PropTokens(root.props);
      assert Prop(q) in Tokens(root);
      StripSubset(toks, Prop(q));
      SpelledValue(StructBlock(p), toks, StringsBlock(p), Prop(q));
      ModelText(vs[0]);
    }
  }
}
