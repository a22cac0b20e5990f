// Reading the structure block byte by byte. `Walk` names the first defect exactly as the
// probe does; `WalkDecides` shows it accepts precisely the encodings of one tree.
module StructureWalk {
  import opened Machine
  import opened Details
  import opened Devicetree
  import opened TreeReader

  datatype Verdict = Rejected(state: State, detail: Detail) | Accepted(root: Node)

  function Bad(detail: Detail): Verdict {
    Rejected(Malformed, detail)
  }

  function Walk(s: seq<uint8>, strings: seq<uint8>, b: Builder): Verdict
    decreases |s|
  {
    if |s| < 4 then Bad(MissingEnd)
    else
      var token, t := Be32(s, 0), s[4..];
      if token == FDT_NOP then Walk(t, strings, b)
      else if token == FDT_BEGIN_NODE then WalkBegin(t, strings, b)
      else if token == FDT_END_NODE then
        if b.open.Empty? then Bad(UnbalancedEndNode)
        else Walk(t, strings, Leave(b))
      else if token == FDT_PROP then WalkProp(t, strings, b)
      else if token == FDT_END then
        if b.open.Push? || b.roots == [] then Bad(UnterminatedNode)
        else if t != [] then Bad(TrailingStructure)
        else Accepted(b.roots[0])
      else Bad(BadToken)
  }

  function WalkBegin(t: seq<uint8>, strings: seq<uint8>, b: Builder): Verdict
    decreases |t|
  {
    if b.open.Empty? && b.roots != [] then Bad(MultipleRoots)
    else if Strlen(t) == |t| then Bad(NameTruncated)
    else if b.open.Empty? && Strlen(t) > 0 then Bad(RootName)
    else if Depth(b.open) == DEPTH_LIMIT then Rejected(Unsupported, DepthLimit)
    else Walk(Past(t, Strlen(t) + 1), strings, Enter(b, Text(t)))
  }

  function WalkProp(t: seq<uint8>, strings: seq<uint8>, b: Builder): Verdict
    decreases |t|
  {
    if b.open.Empty? then Bad(PropertyOutsideRoot)
    else if |t| < 8 then Bad(PropertyTruncated)
    else
      var len, name, v := Be32(t, 0) as nat, Be32(t, 4) as nat, t[8..];
      if len > |v| then Bad(PropertyTruncated)
      else if name >= |strings| then Bad(PropertyName)
      else if Strlen(strings[name..]) == |strings[name..]| then Bad(PropertyName)
      else if b.open.top.children != [] then Bad(PropertyAfterSubnode)
      else Walk(Past(v, len), strings, AddProperty(b, Property(Text(strings[name..]), v[..len])))
  }

  // One step of the walk, by token.
  lemma Unfold(s: seq<uint8>, strings: seq<uint8>, b: Builder)
    ensures |s| < 4 ==> Walk(s, strings, b) == Bad(MissingEnd)
    ensures |s| >= 4 ==>
              match Be32(s, 0)
              case 4 => Walk(s, strings, b) == Walk(s[4..], strings, b)
              case 1 => Walk(s, strings, b) == WalkBegin(s[4..], strings, b)
              case 3 => Walk(s, strings, b) == WalkProp(s[4..], strings, b)
              case 2 =>
                if b.open.Empty? then Walk(s, strings, b) == Bad(UnbalancedEndNode)
                else Walk(s, strings, b) == Walk(s[4..], strings, Leave(b))
              case 9 =>
                if b.open.Push? || b.roots == [] then Walk(s, strings, b) == Bad(UnterminatedNode)
                else if s[4..] != [] then Walk(s, strings, b) == Bad(TrailingStructure)
                else Walk(s, strings, b) == Accepted(b.roots[0])
              case _ => Walk(s, strings, b) == Bad(BadToken)
  {
  }

  // The reasons for which a structure block can be refused.
  const WALK_REASONS: set<Detail> :=
    {MissingEnd, MultipleRoots, NameTruncated, RootName, DepthLimit, UnbalancedEndNode, PropertyOutsideRoot,
     PropertyTruncated, PropertyName, PropertyAfterSubnode, UnterminatedNode, TrailingStructure, BadToken}

  // Only exceeding the nesting limit is a limitation of the probe; all else is malformed.
  predicate Decent(v: Verdict) {
    v.Rejected? ==>
      && v.state == (if v.detail == DepthLimit then Unsupported else Malformed)
      && v.detail in WALK_REASONS
  }

  lemma {:induction false} Refusals(s: seq<uint8>, strings: seq<uint8>, b: Builder)
    ensures Decent(Walk(s, strings, b))
    decreases |s|
  {
    Unfold(s, strings, b);
    hide Walk, WalkBegin, WalkProp, Be32;
    if |s| >= 4 {
      RefusalsBegin(s[4..], strings, b);
      RefusalsProp(s[4..], strings, b);
      Refusals(s[4..], strings, b);
      if b.open.Push? {
        Refusals(s[4..], strings, Leave(b));
      }
    }
  }

  lemma {:induction false} RefusalsBegin(t: seq<uint8>, strings: seq<uint8>, b: Builder)
    ensures Decent(WalkBegin(t, strings, b))
    decreases |t|
  {
    hide Walk;
    if Strlen(t) < |t| {
      Refusals(Past(t, Strlen(t) + 1), strings, Enter(b, Text(t)));
    }
  }

  lemma {:induction false} RefusalsProp(t: seq<uint8>, strings: seq<uint8>, b: Builder)
    ensures Decent(WalkProp(t, strings, b))
    decreases |t|
  {
    hide Walk;
    if |t| >= 8 && b.open.Push? {
      var len, name, v := Be32(t, 0) as nat, Be32(t, 4) as nat, t[8..];
      if len <= |v| && name < |strings| {
        Refusals(Past(v, len), strings, AddProperty(b, Property(Text(strings[name..]), v[..len])));
      }
    }
  }

  // At most one root, none beside an open node, and bounded nesting.
  predicate OneRoot(b: Builder) {
    && Depth(b.open) <= DEPTH_LIMIT
    && |b.roots| <= 1
    && (b.open.Push? ==> b.roots == [])
  }

  lemma NameIsText(s: seq<uint8>, name: seq<uint8>)
    ensures StartsWithName(s, name) <==> Strlen(s) < |s| && name == Text(s)
  {
    StrlenMeans(s);
    if StartsWithName(s, name) {
      StrlenIs(s, |name|);
    }
  }

  // -------------------------------------------------------------------- one token

  // What is wrong with the next token of `s`, if anything, beside the nodes open in `b`.
  function TokenFault(s: seq<uint8>, strings: seq<uint8>, b: Builder): Detail {
    if |s| < 4 then MissingEnd
    else
      match Be32(s, 0)
      case 1 => NameFault(s[4..], b)
      case 2 => if b.open.Empty? then UnbalancedEndNode else NoDetail
      case 3 => PropertyFault(s[4..], strings, b)
      case 4 => NoDetail
      case 9 =>
        if b.open.Push? || b.roots == [] then UnterminatedNode
        else if |s| > 4 then TrailingStructure
        else NoDetail
      case _ => BadToken
  }

  function NameFault(t: seq<uint8>, b: Builder): Detail {
    if b.open.Empty? && b.roots != [] then MultipleRoots
    else if 0 !in t then NameTruncated
    else if b.open.Empty? && t[0] != 0 then RootName
    else if Depth(b.open) == DEPTH_LIMIT then DepthLimit
    else NoDetail
  }

  function PropertyFault(t: seq<uint8>, strings: seq<uint8>, b: Builder): Detail {
    if b.open.Empty? then PropertyOutsideRoot
    else if |t| < 8 || Be32(t, 0) as nat > |t| - 8 then PropertyTruncated
    else if Be32(t, 4) as nat >= |strings| || 0 !in strings[Be32(t, 4)..] then PropertyName
    else if b.open.top.children != [] then PropertyAfterSubnode
    else NoDetail
  }

  function FaultState(d: Detail): State {
    if d == DepthLimit then Unsupported else Malformed
  }

  lemma Terminated(s: seq<uint8>)
    ensures 0 in s <==> Strlen(s) < |s|
    ensures s != [] ==> (s[0] == 0 <==> Strlen(s) == 0)
  {
    StrlenMeans(s);
  }

  lemma NameFaultIs(t: seq<uint8>, strings: seq<uint8>, b: Builder)
    ensures var f := NameFault(t, b); f != NoDetail ==> WalkBegin(t, strings, b) == Rejected(FaultState(f), f)
  {
    Terminated(t);
    hide Walk, Strlen, Past;
  }

  lemma PropertyFaultIs(t: seq<uint8>, strings: seq<uint8>, b: Builder)
    ensures var f := PropertyFault(t, strings, b); f != NoDetail ==>
        WalkProp(t, strings, b) == Rejected(FaultState(f), f)
  {
    if |t| >= 8 && Be32(t, 4) as nat <= |strings| {
      Terminated(strings[Be32(t, 4)..]);
    }
    hide Walk, Strlen, Past, Be32;
  }

  lemma FaultRefused(s: seq<uint8>, strings: seq<uint8>, b: Builder)
    ensures var f := TokenFault(s, strings, b); f != NoDetail ==> Walk(s, strings, b) == Rejected(FaultState(f), f)
  {
    Unfold(s, strings, b);
    if |s| >= 4 {
      NameFaultIs(s[4..], strings, b);
      PropertyFaultIs(s[4..], strings, b);
    }
    hide Walk, WalkBegin, WalkProp, NameFault, PropertyFault, Be32;
  }

  lemma BeginHead(s: seq<uint8>, strings: seq<uint8>, b: Builder) returns (t: Token)
    requires |s| % 4 == 0 && |s| >= 4 && Be32(s, 0) == FDT_BEGIN_NODE
    requires OneRoot(b) && NameFault(s[4..], b) == NoDetail
    ensures Spells(s, t, strings) && t.BeginNode? && MayEnter(b, t.name)
  {
    var r := s[4..];
    Terminated(r);
    hide Be32, Strlen, StartsWithName, Pad4;
    t := BeginNode(Text(r));
    NameIsText(r, Text(r));
    Pad4Below(Strlen(r) + 1, |s| - 4);
  }

  lemma PropHead(s: seq<uint8>, strings: seq<uint8>, b: Builder) returns (t: Token)
    requires |s| % 4 == 0 && |s| >= 4 && Be32(s, 0) == FDT_PROP
    requires PropertyFault(s[4..], strings, b) == NoDetail
    ensures Spells(s, t, strings) && t.Prop? && b.open.Push? && b.open.top.children == []
  {
    var r := s[4..];
    Terminated(strings[Be32(r, 4)..]);
    hide Be32, Strlen, Spells, Past;
    t := PropSpells(s, strings);
  }

  lemma PropSpells(s: seq<uint8>, strings: seq<uint8>) returns (t: Token)
    requires |s| % 4 == 0 && |s| >= 12 && Be32(s, 0) == FDT_PROP
    requires var len, name := Be32(s[4..], 0) as nat, Be32(s[4..], 4) as nat;
             len <= |s| - 12 && name < |strings| && Strlen(strings[name..]) < |strings| - name
    ensures t.Prop? && Spells(s, t, strings)
    ensures var r := s[4..];
            var len, name := Be32(r, 0) as nat, Be32(r, 4) as nat;
            t.property == Property(Text(strings[name..]), r[8..][..len]) && Past(r[8..], len) == s[Size(t)..]
  {
    var r := s[4..];
    assert Be32(r, 0) == Be32(s, 4) && Be32(r, 4) == Be32(s, 8) && r[8..] == s[12..];
    hide Be32, Strlen, Text, StartsWithName, Pad4, Past;
    var len, name := Be32(r, 0) as nat, Be32(r, 4) as nat;
    t := Prop(Property(Text(strings[name..]), s[12..][..len]));
    NameIsText(strings[name..], Text(strings[name..]));
    PastValue(s, len);
  }

  lemma PastValue(s: seq<uint8>, len: nat)
    requires |s| % 4 == 0 && 12 + len <= |s|
    ensures 12 + Pad4(len) <= |s| && Past(s[12..], len) == s[12 + Pad4(len)..]
  {
    hide Pad4;
    Pad4Below(len, |s| - 12);
  }

  // The next token, when there is nothing wrong with it and it is not the end.
  lemma HeadToken(s: seq<uint8>, strings: seq<uint8>, b: Builder) returns (t: Token)
    requires |s| % 4 == 0 && OneRoot(b)
    requires TokenFault(s, strings, b) == NoDetail && Be32(s, 0) != FDT_END
    ensures Spells(s, t, strings) && Step(b, t).Some? && OneRoot(Step(b, t).value)
  {
    hide NameFault, PropertyFault;
    match Be32(s, 0)
    case 1 => t := BeginHead(s, strings, b);
    case 2 => t := EndNode;
    case 3 => t := PropHead(s, strings, b);
    case _ => t := Nop;
  }

  lemma EndHead(s: seq<uint8>, strings: seq<uint8>, b: Builder)
    requires OneRoot(b) && TokenFault(s, strings, b) == NoDetail && Be32(s, 0) == FDT_END
    ensures |s| == 4 && |b.roots| == 1 && b == Builder(Empty, b.roots) && Walk(s, strings, b) == Accepted(b.roots[0])
  {
    assert s[4..] == [];
  }

  lemma {:induction false} WalkSound(s: seq<uint8>, strings: seq<uint8>, b: Builder) returns (toks: seq<Token>)
    requires |s| % 4 == 0 && OneRoot(b)
    requires Walk(s, strings, b).Accepted?
    ensures Serialises(s, toks, strings)
    ensures Feed(b, toks) == Some(Builder(Empty, [Walk(s, strings, b).root]))
    decreases |s|
  {
    FaultRefused(s, strings, b);
    hide Walk, Be32, Spells, Size, Step, OneRoot;
    if Be32(s, 0) == FDT_END {
      EndHead(s, strings, b);
      toks := [];
      assert b.roots == [b.roots[0]];
    } else {
      var t := HeadToken(s, strings, b);
      WalkStep(s, strings, b, t);
      var rest := WalkSound(s[Size(t)..], strings, Step(b, t).value);
      toks := [t] + rest;
      assert toks[1..] == rest;
    }
  }

  lemma BeginStep(s: seq<uint8>, strings: seq<uint8>, b: Builder, t: Token)
    requires |s| % 4 == 0 && t.BeginNode? && Spells(s, t, strings) && MayEnter(b, t.name)
    ensures Walk(s, strings, b) == Walk(s[Size(t)..], strings, Enter(b, t.name))
  {
    var r := s[4..];
    NameIsText(r, t.name);
    PadFits(r, Strlen(r) + 1);
    assert Past(r, Strlen(r) + 1) == s[Size(t)..];
    assert Walk(s, strings, b) == WalkBegin(r, strings, b);
  }

  lemma PropStep(s: seq<uint8>, strings: seq<uint8>, b: Builder, t: Token)
    requires |s| % 4 == 0 && t.Prop? && Spells(s, t, strings)
    requires b.open.Push? && b.open.top.children == []
    ensures Walk(s, strings, b) == Walk(s[Size(t)..], strings, AddProperty(b, t.property))
  {
    var r, len := s[4..], |t.property.value|;
    SpelledProp(s, strings, t);
    hide Be32, Strlen, Text, Pad4, Spells, Size;
    var name := Be32(r, 4) as nat;
    NameIsText(strings[name..], t.property.name);
    assert s[12..][Pad4(len)..] == s[12 + Pad4(len)..];
    assert Walk(s, strings, b) == WalkProp(r, strings, b);
  }

  // The words and the value of a spelled property, from after its token word.
  lemma SpelledProp(s: seq<uint8>, strings: seq<uint8>, t: Token)
    requires t.Prop? && Spells(s, t, strings)
    ensures var r, len := s[4..], |t.property.value|;
            && Be32(s, 0) == FDT_PROP && |r| >= 8 && Be32(r, 0) as nat == len && r[8..] == s[12..]
            && Size(t) == 12 + Pad4(len) && len <= |s| - 12 && 12 + Pad4(len) <= |s|
            && s[12..][..len] == t.property.value
            && Be32(r, 4) as nat < |strings| && StartsWithName(strings[Be32(r, 4) as nat..], t.property.name)
  {
    var r := s[4..];
    assert Be32(r, 0) == Be32(s, 4) && Be32(r, 4) == Be32(s, 8);
  }

  // Reading one spelled token performs the corresponding step.
  lemma WalkStep(s: seq<uint8>, strings: seq<uint8>, b: Builder, t: Token)
    requires |s| % 4 == 0
    requires Spells(s, t, strings) && Step(b, t).Some?
    ensures Walk(s, strings, b) == Walk(s[Size(t)..], strings, Step(b, t).value)
  {
    match t
    case BeginNode(_) => BeginStep(s, strings, b, t);
    case Prop(_) => PropStep(s, strings, b, t);
    case EndNode =>
    case Nop =>
  }

  lemma WalkEnd(s: seq<uint8>, strings: seq<uint8>, root: Node)
    requires |s| == 4 && Be32(s, 0) == FDT_END
    ensures Walk(s, strings, Builder(Empty, [root])) == Accepted(root)
  {
    assert s[4..] == [];
  }

  lemma {:induction false} WalkComplete(s: seq<uint8>, strings: seq<uint8>, b: Builder, toks: seq<Token>, root: Node)
    requires |s| % 4 == 0
    requires Serialises(s, toks, strings)
    requires Feed(b, toks) == Some(Builder(Empty, [root]))
    ensures Walk(s, strings, b) == Accepted(root)
    decreases |toks|
  {
    hide Walk, Be32, Spells, Size, Step;
    if toks == [] {
      WalkEnd(s, strings, root);
    } else {
      var t := toks[0];
      var rest, next := s[Size(t)..], Step(b, t).value;
      assert Spells(s, t, strings);
      assert Walk(s, strings, b) == Walk(rest, strings, next) by {
        WalkStep(s, strings, b, t);
      }
      WalkComplete(rest, strings, next, toks[1..], root);
    }
  }

  // Soundness and completeness: the walk accepts with a root exactly when the block
  // encodes that tree.
  lemma WalkDecides(s: seq<uint8>, strings: seq<uint8>, root: Node)
    requires |s| % 4 == 0
    ensures Walk(s, strings, START) == Accepted(root) <==> Encodes(s, strings, root)
  {
    if Walk(s, strings, START) == Accepted(root) {
      var toks := WalkSound(s, strings, START);
      ReaderInvertsTokens(toks, root);
      assert Spelling(s, strings, root, toks);
    }
    if Encodes(s, strings, root) {
      var toks :| Spelling(s, strings, root, toks);
      ReaderInvertsTokens(toks, root);
      WalkComplete(s, strings, START, toks, root);
    }
  }

  // Unambiguity: a block encodes at most one tree.
  lemma OneTree(s: seq<uint8>, strings: seq<uint8>, a: Node, b: Node)
    requires |s| % 4 == 0
    requires Encodes(s, strings, a) && Encodes(s, strings, b)
    ensures a == b
  {
    WalkDecides(s, strings, a);
    WalkDecides(s, strings, b);
  }

  // -------------------------------------------------------------------- NOP invariance

  const NOP_WORD: seq<uint8> := [0, 0, 0, 4]

  // `cut` is the offset of a token boundary of the block.
  ghost predicate Boundary(s: seq<uint8>, strings: seq<uint8>, before: seq<Token>, cut: nat)
    decreases |before|
  {
    if before == [] then cut == 0
    else
      && Spells(s, before[0], strings)
      && Size(before[0]) <= cut
      && Boundary(s[Size(before[0])..], strings, before[1..], cut - Size(before[0]))
  }

  function InsertNop(s: seq<uint8>, cut: nat): seq<uint8>
    requires cut <= |s|
  {
    s[..cut] + NOP_WORD + s[cut..]
  }

  lemma {:induction false} BoundaryInside(s: seq<uint8>, strings: seq<uint8>, before: seq<Token>, cut: nat)
    requires Boundary(s, strings, before, cut)
    ensures cut <= |s|
    decreases |before|
  {
    if before != [] {
      BoundaryInside(s[Size(before[0])..], strings, before[1..], cut - Size(before[0]));
    }
  }

  lemma SpellsPrefix(s: seq<uint8>, s': seq<uint8>, t: Token, strings: seq<uint8>)
    requires Spells(s, t, strings)
    requires Size(t) <= |s'| && s[..Size(t)] == s'[..Size(t)]
    ensures Spells(s', t, strings)
  {
    assert forall i :: 0 <= i < Size(t) ==> s[i] == s[..Size(t)][i] == s'[i];
    match t
    case BeginNode(name) => assert s'[4..][..|name|] == s[4..][..|name|];
    case Prop(p) => assert s'[12..][..|p.value|] == s[12..][..|p.value|];
    case EndNode =>
    case Nop =>
  }

  lemma NopFirst(s: seq<uint8>, strings: seq<uint8>, b: Builder)
    requires |s| % 4 == 0
    ensures Walk(NOP_WORD + s, strings, b) == Walk(s, strings, b)
  {
    assert (NOP_WORD + s)[4..] == s;
    assert Be32(NOP_WORD + s, 0) == FDT_NOP;
  }

  // Inserting one FDT_NOP at any token boundary, and the walk verdict stays the same,
  // whether it is acceptance or a rejection after that point.
  lemma {:induction false} NopInsertion(s: seq<uint8>, strings: seq<uint8>, b: Builder, before: seq<Token>, cut: nat)
    requires |s| % 4 == 0 && cut <= |s|
    requires Boundary(s, strings, before, cut) && Feed(b, before).Some?
    ensures |InsertNop(s, cut)| == |s| + 4
    ensures Walk(InsertNop(s, cut), strings, b) == Walk(s, strings, b)
    decreases |before|
  {
    hide Walk, Be32, Spells, Size, Step;
    var s' := InsertNop(s, cut);
    if before == [] {
      NopFirst(s, strings, b);
      assert s' == NOP_WORD + s;
    } else {
      var t := before[0];
      var n, next := Size(t), Step(b, t).value;
      BoundaryInside(s[n..], strings, before[1..], cut - n);
      assert s'[n..] == InsertNop(s[n..], cut - n);
      assert Walk(s, strings, b) == Walk(s[n..], strings, next) by {
        WalkStep(s, strings, b, t);
      }
      assert Walk(s', strings, b) == Walk(s'[n..], strings, next) by {
        assert s'[..n] == s[..n];
        SpellsPrefix(s, s', t, strings);
        WalkStep(s', strings, b, t);
      }
      NopInsertion(s[n..], strings, next, before[1..], cut - n);
    }
  }
}
