// Why a structure block is refused, reason by reason, in terms of its bytes and the tokens
// read before: nothing here speaks of the state of a reader.
module StructureReasons {
  import opened Machine
  import opened Details
  import opened Devicetree
  import opened TreeReader
  import opened StructureWalk
  import opened StructureDefects
  import opened Blob
  import opened BlobTheorems

  // Nodes begun and not ended.
  function Nesting(toks: seq<Token>): int {
    if toks == [] then 0
    else
      Nesting(toks[..|toks| - 1])
      + match toks[|toks| - 1] case BeginNode(_) => 1 case EndNode => -1 case _ => 0
  }

  predicate AnyNode(toks: seq<Token>) {
    exists i :: 0 <= i < |toks| && toks[i].BeginNode?
  }

  // The last token that is not a NOP ends a node.
  predicate AfterSubnode(toks: seq<Token>) {
    exists i :: 0 <= i < |toks| && toks[i] == EndNode && forall j :: i < j < |toks| ==> toks[j] == Nop
  }

  // A property whose value is there, and one whose name is there too.
  predicate ValueFits(t: seq<uint8>) {
    |t| >= 12 && Be32(t, 4) as nat <= |t| - 12
  }

  predicate NameFits(t: seq<uint8>, strings: seq<uint8>) {
    |t| >= 12 && Be32(t, 8) as nat < |strings| && 0 in strings[Be32(t, 8)..]
  }

  // A node begins: no second root, a terminated name, an unnamed root, at most 64 deep.
  predicate WrongName(t: seq<uint8>, before: seq<Token>, d: Detail)
    requires |t| >= 4
  {
    var open, any, named := Nesting(before) > 0, AnyNode(before), 0 in t[4..];
    || (d == MultipleRoots && !open && any)
    || (d == NameTruncated && (open || !any) && !named)
    || (d == RootName && !any && named && t[4] != 0)
    || (d == DepthLimit && Nesting(before) == 64 && named)
  }

  // A property: inside a node, with its value and its name there, before any subnode.
  predicate WrongProperty(t: seq<uint8>, strings: seq<uint8>, before: seq<Token>, d: Detail) {
    var open := Nesting(before) > 0;
    || (d == PropertyOutsideRoot && !open)
    || (d == PropertyTruncated && open && !ValueFits(t))
    || (d == PropertyName && open && ValueFits(t) && !NameFits(t, strings))
    || (d == PropertyAfterSubnode && open && ValueFits(t) && NameFits(t, strings) && AfterSubnode(before))
  }

  // The end: after one whole tree, with nothing behind it.
  predicate WrongEnd(t: seq<uint8>, before: seq<Token>, d: Detail) {
    var whole := Nesting(before) <= 0 && AnyNode(before);
    || (d == UnterminatedNode && !whole)
    || (d == TrailingStructure && whole && |t| > 4)
  }

  // With `before` read, what follows is refused for `d`.
  predicate Wrong(t: seq<uint8>, strings: seq<uint8>, before: seq<Token>, d: Detail) {
    if |t| < 4 then d == MissingEnd
    else
      || (d == BadToken && Be32(t, 0) !in {1, 2, 3, 4, 9})
      || (Be32(t, 0) == 1 && WrongName(t, before, d))
      || (Be32(t, 0) == 2 && d == UnbalancedEndNode && Nesting(before) <= 0)
      || (Be32(t, 0) == 3 && WrongProperty(t, strings, before, d))
      || (Be32(t, 0) == 9 && WrongEnd(t, before, d))
  }

  // -------------------------------------------------------------------- the reader's state

  // What the tokens read so far say of the reader: how deep it is, whether it has a root,
  // and whether the open node has a subnode.
  lemma {:induction false} StateAfter(before: seq<Token>, b: Builder)
    requires Feed(START, before) == Some(b)
    ensures Depth(b.open) == Nesting(before)
    ensures b.open.Push? || b.roots != [] <==> AnyNode(before)
    decreases |before|
  {
    if before != [] {
      var init, last := before[..|before| - 1], before[|before| - 1];
      assert before == init + [last] && [last][1..] == [];
      FeedAppend(START, init, [last]);
      var prior := Feed(START, init).value;
      StateAfter(init, prior);
      assert Feed(prior, [last]) == Step(prior, last);
      assert AnyNode(before) <==> AnyNode(init) || last.BeginNode?;
    }
  }

  lemma {:induction false} StripLast(toks: seq<Token>)
    ensures Strip(toks) != [] && Strip(toks)[|Strip(toks)| - 1] == EndNode <==> AfterSubnode(toks)
    decreases |toks|
  {
    if toks != [] {
      var init, last := toks[..|toks| - 1], toks[|toks| - 1];
      assert toks == init + [last] && [last][1..] == [];
      StripAppend(init, [last]);
      StripLast(init);
      if last.Nop? {
        assert Strip([last]) == [];
        assert forall i :: 0 <= i < |init| ==> init[i] == toks[i];
        assert AfterSubnode(toks) <==> AfterSubnode(init);
      } else {
        assert Strip([last]) == [last];
        if last == EndNode {
          assert toks[|toks| - 1] == EndNode;
        }
      }
    }
  }

  lemma StateSays(before: seq<Token>, b: Builder)
    requires Feed(START, before) == Some(b)
    ensures Depth(b.open) == Nesting(before) && (b.open.Push? <==> Nesting(before) > 0)
    ensures b.open.Empty? ==> (b.roots != [] <==> AnyNode(before))
    ensures b.open.Push? ==> AnyNode(before)
    ensures b.open.Push? ==> (b.open.top.children != [] <==> AfterSubnode(before))
  {
    StateAfter(before, b);
    StripLast(before);
    if b.open.Push? {
      LastTokenDecidesOrder(before, b);
    }
  }

  // -------------------------------------------------------------------- the reasons

  lemma NameWrong(t: seq<uint8>, before: seq<Token>, b: Builder, d: Detail)
    requires Feed(START, before) == Some(b) && d != NoDetail && |t| >= 4
    ensures NameFault(t[4..], b) == d <==> WrongName(t, before, d)
  {
    StateSays(before, b);
    hide Feed, Nesting, AnyNode, AfterSubnode, Be32, Depth;
  }

  lemma PropertyWords(t: seq<uint8>, strings: seq<uint8>)
    requires |t| >= 4
    ensures var u := t[4..];
            && (ValueFits(t) <==> !(|u| < 8 || Be32(u, 0) as nat > |u| - 8))
            && (ValueFits(t) ==>
                  (NameFits(t, strings) <==> !(Be32(u, 4) as nat >= |strings| || 0 !in strings[Be32(u, 4)..])))
  {
    if |t| >= 12 {
      SecondWord(t);
    }
    hide Be32;
  }

  lemma SecondWord(t: seq<uint8>)
    requires |t| >= 12
    ensures Be32(t[4..], 0) == Be32(t, 4) && Be32(t[4..], 4) == Be32(t, 8)
  {
  }

  lemma PropertyWrong(t: seq<uint8>, strings: seq<uint8>, before: seq<Token>, b: Builder, d: Detail)
    requires Feed(START, before) == Some(b) && d != NoDetail && |t| >= 4
    ensures PropertyFault(t[4..], strings, b) == d <==> WrongProperty(t, strings, before, d)
  {
    StateSays(before, b);
    PropertyWords(t, strings);
    hide Feed, Nesting, AnyNode, AfterSubnode, Be32, Depth, ValueFits, NameFits;
  }

  lemma EndWrong(t: seq<uint8>, strings: seq<uint8>, before: seq<Token>, b: Builder, d: Detail)
    requires Feed(START, before) == Some(b) && d != NoDetail && |t| >= 4 && Be32(t, 0) == 9
    ensures TokenFault(t, strings, b) == d <==> WrongEnd(t, before, d)
  {
    StateSays(before, b);
    hide Feed, Nesting, AnyNode, AfterSubnode, Be32, Depth, NameFault, PropertyFault;
  }

  // The fault of a token, by its word.
  lemma FaultByWord(t: seq<uint8>, strings: seq<uint8>, b: Builder)
    requires |t| >= 4
    ensures Be32(t, 0) == 1 ==> TokenFault(t, strings, b) == NameFault(t[4..], b)
    ensures Be32(t, 0) == 2 ==> TokenFault(t, strings, b) == if b.open.Empty? then UnbalancedEndNode else NoDetail
    ensures Be32(t, 0) == 3 ==> TokenFault(t, strings, b) == PropertyFault(t[4..], strings, b)
    ensures Be32(t, 0) == 4 ==> TokenFault(t, strings, b) == NoDetail
    ensures Be32(t, 0) !in {1, 2, 3, 4, 9} ==> TokenFault(t, strings, b) == BadToken
  {
    hide Be32, NameFault, PropertyFault;
  }

  lemma FaultIsWrong(t: seq<uint8>, strings: seq<uint8>, before: seq<Token>, b: Builder, d: Detail)
    requires Feed(START, before) == Some(b) && d != NoDetail
    ensures TokenFault(t, strings, b) == d <==> Wrong(t, strings, before, d)
  {
    ShortFault(t, strings, b);
    if |t| >= 4 {
      StateSays(before, b);
      FaultByWord(t, strings, b);
      hide Be32, TokenFault, Feed, Nesting, AnyNode, AfterSubnode, NameFault, PropertyFault, Depth;
      hide WrongName, WrongProperty, WrongEnd;
      NameWrong(t, before, b, d);
      PropertyWrong(t, strings, before, b, d);
      if Be32(t, 0) == 9 {
        EndWrong(t, strings, before, b, d);
      }
    }
  }

  // The tokens `before` are the first of the block, end at `cut`, and may follow one another.
  ghost predicate Reached(s: seq<uint8>, strings: seq<uint8>, before: seq<Token>, cut: nat) {
    Boundary(s, strings, before, cut) && cut <= |s| && Feed(START, before).Some?
  }

  ghost predicate WrongSomewhere(s: seq<uint8>, strings: seq<uint8>, d: Detail) {
    exists before, cut: nat :: Reached(s, strings, before, cut) && Wrong(s[cut..], strings, before, d)
  }

  // A block is refused for `d` exactly when it is wrong in that way at a token reached.
  lemma RefusedBecause(s: seq<uint8>, strings: seq<uint8>, d: Detail)
    requires |s| % 4 == 0 && d != NoDetail
    ensures Walk(s, strings, START) == Rejected(if d == DepthLimit then Unsupported else Malformed, d) <==>
            WrongSomewhere(s, strings, d)
  {
    RefusedExactly(s, strings, FaultState(d), d);
    hide Walk, TokenFault, Boundary, Feed, Wrong;
    forall before, cut: nat
      ensures DefectAt(s, strings, START, before, cut, d) <==>
              Reached(s, strings, before, cut) && Wrong(s[cut..], strings, before, d)
    {
      if Reached(s, strings, before, cut) {
        FaultIsWrong(s[cut..], strings, before, Feed(START, before).value, d);
      }
    }
  }

  // And so for a whole blob, once its layout passes.
  lemma BlobRefusedBecause(p: seq<uint8>, d: Detail)
    requires Walkable(p) && d != NoDetail && InBounds(p)
    ensures Parse(Some(p)) ==
            Refused(if d == DepthLimit then Unsupported else Malformed, d, Be32(p, 4), Be32(p, 20), Be32(p, 24)) <==>
            WrongSomewhere(StructBlock(p), StringsBlock(p), d)
  {
    AlignedWhenWalkable(p);
    ParseWalkable(p);
    RefusedBecause(StructBlock(p), StringsBlock(p), d);
    hide Walk, WrongSomewhere, StructBlock, StringsBlock, Parse, Walkable, InBounds;
  }
}
