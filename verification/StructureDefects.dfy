// What a refused structure block has wrong with it: the reason reported names the first
// token that fails, and a tree nested too deeply is refused for just that.
module StructureDefects {
  import opened Machine
  import opened Details
  import opened Devicetree
  import opened TreeReader
  import opened StructureWalk

  // -------------------------------------------------------------------- the first defect

  // Reading along well-formed tokens leaves the verdict to what follows them.
  lemma {:induction false} WalkAlong(s: seq<uint8>, strings: seq<uint8>, b: Builder, before: seq<Token>, cut: nat)
    requires |s| % 4 == 0 && Boundary(s, strings, before, cut) && Feed(b, before).Some?
    ensures cut <= |s| && Walk(s, strings, b) == Walk(s[cut..], strings, Feed(b, before).value)
    decreases |before|
  {
    hide Walk, Spells, Size, Step;
    if before == [] {
      assert s[0..] == s;
    } else {
      var t := before[0];
      var n := Size(t);
      WalkStep(s, strings, b, t);
      WalkAlong(s[n..], strings, Step(b, t).value, before[1..], cut - n);
      assert s[n..][cut - n..] == s[cut..];
    }
  }

  // The tokens `before` are well formed, may follow one another from `b` on, and end at
  // `cut`; the token there is at fault.
  ghost predicate DefectAt(s: seq<uint8>, strings: seq<uint8>, b: Builder, before: seq<Token>, cut: nat, d: Detail) {
    && Boundary(s, strings, before, cut) && cut <= |s|
    && Feed(b, before).Some?
    && d != NoDetail && TokenFault(s[cut..], strings, Feed(b, before).value) == d
  }

  lemma {:induction false} FirstDefect(s: seq<uint8>, strings: seq<uint8>, b: Builder)
    returns (before: seq<Token>, cut: nat)
    requires |s| % 4 == 0 && OneRoot(b) && Walk(s, strings, b).Rejected?
    ensures DefectAt(s, strings, b, before, cut, Walk(s, strings, b).detail)
    decreases |s|
  {
    FaultRefused(s, strings, b);
    hide Walk, Spells, Size, Step, TokenFault, OneRoot;
    if TokenFault(s, strings, b) != NoDetail {
      before, cut := [], 0;
      assert s[0..] == s;
    } else if |s| < 4 {
      ShortFault(s, strings, b);
    } else if Be32(s, 0) == FDT_END {
      EndHead(s, strings, b);
    } else {
      var t := HeadToken(s, strings, b);
      var n, next := Size(t), Step(b, t).value;
      WalkStep(s, strings, b, t);
      before, cut := FirstDefect(s[n..], strings, next);
      assert s[n..][cut..] == s[n + cut..];
      before, cut := [t] + before, n + cut;
    }
  }

  lemma ShortFault(s: seq<uint8>, strings: seq<uint8>, b: Builder)
    ensures |s| < 4 ==> TokenFault(s, strings, b) == MissingEnd
  {
  }

  // A block is refused with a state and a reason exactly when some token, reached over
  // well-formed ones, fails for that reason.
  lemma RefusedExactly(s: seq<uint8>, strings: seq<uint8>, state: State, d: Detail)
    requires |s| % 4 == 0
    ensures Walk(s, strings, START) == Rejected(state, d) <==>
            state == FaultState(d) && exists before, cut :: DefectAt(s, strings, START, before, cut, d)
  {
    hide Walk, TokenFault, FaultState;
    if Walk(s, strings, START) == Rejected(state, d) {
      var before, cut := FirstDefect(s, strings, START);
      DefectRefused(s, strings, before, cut, d);
    }
    if exists before, cut :: DefectAt(s, strings, START, before, cut, d) {
      var before, cut :| DefectAt(s, strings, START, before, cut, d);
      DefectRefused(s, strings, before, cut, d);
    }
  }

  lemma DefectRefused(s: seq<uint8>, strings: seq<uint8>, before: seq<Token>, cut: nat, d: Detail)
    requires |s| % 4 == 0 && DefectAt(s, strings, START, before, cut, d)
    ensures Walk(s, strings, START) == Rejected(FaultState(d), d)
  {
    hide Walk, TokenFault, FaultState, Boundary;
    WalkAlong(s, strings, START, before, cut);
    FaultRefused(s[cut..], strings, Feed(START, before).value);
  }

  // -------------------------------------------------------------------- nesting

  // The tokens `before` leave as many nodes open as are allowed, and another one follows,
  // its name terminated.
  ghost predicate DeepAt(s: seq<uint8>, strings: seq<uint8>, before: seq<Token>, cut: nat) {
    && Boundary(s, strings, before, cut) && cut + 4 <= |s|
    && Feed(START, before).Some? && Depth(Feed(START, before).value.open) == DEPTH_LIMIT
    && Be32(s, cut) == FDT_BEGIN_NODE && 0 in s[cut + 4..]
  }

  ghost predicate TooDeep(s: seq<uint8>, strings: seq<uint8>) {
    exists before, cut :: DeepAt(s, strings, before, cut)
  }

  lemma DeepDefect(s: seq<uint8>, strings: seq<uint8>, before: seq<Token>, cut: nat)
    ensures DeepAt(s, strings, before, cut) <==> DefectAt(s, strings, START, before, cut, DepthLimit)
  {
    hide Boundary, Feed;
    if cut + 4 <= |s| {
      WordAfter(s, cut);
    }
    hide Be32;
  }

  lemma WordAfter(s: seq<uint8>, cut: nat)
    requires cut + 4 <= |s|
    ensures Be32(s[cut..], 0) == Be32(s, cut) && s[cut..][4..] == s[cut + 4..]
  {
  }

  // The nesting limit is reported, and as unsupported, exactly when a block nests deeper.
  lemma DepthLimitExactly(s: seq<uint8>, strings: seq<uint8>)
    requires |s| % 4 == 0
    ensures Walk(s, strings, START) == Rejected(Unsupported, DepthLimit) <==> TooDeep(s, strings)
  {
    RefusedExactly(s, strings, Unsupported, DepthLimit);
    hide Walk, DefectAt, DeepAt;
    forall before, cut
      ensures DeepAt(s, strings, before, cut) <==> DefectAt(s, strings, START, before, cut, DepthLimit)
    {
      DeepDefect(s, strings, before, cut);
    }
  }

  // -------------------------------------------------------------------- deep trees

  // Somewhere in the tokens of a tree too high for what is left of the limit, the limit is
  // reached and another node follows.
  lemma {:induction false} DeepTree(b: Builder, n: Node) returns (k: nat)
    requires Depth(b.open) <= DEPTH_LIMIT < Depth(b.open) + Height(n)
    requires b.open.Empty? ==> b.roots == [] && n.name == []
    ensures DeepPrefix(b, Tokens(n), k)
    decreases n, 1
  {
    var toks := Tokens(n);
    if Depth(b.open) == DEPTH_LIMIT {
      k := 0;
      assert toks[..0] == [];
    } else {
      var entered := Enter(b, n.name);
      var bare := n.(props := [], children := []);
      FeedOne(b, BeginNode(n.name));
      FeedProps(entered, bare, b.open, n.props);
      var head, forest := [BeginNode(n.name)] + PropTokens(n.props), ForestTokens(n.children);
      FeedAppend(b, [BeginNode(n.name)], PropTokens(n.props));
      var inside := Feed(b, head).value;
      assert inside == entered.(open := Push(n.(children := []), b.open)) by {
        assert [] + n.props == n.props;
      }
      k := DeepForest(inside, n.children);
      DeepWithin(b, head, forest, [EndNode], inside, k);
      assert toks == head + forest + [EndNode];
      k := |head| + k;
    }
  }

  lemma {:induction false} DeepForest(b: Builder, ns: seq<Node>) returns (k: nat)
    requires b.open.Push? && Depth(b.open) <= DEPTH_LIMIT < Depth(b.open) + Tallest(ns)
    ensures DeepPrefix(b, ForestTokens(ns), k)
    decreases ns, 0
  {
    var first, rest := Tokens(ns[0]), ForestTokens(ns[1..]);
    assert ForestTokens(ns) == [] + first + rest && ForestTokens(ns) == first + rest + [];
    if Depth(b.open) + Height(ns[0]) > DEPTH_LIMIT {
      k := DeepTree(b, ns[0]);
      DeepWithin(b, [], first, rest, b, k);
    } else {
      FeedTree(b, ns[0]);
      k := DeepForest(Attach(b, ns[0]), ns[1..]);
      DeepWithin(b, first, rest, [], Attach(b, ns[0]), k);
      k := |first| + k;
    }
  }

  // After `k` of the tokens the limit is reached, and the next one opens a node.
  predicate DeepPrefix(b: Builder, toks: seq<Token>, k: nat) {
    && k < |toks| && toks[k].BeginNode?
    && Feed(b, toks[..k]).Some? && Depth(Feed(b, toks[..k]).value.open) == DEPTH_LIMIT
  }

  lemma DeepWithin(b: Builder, head: seq<Token>, toks: seq<Token>, tail: seq<Token>, c: Builder, k: nat)
    requires Feed(b, head) == Some(c) && DeepPrefix(c, toks, k)
    ensures DeepPrefix(b, head + toks + tail, |head| + k)
  {
    var all := head + toks + tail;
    FeedAppend(b, head, toks[..k]);
    assert all[..|head| + k] == head + toks[..k];
    assert all[|head| + k] == toks[k];
  }

  // The same place in a token sequence with NOPs in it.
  lemma {:induction false} StripPrefix(toks: seq<Token>, k: nat) returns (j: nat)
    requires k < |Strip(toks)|
    ensures j < |toks| && Strip(toks[..j]) == Strip(toks)[..k] && toks[j] == Strip(toks)[k]
  {
    if toks[0].Nop? {
      j := StripPrefix(toks[1..], k);
      j := j + 1;
      assert toks[..j][1..] == toks[1..][..j - 1];
    } else if k == 0 {
      j := 0;
      assert toks[..0] == [];
    } else {
      j := StripPrefix(toks[1..], k - 1);
      j := j + 1;
      assert toks[..j][1..] == toks[1..][..j - 1];
      assert Strip(toks)[..k] == [toks[0]] + Strip(toks[1..])[..k - 1];
    }
  }

  // The place of a token in the bytes that spell the sequence.
  lemma {:induction false} TokenPlace(s: seq<uint8>, strings: seq<uint8>, toks: seq<Token>, j: nat) returns (cut: nat)
    requires Serialises(s, toks, strings) && j < |toks|
    ensures Boundary(s, strings, toks[..j], cut) && cut <= |s| && Spells(s[cut..], toks[j], strings)
    decreases |toks|
  {
    hide Spells, Size;
    if j == 0 {
      cut := 0;
      assert toks[..0] == [] && s[0..] == s;
    } else {
      var n := Size(toks[0]);
      cut := TokenPlace(s[n..], strings, toks[1..], j - 1);
      assert toks[..j][1..] == toks[1..][..j - 1];
      assert s[n..][cut..] == s[n + cut..];
      cut := n + cut;
    }
  }

  // A tree nested deeper than the limit, however it is spelled, is refused as unsupported.
  lemma DeepTreeRefused(s: seq<uint8>, strings: seq<uint8>, root: Node, toks: seq<Token>)
    requires |s| % 4 == 0 && Spelling(s, strings, root, toks)
    requires root.name == [] && Height(root) > DEPTH_LIMIT
    ensures TooDeep(s, strings) && Walk(s, strings, START) == Rejected(Unsupported, DepthLimit)
  {
    var k := DeepTree(START, root);
    var j := StripPrefix(toks, k);
    FeedIgnoresNops(START, toks[..j]);
    var cut := TokenPlace(s, strings, toks, j);
    BeginSeen(s, strings, toks[j], cut);
    assert DeepAt(s, strings, toks[..j], cut);
    DepthLimitExactly(s, strings);
  }

  lemma BeginSeen(s: seq<uint8>, strings: seq<uint8>, t: Token, cut: nat)
    requires cut <= |s| && t.BeginNode? && Spells(s[cut..], t, strings)
    ensures cut + 4 <= |s| && Be32(s, cut) == FDT_BEGIN_NODE && 0 in s[cut + 4..]
  {
    WordAfter(s, cut);
    assert s[cut + 4..][|t.name|] == 0;
  }
}
