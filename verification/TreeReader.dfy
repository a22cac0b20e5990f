// A reader that builds the tree token by token with a stack of open nodes, and the proof
// that it inverts `Tokens`: it accepts exactly the token sequences of one bounded,
// unnamed-root tree, and rebuilds that tree.
module TreeReader {
  import opened Machine
  import opened Devicetree

  // The nodes entered and not yet left, innermost on top, each with the properties and
  // finished subnodes seen so far.
  datatype Stack = Empty | Push(top: Node, below: Stack)

  function Depth(s: Stack): nat {
    if s.Empty? then 0 else 1 + Depth(s.below)
  }

  // `roots` are the finished top-level nodes.
  datatype Builder = Builder(open: Stack, roots: seq<Node>)

  const START := Builder(Empty, [])

  // One finished subnode for the innermost open node, or a finished root.
  function Attach(b: Builder, n: Node): (r: Builder)
    ensures Depth(r.open) == Depth(b.open)
  {
    match b.open
    case Empty => b.(roots := b.roots + [n])
    case Push(top, below) => b.(open := Push(top.(children := top.children + [n]), below))
  }

  function Enter(b: Builder, name: seq<uint8>): Builder {
    b.(open := Push(Node(name, [], []), b.open))
  }

  function Leave(b: Builder): Builder
    requires b.open.Push?
  {
    Attach(b.(open := b.open.below), b.open.top)
  }

  function AddProperty(b: Builder, p: Property): Builder
    requires b.open.Push?
  {
    b.(open := b.open.(top := b.open.top.(props := b.open.top.props + [p])))
  }

  predicate MayEnter(b: Builder, name: seq<uint8>) {
    && Depth(b.open) < DEPTH_LIMIT
    && (b.open.Empty? ==> b.roots == [] && name == [])
  }

  function Step(b: Builder, t: Token): Option<Builder> {
    match t
    case BeginNode(name) => if MayEnter(b, name) then Some(Enter(b, name)) else None
    case EndNode => if b.open.Push? then Some(Leave(b)) else None
    case Prop(p) => if b.open.Push? && b.open.top.children == [] then Some(AddProperty(b, p)) else None
    case Nop => Some(b)
  }

  function Feed(b: Builder, toks: seq<Token>): Option<Builder>
    decreases |toks|
  {
    if toks == [] then Some(b)
    else
      match Step(b, toks[0])
      case None => None
      case Some(next) => Feed(next, toks[1..])
  }

  lemma {:induction false} FeedAppend(b: Builder, x: seq<Token>, y: seq<Token>)
    ensures Feed(b, x + y) == match Feed(b, x) case None => None case Some(c) => Feed(c, y)
    decreases |x|
  {
    if x == [] {
      assert x + y == y;
    } else {
      assert (x + y)[1..] == x[1..] + y;
      match Step(b, x[0])
      case None =>
      case Some(next) => FeedAppend(next, x[1..], y);
    }
  }

  lemma FeedOne(b: Builder, t: Token)
    ensures Feed(b, [t]) == Step(b, t)
  {
    assert [t][1..] == [];
  }

  lemma {:induction false} FeedIgnoresNops(b: Builder, toks: seq<Token>)
    ensures Feed(b, Strip(toks)) == Feed(b, toks)
    decreases |toks|
  {
    if toks == [] {
    } else if toks[0].Nop? {
      FeedIgnoresNops(b, toks[1..]);
    } else {
      assert Strip(toks)[1..] == Strip(toks[1..]);
      match Step(b, toks[0])
      case None =>
      case Some(next) => FeedIgnoresNops(next, toks[1..]);
    }
  }

  // -------------------------------------------------------------------- every tree is accepted

  lemma {:induction false} FeedProps(b: Builder, n: Node, below: Stack, ps: seq<Property>)
    requires b.open == Push(n, below) && n.children == []
    ensures Feed(b, PropTokens(ps)) == Some(b.(open := Push(n.(props := n.props + ps), below)))
    decreases |ps|
  {
    if ps == [] {
      assert n.props + ps == n.props;
    } else {
      assert PropTokens(ps)[1..] == PropTokens(ps[1..]);
      assert n.props + [ps[0]] + ps[1..] == n.props + ps;
      FeedProps(AddProperty(b, ps[0]), n.(props := n.props + [ps[0]]), below, ps[1..]);
    }
  }

  // Feeding the tokens of a whole subtree attaches exactly that subtree.
  lemma {:induction false} FeedTree(b: Builder, n: Node)
    requires Depth(b.open) + Height(n) <= DEPTH_LIMIT
    requires b.open.Empty? ==> b.roots == [] && n.name == []
    ensures Feed(b, Tokens(n)) == Some(Attach(b, n))
    decreases n, 1
  {
    var begin, props, kids := [BeginNode(n.name)], PropTokens(n.props), ForestTokens(n.children);
    var bare := Node(n.name, [], []);
    var entered := Enter(b, n.name);
    FeedOne(b, begin[0]);
    FeedProps(entered, bare, b.open, n.props);
    assert [] + n.props == n.props;
    var filled := b.(open := Push(bare.(props := n.props), b.open));
    FeedForest(filled, bare.(props := n.props), b.open, n.children);
    assert [] + n.children == n.children;
    var full := b.(open := Push(n, b.open));
    FeedOne(full, EndNode);
    FeedAppend(b, begin, props);
    FeedAppend(b, begin + props, kids);
    FeedAppend(b, begin + props + kids, [EndNode]);
  }

  lemma {:induction false} FeedForest(b: Builder, n: Node, below: Stack, ns: seq<Node>)
    requires b.open == Push(n, below) && Depth(b.open) + Tallest(ns) <= DEPTH_LIMIT
    ensures Feed(b, ForestTokens(ns)) == Some(b.(open := Push(n.(children := n.children + ns), below)))
    decreases ns, 0
  {
    if ns == [] {
      assert n.children + ns == n.children;
    } else {
      FeedTree(b, ns[0]);
      FeedAppend(b, Tokens(ns[0]), ForestTokens(ns[1..]));
      assert n.children + [ns[0]] + ns[1..] == n.children + ns;
      FeedForest(Attach(b, ns[0]), n.(children := n.children + [ns[0]]), below, ns[1..]);
    }
  }

  // -------------------------------------------------------------------- nothing else is

  // The tokens consumed on the way to a builder state.
  function Trail(b: Builder): seq<Token> {
    ForestTokens(b.roots) + OpenTrail(b.open)
  }

  function OpenTrail(open: Stack): seq<Token> {
    match open
    case Empty => []
    case Push(n, below) => OpenTrail(below) + Opening(n)
  }

  function Opening(n: Node): seq<Token> {
    [BeginNode(n.name)] + PropTokens(n.props) + ForestTokens(n.children)
  }

  // What every reachable state satisfies.
  predicate Sound(b: Builder) {
    && SoundStack(b.open)
    && (b.open.Push? ==> b.roots == [])
    && (b.roots == [] || (|b.roots| == 1 && b.roots[0].name == [] && Height(b.roots[0]) <= DEPTH_LIMIT))
  }

  predicate SoundStack(s: Stack) {
    s.Push? ==>
      && Depth(s.below) + Height(s.top) <= DEPTH_LIMIT
      && (s.below.Empty? ==> s.top.name == [])
      && SoundStack(s.below)
  }

  lemma AddPropertyTrail(b: Builder, p: Property)
    requires Sound(b) && b.open.Push? && b.open.top.children == []
    ensures Sound(AddProperty(b, p))
    ensures Trail(AddProperty(b, p)) == Trail(b) + [Prop(p)]
  {
    var top := b.open.top;
    PropTokensAppend(top.props, p);
    assert Opening(top.(props := top.props + [p])) == Opening(top) + [Prop(p)];
  }

  lemma LeaveSound(b: Builder)
    requires Sound(b) && b.open.Push?
    ensures Sound(Leave(b))
  {
    assert SoundStack(b.open.below);
    match b.open.below
    case Empty =>
    case Push(parent, under) => TallestAppend(parent.children, b.open.top);
  }

  lemma LeaveTrail(b: Builder)
    requires Sound(b) && b.open.Push?
    ensures Trail(Leave(b)) == Trail(b) + [EndNode]
  {
    var top := b.open.top;
    assert Tokens(top) == Opening(top) + [EndNode];
    match b.open.below
    case Empty =>
      ForestTokensAppend(b.roots, top);
    case Push(parent, under) =>
      ForestTokensAppend(parent.children, top);
      assert Opening(parent.(children := parent.children + [top])) == Opening(parent) + Tokens(top);
      assert OpenTrail(b.open) == OpenTrail(under) + Opening(parent) + Opening(top);
  }

  lemma StepTrail(b: Builder, t: Token)
    requires Sound(b) && Step(b, t).Some?
    ensures Sound(Step(b, t).value)
    ensures Trail(Step(b, t).value) == Trail(b) + Strip([t])
  {
    assert [t][1..] == [];
    match t
    case BeginNode(name) => assert Opening(Node(name, [], [])) == [t];
    case EndNode => LeaveSound(b); LeaveTrail(b);
    case Prop(p) => AddPropertyTrail(b, p);
    case Nop =>
  }

  lemma {:induction false} FeedTrail(b: Builder, toks: seq<Token>)
    requires Sound(b) && Feed(b, toks).Some?
    ensures Sound(Feed(b, toks).value)
    ensures Trail(Feed(b, toks).value) == Trail(b) + Strip(toks)
    decreases |toks|
  {
    if toks != [] {
      StepTrail(b, toks[0]);
      FeedTrail(Step(b, toks[0]).value, toks[1..]);
      assert toks == [toks[0]] + toks[1..];
      StripAppend([toks[0]], toks[1..]);
    }
  }

  // The reader finishes with one root exactly on the token sequences of a bounded,
  // unnamed-root tree, and the root it built is that tree.
  lemma ReaderInvertsTokens(toks: seq<Token>, root: Node)
    ensures Feed(START, toks) == Some(Builder(Empty, [root])) <==>
            Strip(toks) == Tokens(root) && root.name == [] && Height(root) <= DEPTH_LIMIT
  {
    assert Trail(START) == [];
    if Feed(START, toks) == Some(Builder(Empty, [root])) {
      FeedTrail(START, toks);
      assert [root][1..] == [];
      assert Trail(Builder(Empty, [root])) == Tokens(root);
    }
    if Strip(toks) == Tokens(root) && root.name == [] && Height(root) <= DEPTH_LIMIT {
      FeedTree(START, root);
      FeedIgnoresNops(START, toks);
      assert START.roots + [root] == [root];
    }
  }

  // Hence a token sequence spells at most one such tree.
  lemma TokensInjective(a: Node, b: Node)
    requires a.name == [] && Height(a) <= DEPTH_LIMIT
    requires b.name == [] && Height(b) <= DEPTH_LIMIT
    requires Tokens(a) == Tokens(b)
    ensures a == b
  {
    FeedTree(START, a);
    FeedTree(START, b);
    assert Attach(START, a).roots[0] == Attach(START, b).roots[0];
  }

  // -------------------------------------------------------------------- the ordering bit

  // Properties must precede subnodes; the reader looks at the subnodes collected so far,
  // but the last token that is not a NOP already decides it.
  lemma {:induction false} LastTokenDecidesOrder(toks: seq<Token>, b: Builder)
    requires Feed(START, toks) == Some(b) && b.open.Push?
    ensures b.open.top.children != [] <==> Strip(toks) != [] && Strip(toks)[|Strip(toks)| - 1] == EndNode
    decreases |toks|
  {
    var before, last := toks[..|toks| - 1], toks[|toks| - 1];
    assert toks == before + [last];
    FeedAppend(START, before, [last]);
    StripAppend(before, [last]);
    var prior := Feed(START, before).value;
    FeedOne(prior, last);
    assert [last][1..] == [];
    if last.Nop? {
      LastTokenDecidesOrder(before, prior);
    }
  }
}
