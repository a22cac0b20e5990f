// The device tree and its flattened structure block, stated without reference to any reader:
// sections 5.4 and 5.5 of the Devicetree Specification, in the liberal form the probe accepts
// (padding bytes, empty names and NOP placement are unconstrained).
module Devicetree {
  import opened Machine

  const DEPTH_LIMIT := 64

  const FDT_BEGIN_NODE: uint32 := 1
  const FDT_END_NODE: uint32 := 2
  const FDT_PROP: uint32 := 3
  const FDT_NOP: uint32 := 4
  const FDT_END: uint32 := 9

  datatype Property = Property(name: seq<uint8>, value: seq<uint8>)

  // Properties precede subnodes by construction.
  datatype Node = Node(name: seq<uint8>, props: seq<Property>, children: seq<Node>)

  datatype Token = BeginNode(name: seq<uint8>) | EndNode | Prop(property: Property) | Nop

  // -------------------------------------------------------------------- trees as tokens

  function Height(n: Node): nat
    decreases n, 1
  {
    1 + Tallest(n.children)
  }

  function Tallest(ns: seq<Node>): nat
    decreases ns, 0
  {
    if ns == [] then 0
    else
      var first, rest := Height(ns[0]), Tallest(ns[1..]);
      if first < rest then rest else first
  }

  function Tokens(n: Node): seq<Token>
    decreases n, 1
  {
    [BeginNode(n.name)] + PropTokens(n.props) + ForestTokens(n.children) + [EndNode]
  }

  function PropTokens(ps: seq<Property>): seq<Token> {
    if ps == [] then [] else [Prop(ps[0])] + PropTokens(ps[1..])
  }

  function ForestTokens(ns: seq<Node>): seq<Token>
    decreases ns, 0
  {
    if ns == [] then [] else Tokens(ns[0]) + ForestTokens(ns[1..])
  }

  function Strip(toks: seq<Token>): seq<Token> {
    if toks == [] then []
    else if toks[0].Nop? then Strip(toks[1..])
    else [toks[0]] + Strip(toks[1..])
  }

  // -------------------------------------------------------------------- tokens as bytes

  // `s` starts with `text` and its terminating NUL.
  ghost predicate StartsWithName(s: seq<uint8>, text: seq<uint8>) {
    && |text| < |s|
    && text == s[..|text|]
    && 0 !in text
    && s[|text|] == 0
  }

  // Bytes a token occupies in the structure block, padding included.
  function Size(t: Token): (n: nat)
    ensures n % 4 == 0 && n >= 4
  {
    match t
    case BeginNode(name) => 4 + Pad4(|name| + 1)
    case EndNode => 4
    case Prop(p) => 12 + Pad4(|p.value|)
    case Nop => 4
  }

  // `s` starts with an encoding of the token. Padding is arbitrary; a property
  // name is any NUL-terminated string that starts inside the strings block.
  ghost predicate Spells(s: seq<uint8>, t: Token, strings: seq<uint8>): (r: bool)
    ensures r ==> Size(t) <= |s|
  {
    && Size(t) <= |s|
    && match t {
         case BeginNode(name) => Be32(s, 0) == FDT_BEGIN_NODE && StartsWithName(s[4..], name)
         case EndNode => Be32(s, 0) == FDT_END_NODE
         case Prop(p) =>
           && Be32(s, 0) == FDT_PROP
           && Be32(s, 4) as nat == |p.value|
           && Be32(s, 8) as nat < |strings|
           && StartsWithName(strings[Be32(s, 8) as nat..], p.name)
           && p.value == s[12..][..|p.value|]
         case Nop => Be32(s, 0) == FDT_NOP
       }
  }

  // The whole block: the tokens one after another, then FDT_END and nothing more.
  ghost predicate Serialises(s: seq<uint8>, toks: seq<Token>, strings: seq<uint8>) {
    if toks == [] then
      |s| == 4 && Be32(s, 0) == FDT_END
    else
      Spells(s, toks[0], strings) && Serialises(s[Size(toks[0])..], toks[1..], strings)
  }

  ghost predicate Spelling(block: seq<uint8>, strings: seq<uint8>, root: Node, toks: seq<Token>) {
    && Serialises(block, toks, strings)
    && Strip(toks) == Tokens(root)
  }

  // The block holds exactly one tree: unnamed root, bounded nesting, NOPs anywhere.
  ghost predicate Encodes(block: seq<uint8>, strings: seq<uint8>, root: Node) {
    && root.name == []
    && Height(root) <= DEPTH_LIMIT
    && exists toks :: Spelling(block, strings, root, toks)
  }

  // -------------------------------------------------------------------- small facts

  lemma {:induction false} StripAppend(a: seq<Token>, b: seq<Token>)
    ensures Strip(a + b) == Strip(a) + Strip(b)
  {
    if a == [] {
      assert a + b == b;
    } else {
      assert (a + b)[0] == a[0] && (a + b)[1..] == a[1..] + b;
      StripAppend(a[1..], b);
      if !a[0].Nop? {
        assert Strip(a + b) == [a[0]] + (Strip(a[1..]) + Strip(b));
      }
    }
  }

  lemma {:induction false} PropTokensAppend(ps: seq<Property>, p: Property)
    ensures PropTokens(ps + [p]) == PropTokens(ps) + [Prop(p)]
  {
    if ps == [] {
      assert ps + [p] == [p];
    } else {
      PropTokensAppend(ps[1..], p);
      assert (ps + [p])[1..] == ps[1..] + [p];
    }
  }

  lemma {:induction false} ForestTokensAppend(ns: seq<Node>, n: Node)
    ensures ForestTokens(ns + [n]) == ForestTokens(ns) + Tokens(n)
  {
    if ns == [] {
      assert ns + [n] == [n];
    } else {
      ForestTokensAppend(ns[1..], n);
      assert (ns + [n])[1..] == ns[1..] + [n];
    }
  }

  lemma {:induction false} TallestAppend(ns: seq<Node>, n: Node)
    ensures Tallest(ns + [n]) == if Tallest(ns) < Height(n) then Height(n) else Tallest(ns)
  {
    if ns == [] {
      assert ns + [n] == [n];
    } else {
      TallestAppend(ns[1..], n);
      assert (ns + [n])[1..] == ns[1..] + [n];
    }
  }

  // -------------------------------------------------------------------- one block in full

  // An unnamed root with one property, "m" = "a"; the padding bytes are 0xff.
  const SMALL_END: seq<uint8> := [0, 0, 0, 2, 0, 0, 0, 9]
  const SMALL_PROP: seq<uint8> := [0, 0, 0, 3, 0, 0, 0, 2, 0, 0, 0, 1, 0x61, 0, 0xff, 0xff]
  const SMALL_BLOCK: seq<uint8> := [0, 0, 0, 1, 0, 0xff, 0xff, 0xff] + (SMALL_PROP + SMALL_END)

  lemma SmallEnd(strings: seq<uint8>)
    ensures Serialises(SMALL_END, [EndNode], strings)
  {
    assert SMALL_END[4..] == [0, 0, 0, 9];
    assert [EndNode][1..] == [];
    assert Serialises([0, 0, 0, 9], [], strings);
  }

  lemma SmallProp()
    ensures Serialises(SMALL_PROP + SMALL_END, [Prop(Property([0x6d], [0x61, 0])), EndNode], [0x78, 0x6d, 0])
  {
    var s, toks := SMALL_PROP + SMALL_END, [Prop(Property([0x6d], [0x61, 0])), EndNode];
    SmallEnd([0x78, 0x6d, 0]);
    assert s[16..] == SMALL_END && toks[1..] == [EndNode];
    assert s[12..][..2] == [0x61, 0];
  }

  lemma SmallTree()
    ensures var p := Property([0x6d], [0x61, 0]);
            Tokens(Node([], [p], [])) == [BeginNode([]), Prop(p), EndNode]
  {
    var p := Property([0x6d], [0x61, 0]);
    assert PropTokens([p]) == [Prop(p)];
  }

  lemma SmallTokens(p: Property)
    ensures Strip([BeginNode([]), Prop(p), EndNode]) == [BeginNode([]), Prop(p), EndNode]
  {
    assert [BeginNode([]), Prop(p), EndNode][1..] == [Prop(p), EndNode] && [Prop(p), EndNode][1..] == [EndNode];
    assert Strip([EndNode]) == [EndNode];
  }

  lemma SmallBegin(rest: seq<uint8>, strings: seq<uint8>)
    ensures Spells([0, 0, 0, 1, 0, 0xff, 0xff, 0xff] + rest, BeginNode([]), strings)
  {
  }

  lemma SmallWhole(p: Property, rest: seq<uint8>, strings: seq<uint8>)
    requires Serialises(rest, [Prop(p), EndNode], strings)
    ensures Serialises([0, 0, 0, 1, 0, 0xff, 0xff, 0xff] + rest, [BeginNode([]), Prop(p), EndNode], strings)
  {
    SmallBegin(rest, strings);
    hide Spells;
    assert ([0, 0, 0, 1, 0, 0xff, 0xff, 0xff] + rest)[8..] == rest;
    assert [BeginNode([]), Prop(p), EndNode][1..] == [Prop(p), EndNode];
  }

  lemma SmallBlock()
    ensures Encodes(SMALL_BLOCK, [0x78, 0x6d, 0], Node([], [Property([0x6d], [0x61, 0])], []))
  {
    var p := Property([0x6d], [0x61, 0]);
    SmallProp();
    SmallTree();
    SmallTokens(p);
    SmallWhole(p, SMALL_PROP + SMALL_END, [0x78, 0x6d, 0]);
    hide Spells, Tokens, Strip, Serialises;
    assert Spelling(SMALL_BLOCK, [0x78, 0x6d, 0], Node([], [p], []), [BeginNode([]), Prop(p), EndNode]);
  }
}
