// JSON texts (RFC 8259): values, their printed form, and an independent reader.
// The reader accepts a subset of the grammar: no insignificant whitespace, and numbers
// that are non-negative integers without leading zeros. Strings follow section 7,
// with every escape it lists; units are UTF-16 code units.
module Json {
  import opened Machine

  datatype Value =
    | Null
    | Bool(b: bool)
    | Num(n: nat)
    | Str(units: seq<uint16>)
    | Arr(items: seq<Value>)
    | Obj(members: seq<Member>)

  datatype Member = Member(name: seq<uint16>, value: Value)

  // -------------------------------------------------------------------- numerals

  predicate IsDigit(c: char) {
    '0' <= c <= '9'
  }

  function Digit(d: nat): char
    requires d < 10
  {
    (d + 0x30) as char
  }

  function Decimal(v: nat): (s: string)
    ensures s != "" && IsDigit(s[0])
  {
    if v < 10 then [Digit(v)] else Decimal(v / 10) + [Digit(v % 10)]
  }

  // The value of the longest run of digits at the head of `s`, after the digits of `n`.
  function Accumulate(n: nat, s: string): (nat, string)
    decreases |s|
  {
    if s == "" || !IsDigit(s[0]) then (n, s)
    else Accumulate(n * 10 + (s[0] as nat - 0x30), s[1..])
  }

  lemma {:induction false} AccumulateLength(n: nat, s: string)
    ensures |Accumulate(n, s).1| <= |s|
    ensures s != "" && IsDigit(s[0]) ==> |Accumulate(n, s).1| < |s|
    decreases |s|
  {
    if s != "" && IsDigit(s[0]) {
      AccumulateLength(n * 10 + (s[0] as nat - 0x30), s[1..]);
    }
  }

  lemma {:induction false} AccumulateDecimal(v: nat, t: string)
    ensures Accumulate(0, Decimal(v) + t) == Accumulate(v, t)
    decreases v
  {
    AccumulateDigit(if v < 10 then 0 else v / 10, v % 10, t);
    if v < 10 {
      assert Decimal(v) == [Digit(v % 10)];
    } else {
      var last := [Digit(v % 10)];
      AccumulateDecimal(v / 10, last + t);
      assert Decimal(v) == Decimal(v / 10) + last;
      hide *;
      Assoc(Decimal(v / 10), last, t);
    }
  }

  lemma AccumulateDigit(n: nat, d: nat, t: string)
    requires d < 10
    ensures Accumulate(n, [Digit(d)] + t) == Accumulate(n * 10 + d, t)
  {
    var s := [Digit(d)] + t;
    assert s[0] == Digit(d) && s[1..] == t;
  }

  lemma {:induction false} DecimalHead(v: nat)
    ensures Decimal(v)[0] == '0' <==> v == 0
    ensures forall c :: c in Decimal(v) ==> IsDigit(c)
  {
    if v >= 10 {
      DecimalHead(v / 10);
    }
  }

  function HexDigit(d: nat): (c: char)
    requires d < 16
  {
    if d < 10 then (d + 0x30) as char else (d - 10 + 0x61) as char
  }

  // Either case, as section 7 allows.
  function HexValue(c: char): Option<nat> {
    if '0' <= c <= '9' then Some(c as nat - 0x30)
    else if 'a' <= c <= 'f' then Some(c as nat - 0x61 + 10)
    else if 'A' <= c <= 'F' then Some(c as nat - 0x41 + 10)
    else None
  }

  // -------------------------------------------------------------------- string bodies

  function Hex4(c: uint16): string {
    var n := c as nat;
    [HexDigit(n / 0x1000), HexDigit(n / 0x100 % 0x10), HexDigit(n / 0x10 % 0x10), HexDigit(n % 0x10)]
  }

  // Printable ASCII stands for itself, save the quote and the backslash.
  function EscapeUnit(c: uint16): string {
    if c == 0x22 || c == 0x5c then ['\\', c as char]
    else if c < 32 || c >= 127 then ['\\', 'u'] + Hex4(c)
    else [c as char]
  }

  function Escape(u: seq<uint16>): string {
    if u == [] then "" else EscapeUnit(u[0]) + Escape(u[1..])
  }

  // The unit after a backslash, and the text that follows it.
  function UnescapeHead(s: string): (r: Option<(uint16, string)>)
    ensures r.Some? ==> |r.value.1| < |s|
  {
    if s == "" then None
    else
      match s[0]
      case '\"' => Some((0x22, s[1..]))
      case '\\' => Some((0x5c, s[1..]))
      case '/' => Some((0x2f, s[1..]))
      case 'b' => Some((0x08, s[1..]))
      case 'f' => Some((0x0c, s[1..]))
      case 'n' => Some((0x0a, s[1..]))
      case 'r' => Some((0x0d, s[1..]))
      case 't' => Some((0x09, s[1..]))
      case 'u' => if |s| < 5 then None else UnescapeHex(s[1], s[2], s[3], s[4], s[5..])
      case _ => None
  }

  function UnescapeHex(a: char, b: char, c: char, d: char, rest: string): (r: Option<(uint16, string)>)
    ensures r.Some? ==> r.value.1 == rest
  {
    var h, i, j, k := HexValue(a), HexValue(b), HexValue(c), HexValue(d);
    if h.Some? && i.Some? && j.Some? && k.Some? then
      Some(((h.value * 0x1000 + i.value * 0x100 + j.value * 0x10 + k.value) as uint16, rest))
    else None
  }

  // A string body up to its closing quote, and the text after the quote.
  function ParseBody(s: string): (r: Option<(seq<uint16>, string)>)
    ensures r.Some? ==> |r.value.1| < |s|
    decreases |s|
  {
    if s == "" then None
    else if s[0] == '\"' then Some(([], s[1..]))
    else
      var head := if s[0] == '\\' then UnescapeHead(s[1..])
                  else if ' ' <= s[0] && s[0] as nat < 0x1_0000 then Some((s[0] as uint16, s[1..]))
                  else None;
      match head
      case None => None
      case Some((c, t)) =>
        match ParseBody(t)
        case None => None
        case Some((u, rest)) => Some(([c] + u, rest))
  }

  lemma Hex4Reads(c: uint16, rest: string)
    ensures var h := Hex4(c); |h| == 4 && UnescapeHex(h[0], h[1], h[2], h[3], rest) == Some((c, rest))
  {
    var n := c as nat;
    var top3 := n / 0x10;
    var top2 := top3 / 0x10;
    assert n / 0x100 == top2 && n / 0x1000 == top2 / 0x10;
  }

  // The escaper has this reader as its inverse, and leaves no bare quote inside.
  lemma {:induction false} EscapeReads(u: seq<uint16>, rest: string)
    ensures ParseBody(Escape(u) + "\"" + rest) == Some((u, rest))
    decreases |u|
  {
    var s := Escape(u) + "\"" + rest;
    if u == [] {
      assert s == "\"" + rest;
      assert s[1..] == rest;
    } else {
      var tail := Escape(u[1..]) + "\"" + rest;
      EscapeReads(u[1..], rest);
      assert s == EscapeUnit(u[0]) + tail;
      UnitReads(u[0], tail);
      assert u == [u[0]] + u[1..];
    }
  }

  lemma UnitReads(c: uint16, tail: string)
    ensures var s := EscapeUnit(c) + tail;
            && s != "" && s[0] != '\"'
            && (if s[0] == '\\' then UnescapeHead(s[1..]) == Some((c, tail))
                else ' ' <= s[0] && s[0] as nat < 0x1_0000 && s[0] as uint16 == c && s[1..] == tail)
  {
    var s := EscapeUnit(c) + tail;
    if c == 0x22 || c == 0x5c {
      assert s[1..] == [c as char] + tail;
      assert s[1..][1..] == tail;
    } else if c < 32 || c >= 127 {
      var h := Hex4(c);
      Hex4Reads(c, tail);
      assert s[1..] == "u" + h + tail;
      assert s[1..][5..] == tail;
    }
  }

  // -------------------------------------------------------------------- printed values

  function Quoted(u: seq<uint16>): string {
    "\"" + Escape(u) + "\""
  }

  function Print(v: Value): string
    decreases v, 1
  {
    match v
    case Null => "null"
    case Bool(b) => if b then "true" else "false"
    case Num(n) => Decimal(n)
    case Str(u) => Quoted(u)
    case Arr(items) => "[" + (if items == [] then "]" else PrintItems(items))
    case Obj(members) => "{" + (if members == [] then "}" else PrintMembers(members))
  }

  // The rest of an array from its next item, closing bracket included.
  function PrintItems(items: seq<Value>): string
    requires items != []
    decreases items, 0
  {
    Print(items[0]) + if |items| == 1 then "]" else "," + PrintItems(items[1..])
  }

  function PrintMembers(members: seq<Member>): string
    requires members != []
    decreases members, 0
  {
    Quoted(members[0].name) + ":" + Print(members[0].value)
    + if |members| == 1 then "}" else "," + PrintMembers(members[1..])
  }

  // -------------------------------------------------------------------- the reader

  function ParseWord(s: string, word: string, v: Value): (r: Option<(Value, string)>)
    requires word != ""
    ensures r.Some? ==> |r.value.1| < |s|
  {
    if word <= s then Some((v, s[|word|..])) else None
  }

  function ParseNumber(s: string): (r: Option<(Value, string)>)
    requires s != "" && IsDigit(s[0])
    ensures r.Some? ==> |r.value.1| < |s|
  {
    if s[0] == '0' && |s| > 1 && IsDigit(s[1]) then None
    else
      AccumulateLength(0, s);
      var (n, rest) := Accumulate(0, s);
      Some((Num(n), rest))
  }

  function ParseValue(s: string): (r: Option<(Value, string)>)
    ensures r.Some? ==> |r.value.1| < |s|
    decreases |s|, 1
  {
    if s == "" then None
    else if s[0] == '\"' then
      match ParseBody(s[1..])
      case None => None
      case Some((u, rest)) => Some((Str(u), rest))
    else if s[0] == '[' then
      if |s| > 1 && s[1] == ']' then Some((Arr([]), s[2..]))
      else
        match ParseItems(s[1..])
        case None => None
        case Some((items, rest)) => Some((Arr(items), rest))
    else if s[0] == '{' then
      if |s| > 1 && s[1] == '}' then Some((Obj([]), s[2..]))
      else
        match ParseMembers(s[1..])
        case None => None
        case Some((members, rest)) => Some((Obj(members), rest))
    else if IsDigit(s[0]) then ParseNumber(s)
    else if s[0] == 'n' then ParseWord(s, "null", Null)
    else if s[0] == 't' then ParseWord(s, "true", Bool(true))
    else if s[0] == 'f' then ParseWord(s, "false", Bool(false))
    else None
  }

  function ParseItems(s: string): (r: Option<(seq<Value>, string)>)
    ensures r.Some? ==> |r.value.1| < |s|
    decreases |s|, 2
  {
    match ParseValue(s)
    case None => None
    case Some((v, t)) =>
      if t == "" then None
      else if t[0] == ']' then Some(([v], t[1..]))
      else if t[0] != ',' then None
      else
        match ParseItems(t[1..])
        case None => None
        case Some((vs, rest)) => Some(([v] + vs, rest))
  }

  function ParseMembers(s: string): (r: Option<(seq<Member>, string)>)
    ensures r.Some? ==> |r.value.1| < |s|
    decreases |s|, 2
  {
    if s == "" || s[0] != '\"' then None
    else
      match ParseBody(s[1..])
      case None => None
      case Some((name, t)) =>
        if t == "" || t[0] != ':' then None
        else
          match ParseValue(t[1..])
          case None => None
          case Some((v, t)) =>
            if t == "" then None
            else if t[0] == '}' then Some(([Member(name, v)], t[1..]))
            else if t[0] != ',' then None
            else
              match ParseMembers(t[1..])
              case None => None
              case Some((ms, rest)) => Some(([Member(name, v)] + ms, rest))
  }

  // A whole text is a value with nothing after it.
  function Read(s: string): Option<Value> {
    match ParseValue(s)
    case Some((v, "")) => Some(v)
    case _ => None
  }

  // -------------------------------------------------------------------- the round trip

  // A number ends where no digit follows.
  predicate Ends(rest: string) {
    rest == "" || !IsDigit(rest[0])
  }

  lemma NumReads(n: nat, rest: string)
    requires Ends(rest)
    ensures ParseValue(Decimal(n) + rest) == Some((Num(n), rest))
  {
    var s := Decimal(n) + rest;
    AccumulateDecimal(n, rest);
    DecimalHead(n);
    assert s[0] == Decimal(n)[0];
    if n == 0 {
      assert Decimal(0) == "0";
    }
  }

  lemma StrReads(u: seq<uint16>, rest: string)
    ensures ParseValue(Quoted(u) + rest) == Some((Str(u), rest))
  {
    var s := Quoted(u) + rest;
    assert s[1..] == Escape(u) + "\"" + rest;
    EscapeReads(u, rest);
  }

  // The first character of a printed value is never a closing bracket.
  lemma PrintHead(v: Value)
    ensures Print(v) != "" && Print(v)[0] != ']' && Print(v)[0] != '}'
  {
    match v
    case Num(n) => DecimalHead(n);
    case _ =>
  }

  lemma {:induction false} PrintReads(v: Value, rest: string)
    requires Ends(rest)
    ensures ParseValue(Print(v) + rest) == Some((v, rest))
    decreases v, 1
  {
    hide Escape, Decimal, ParseBody, ParseItems, ParseMembers, PrintItems, PrintMembers;
    match v
    case Num(n) => NumReads(n, rest);
    case Str(u) => StrReads(u, rest);
    case Null => assert (Print(v) + rest)[4..] == rest;
    case Bool(b) => assert (Print(v) + rest)[|Print(v)|..] == rest;
    case Arr(items) =>
      if items == [] {
        assert ("[]" + rest)[2..] == rest;
      } else {
        ItemsRead(items, rest);
        ArrReads(items, rest);
      }
    case Obj(members) =>
      if members == [] {
        assert ("{}" + rest)[2..] == rest;
      } else {
        MembersRead(members, rest);
        ObjReads(members, rest);
      }
  }

  lemma ArrReads(items: seq<Value>, rest: string)
    requires items != [] && ParseItems(PrintItems(items) + rest) == Some((items, rest))
    ensures ParseValue(Print(Arr(items)) + rest) == Some((Arr(items), rest))
  {
    hide Escape, Decimal, ParseBody, ParseItems, ParseMembers;
    var s := Print(Arr(items)) + rest;
    PrintHead(items[0]);
    assert s[1..] == PrintItems(items) + rest;
    assert s[1] == Print(items[0])[0];
  }

  lemma ObjReads(members: seq<Member>, rest: string)
    requires members != [] && ParseMembers(PrintMembers(members) + rest) == Some((members, rest))
    ensures ParseValue(Print(Obj(members)) + rest) == Some((Obj(members), rest))
  {
    hide Escape, Decimal, ParseBody, ParseItems, ParseMembers;
    var s := Print(Obj(members)) + rest;
    assert s[1..] == PrintMembers(members) + rest;
    assert s[1] == '\"';
  }

  lemma {:induction false} ItemsRead(items: seq<Value>, rest: string)
    requires items != []
    ensures ParseItems(PrintItems(items) + rest) == Some((items, rest))
    decreases items, 0
  {
    hide Escape, Decimal, ParseBody, Print, ParseValue;
    var s := PrintItems(items) + rest;
    var more := if |items| == 1 then "]" + rest else "," + (PrintItems(items[1..]) + rest);
    assert s == Print(items[0]) + more;
    PrintReads(items[0], more);
    if |items| == 1 {
      assert more[1..] == rest;
      assert items == [items[0]];
    } else {
      ItemsRead(items[1..], rest);
      assert more[1..] == PrintItems(items[1..]) + rest;
      assert items == [items[0]] + items[1..];
    }
  }

  lemma {:induction false} MembersRead(members: seq<Member>, rest: string)
    requires members != []
    ensures ParseMembers(PrintMembers(members) + rest) == Some((members, rest))
    decreases members, 0
  {
    hide Escape, Decimal, ParseBody, Print, ParseValue;
    var m := members[0];
    var s := PrintMembers(members) + rest;
    var more := if |members| == 1 then "}" + rest else "," + (PrintMembers(members[1..]) + rest);
    var value := Print(m.value) + more;
    assert s == "\"" + (Escape(m.name) + "\"" + (":" + value));
    EscapeReads(m.name, ":" + value);
    assert s[1..] == Escape(m.name) + "\"" + (":" + value);
    assert (":" + value)[1..] == value;
    PrintReads(m.value, more);
    if |members| == 1 {
      assert more[1..] == rest;
      assert members == [m];
    } else {
      MembersRead(members[1..], rest);
      assert more[1..] == PrintMembers(members[1..]) + rest;
      assert members == [m] + members[1..];
    }
  }

  // Printing is unambiguous: every value is read back as itself.
  lemma RoundTrip(v: Value)
    ensures Read(Print(v)) == Some(v)
  {
    PrintReads(v, "");
    assert Print(v) + "" == Print(v);
  }

  // The notation itself, on small values: brackets and separators, words, escapes.
  lemma ListNotation(a: Value, b: Value)
    ensures Print(Arr([])) == "[]" && Print(Arr([a, b])) == "[" + Print(a) + "," + Print(b) + "]"
  {
    ItemsNotation(a, b);
    hide Quoted, Decimal, PrintMembers, PrintItems;
  }

  lemma ItemsNotation(a: Value, b: Value)
    ensures PrintItems([a, b]) == Print(a) + "," + Print(b) + "]"
  {
    hide Print;
    assert [a, b][1..] == [b];
    assert PrintItems([b]) == Print(b) + "]";
    assert PrintItems([a, b]) == Print(a) + ("," + (Print(b) + "]"));
  }

  lemma ObjectNotation(m: Member, n: Member)
    ensures Print(Obj([])) == "{}"
    ensures Print(Obj([m, n])) ==
            "{" + Quoted(m.name) + ":" + Print(m.value) + "," + Quoted(n.name) + ":" + Print(n.value) + "}"
  {
    MembersNotation(m, n);
    hide Quoted, Decimal, PrintMembers, PrintItems;
  }

  lemma MembersNotation(m: Member, n: Member)
    ensures PrintMembers([m, n]) ==
            Quoted(m.name) + ":" + Print(m.value) + "," + Quoted(n.name) + ":" + Print(n.value) + "}"
  {
    hide Quoted, Print;
    assert [m, n][1..] == [n];
    var last := Quoted(n.name) + ":" + Print(n.value) + "}";
    assert PrintMembers([n]) == last;
    assert PrintMembers([m, n]) == Quoted(m.name) + ":" + Print(m.value) + ("," + last);
  }

  lemma WordNotation()
    ensures Print(Null) == "null" && Print(Bool(true)) == "true" && Print(Bool(false)) == "false"
    ensures Quoted([0x78]) == "\"x\"" && EscapeUnit(0x22) == "\\\"" && EscapeUnit(0x5c) == "\\\\"
    ensures EscapeUnit(0xd8af) == "\\ud8af"
  {
    assert Escape([0x78]) == "x";
  }
}
