// Printing a JSON value onto the end of a text, in the order a writer produces it, and
// the proof that this is the printed form of the value.
module JsonAppend {
  import opened Machine
  import opened Json
  import opened RecordText

  function NameTo(acc: string, name: seq<uint16>, first: bool): string {
    acc + (if first then "\"" else ",\"") + Escape(name) + "\":"
  }

  function To(acc: string, v: Value): string
    decreases v, 1
  {
    match v
    case Null => acc + "null"
    case Bool(b) => acc + if b then "true" else "false"
    case Num(n) => acc + Decimal(n)
    case Str(u) => acc + "\"" + Escape(u) + "\""
    case Arr(items) => ItemsTo(acc, items) + "]"
    case Obj(members) => OpenTo(acc, members) + "}"
  }

  // An array or object whose closing bracket is still to come.
  function ItemsTo(acc: string, items: seq<Value>): string
    decreases items, 0
  {
    if items == [] then acc + "["
    else To(ItemsTo(acc, items[..|items| - 1]) + (if |items| == 1 then "" else ","), items[|items| - 1])
  }

  function OpenTo(acc: string, members: seq<Member>): string
    decreases members, 0
  {
    if members == [] then acc + "{"
    else
      var m := members[|members| - 1];
      To(NameTo(OpenTo(acc, members[..|members| - 1]), m.name, |members| == 1), m.value)
  }

  // -------------------------------------------------------------------- the printed form

  function MemberText(m: Member): string {
    Quoted(m.name) + ":" + Print(m.value)
  }

  function Body(members: seq<Member>): string {
    if members == [] then ""
    else MemberText(members[0]) + if |members| == 1 then "" else "," + Body(members[1..])
  }

  function ItemsBody(items: seq<Value>): string {
    if items == [] then ""
    else Print(items[0]) + if |items| == 1 then "" else "," + ItemsBody(items[1..])
  }

  lemma {:induction false} BodyPrints(members: seq<Member>)
    requires members != []
    ensures PrintMembers(members) == Body(members) + "}"
    decreases |members|
  {
    hide Print, Quoted;
    if |members| > 1 {
      BodyPrints(members[1..]);
    }
  }

  lemma {:induction false} ItemsBodyPrints(items: seq<Value>)
    requires items != []
    ensures PrintItems(items) == ItemsBody(items) + "]"
    decreases |items|
  {
    hide Print;
    if |items| > 1 {
      ItemsBodyPrints(items[1..]);
    }
  }

  lemma CommaJoined(a: string, b: string, c: string)
    ensures a + ("," + (b + "," + c)) == a + ("," + b) + "," + c
    ensures a + ("," + ("" + "" + c)) == a + "" + "," + c
  {
  }

  lemma {:induction false} BodyLast(members: seq<Member>, m: Member)
    ensures Body(members + [m]) == Body(members) + (if members == [] then "" else ",") + MemberText(m)
    decreases |members|
  {
    hide MemberText;
    if members == [] {
      assert members + [m] == [m];
    } else {
      var all, rest := members + [m], members[1..];
      BodyLast(rest, m);
      assert all[0] == members[0] && all[1..] == rest + [m];
      CommaJoined(MemberText(members[0]), Body(rest), MemberText(m));
    }
  }

  lemma {:induction false} ItemsBodyLast(items: seq<Value>, v: Value)
    ensures ItemsBody(items + [v]) == ItemsBody(items) + (if items == [] then "" else ",") + Print(v)
    decreases |items|
  {
    hide Print;
    if items == [] {
      assert items + [v] == [v];
    } else {
      var all, rest := items + [v], items[1..];
      ItemsBodyLast(rest, v);
      assert all[0] == items[0] && all[1..] == rest + [v];
      CommaJoined(Print(items[0]), ItemsBody(rest), Print(v));
    }
  }

  // Appending a value appends its printed form.
  lemma {:induction false} ToPrints(acc: string, v: Value)
    ensures To(acc, v) == acc + Print(v)
    decreases v, 1
  {
    hide Escape, Decimal, OpenTo, ItemsTo, PrintMembers, PrintItems, Body, ItemsBody;
    match v
    case Null =>
    case Bool(_) =>
    case Num(_) =>
    case Str(u) => assert acc + "\"" + Escape(u) + "\"" == acc + Quoted(u);
    case Arr(items) =>
      ItemsPrint(acc, items);
      EmptyBodies();
      if items != [] {
        ItemsBodyPrints(items);
        assert acc + "[" + ItemsBody(items) + "]" == acc + ("[" + (ItemsBody(items) + "]"));
      } else {
        assert acc + "[" + "" + "]" == acc + ("[" + "]");
      }
    case Obj(members) =>
      OpenPrints(acc, members);
      EmptyBodies();
      if members != [] {
        BodyPrints(members);
        assert acc + "{" + Body(members) + "}" == acc + ("{" + (Body(members) + "}"));
      } else {
        assert acc + "{" + "" + "}" == acc + ("{" + "}");
      }
  }

  lemma EmptyBodies()
    ensures Body([]) == "" && ItemsBody([]) == ""
  {
  }

  lemma {:induction false} ItemsPrint(acc: string, items: seq<Value>)
    ensures ItemsTo(acc, items) == acc + "[" + ItemsBody(items)
    decreases items, 0
  {
    hide Print, To;
    if items != [] {
      var init, last := items[..|items| - 1], items[|items| - 1];
      assert items == init + [last];
      ItemsPrint(acc, init);
      var comma := if |items| == 1 then "" else ",";
      ToPrints(ItemsTo(acc, init) + comma, last);
      ItemsBodyLast(init, last);
      Assoc(acc + "[", ItemsBody(init), comma);
      Assoc(acc + "[", ItemsBody(init) + comma, Print(last));
    }
  }

  lemma {:induction false} OpenPrints(acc: string, members: seq<Member>)
    ensures OpenTo(acc, members) == acc + "{" + Body(members)
    decreases members, 0
  {
    hide Print, To, Escape, MemberText, NameTo;
    if members != [] {
      var init, m := members[..|members| - 1], members[|members| - 1];
      assert members == init + [m];
      OpenPrints(acc, init);
      var before := acc + "{" + Body(init);
      var comma := if init == [] then "" else ",";
      ToPrints(NameTo(before, m.name, |members| == 1), m.value);
      NamedText(before, comma, m);
      BodyLast(init, m);
      Assoc(acc + "{", Body(init), comma + MemberText(m));
      Assoc(Body(init), comma, MemberText(m));
    }
  }

  lemma NamedText(before: string, comma: string, m: Member)
    requires comma == "" || comma == ","
    ensures NameTo(before, m.name, comma == "") + Print(m.value) == before + (comma + MemberText(m))
  {
    hide Print, Escape;
    assert NameTo(before, m.name, comma == "") == before + (comma + Quoted(m.name) + ":");
  }

  // -------------------------------------------------------------------- steps of a writer

  function KeyTo(acc: string, k: PlainText): string {
    NameTo(acc, UnitsOf(k), false)
  }

  function Field(k: PlainText, v: Value): Member {
    Member(UnitsOf(k), v)
  }

  // A further member of an open object.
  lemma OpenStep(acc: string, ms: seq<Member>, k: PlainText, v: Value)
    requires ms != []
    ensures OpenTo(acc, ms + [Field(k, v)]) == To(KeyTo(OpenTo(acc, ms), k), v)
  {
    var all := ms + [Field(k, v)];
    assert all[..|all| - 1] == ms;
  }

  // The first member of an object, printed with its brace in one piece.
  lemma OpenFirst(acc: string, k: PlainText, v: Value)
    ensures OpenTo(acc, [Field(k, v)]) == To(acc + ("{\"" + k + "\":"), v)
  {
    PlainEscape(k);
    assert [Field(k, v)][..0] == [];
    assert acc + "{" + "\"" + k + "\":" == acc + ("{\"" + k + "\":");
  }

  lemma ItemStep(acc: string, items: seq<Value>, v: Value)
    ensures ItemsTo(acc, items + [v]) == To(ItemsTo(acc, items) + (if items == [] then "" else ","), v)
  {
    var all := items + [v];
    assert all[..|all| - 1] == items;
  }
}
