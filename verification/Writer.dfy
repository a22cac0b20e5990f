// The bounded output buffer. `full` is the unbounded text asked for; the buffer always
// holds the longest prefix of it that leaves room for the terminating NUL.
module WriterModel {
  import opened Machine
  import opened Json

  function Min(a: nat, b: nat): nat {
    if a < b then a else b
  }

  class Writer {
    const data: array<char>
    const capacity: uint64
    var length: uint64
    var truncated: bool
    ghost var full: string

    constructor (buffer: array<char>)
      requires buffer.Length < 0x1_0000_0000_0000_0000
      ensures Valid() && data == buffer && capacity as nat == buffer.Length
      ensures full == "" && length == 0 && !truncated
    {
      data, capacity, length, truncated, full := buffer, buffer.Length as uint64, 0, false, "";
    }

    // Bytes that fit beside the NUL.
    function Room(): nat {
      if capacity == 0 then 0 else capacity as nat - 1
    }

    ghost predicate Valid()
      reads this, data
    {
      && data.Length == capacity as nat
      && length as nat == Min(|full|, Room())
      && data[..length] == full[..length]
      && (truncated <==> |full| > Room())
    }

    // C sees the kept prefix as a string.
    ghost predicate Terminated()
      reads this, data
      requires Valid()
    {
      capacity > 0 ==> data[length] == '\0'
    }

    // `s` is the content of the C string, its terminator excluded.
    method Put(s: string)
      requires Valid()
      modifies this`length, this`truncated, this`full, data
      ensures Valid() && full == old(full) + s && Terminated()
    {
      var i := 0;
      while i < |s|
        invariant 0 <= i <= |s|
        invariant Valid() && full == old(full) + s[..i]
      {
        assert old(full) + s[..i + 1] == full + [s[i]];
        Append(s[i]);
        i := i + 1;
      }
      assert s[..|s|] == s;
      if capacity > 0 {
        ghost var kept := data[..length];
        data[length] := '\0';
        assert data[..length] == kept;
      }
    }

    // The loop body of put: keep the character if it fits, else remember the loss.
    method Append(c: char)
      requires Valid()
      modifies this`length, this`truncated, this`full, data
      ensures Valid() && full == old(full) + [c]
    {
      full := full + [c];
      if length + 1 < capacity {
        data[length] := c;
        length := length + 1;
        assert data[..length] == old(data[..length]) + [c];
      } else {
        truncated := true;
      }
    }

    // unit: one code unit of a JSON string body.
    method Unit(c: uint16)
      requires Valid()
      modifies this`length, this`truncated, this`full, data
      ensures Valid() && full == old(full) + EscapeUnit(c) && Terminated()
    {
      if c == 0x22 || c == 0x5c {
        Put(['\\', c as char]);
      } else if c < 32 || c >= 127 {
        var n := c as nat;
        Put(['\\', 'u', HexDigit(n / 0x1000 % 0x10), HexDigit(n / 0x100 % 0x10), HexDigit(n / 0x10 % 0x10),
             HexDigit(n % 0x10)]);
        assert ['\\', 'u'] + Hex4(c) ==
               ['\\', 'u', HexDigit(n / 0x1000 % 0x10), HexDigit(n / 0x100 % 0x10), HexDigit(n / 0x10 % 0x10),
                HexDigit(n % 0x10)];
      } else {
        Put([c as char]);
      }
    }

    // escaped16
    method Escaped16(text: seq<uint16>)
      requires Valid()
      modifies this`length, this`truncated, this`full, data
      ensures Valid() && full == old(full) + Escape(text)
      ensures text != [] || old(Terminated()) ==> Terminated()
    {
      assert Escape(text[..0]) == "";
      hide *;
      var i := 0;
      while i < |text|
        invariant 0 <= i <= |text|
        invariant Valid() && full == old(full) + Escape(text[..i])
        invariant i > 0 || old(Terminated()) ==> Terminated()
      {
        EscapeNext(old(full), text, i);
        Unit(text[i]);
        i := i + 1;
      }
      assert text[..|text|] == text;
    }

    // escaped: the bytes of a C string, up to its NUL.
    method Escaped(s: seq<uint8>)
      requires Valid() && Strlen(s) < |s|
      modifies this`length, this`truncated, this`full, data
      ensures Valid() && full == old(full) + Escape(Wide(Text(s)))
      ensures Text(s) != [] || old(Terminated()) ==> Terminated()
    {
      StrlenMeans(s);
      assert Escape(Wide(s[..0])) == "";
      assert Text(s) == s[..Strlen(s)];
      hide *;
      var i := 0;
      while s[i] != 0
        invariant 0 <= i <= Strlen(s) < |s|
        invariant Valid() && full == old(full) + Escape(Wide(s[..i]))
        invariant i > 0 || old(Terminated()) ==> Terminated()
        decreases |s| - i
      {
        EscapeNextByte(old(full), s, i);
        Unit(s[i] as uint16);
        i := i + 1;
      }
    }

    // number: the decimal numeral.
    method Number(v: uint64)
      requires Valid()
      modifies this`length, this`truncated, this`full, data
      ensures Valid() && full == old(full) + Decimal(v as nat) && Terminated()
    {
      hide Valid, Decimal;
      var b, i := DecimalBuffer(v);
      Put(b[i..20]);
    }

    // hex: the quoted, zero-padded, 0x-prefixed form.
    method Hex(v: uint64)
      requires Valid()
      modifies this`length, this`truncated, this`full, data
      ensures Valid() && full == old(full) + ("\"" + HexText(v) + "\"") && Terminated()
    {
      hide Valid;
      var b := HexBuffer(v);
      Put(b[..20]);
    }
  }

  // The digits still to be written before the ones in the buffer.
  ghost function Pending(rest: uint64, first: bool): string {
    if rest == 0 && !first then "" else Decimal(rest as nat)
  }

  lemma PendingEnds(v: uint64)
    ensures Pending(v, true) == Decimal(v as nat) && Pending(0, false) == ""
  {
  }

  // One more character in front of those from `i` on.
  method PutBefore(b: array<char>, i: uint64, c: char)
    requires b.Length == 21 && 0 < i <= 20
    modifies b
    ensures b[i - 1..20] == [c] + old(b[i..20])
  {
    b[i - 1] := c;
  }

  // The digits, filled in from the end of a 21-byte buffer by a loop that runs at least once.
  method DecimalBuffer(v: uint64) returns (b: array<char>, i: uint64)
    ensures fresh(b) && b.Length == 21 && i < 20 && b[i..20] == Decimal(v as nat)
  {
    TwentyDigits();
    PendingEnds(v);
    assert (v as nat) < Pow10(20);
    hide *;
    b := new char[21](_ => '\0');
    i := 20;
    var rest, first := v, true;
    while first || rest != 0
      invariant i <= 20 && (first <==> i == 20)
      invariant (rest as nat) < Pow10(i as nat)
      invariant Pending(rest, first) + b[i..20] == Decimal(v as nat)
      decreases first, rest
    {
      DecimalStep(rest, first, i as nat);
      var digit := Digit((rest % 10) as nat);
      Assoc(Pending(rest / 10, false), [digit], b[i..20]);
      PutBefore(b, i, digit);
      i, rest, first := i - 1, rest / 10, false;
    }
  }

  // The 20 characters of the quoted form, filled in from the end, in a 21-byte buffer.
  method HexBuffer(v: uint64) returns (b: array<char>)
    ensures fresh(b) && b.Length == 21 && b[..20] == "\"" + HexText(v) + "\""
  {
    b := new char[21](_ => '\0');
    b[0], b[1], b[2], b[19] := '\"', '0', 'x', '\"';
    NoDigits();
    hide HexDigits, HexDigit;
    var rest := v;
    var i: uint64 := 0;
    while i < 16
      invariant 0 <= i <= 16
      invariant b[0] == '\"' && b[1] == '0' && b[2] == 'x' && b[19] == '\"'
      invariant HexDigits(v as nat, 16) == HexDigits(rest as nat, 16 - i as nat) + b[19 - i..19]
    {
      ghost var tail := b[19 - i..19];
      HexStep(rest, 16 - i as nat);
      Assoc(HexDigits((rest / 16) as nat, 15 - i as nat), [HexDigit((rest % 16) as nat)], tail);
      b[18 - i] := HexDigit((rest % 16) as nat);
      assert b[18 - i..19] == [HexDigit((rest % 16) as nat)] + tail;
      rest := rest / 16;
      i := i + 1;
    }
    assert b[..20] == ['\"', '0', 'x'] + b[3..19] + ['\"'];
    assert b[..20] == "\"" + HexText(v) + "\"";
  }

  function Wide(s: seq<uint8>): seq<uint16> {
    seq(|s|, i requires 0 <= i < |s| => s[i] as uint16)
  }

  lemma WideAppend(s: seq<uint8>, i: nat)
    requires i < |s|
    ensures Wide(s[..i + 1]) == Wide(s[..i]) + [s[i] as uint16]
  {
  }

  // One more unit of a text, escaped after the ones before it.
  lemma EscapeNext(before: string, text: seq<uint16>, i: nat)
    requires i < |text|
    ensures before + Escape(text[..i + 1]) == before + Escape(text[..i]) + EscapeUnit(text[i])
  {
    EscapeAppend(text[..i], text[i]);
    hide Escape, EscapeUnit;
    assert text[..i + 1] == text[..i] + [text[i]];
    Assoc(before, Escape(text[..i]), EscapeUnit(text[i]));
  }

  lemma EscapeNextByte(before: string, s: seq<uint8>, i: nat)
    requires i < |s|
    ensures before + Escape(Wide(s[..i + 1])) == before + Escape(Wide(s[..i])) + EscapeUnit(s[i] as uint16)
  {
    EscapeAppend(Wide(s[..i]), s[i] as uint16);
    WideAppend(s, i);
    hide Escape, EscapeUnit, Wide;
    Assoc(before, Escape(Wide(s[..i])), EscapeUnit(s[i] as uint16));
  }

  lemma {:induction false} EscapeAppend(u: seq<uint16>, c: uint16)
    ensures Escape(u + [c]) == Escape(u) + EscapeUnit(c)
  {
    if u == [] {
      assert u + [c] == [c];
    } else {
      hide EscapeUnit;
      EscapeAppend(u[1..], c);
      assert (u + [c])[0] == u[0] && (u + [c])[1..] == u[1..] + [c];
      Assoc(EscapeUnit(u[0]), Escape(u[1..]), EscapeUnit(c));
    }
  }

  // -------------------------------------------------------------------- numeral sizes

  function Pow10(n: nat): nat {
    if n == 0 then 1 else 10 * Pow10(n - 1)
  }

  // Any 64-bit number has at most twenty digits, so the buffer index never passes 0.
  lemma TwentyDigits()
    ensures Pow10(20) > UINT64_MAX as nat && Pow10(10) > 0xffff_ffff
  {
    assert Pow10(5) == 100000;
    assert Pow10(10) == 100000 * Pow10(5);
    assert Pow10(15) == 100000 * Pow10(10);
    assert Pow10(20) == 100000 * Pow10(15);
  }

  // One turn of the loop: the last digit is split off, and one position suffices for it.
  lemma DecimalStep(v: uint64, first: bool, i: nat)
    requires (v as nat) < Pow10(i) && (v != 0 || first) && (first ==> i == 20)
    ensures i > 0 && ((v / 10) as nat) < Pow10(i - 1)
    ensures Pending(v, first) == Pending(v / 10, false) + [Digit((v % 10) as nat)]
  {
  }

  lemma {:induction false} DecimalLength(v: nat, n: nat)
    requires 0 < n && v < Pow10(n)
    ensures |Decimal(v)| <= n
  {
    if v >= 10 {
      DecimalLength(v / 10, n - 1);
    }
  }

  // The `n` low hexadecimal digits.
  function HexDigits(v: nat, n: nat): (s: string)
    ensures |s| == n
  {
    if n == 0 then "" else HexDigits(v / 16, n - 1) + [HexDigit(v % 16)]
  }

  lemma HexStep(v: uint64, n: nat)
    requires n > 0
    ensures HexDigits(v as nat, n) == HexDigits((v / 16) as nat, n - 1) + [HexDigit((v % 16) as nat)]
  {
  }

  lemma NoDigits()
    ensures forall v :: HexDigits(v, 0) == ""
  {
  }

  function HexText(v: uint64): string {
    "0x" + HexDigits(v as nat, 16)
  }

  // The value of a string of hexadecimal digits.
  function HexNumber(s: string): Option<nat> {
    if s == "" then Some(0)
    else
      match (HexNumber(s[..|s| - 1]), HexValue(s[|s| - 1]))
      case (Some(high), Some(low)) => Some(high * 16 + low)
      case _ => None
  }

  function Pow16(n: nat): nat {
    if n == 0 then 1 else 16 * Pow16(n - 1)
  }

  lemma {:induction false} HexReads(v: nat, n: nat)
    requires v < Pow16(n)
    ensures HexNumber(HexDigits(v, n)) == Some(v)
  {
    if n > 0 {
      HexReads(v / 16, n - 1);
      assert HexDigits(v, n)[..n - 1] == HexDigits(v / 16, n - 1);
    }
  }

  // Sixteen digits are enough for any 64-bit value, and give it back.
  lemma HexTextReads(v: uint64)
    ensures |HexText(v)| == 18 && HexText(v)[..2] == "0x" && HexNumber(HexText(v)[2..]) == Some(v as nat)
  {
    assert Pow16(4) == 0x1_0000;
    assert Pow16(8) == 0x1_0000 * Pow16(4);
    assert Pow16(12) == 0x1_0000 * Pow16(8);
    assert Pow16(16) == 0x1_0000 * Pow16(12);
    HexReads(v as nat, 16);
    assert HexText(v)[2..] == HexDigits(v as nat, 16);
  }

  lemma {:induction false} EscapeLength(u: seq<uint16>)
    ensures |Escape(u)| <= 6 * |u|
  {
    if u != [] {
      EscapeLength(u[1..]);
    }
  }

  // Quote and backslash follow a backslash, other printable ASCII stands for itself, and
  // every other unit is a backslash, 'u' and four hexadecimal digits that read as it.
  lemma EscapeForm(c: uint16)
    ensures var e := EscapeUnit(c);
            if c == 0x22 || c == 0x5c then e == ['\\', c as char]
            else if 0x20 <= c < 0x7f then e == [c as char]
            else |e| == 6 && e[0] == '\\' && e[1] == 'u' && HexNumber(e[2..]) == Some(c as nat)
  {
    if c < 32 || c >= 127 {
      var n := c as nat;
      FourDigits(n);
      assert EscapeUnit(c)[2..] == Hex4(c) == HexDigits(n, 4);
      assert Pow16(4) == 0x1_0000;
      HexReads(n, 4);
    }
  }

  lemma FourDigits(n: nat)
    requires n < 0x1_0000
    ensures HexDigits(n, 4) ==
            [HexDigit(n / 0x1000), HexDigit(n / 0x100 % 0x10), HexDigit(n / 0x10 % 0x10), HexDigit(n % 0x10)]
  {
    var a := n / 16;
    var b := a / 16;
    var c := b / 16;
    assert b == n / 0x100 && c == n / 0x1000;
    assert HexDigits(c, 1) == [HexDigit(c % 16)] && c % 16 == c;
    assert HexDigits(b, 2) == HexDigits(c, 1) + [HexDigit(b % 16)];
    assert HexDigits(a, 3) == HexDigits(b, 2) + [HexDigit(a % 16)];
  }
}
