// Numbers as bytes in memory, independently of the accessors: byte `i` of a field is the
// digit of weight 256^i, counted from its low end. The accessors read exactly these.
module ByteOrder {
  import opened Machine

  function Pow256(n: nat): (p: nat)
    ensures p > 0
  {
    if n == 0 then 1 else 256 * Pow256(n - 1)
  }

  // The `n` bytes at `at` are the digits of `v`, the lowest first.
  predicate Little(b: seq<uint8>, at: nat, n: nat, v: nat) {
    at + n <= |b| && forall i :: 0 <= i < n ==> b[at + i] as nat == v / Pow256(i) % 256
  }

  // The same, the highest first.
  predicate Big(b: seq<uint8>, at: nat, n: nat, v: nat) {
    at + n <= |b| && forall i :: 0 <= i < n ==> b[at + (n - 1 - i)] as nat == v / Pow256(i) % 256
  }

  lemma SmallPowers()
    ensures Pow256(0) == 1 && Pow256(1) == 0x100 && Pow256(2) == 0x1_0000 && Pow256(3) == 0x100_0000
    ensures Pow256(4) == 0x1_0000_0000 && Pow256(5) == 0x100_0000_0000
    ensures Pow256(6) == 0x1_0000_0000_0000 && Pow256(7) == 0x100_0000_0000_0000
  {
    assert Pow256(2) == 256 * Pow256(1) && Pow256(3) == 256 * Pow256(2);
    assert Pow256(4) == 256 * Pow256(3) && Pow256(5) == 256 * Pow256(4);
    assert Pow256(6) == 256 * Pow256(5) && Pow256(7) == 256 * Pow256(6);
  }

  // The four digits of a number below 2^32 make it up.
  lemma FourDigits(v: nat)
    requires v < 0x1_0000_0000
    ensures v == v / 0x100_0000 % 256 * 0x100_0000 + v / 0x1_0000 % 256 * 0x1_0000 + v / 0x100 % 256 * 0x100 + v % 256
  {
    var a := v / 0x100;
    var b := a / 0x100;
    var c := b / 0x100;
    assert b == v / 0x1_0000 && c == v / 0x100_0000;
    assert c < 256;
  }

  // And four bytes are the digits of the number they make up.
  lemma DigitsOfFour(v: nat, b0: nat, b1: nat, b2: nat, b3: nat)
    requires b0 < 256 && b1 < 256 && b2 < 256 && b3 < 256
    requires v == b3 * 0x100_0000 + b2 * 0x1_0000 + b1 * 0x100 + b0
    ensures v % 256 == b0 && v / 0x100 % 256 == b1 && v / 0x1_0000 % 256 == b2 && v / 0x100_0000 % 256 == b3
  {
    assert v / 0x100 == b3 * 0x1_0000 + b2 * 0x100 + b1;
    assert v / 0x1_0000 == b3 * 0x100 + b2;
    assert v / 0x100_0000 == b3;
  }

  lemma LittleWord(b: seq<uint8>, at: nat, v: uint32)
    requires at + 4 <= |b|
    ensures Le32(b, at) == v <==> Little(b, at, 4, v as nat)
  {
    SmallPowers();
    FourDigits(v as nat);
    var b0, b1, b2, b3 := b[at] as nat, b[at + 1] as nat, b[at + 2] as nat, b[at + 3] as nat;
    if Le32(b, at) == v {
      DigitsOfFour(v as nat, b0, b1, b2, b3);
      hide Pow256;
      assert Little(b, at, 4, v as nat);
    }
    if Little(b, at, 4, v as nat) {
      assert b[at + 0] as nat == v as nat / Pow256(0) % 256 && b[at + 1] as nat == v as nat / Pow256(1) % 256;
      assert b[at + 2] as nat == v as nat / Pow256(2) % 256 && b[at + 3] as nat == v as nat / Pow256(3) % 256;
    }
  }

  lemma BigWord(b: seq<uint8>, at: nat, v: uint32)
    requires at + 4 <= |b|
    ensures Be32(b, at) == v <==> Big(b, at, 4, v as nat)
  {
    SmallPowers();
    FourDigits(v as nat);
    var b0, b1, b2, b3 := b[at + 3] as nat, b[at + 2] as nat, b[at + 1] as nat, b[at] as nat;
    if Be32(b, at) == v {
      DigitsOfFour(v as nat, b0, b1, b2, b3);
      hide Pow256;
      assert Big(b, at, 4, v as nat);
    }
    if Big(b, at, 4, v as nat) {
      assert b[at + (4 - 1 - 0)] as nat == v as nat / Pow256(0) % 256;
      assert b[at + (4 - 1 - 1)] as nat == v as nat / Pow256(1) % 256;
      assert b[at + (4 - 1 - 2)] as nat == v as nat / Pow256(2) % 256;
      assert b[at + (4 - 1 - 3)] as nat == v as nat / Pow256(3) % 256;
    }
  }

  // The digits of a number are those of its halves.
  lemma HighDigit(v: nat, hi: nat, i: nat)
    requires hi == v / 0x1_0000_0000 && i < 4
    ensures v / Pow256(4 + i) % 256 == hi / Pow256(i) % 256
  {
    SmallPowers();
    hide Pow256;
    match i
    case 0 =>
    case 1 => assert v / 0x100_0000_0000 == hi / 0x100;
    case 2 => assert v / 0x1_0000_0000_0000 == hi / 0x1_0000;
    case 3 => assert v / 0x100_0000_0000_0000 == hi / 0x100_0000;
  }

  lemma Mod256(n: nat, q: nat)
    ensures (256 * n + q) % 256 == q % 256
  {
  }

  // A multiple of 2^32 does not show in the four low digits.
  lemma LowDigit0(hi: nat, lo: nat)
    ensures (hi * 0x1_0000_0000 + lo) % 256 == lo % 256
  {
    Mod256(hi * 0x100_0000, lo);
  }

  lemma Div100(n: nat, lo: nat)
    ensures (0x100 * n + lo) / 0x100 == n + lo / 0x100
  {
  }

  lemma LowDigit1(hi: nat, lo: nat)
    ensures (hi * 0x1_0000_0000 + lo) / 0x100 % 256 == lo / 0x100 % 256
  {
    Div100(hi * 0x100_0000, lo);
    Mod256(hi * 0x1_0000, lo / 0x100);
  }

  lemma Div10000(n: nat, lo: nat)
    ensures (0x1_0000 * n + lo) / 0x1_0000 == n + lo / 0x1_0000
  {
  }

  lemma LowDigit2(hi: nat, lo: nat)
    ensures (hi * 0x1_0000_0000 + lo) / 0x1_0000 % 256 == lo / 0x1_0000 % 256
  {
    Div10000(hi * 0x1_0000, lo);
    Mod256(hi * 0x100, lo / 0x1_0000);
  }

  lemma Div1000000(n: nat, lo: nat)
    ensures (0x100_0000 * n + lo) / 0x100_0000 == n + lo / 0x100_0000
  {
  }

  lemma LowDigit3(hi: nat, lo: nat)
    ensures (hi * 0x1_0000_0000 + lo) / 0x100_0000 % 256 == lo / 0x100_0000 % 256
  {
    Div1000000(hi * 0x100, lo);
    Mod256(hi, lo / 0x100_0000);
  }

  lemma LowDigit(v: nat, lo: nat, i: nat)
    requires lo == v % 0x1_0000_0000 && i < 4
    ensures v / Pow256(i) % 256 == lo / Pow256(i) % 256
  {
    SmallPowers();
    hide Pow256;
    var hi := v / 0x1_0000_0000;
    assert v == hi * 0x1_0000_0000 + lo;
    match i
    case 0 => LowDigit0(hi, lo);
    case 1 => LowDigit1(hi, lo);
    case 2 => LowDigit2(hi, lo);
    case 3 => LowDigit3(hi, lo);
  }

  lemma LittleHalves(b: seq<uint8>, at: nat, v: nat)
    requires at + 8 <= |b|
    ensures Little(b, at, 8, v) <==>
            Little(b, at, 4, v % 0x1_0000_0000) && Little(b, at + 4, 4, v / 0x1_0000_0000)
  {
    var hi, lo := v / 0x1_0000_0000, v % 0x1_0000_0000;
    hide Pow256;
    forall i | 0 <= i < 4
      ensures v / Pow256(i) % 256 == lo / Pow256(i) % 256
      ensures v / Pow256(4 + i) % 256 == hi / Pow256(i) % 256
    {
      LowDigit(v, lo, i);
      HighDigit(v, hi, i);
    }
    if Little(b, at, 8, v) {
      forall i | 0 <= i < 4
        ensures b[at + 4 + i] as nat == hi / Pow256(i) % 256
      {
        assert b[at + (4 + i)] as nat == v / Pow256(4 + i) % 256;
      }
    }
    if Little(b, at, 4, lo) && Little(b, at + 4, 4, hi) {
      forall i | 0 <= i < 8
        ensures b[at + i] as nat == v / Pow256(i) % 256
      {
        if i >= 4 {
          assert b[at + 4 + (i - 4)] as nat == hi / Pow256(i - 4) % 256;
          HighDigit(v, hi, i - 4);
        }
      }
    }
  }

  lemma LittleDoubleWord(b: seq<uint8>, at: nat, v: uint64)
    requires at + 8 <= |b|
    ensures Le64(b, at) == v <==> Little(b, at, 8, v as nat)
  {
    var hi, lo := (v as nat / 0x1_0000_0000) as uint32, (v as nat % 0x1_0000_0000) as uint32;
    LittleHalves(b, at, v as nat);
    LittleWord(b, at, lo);
    LittleWord(b, at + 4, hi);
    hide Le32, Little;
  }

  // The high word of a big-endian double word comes first.
  lemma BigDoubleWord(b: seq<uint8>, at: nat, v: uint64)
    requires at + 8 <= |b|
    ensures Be64(b, at) == v <==>
            Big(b, at, 4, v as nat / 0x1_0000_0000) && Big(b, at + 4, 4, v as nat % 0x1_0000_0000)
  {
    var hi, lo := (v as nat / 0x1_0000_0000) as uint32, (v as nat % 0x1_0000_0000) as uint32;
    BigWord(b, at, hi);
    BigWord(b, at + 4, lo);
    hide Be32, Big;
  }
}
