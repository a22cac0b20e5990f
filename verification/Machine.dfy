// The fixed-width integers of the probe, byte-order accessors and EFI status codes.
module Machine {
  newtype uint8 = x: int | 0 <= x < 0x100
  newtype uint16 = x: int | 0 <= x < 0x1_0000
  newtype uint32 = x: int | 0 <= x < 0x1_0000_0000
  newtype uint64 = x: int | 0 <= x < 0x1_0000_0000_0000_0000

  const UINT64_MAX: uint64 := 0xffff_ffff_ffff_ffff

  datatype Option<+T> = None | Some(value: T)

  // How an observation ended; the order and meaning are those of the probe's status policy.
  datatype State = Observed | Unavailable | Unsupported | Malformed | NotProbed | Truncated

  // -------------------------------------------------------------------- EFI status codes

  type Status = uint64

  const EFI_SUCCESS: Status := 0
  const EFI_INVALID_PARAMETER: Status := 0x8000_0000_0000_0002
  const EFI_UNSUPPORTED: Status := 0x8000_0000_0000_0003
  const EFI_BUFFER_TOO_SMALL: Status := 0x8000_0000_0000_0005
  const EFI_NOT_FOUND: Status := 0x8000_0000_0000_000e

  // Bit 63 marks an error; other non-zero codes are warnings.
  predicate IsError(s: Status) {
    s >= 0x8000_0000_0000_0000
  }

  // -------------------------------------------------------------------- byte order

  function Be32(b: seq<uint8>, i: nat): uint32
    requires i + 4 <= |b|
  {
    b[i] as uint32 * 0x100_0000 + b[i + 1] as uint32 * 0x1_0000 + b[i + 2] as uint32 * 0x100 + b[i + 3] as uint32
  }

  function Be64(b: seq<uint8>, i: nat): uint64
    requires i + 8 <= |b|
  {
    Be32(b, i) as uint64 * 0x1_0000_0000 + Be32(b, i + 4) as uint64
  }

  function Le32(b: seq<uint8>, i: nat): uint32
    requires i + 4 <= |b|
  {
    b[i + 3] as uint32 * 0x100_0000 + b[i + 2] as uint32 * 0x1_0000 + b[i + 1] as uint32 * 0x100 + b[i] as uint32
  }

  function Le64(b: seq<uint8>, i: nat): uint64
    requires i + 8 <= |b|
  {
    Le32(b, i + 4) as uint64 * 0x1_0000_0000 + Le32(b, i) as uint64
  }

  // The big-endian bytes of a word; `Be32` reads them back.
  function Word(v: uint32): (b: seq<uint8>)
    ensures |b| == 4 && Be32(b, 0) == v
  {
    var top3 := v / 0x100;
    var top2 := top3 / 0x100;
    [(top2 / 0x100) as uint8, (top2 % 0x100) as uint8, (top3 % 0x100) as uint8, (v % 0x100) as uint8]
  }

  function DoubleWord(v: uint64): (b: seq<uint8>)
    ensures |b| == 8 && Be64(b, 0) == v
  {
    Word((v / 0x1_0000_0000) as uint32) + Word((v % 0x1_0000_0000) as uint32)
  }

  lemma Assoc<T>(a: seq<T>, b: seq<T>, c: seq<T>)
    ensures (a + b) + c == a + (b + c)
  {
  }

  // -------------------------------------------------------------------- C strings

  // Index of the first NUL, or the length when there is none.
  function Strlen(s: seq<uint8>): (n: nat)
    ensures n <= |s|
  {
    if s == [] || s[0] == 0 then 0 else 1 + Strlen(s[1..])
  }

  lemma {:induction false} StrlenMeans(s: seq<uint8>)
    ensures forall i :: 0 <= i < Strlen(s) ==> s[i] != 0
    ensures Strlen(s) < |s| ==> s[Strlen(s)] == 0
  {
    if s != [] && s[0] != 0 {
      StrlenMeans(s[1..]);
    }
  }

  // These two facts pin the index down.
  lemma {:induction false} StrlenIs(s: seq<uint8>, n: nat)
    requires n <= |s|
    requires forall i :: 0 <= i < n ==> s[i] != 0
    requires n < |s| ==> s[n] == 0
    ensures Strlen(s) == n
  {
    if s == [] || s[0] == 0 {
    } else {
      StrlenIs(s[1..], n - 1);
    }
  }

  // The text a C reader sees in a buffer.
  function Text(s: seq<uint8>): seq<uint8> {
    s[..Strlen(s)]
  }

  // Round up to a multiple of four, as `(n + 3) & ~3` does.
  function Pad4(n: nat): (r: nat)
    ensures r % 4 == 0 && n <= r < n + 4
  {
    (n + 3) / 4 * 4
  }

  // Rounding commutes with a shift by whole words.
  lemma Pad4Shift(base: nat, n: nat)
    requires base % 4 == 0
    ensures Pad4(base + n) == base + Pad4(n)
  {
    var k, q := base / 4, (n + 3) / 4;
    assert base + n + 3 == 4 * (k + q) + (n + 3) % 4;
    assert (base + n + 3) / 4 == k + q;
  }

  // What lies below a whole number of words still does when rounded up.
  lemma Pad4Below(n: nat, end: nat)
    requires end % 4 == 0 && n <= end
    ensures Pad4(n) <= end
  {
    var q, e := (n + 3) / 4, end / 4;
    assert 4 * q <= n + 3 < 4 * e + 4;
    assert q <= e;
  }

  // What follows the first `n` bytes and their padding.
  function Past(s: seq<uint8>, n: nat): (r: seq<uint8>)
    ensures |r| <= |s|
  {
    if Pad4(n) <= |s| then s[Pad4(n)..] else []
  }

  // A block of whole words is never cut short by padding.
  lemma PadFits(s: seq<uint8>, n: nat)
    requires |s| % 4 == 0 && n <= |s|
    ensures Pad4(n) <= |s| && |Past(s, n)| == |s| - Pad4(n) && |Past(s, n)| % 4 == 0
  {
  }
}
