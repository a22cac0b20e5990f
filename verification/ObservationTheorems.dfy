// What the smaller observations report, in terms of what the firmware supplied.
module ObservationTheorems {
  import opened Machine
  import opened Details
  import opened Blob
  import opened BlobTheorems
  import opened BlobRefusals
  import opened Observations

  // -------------------------------------------------------------------- the devicetree search

  // The GUID of the devicetree table, field by field as firmware stores it.
  lemma GuidBytes()
    ensures |DT_GUID| == 16
    ensures Le32(DT_GUID, 0) == 0xb1b6_21d5
    ensures DT_GUID[4..6] == [0x9c, 0xf1] && DT_GUID[6..8] == [0xa5, 0x41]
    ensures DT_GUID[8..] == [0x83, 0x0b, 0xd9, 0x15, 0x2c, 0x69, 0xaa, 0xe0]
  {
  }

  // Entry `i` is the first with the GUID, among those looked at.
  predicate FirstMatch(total: uint64, es: seq<ConfigEntry>, i: nat) {
    && i < total as nat && i < 256 && i < |es|
    && es[i].guid == DT_GUID && forall j :: 0 <= j < i ==> es[j].guid != DT_GUID
  }

  // The first match decides: no table behind it, or the answer of the firmware entry.
  lemma SearchFound(total: uint64, es: seq<ConfigEntry>, i: nat)
    requires Searchable(total, Some(es)) && FirstMatch(total, es, i)
    ensures es[i].table.Some? ==> Followable(es[i].table.value)
    ensures var v := FindDt(total, Some(es));
            && v.searched == i + 1 && v.total == total
            && v.dt == if es[i].table.None? then Refused(Malformed, TableNull, 0, 0, 0) else ParseFirmware(es[i].table)
  {
    var n := Span(total);
    var r := FirstDt(es, n, 0);
    assert r == i;
    hide ParseFirmware, Followable;
  }

  // Every other case, and how many entries were looked at in it.
  lemma SearchMissed(total: uint64, tables: Option<seq<ConfigEntry>>)
    requires Searchable(total, tables)
    ensures total == 0 ==> FindDt(total, tables) == DtView(Refused(Unavailable, Absent, 0, 0, 0), 0, 0)
    ensures total != 0 && tables.None? ==>
            FindDt(total, tables) == DtView(Refused(Malformed, ConfigTableNull, 0, 0, 0), 0, total)
    ensures total != 0 && tables.Some? && total <= 256 && NoneFound(tables.value, total as nat) ==>
            FindDt(total, tables) == DtView(Refused(Unavailable, Absent, 0, 0, 0), total as nat, total)
    ensures tables.Some? && total > 256 && NoneFound(tables.value, 256) ==>
            FindDt(total, tables) == DtView(Refused(NotProbed, SearchLimit, 0, 0, 0), 256, total)
    ensures total == 0 || tables.None? || NoneFound(tables.value, Span(total))
         || exists i :: FirstMatch(total, tables.value, i)
  {
    hide ParseFirmware, Followable;
    if total != 0 && tables.Some? {
      var i := FirstDt(tables.value, Span(total), 0);
      if i < Span(total) {
        assert FirstMatch(total, tables.value, i);
      }
    }
  }

  // A devicetree is observed exactly when the first match has a table whose declared bytes
  // are a valid blob, and then its size, versions and the model of its tree are reported.
  lemma ObservedDt(total: uint64, es: seq<ConfigEntry>, i: nat)
    requires Searchable(total, Some(es)) && FirstMatch(total, es, i)
    ensures FindDt(total, Some(es)).dt.state == Observed <==>
            && es[i].table.Some?
            && Declares(es[i].table.value)
            && exists rs, root :: Valid(Declared(es[i].table.value), rs, root)
    ensures forall rs, root :: es[i].table.Some? && Declares(es[i].table.value)
                               && Valid(Declared(es[i].table.value), rs, root) ==>
              FindDt(total, Some(es)).dt ==
              DtResult(Observed, NoDetail, Be32(es[i].table.value, 4), Be32(es[i].table.value, 20),
                       Be32(es[i].table.value, 24), ModelOf(root))
  {
    SearchFound(total, es, i);
    hide FindDt, ParseFirmware, Valid, ModelOf, Followable;
    if es[i].table.Some? {
      FirmwareObserved(es[i].table.value);
    }
  }

  // The size a blob declares, when the firmware entry accepts it.
  predicate Declares(p: seq<uint8>) {
    |p| >= 8 && 40 <= Be32(p, 4) <= 0x10_0000 && Be32(p, 4) as nat <= |p|
  }

  function Declared(p: seq<uint8>): seq<uint8>
    requires Declares(p)
  {
    p[..Be32(p, 4)]
  }

  lemma FirmwareObserved(p: seq<uint8>)
    requires Followable(p)
    ensures ParseFirmware(Some(p)).state == Observed <==> Declares(p) && exists rs, root :: Valid(Declared(p), rs, root)
    ensures forall rs, root :: Declares(p) && Valid(Declared(p), rs, root) ==>
              ParseFirmware(Some(p)) ==
              DtResult(Observed, NoDetail, Be32(p, 4), Be32(p, 20), Be32(p, 24), ModelOf(root))
  {
    FirmwareReasons(p);
    hide Parse, ParseFirmware, ModelOf;
    if Declares(p) {
      var q := Declared(p);
      SameWord(p, q, |q|, 0);
      SameWord(p, q, |q|, 4);
      SameWord(p, q, |q|, 20);
      SameWord(p, q, |q|, 24);
      ObservedExactlyValid(q);
      forall rs, root | Valid(q, rs, root)
        ensures Be32(p, 0) == 0xd00d_feed
        ensures Parse(Some(q)) == DtResult(Observed, NoDetail, Be32(p, 4), Be32(p, 20), Be32(p, 24), ModelOf(root))
      {
        ValidIsObserved(q, rs, root);
        assert Be32(q, 0) == FDT_MAGIC;
      }
    }
  }

  // -------------------------------------------------------------------- vendor text

  // `n` is the first NUL, or 64 when there is none before that.
  predicate TextLength(s: seq<uint16>, n: nat) {
    n <= 64 && n < |s| && (forall j :: 0 <= j < n ==> s[j] != 0) && (n < 64 ==> s[n] == 0)
  }

  lemma {:induction false} PrefixIs(s: seq<uint16>, k: nat, n: nat)
    requires n <= k && n <= |s| && (forall j :: 0 <= j < n ==> s[j] != 0) && (n < k ==> n < |s| && s[n] == 0)
    ensures Prefix(s, k) == s[..n]
  {
    if n > 0 {
      PrefixIs(s[1..], k - 1, n - 1);
      assert [s[0]] + s[1..][..n - 1] == s[..n];
    }
  }

  // A surrogate among the units looked at makes the text unsupported and nothing of it is
  // reported; otherwise all of them are, and they are all there is unless a 65th follows.
  lemma VendorReported(s: seq<uint16>, n: nat)
    requires TextLength(s, n)
    ensures ReadableText(s) && Vendor(None) == VendorResult(Unavailable, [])
    ensures Vendor(Some(s)) ==
            if exists j :: 0 <= j < n && 0xd800 <= s[j] <= 0xdfff then VendorResult(Unsupported, [])
            else VendorResult(if n == 64 && s[64] != 0 then Truncated else Observed, s[..n])
  {
    PrefixIs(s, 64, n);
    assert forall j :: 0 <= j < n ==> s[..n][j] == s[j];
    if exists j :: 0 <= j < n && 0xd800 <= s[j] <= 0xdfff {
      var j :| 0 <= j < n && 0xd800 <= s[j] <= 0xdfff;
      assert Surrogate(s[..n][j]);
    }
  }

  // Every text the probe may read has such a length.
  lemma {:induction false} LengthExists(s: seq<uint16>, k: nat) returns (n: nat)
    requires |s| > k || exists i :: 0 <= i < |s| && s[i] == 0
    ensures n <= k && n < |s| && (forall j :: 0 <= j < n ==> s[j] != 0) && (n < k ==> s[n] == 0)
  {
    if k == 0 || s[0] == 0 {
      n := 0;
    } else {
      n := LengthExists(s[1..], k - 1);
      n := n + 1;
    }
  }

  // -------------------------------------------------------------------- variables, CurrentEL

  // What a GetVariable answer counts as, by status first, then size, then value.
  lemma VariableReported(status: Status, size: uint64, value: uint8)
    ensures var r := ParseVar(status, size, value);
            && r.status == status
            && (r.state == Observed <==> status == 0 && size == 1 && value <= 1)
            && (r.state == Observed ==> r.value == value && r.detail == NoDetail)
            && (r.state == Unavailable && r.detail == VariableNotFound <==> status == 0x8000_0000_0000_000e)
            && (r.state == Malformed && r.detail == VariableSize <==>
                status == 0x8000_0000_0000_0005 || (status == 0 && size != 1))
            && (r.state == Malformed && r.detail == ValueRange <==> status == 0 && size == 1 && value > 1)
            && (r.state == Unsupported && r.detail == ServiceUnsupported <==> status == 0x8000_0000_0000_0003)
            && (r.state == Unsupported && r.detail == WarningStatus <==> 0 < status < 0x8000_0000_0000_0000)
            && (r.state == Unavailable && r.detail == EfiErrorDetail <==>
                && status >= 0x8000_0000_0000_0000
                && status !in {0x8000_0000_0000_0003, 0x8000_0000_0000_0005, 0x8000_0000_0000_000e})
  {
  }

  // The register holds a level exactly when it is 4, 8 or 12.
  lemma LevelReported(raw: uint64)
    ensures var r := DecodeEl(raw);
            && r.raw == raw
            && (r.state == Observed <==> raw in {4, 8, 12})
            && (r.state != Observed ==> r.state == Malformed)
            && (r.state == Observed ==> r.level as nat * 4 == raw as nat)
  {
  }
}
