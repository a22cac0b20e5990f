// The probe's devicetree reader in its own form: one loop over a byte position with a
// depth counter and a flag per depth. Bounded integers throughout, so no addition or
// subtraction wraps and every index stays inside the declared blob.
module DtParser {
  import opened Machine
  import opened Details
  import opened Devicetree
  import opened TreeReader
  import opened StructureWalk
  import opened Blob
  import opened BlobTheorems

  // The result record; `model` is a NUL-terminated buffer of MODEL_LIMIT + 1 bytes.
  class DtReport {
    var state: State
    var detail: Detail
    var size: uint32
    var version: uint32
    var lastComp: uint32
    var modelState: State
    var modelLength: uint32
    const model: array<uint8>

    constructor ()
      ensures fresh(model) && Valid()
      ensures state == Malformed && detail == NoDetail
      ensures size == 0 && version == 0 && lastComp == 0 && ModelView() == NO_MODEL
    {
      state, detail := Malformed, NoDetail;
      size, version, lastComp := 0, 0, 0;
      modelState, modelLength := NotProbed, 0;
      model := new uint8[MODEL_LIMIT + 1](_ => 0);
    }

    ghost predicate Valid() reads this {
      model.Length == MODEL_LIMIT + 1
    }

    ghost function ModelView(): Model
      reads this, model
    {
      Model(modelState, modelLength as nat, Text(model[..]))
    }

    ghost function View(): DtResult
      reads this, model
    {
      DtResult(state, detail, size, version, lastComp, ModelView())
    }

    // dt_state: give up with a state and a reason.
    method Fail(s: State, d: Detail)
      requires Valid()
      modifies this, model
      ensures Valid() && View() == Refused(s, d, old(size), old(version), old(lastComp))
    {
      state, detail := s, d;
      modelState, modelLength := NotProbed, 0;
      model[0] := 0;
    }

    // take_model: fold in one more root `model` value.
    method TakeModel(v: seq<uint8>, ghost before: seq<seq<uint8>>)
      requires Valid()
      requires |v| < 0x1_0000_0000
      requires ModelView() == Classify(before)
      modifies this`modelState, this`modelLength, model
      ensures Valid() && ModelView() == Classify(before + [v])
      ensures before != [] ==> modelState == Malformed && modelLength == 0
      ensures before == [] ==>
                && (modelState == Malformed <==> !TextEnd(v))
                && (modelState == Unsupported <==> TextEnd(v) && exists i :: 0 <= i < |v| - 1 && OddByte(v[i]))
    {
      if modelState != Unavailable {
        modelState, modelLength, model[0] := Malformed, 0, 0;
        NotFresh(before);
        return;
      }
      NotFresh(before);
      assert before + [v] == [v];
      var len := |v| as uint32;
      if len == 0 || v[len - 1] != 0 {
        modelState := Malformed;
        return;
      }
      ghost var body := v[..len - 1];
      var i: uint32 := 0;
      while i + 1 < len
        invariant 0 <= i < len
        invariant forall j :: 0 <= j < i ==> 0 < v[j] < 0x80
        invariant modelState == Unavailable && modelLength == 0 && Text(model[..]) == []
      {
        if v[i] == 0 || v[i] >= 0x80 {
          assert body[i] in body && OddByte(v[i]);
          modelState := Unsupported;
          return;
        }
        i := i + 1;
      }
      assert Ascii(body) by {
        assert forall j :: 0 <= j < |body| ==> body[j] == v[j];
      }
      var n: uint32 := if len - 1 > MODEL_LIMIT as uint32 then MODEL_LIMIT as uint32 else len - 1;
      CopyText(v, n);
      modelLength := len - 1;
      modelState := if len - 1 > MODEL_LIMIT as uint32 then Truncated else Observed;
      assert body[..n] == v[..n];
    }

    // The copying loop of take_model.
    method CopyText(v: seq<uint8>, n: uint32)
      requires Valid() && n <= MODEL_LIMIT as uint32 && n as nat <= |v| && forall j :: 0 <= j < n ==> v[j] != 0
      modifies model
      ensures Valid() && Text(model[..]) == v[..n]
    {
      var i: uint32 := 0;
      while i < n
        invariant 0 <= i <= n
        invariant model[..i] == v[..i]
      {
        model[i] := v[i];
        i := i + 1;
      }
      model[n] := 0;
      assert model[..n] == v[..n];
      assert forall j :: 0 <= j < n ==> model[..][j] == model[..n][j] == v[j];
      StrlenIs(model[..], n as nat);
    }
  }

  // Once a value was taken the state is no longer Unavailable.
  lemma NotFresh(vs: seq<seq<uint8>>)
    ensures Classify(vs).state == Unavailable <==> vs == []
    ensures forall v :: vs != [] ==> Classify(vs + [v]) == Model(Malformed, 0, [])
  {
  }

  // skip_name: the aligned position after the name at `pos`, or 0 when it is unterminated.
  // Rounding up never passes `end`.
  method SkipName(p: seq<uint8>, pos: uint64, end: uint64) returns (next: uint64, length: uint64)
    requires 0 < pos <= end && end as nat <= |p| && end < 0x1_0000_0000_0000
    requires pos % 4 == 0 && end % 4 == 0
    ensures var name := p[..end][pos..];
            && (next == 0 <==> Strlen(name) == |name|)
            && (next != 0 ==>
                && length as nat == Strlen(name)
                && pos < next <= end && next % 4 == 0
                && next as nat == pos as nat + Pad4(Strlen(name) + 1))
  {
    hide Strlen, Pad4;
    var at := pos;
    while at < end && p[at] != 0
      invariant pos <= at <= end
      invariant forall i :: pos <= i < at ==> p[i] != 0
      decreases end - at
    {
      at := at + 1;
    }
    ghost var name := p[..end][pos..];
    assert forall i :: 0 <= i < |name| ==> name[i] == p[pos as nat + i];
    StrlenIs(name, (at - pos) as nat);
    if at >= end {
      return 0, 0;
    }
    length := at - pos;
    next := (at + 4) / 4 * 4;
    RoundUp(pos as nat, length as nat, end as nat);
    assert next <= end;  // so the bounds check the source repeats here cannot fail
  }

  lemma RoundUp(pos: nat, length: nat, end: nat)
    requires pos % 4 == 0 && end % 4 == 0 && pos + length < end
    ensures var next := (pos + length + 4) / 4 * 4;
            pos < next <= end && next % 4 == 0 && next == pos + Pad4(length + 1)
  {
    assert (pos + length + 4) / 4 * 4 == Pad4(pos + (length + 1));
    hide Pad4;
    Pad4Shift(pos, length + 1);
    Pad4Below(pos + (length + 1), end);
  }

  // The first NUL of p[from..limit), or `limit`.
  method FindNul(p: seq<uint8>, from: uint64, limit: uint64) returns (n: uint64)
    requires from <= limit && limit as nat <= |p|
    ensures from <= n <= limit && (n - from) as nat == Strlen(p[..limit][from..])
    ensures Text(p[..limit][from..]) == p[from..n]
  {
    n := from;
    while n < limit && p[n] != 0
      invariant from <= n <= limit
      invariant forall i :: from <= i < n ==> p[i] != 0
      decreases limit - n
    {
      n := n + 1;
    }
    ghost var text := p[..limit][from..];
    assert forall i :: 0 <= i < |text| ==> text[i] == p[from as nat + i];
    StrlenIs(text, (n - from) as nat);
  }

  // -------------------------------------------------------------------- the reservation loop

  function RsvFault(s: seq<uint8>): Detail {
    match RsvWalk(s)
    case RsvRejected(d) => d
    case RsvAccepted(_) => NoDetail
  }

  lemma UnfoldRsv(p: seq<uint8>, rsv: nat, limit: nat)
    requires rsv <= limit <= |p|
    ensures var fault := RsvFault(p[..limit][rsv..]);
            if limit - rsv < 16 then fault == RsvmapUnterminated
            else
              var e := Reservation(Be64(p, rsv), Be64(p, rsv + 8));
              if e.address == 0 && e.size == 0 then fault == NoDetail
              else if !Reservable(e) then fault == RsvmapRange
              else fault == RsvFault(p[..limit][rsv + 16..])
  {
    var s := p[..limit][rsv..];
    if |s| >= 16 {
      assert Be64(s, 0) == Be64(p, rsv) && Be64(s, 8) == Be64(p, rsv + 8);
      assert s[16..] == p[..limit][rsv + 16..];
    }
  }

  method ScanReservations(p: seq<uint8>, start: uint64, limit: uint64) returns (d: Detail)
    requires start <= limit && limit as nat <= |p| && limit < 0x1_0000_0000_0000
    ensures d == RsvFault(p[..limit][start..])
  {
    hide Be64, RsvFault;
    var rsv := start;
    while true
      invariant start <= rsv <= limit
      invariant RsvFault(p[..limit][rsv..]) == RsvFault(p[..limit][start..])
      decreases limit - rsv
    {
      UnfoldRsv(p, rsv as nat, limit as nat);
      if limit - rsv < 16 {
        return RsvmapUnterminated;
      }
      var address, size := Be64(p, rsv as nat), Be64(p, rsv as nat + 8);
      rsv := rsv + 16;
      if address == 0 && size == 0 {
        return NoDetail;
      }
      if !RangeOk(address, size) {
        return RsvmapRange;
      }
    }
  }

  // range_ok: the exclusive end start + length is representable; the subtraction is.
  predicate RangeOk(start: uint64, length: uint64): (ok: bool)
    ensures ok <==> start as nat + length as nat <= UINT64_MAX as nat
  {
    length <= UINT64_MAX - start
  }

  // -------------------------------------------------------------------- the token loop

  predicate Closed(b: Builder) {
    b.open.Push? && b.open.top.children != []
  }

  // One flag per depth carries a single bit: every ancestor of the innermost open node
  // is flagged, the innermost one exactly when it has a finished subnode.
  function Flags(depth: nat, closed: bool): seq<uint8> {
    seq(DEPTH_LIMIT, i => if i + 1 < depth || (i + 1 == depth && closed) then 1 else 0)
  }

  function Bottom(s: Stack): Node
    requires s.Push?
  {
    if s.below.Empty? then s.top else Bottom(s.below)
  }

  // The root `model` values met so far.
  function RootModels(b: Builder): seq<seq<uint8>> {
    if b.open.Push? then ModelValues(Bottom(b.open).props)
    else if b.roots == [] then []
    else ModelValues(b.roots[0].props)
  }

  function RootCount(b: Builder): nat {
    |b.roots| + if b.open.Push? then 1 else 0
  }

  // The loop's counters and flags against the builder they stand for. `lastIsEndNode` is
  // about the tokens consumed so far, NOPs aside.
  ghost predicate Tracks(b: Builder, depth: nat, roots: nat, flags: seq<uint8>, lastIsEndNode: bool) {
    && OneRoot(b)
    && depth == Depth(b.open)
    && roots == RootCount(b)
    && flags == Flags(depth, Closed(b))
    && (depth > 0 ==> (Closed(b) <==> lastIsEndNode))
  }

  lemma TracksMeans(b: Builder, depth: nat, roots: nat, flags: seq<uint8>, lastIsEndNode: bool)
    requires Tracks(b, depth, roots, flags, lastIsEndNode)
    ensures OneRoot(b) && depth == Depth(b.open) <= DEPTH_LIMIT && roots == RootCount(b) && |flags| == DEPTH_LIMIT
    ensures depth == 0 <==> b.open.Empty?
    ensures depth > 0 ==> (flags[depth - 1] != 0 <==> b.open.top.children != [])
    ensures depth == 0 ==> (roots == 0 <==> b.roots == [])
  {
  }

  lemma TracksStart(flags: seq<uint8>)
    requires |flags| == DEPTH_LIMIT && forall i :: 0 <= i < |flags| ==> flags[i] == 0
    ensures Tracks(START, 0, 0, flags, false) && RootModels(START) == []
  {
  }

  lemma TracksEnter(b: Builder, depth: nat, roots: nat, flags: seq<uint8>, last: bool, name: seq<uint8>)
    requires Tracks(b, depth, roots, flags, last) && MayEnter(b, name)
    ensures var parent := if depth == 0 then flags else flags[depth - 1 := 1];
            Tracks(Enter(b, name), depth + 1, if depth == 0 then roots + 1 else roots, parent[depth := 0], false)
    ensures RootModels(Enter(b, name)) == RootModels(b)
  {
  }

  lemma TracksLeave(b: Builder, depth: nat, roots: nat, flags: seq<uint8>, last: bool)
    requires Tracks(b, depth, roots, flags, last) && depth > 0
    ensures Tracks(Leave(b), depth - 1, roots, flags[depth - 1 := 0], true)
    ensures RootModels(Leave(b)) == RootModels(b)
  {
    ModelsLeave(b);
  }

  lemma TracksProperty(b: Builder, depth: nat, roots: nat, flags: seq<uint8>, last: bool, p: Property)
    requires Tracks(b, depth, roots, flags, last) && depth > 0 && b.open.top.children == []
    ensures Tracks(AddProperty(b, p), depth, roots, flags, false)
    ensures RootModels(AddProperty(b, p)) ==
            if depth == 1 && p.name == MODEL_NAME then RootModels(b) + [p.value] else RootModels(b)
  {
    ModelsProperty(b, p);
    assert RootModels(b) + [] == RootModels(b);
  }

  lemma ModelsLeave(b: Builder)
    requires OneRoot(b) && b.open.Push?
    ensures RootModels(Leave(b)) == RootModels(b)
  {
    match b.open.below
    case Empty =>
      assert Leave(b).roots == [b.open.top];
    case Push(parent, under) =>
      assert Bottom(b.open) == Bottom(b.open.below);
  }

  lemma ModelsProperty(b: Builder, p: Property)
    requires b.open.Push?
    ensures RootModels(AddProperty(b, p)) ==
            RootModels(b) + if Depth(b.open) == 1 && p.name == MODEL_NAME then [p.value] else []
  {
    match b.open.below
    case Empty =>
      ModelValuesAppend(b.open.top.props, p);
    case Push(_, _) =>
      assert Bottom(AddProperty(b, p).open) == Bottom(b.open.below) == Bottom(b.open);
  }

  // The checks on a node's name, up to the nesting limit. `NoDetail` means it may be
  // entered, with the next token at `next`.
  method ReadName(p: seq<uint8>, pos: uint64, end: uint64, depth: uint32, roots: uint32,
                  ghost strings: seq<uint8>, ghost b: Builder)
    returns (s: State, fault: Detail, next: uint64, ghost name: seq<uint8>)
    requires 0 < pos <= end && end as nat <= |p| && end < 0x1_0000_0000_0000
    requires pos % 4 == 0 && end % 4 == 0
    requires OneRoot(b) && depth as nat == Depth(b.open) && roots as nat == RootCount(b)
    ensures fault != NoDetail ==> WalkBegin(p[..end][pos..], strings, b) == Rejected(s, fault)
    ensures fault == NoDetail ==>
              && pos < next <= end && next % 4 == 0
              && MayEnter(b, name)
              && WalkBegin(p[..end][pos..], strings, b) == Walk(p[..end][next..], strings, Enter(b, name))
  {
    hide Walk;
    ghost var t := p[..end][pos..];
    name := Text(t);
    if depth == 0 && roots > 0 {
      return Malformed, MultipleRoots, 0, name;
    }
    var length;
    next, length := SkipName(p, pos, end);
    if next == 0 {
      return Malformed, NameTruncated, 0, name;
    }
    if depth == 0 && length > 0 {
      return Malformed, RootName, 0, name;
    }
    if depth == DEPTH_LIMIT as uint32 {
      return Unsupported, DepthLimit, 0, name;
    }
    assert p[..end][next..] == Past(t, Strlen(t) + 1);
    s, fault := Observed, NoDetail;
  }

  // Where an accepted property was found.
  datatype Found = Found(value: uint64, len: uint64, name: uint64, nameLength: uint64, next: uint64)

  predicate Within(f: Found, p: seq<uint8>) {
    f.value as nat + f.len as nat <= |p| && f.name as nat + f.nameLength as nat <= |p|
  }

  function PropertyAt(f: Found, p: seq<uint8>): Property
    requires Within(f, p)
  {
    Property(p[f.name as nat..f.name as nat + f.nameLength as nat], p[f.value as nat..f.value as nat + f.len as nat])
  }

  // The verdict on a property token, check by check.
  lemma UnfoldProperty(t: seq<uint8>, strings: seq<uint8>, b: Builder)
    ensures b.open.Empty? <==> Depth(b.open) == 0
    ensures b.open.Empty? ==> WalkProp(t, strings, b) == Rejected(Malformed, PropertyOutsideRoot)
    ensures b.open.Push? && |t| < 8 ==> WalkProp(t, strings, b) == Rejected(Malformed, PropertyTruncated)
    ensures b.open.Push? && |t| >= 8 ==>
              var w, len, name := WalkProp(t, strings, b), Be32(t, 0) as nat, Be32(t, 4) as nat;
              if len > |t| - 8 then w == Rejected(Malformed, PropertyTruncated)
              else if name >= |strings| || Strlen(strings[name..]) == |strings| - name
                  then w == Rejected(Malformed, PropertyName)
              else if b.open.top.children != [] then w == Rejected(Malformed, PropertyAfterSubnode)
              else w == Walk(Past(t[8..], len), strings, AddProperty(b, Property(Text(strings[name..]), t[8..][..len])))
  {
    hide Walk;
  }

  lemma PropertyHeader(p: seq<uint8>, pos: nat, end: nat)
    requires pos + 8 <= end <= |p|
    ensures var t := p[..end][pos..];
            Be32(t, 0) == Be32(p, pos) && Be32(t, 4) == Be32(p, pos + 4) && t[8..] == p[..end][pos + 8..]
  {
  }

  // The token at `pos` may follow, and is the property found, with the next token at `f.next`.
  ghost predicate ReadsAt(f: Found, p: seq<uint8>, pos: uint64, end: uint64, strings: seq<uint8>, b: Builder) {
    && pos <= end && end as nat <= |p|
    && b.open.Push? && b.open.top.children == []
    && Within(f, p)
    && pos < f.next <= end && f.next % 4 == 0
    && WalkProp(p[..end][pos..], strings, b) == Walk(p[..end][f.next..], strings, AddProperty(b, PropertyAt(f, p)))
  }

  lemma PropertyReads(p: seq<uint8>, pos: uint64, end: uint64, strings: seq<uint8>, b: Builder, f: Found, name: nat)
    requires pos as nat + 8 <= end as nat <= |p| <= DT_LIMIT && pos % 4 == 0 && end % 4 == 0
    requires b.open.Push? && b.open.top.children == []
    requires f.value == pos + 8 && f.len as nat == Be32(p, pos as nat) as nat && f.len <= end - f.value
    requires f.next == (f.value + f.len + 3) / 4 * 4
    requires name == Be32(p, pos as nat + 4) as nat < |strings| && Strlen(strings[name..]) < |strings| - name
    requires f.name as nat + f.nameLength as nat <= |p|
    requires Text(strings[name..]) == p[f.name as nat..f.name as nat + f.nameLength as nat]
    ensures ReadsAt(f, p, pos, end, strings, b)
  {
    hide Walk, WalkProp, Be32, Strlen, Text, Past, Pad4;
    PropertyHeader(p, pos as nat, end as nat);
    UnfoldProperty(p[..end][pos..], strings, b);
    PadAt(p, f.value as nat, f.len as nat, end as nat);
  }

  lemma PadAt(p: seq<uint8>, value: nat, len: nat, end: nat)
    requires value % 4 == 0 && end % 4 == 0 && value + len <= end <= |p|
    ensures (value + len + 3) / 4 * 4 == value + Pad4(len) <= end
    ensures (value + len + 3) / 4 * 4 % 4 == 0
    ensures p[..end][value..][..len] == p[value..value + len]
    ensures p[..end][(value + len + 3) / 4 * 4..] == Past(p[..end][value..], len)
  {
    assert (value + len + 3) / 4 * 4 == Pad4(value + len);
    hide Pad4;
    Pad4Shift(value, len);
    Pad4Below(value + len, end);
    assert p[..end][value..][Pad4(len)..] == p[..end][value + Pad4(len)..];
  }

  // The NUL-terminated name at offset `name` of the strings block, if there is one.
  method LocateName(p: seq<uint8>, offStrings: uint64, sizeStrings: uint64, name: uint64)
    returns (found: bool, length: uint64)
    requires offStrings as nat + sizeStrings as nat <= |p| <= DT_LIMIT
    ensures var strings := p[..offStrings + sizeStrings][offStrings..];
            && (found <==> name as nat < |strings| && Strlen(strings[name..]) < |strings| - name as nat)
            && (found ==>
                && (offStrings + name) as nat + length as nat <= |p|
                && Text(strings[name..]) == p[offStrings + name..offStrings + name + length])
  {
    hide Strlen, Text;
    if name >= sizeStrings {
      return false, 0;
    }
    var limit := offStrings + sizeStrings;
    var n := FindNul(p, offStrings + name, limit);
    assert p[..limit][offStrings..][name..] == p[..limit][offStrings + name..];
    found, length := n != limit, n - (offStrings + name);
  }

  // The checks on a property. `NoDetail` means it is part of the tree.
  method ReadProperty(p: seq<uint8>, pos: uint64, end: uint64, offStrings: uint64, sizeStrings: uint64,
                      depth: uint32, afterSubnode: bool, ghost b: Builder)
    returns (fault: Detail, f: Found)
    requires 0 < pos <= end && end as nat <= |p| <= DT_LIMIT
    requires pos % 4 == 0 && end % 4 == 0
    requires offStrings as nat + sizeStrings as nat <= |p|
    requires depth as nat == Depth(b.open) && (depth > 0 ==> afterSubnode == (b.open.top.children != []))
    ensures var strings := p[..offStrings + sizeStrings][offStrings..];
            if fault != NoDetail then WalkProp(p[..end][pos..], strings, b) == Rejected(Malformed, fault)
            else ReadsAt(f, p, pos, end, strings, b)
  {
    hide Walk, WalkProp, Be32, Strlen, Text, ReadsAt, Pad4, Past, AddProperty;
    ghost var strings := p[..offStrings + sizeStrings][offStrings..];
    UnfoldProperty(p[..end][pos..], strings, b);
    f := Found(0, 0, 0, 0, 0);
    if depth == 0 {
      return PropertyOutsideRoot, f;
    }
    if end - pos < 8 {
      return PropertyTruncated, f;
    }
    var len, name := Be32(p, pos as nat) as uint64, Be32(p, pos as nat + 4) as uint64;
    PropertyHeader(p, pos as nat, end as nat);
    if len > end - (pos + 8) {
      return PropertyTruncated, f;
    }
    var found, length := LocateName(p, offStrings, sizeStrings, name);
    if !found {
      return PropertyName, f;
    }
    if afterSubnode {
      return PropertyAfterSubnode, f;
    }
    f := Found(pos + 8, len, offStrings + name, length, (pos + 8 + len + 3) / 4 * 4);
    PropertyReads(p, pos, end, strings, b, f, name as nat);
    fault := NoDetail;
  }

  // Entering a node flags its parent and clears its own flag.
  method OpenNode(hasChild: array<uint8>, depth: uint32, roots: uint32, ghost b: Builder, ghost last: bool,
                  ghost name: seq<uint8>)
    returns (deeper: uint32, count: uint32)
    requires hasChild.Length == DEPTH_LIMIT
    requires Tracks(b, depth as nat, roots as nat, hasChild[..], last) && MayEnter(b, name)
    modifies hasChild
    ensures Tracks(Enter(b, name), deeper as nat, count as nat, hasChild[..], false)
    ensures RootModels(Enter(b, name)) == RootModels(b)
  {
    ghost var flags := hasChild[..];
    TracksEnter(b, depth as nat, roots as nat, flags, last, name);
    count := roots;
    if depth == 0 {
      count := roots + 1;
    } else {
      hasChild[depth - 1] := 1;
    }
    hasChild[depth] := 0;
    deeper := depth + 1;
    assert hasChild[..] == (if depth == 0 then flags else flags[depth - 1 := 1])[depth := 0];
  }

  // Leaving a node clears its flag; its parent's stays set.
  method CloseNode(hasChild: array<uint8>, depth: uint32, roots: uint32, ghost b: Builder, ghost last: bool)
    returns (shallower: uint32)
    requires hasChild.Length == DEPTH_LIMIT && depth > 0
    requires Tracks(b, depth as nat, roots as nat, hasChild[..], last)
    modifies hasChild
    ensures b.open.Push? && Tracks(Leave(b), shallower as nat, roots as nat, hasChild[..], true)
    ensures RootModels(Leave(b)) == RootModels(b)
  {
    ghost var flags := hasChild[..];
    TracksLeave(b, depth as nat, roots as nat, flags, last);
    shallower := depth - 1;
    hasChild[shallower] := 0;
    assert hasChild[..] == flags[shallower := 0];
  }

  // `strings` is the strings block, p[offStrings..offStrings + sizeStrings).
  method ParseStructure(r: DtReport, p: seq<uint8>, offStruct: uint64, end: uint64,
                        offStrings: uint64, sizeStrings: uint64)
    requires r.Valid() && r.ModelView() == Classify([])
    requires 0 < offStruct <= end && end as nat <= |p| <= DT_LIMIT
    requires offStruct % 4 == 0 && end % 4 == 0
    requires offStrings as nat + sizeStrings as nat <= |p|
    modifies r, r.model
    ensures r.Valid()
    ensures var was := old(r.View());
            match Walk(p[..end][offStruct..], p[..offStrings + sizeStrings][offStrings..], START)
            case Rejected(s, d) => r.View() == Refused(s, d, was.size, was.version, was.lastComp)
            case Accepted(root) =>
              r.View() == DtResult(Observed, NoDetail, was.size, was.version, was.lastComp, ModelOf(root))
  {
    hide Walk, WalkBegin, WalkProp, Be32, Classify, RootModels, Text, Tracks, OneRoot, Depth, RootCount;
    hide Enter, Leave, AddProperty, MayEnter;
    ghost var block, strings := p[..end], p[..offStrings + sizeStrings][offStrings..];
    ghost var verdict := Walk(block[offStruct..], strings, START);
    ghost var size, version, lastComp := r.size, r.version, r.lastComp;
    ghost var b, last := START, false;
    var pos := offStruct;
    var depth: uint32, roots: uint32 := 0, 0;
    var hasChild := new uint8[DEPTH_LIMIT](_ => 0);
    TracksStart(hasChild[..]);
    var state, fault := Malformed, NoDetail;
    while true
      invariant state == Malformed && fault == NoDetail
      invariant offStruct <= pos <= end && pos % 4 == 0
      invariant r.Valid() && r.size == size && r.version == version && r.lastComp == lastComp
      invariant Tracks(b, depth as nat, roots as nat, hasChild[..], last)
      invariant r.ModelView() == Classify(RootModels(b))
      invariant Walk(block[pos..], strings, b) == verdict
      decreases end - pos
    {
      Unfold(block[pos..], strings, b);
      TracksMeans(b, depth as nat, roots as nat, hasChild[..], last);
      if end - pos < 4 {
        fault := MissingEnd;
        break;
      }
      var token := Be32(p, pos as nat);
      WordAt(p, pos as nat, end as nat);
      pos := pos + 4;
      if token == FDT_NOP {
        continue;
      }
      if token == FDT_BEGIN_NODE {
        var refusal, next;
        ghost var name;
        refusal, fault, next, name := ReadName(p, pos, end, depth, roots, strings, b);
        if fault != NoDetail {
          state := refusal;
          break;
        }
        depth, roots := OpenNode(hasChild, depth, roots, b, last, name);
        pos, b, last := next, Enter(b, name), false;
      } else if token == FDT_END_NODE {
        if depth == 0 {
          fault := UnbalancedEndNode;
          break;
        }
        depth := CloseNode(hasChild, depth, roots, b, last);
        b, last := Leave(b), true;
      } else if token == FDT_PROP {
        var f;
        fault, f := ReadProperty(p, pos, end, offStrings, sizeStrings, depth,
                                 depth > 0 && hasChild[depth - 1] != 0, b);
        if fault != NoDetail {
          break;
        }
        ghost var property := PropertyAt(f, p);
        TracksProperty(b, depth as nat, roots as nat, hasChild[..], last, property);
        var named := NamedModel(p, f.name, f.nameLength);
        if depth == 1 && named {
          r.TakeModel(p[f.value..f.value + f.len], RootModels(b));
        }
        b, last := AddProperty(b, property), false;
        pos := f.next;
      } else if token == FDT_END {
        if depth > 0 || roots == 0 {
          fault := UnterminatedNode;
          break;
        }
        if pos != end {
          fault := TrailingStructure;
          break;
        }
        FinishedModels(b);
        break;
      } else {
        fault := BadToken;
        break;
      }
    }
    if fault == NoDetail {
      r.state, r.detail := Observed, NoDetail;
    } else {
      r.Fail(state, fault);
    }
  }

  method NamedModel(p: seq<uint8>, name: uint64, length: uint64) returns (named: bool)
    requires name as nat + length as nat <= |p| <= DT_LIMIT
    ensures named <==> p[name as nat..name as nat + length as nat] == MODEL_NAME
  {
    named := length == 5 && p[name] == 0x6d && p[name + 1] == 0x6f && p[name + 2] == 0x64
             && p[name + 3] == 0x65 && p[name + 4] == 0x6c;
  }

  lemma WordAt(p: seq<uint8>, pos: nat, end: nat)
    requires pos + 4 <= end <= |p|
    ensures Be32(p[..end][pos..], 0) == Be32(p, pos)
    ensures p[..end][pos..][4..] == p[..end][pos + 4..]
  {
  }

  lemma FinishedModels(b: Builder)
    requires b.open.Empty? && b.roots != []
    ensures Classify(RootModels(b)) == ModelOf(b.roots[0])
  {
  }

  // -------------------------------------------------------------------- the entry points

  // True when the extents [a, a+al) and [b, b+bl) do not meet.
  method Disjoint(a: uint64, al: uint64, b: uint64, bl: uint64) returns (apart: bool)
    requires a < 0x1_0000_0000 && al < 0x1_0000_0000 && b < 0x1_0000_0000 && bl < 0x1_0000_0000
    ensures apart <==> Apart(a as nat, al as nat, b as nat, bl as nat)
  {
    apart := a + al <= b || b + bl <= a;
  }

  lemma LayoutCases(p: seq<uint8>)
    requires |p| >= HEADER && Total(p) == |p|
    ensures InBounds(p) ==> OffRsv(p) <= RsvLimit(p) <= |p|
    ensures if !Aligned(p) then LayoutFault(p) == Alignment
            else if !InBounds(p) then LayoutFault(p) == BlockBounds
            else if Overlapping(p) then LayoutFault(p) == BlockOverlap
            else LayoutFault(p) == RsvFault(p[..RsvLimit(p)][OffRsv(p)..])
  {
    hide Be32, RsvWalk;
    if InBounds(p) {
      LimitInBounds(p);
    }
  }

  // The header checks after the version and size ones, then the reservation loop.
  method CheckLayout(p: seq<uint8>, total: uint32) returns (fault: Detail)
    requires HEADER <= |p| <= DT_LIMIT && total as nat == |p| == Total(p)
    ensures fault == LayoutFault(p)
  {
    var offStruct, offStrings, offRsv := Be32(p, 8), Be32(p, 12), Be32(p, 16);
    var sizeStrings, sizeStruct := Be32(p, 32), Be32(p, 36);
    LayoutCases(p);
    hide Be32, LayoutFault, RsvFault;
    if offRsv % 8 != 0 || offStruct % 4 != 0 || sizeStruct % 4 != 0 {
      return Alignment;
    }
    var header := HEADER as uint32;
    if offRsv < header || offStruct < header || offStrings < header
       || offRsv > total || offStruct > total || sizeStruct > total - offStruct
       || offStrings > total || sizeStrings > total - offStrings {
      return BlockBounds;
    }
    var rsvStruct := Disjoint(offRsv as uint64, 1, offStruct as uint64, sizeStruct as uint64);
    var rsvStrings := Disjoint(offRsv as uint64, 1, offStrings as uint64, sizeStrings as uint64);
    var structStrings := Disjoint(offStruct as uint64, sizeStruct as uint64, offStrings as uint64,
                                  sizeStrings as uint64);
    if !rsvStruct || !rsvStrings || !structStrings {
      return BlockOverlap;
    }
    var limit := total;
    if sizeStruct != 0 && offStruct > offRsv && offStruct < limit {
      limit := offStruct;
    }
    if sizeStrings != 0 && offStrings > offRsv && offStrings < limit {
      limit := offStrings;
    }
    fault := ScanReservations(p, offRsv as uint64, limit as uint64);
  }

  method ParseDt(data: Option<seq<uint8>>) returns (r: DtReport)
    requires data.Some? ==> |data.value| <= UINT64_MAX as nat
    ensures fresh(r) && fresh(r.model) && r.Valid()
    ensures r.View() == Parse(data)
  {
    r := new DtReport();
    if data.None? {
      r.Fail(Malformed, NullBlob);
      return;
    }
    var p := data.value;
    var available := |p| as uint64;
    if available < HEADER as uint64 {
      r.Fail(Malformed, HeaderTruncated);
      return;
    }
    if Be32(p, 0) != FDT_MAGIC {
      r.Fail(Malformed, Magic);
      return;
    }
    var total := Be32(p, 4);
    r.version, r.lastComp := Be32(p, 20), Be32(p, 24);
    if r.version < 17 || r.lastComp > 17 || r.lastComp > r.version {
      r.Fail(Unsupported, Version);
      return;
    }
    if total > DT_LIMIT as uint32 {
      r.Fail(Unsupported, SizeLimit);
      return;
    }
    if total < HEADER as uint32 {
      r.Fail(Malformed, TotalSize);
      return;
    }
    if total as uint64 > available {
      r.Fail(Malformed, TotalSizeExceedsSpan);
      return;
    }
    r.size := total;
    Declared(p, p[..total]);
    ParseBlocks(r, p[..total], total);
  }

  // Only the declared bytes are handed on.
  method ParseBlocks(r: DtReport, p: seq<uint8>, total: uint32)
    requires r.Valid() && r.ModelView() == NO_MODEL
    requires HEADER <= total as nat == |p| <= DT_LIMIT && total == Be32(p, 4)
    requires Be32(p, 0) == FDT_MAGIC && VersionOk(p)
    requires r.size == total && r.version == VersionOf(p) && r.lastComp == LastCompOf(p)
    modifies r, r.model
    ensures r.Valid() && r.View() == Parse(Some(p))
  {
    hide Be32, Walk, RsvWalk, Parse, LayoutFault, VersionOk, ModelOf;
    var offStruct, offStrings := Be32(p, 8) as uint64, Be32(p, 12) as uint64;
    var sizeStrings, sizeStruct := Be32(p, 32) as uint64, Be32(p, 36) as uint64;
    ByLayout(p, offStruct as nat, sizeStruct as nat, offStrings as nat, sizeStrings as nat);
    var fault := CheckLayout(p, total);
    if fault != NoDetail {
      r.Fail(Malformed, fault);
      return;
    }
    r.modelState := Unavailable;
    ParseStructure(r, p, offStruct, offStruct + sizeStruct, offStrings, sizeStrings);
  }

  lemma Declared(q: seq<uint8>, p: seq<uint8>)
    requires |q| >= HEADER && HEADER <= Total(q) <= |q| && p == q[..Total(q)]
    ensures Parse(Some(p)) == Parse(Some(q))
    ensures Be32(p, 0) == Be32(q, 0) && Be32(p, 4) == Be32(q, 4) && VersionOf(p) == VersionOf(q)
    ensures LastCompOf(p) == LastCompOf(q) && VersionOk(p) == VersionOk(q)
  {
    hide Be32, Parse;
    assert p[..Total(q)] == p;
    SameWord(q, p, Total(q), 4);
    Locality(q, p);
    assert q[..HEADER] == p[..HEADER];
    SameHeader(q, p);
  }

  lemma ByLayout(p: seq<uint8>, offStruct: nat, sizeStruct: nat, offStrings: nat, sizeStrings: nat)
    requires |p| >= HEADER && Total(p) == |p| <= DT_LIMIT && Be32(p, 0) == FDT_MAGIC && VersionOk(p)
    requires offStruct == OffStruct(p) && sizeStruct == SizeStruct(p)
    requires offStrings == OffStrings(p) && sizeStrings == SizeStrings(p)
    ensures LayoutFault(p) != NoDetail ==>
              Parse(Some(p)) == Refused(Malformed, LayoutFault(p), Be32(p, 4), VersionOf(p), LastCompOf(p))
    ensures LayoutFault(p) == NoDetail ==>
              && 0 < offStruct && offStruct + sizeStruct <= |p| && offStrings + sizeStrings <= |p|
              && offStruct % 4 == 0 && (offStruct + sizeStruct) % 4 == 0
              && Parse(Some(p)) ==
                 match Walk(p[..offStruct + sizeStruct][offStruct..], p[..offStrings + sizeStrings][offStrings..],
                            START) {
                   case Rejected(s, d) => Refused(s, d, Be32(p, 4), VersionOf(p), LastCompOf(p))
                   case Accepted(root) => DtResult(Observed, NoDetail, Be32(p, 4), VersionOf(p), LastCompOf(p),
                                                   ModelOf(root))
                 }
  {
    hide Be32, Walk, RsvWalk;
  }

  // The firmware hands over a bare pointer: eight bytes are read before the declared
  // length is known, and then at most that length.
  method ParseFirmwareDt(data: Option<seq<uint8>>) returns (r: DtReport)
    requires data.Some? ==> |data.value| >= 8
    requires data.Some? && Be32(data.value, 0) == FDT_MAGIC && HEADER <= Be32(data.value, 4) as nat <= DT_LIMIT ==>
               Be32(data.value, 4) as nat <= |data.value|
    ensures fresh(r) && fresh(r.model) && r.Valid()
    ensures r.View() == ParseFirmware(data)
  {
    r := new DtReport();
    if data.None? {
      r.detail := NullBlob;
      return;
    }
    var p := data.value;
    if Be32(p, 0) != FDT_MAGIC {
      r.detail := Magic;
      return;
    }
    var total := Be32(p, 4);
    if total > DT_LIMIT as uint32 {
      r.state, r.detail := Unsupported, SizeLimit;
      return;
    }
    if total < HEADER as uint32 {
      r.detail := TotalSize;
      return;
    }
    r := ParseDt(Some(p[..total]));
  }
}
