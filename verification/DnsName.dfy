/** Host names in DNS messages (src/core/dns.c): the writer in dns_send, the walker
    dns_parse_name and the comparison dns_compare_name, against the format of sections 3.1
    and 4.1.4 of RFC 1035. */
module DnsName {
  import opened Memory

  const DOT: byte := 0x2e

  lemma U8Next(n: nat)
    ensures U8(U8(n) + 1) == U8(n + 1) && U8(0) == 0
  {
  }

  /** Both top bits are set: the first byte of a compression pointer. */
  predicate IsPointer(n: byte) { n >= 0xc0 }

  lemma PointerBits(n: bv8)
    ensures n & 0xc0 == 0xc0 <==> IsPointer(n as int)
  {
  }

  // ---------------------------------------------------------------- the format

  type Label = seq<byte>

  datatype Ending = Root | Pointer(hi: byte, lo: byte)

  /** A name as it stands in a message: labels, and then the root or a pointer to more. */
  datatype WireName = WireName(labels: seq<Label>, ending: Ending)

  /** Lengths that are not taken for a pointer; RFC 1035 allows 63. */
  predicate ValidName(w: WireName) {
    (forall k :: 0 <= k < |w.labels| ==> |w.labels[k]| < 0xc0) && (w.ending.Pointer? ==> IsPointer(w.ending.hi))
  }

  function WireLabels(labels: seq<Label>): seq<byte>
    requires forall k :: 0 <= k < |labels| ==> |labels[k]| < 0x100
  {
    if labels == [] then [] else [|labels[0]|] + labels[0] + WireLabels(labels[1..])
  }

  function WireEnding(e: Ending): seq<byte> {
    match e
    case Root => [0]
    case Pointer(hi, lo) => [hi, lo]
  }

  function Wire(w: WireName): (r: seq<byte>)
    requires ValidName(w)
    ensures |r| > 0
  {
    WireLabels(w.labels) + WireEnding(w.ending)
  }

  /** The usual notation, with dots between the labels. */
  function Dotted(labels: seq<Label>): seq<byte> {
    if labels == [] then []
    else if |labels| == 1 then labels[0]
    else labels[0] + [DOT] + Dotted(labels[1..])
  }

  /** The labels of a dotted name; a name without dots is one label, and so is the empty one. */
  function LabelsOf(s: seq<byte>): (labels: seq<Label>)
    ensures |labels| > 0
  {
    var j := LabelLength(s);
    if j == |s| then [s] else [s[..j]] + LabelsOf(s[j + 1..])
  }

  function LabelLength(s: seq<byte>): (j: nat)
    ensures j <= |s|
  {
    if s == [] || s[0] == DOT then 0 else 1 + LabelLength(s[1..])
  }

  lemma {:induction false} LabelLengthStops(s: seq<byte>)
    ensures DOT !in s[..LabelLength(s)] && (LabelLength(s) < |s| ==> s[LabelLength(s)] == DOT)
  {
    if s != [] && s[0] != DOT {
      LabelLengthStops(s[1..]);
      assert s[..LabelLength(s)] == [s[0]] + s[1..][..LabelLength(s[1..])];
    }
  }

  lemma {:induction false} LabelLengthIs(s: seq<byte>, j: nat)
    requires j <= |s| && (forall k :: 0 <= k < j ==> s[k] != DOT) && (j < |s| ==> s[j] == DOT)
    ensures LabelLength(s) == j
  {
    if j > 0 {
      LabelLengthIs(s[1..], j - 1);
    }
  }

  lemma {:induction false} LabelsRoundTrip(s: seq<byte>)
    ensures Dotted(LabelsOf(s)) == s
    ensures forall k :: 0 <= k < |LabelsOf(s)| ==> DOT !in LabelsOf(s)[k]
  {
    var j := LabelLength(s);
    LabelLengthStops(s);
    if j < |s| {
      LabelsRoundTrip(s[j + 1..]);
      assert LabelsOf(s)[1..] == LabelsOf(s[j + 1..]);
      assert s == s[..j] + [DOT] + s[j + 1..];
    }
  }

  lemma {:induction false} DottedRoundTrip(labels: seq<Label>)
    requires labels != [] && forall k :: 0 <= k < |labels| ==> DOT !in labels[k]
    ensures LabelsOf(Dotted(labels)) == labels
  {
    var s, first := Dotted(labels), labels[0];
    LabelLengthIs(s, |first|);
    if |labels| > 1 {
      DottedRoundTrip(labels[1..]);
      assert s[..|first|] == first && s[|first| + 1..] == Dotted(labels[1..]);
    }
  }

  // ---------------------------------------------------------------- the writer

  /** What dns_send writes for a name: the length of each label in a u8_t, then the label. */
  function Encode(s: seq<byte>): (r: seq<byte>)
    ensures |r| == |s| + 2
  {
    var j := LabelLength(s);
    [U8(j)] + s[..j] + if j == |s| then [0] else Encode(s[j + 1..])
  }

  /** For labels whose length fits its byte, that is the format of RFC 1035. */
  lemma {:induction false} EncodeIsWire(s: seq<byte>)
    requires forall k :: 0 <= k < |LabelsOf(s)| ==> |LabelsOf(s)[k]| < 0xc0
    ensures Encode(s) == WireLabels(LabelsOf(s)) + [0]
  {
    var j, labels := LabelLength(s), LabelsOf(s);
    assert labels[0] == s[..j] && |labels[0]| == j && U8(j) == j;
    if j < |s| {
      var rest := LabelsOf(s[j + 1..]);
      assert labels[1..] == rest;
      assert forall k :: 0 <= k < |rest| ==> rest[k] == labels[k + 1];
      EncodeIsWire(s[j + 1..]);
      Regroup([j] + s[..j], WireLabels(rest), [0]);
    } else {
      assert labels[1..] == [] && s[..j] == s;
      assert [j] + s + [] == [j] + s;
    }
  }

  /** What is still to be written when the writer stands at h; behind the end of the C string
      only the closing zero is. */
  function Unwritten(s: seq<byte>, h: nat): seq<byte> {
    if h <= |s| then Encode(s[h..]) else [0]
  }

  lemma EncodeFrom(written: seq<byte>, s: seq<byte>, h: nat, j: nat)
    requires h <= |s| && j == LabelLength(s[h..]) && Encode(s) == written + Unwritten(s, h)
    ensures Encode(s) == written + ([U8(j)] + s[h..h + j]) + Unwritten(s, h + j + 1)
  {
    EncodeRest(s, h, j);
    hide Encode, LabelLength, U8, Unwritten;
    Regroup(written, [U8(j)] + s[h..h + j], Unwritten(s, h + j + 1));
  }

  lemma EncodeRest(s: seq<byte>, h: nat, j: nat)
    requires h <= |s| && j == LabelLength(s[h..])
    ensures h + j <= |s| && Unwritten(s, h) == ([U8(j)] + s[h..h + j]) + Unwritten(s, h + j + 1)
  {
    hide LabelLength, U8;
    assert s[h..][..j] == s[h..h + j];
    if h + j < |s| {
      assert s[h..][j + 1..] == s[h + j + 1..];
    }
  }

  lemma HoldsLength(now: seq<byte>, b: seq<byte>, nptr: nat, body: seq<byte>, n: byte)
    requires Holds(now, b, nptr + 1, body)
    ensures Holds(now[nptr := n], b, nptr, [n] + body)
  {
  }

  /** One round of the writer: a label up to its dot or the end of the C string. */
  method WriteLabel(packet: array<byte>, nptr: nat, name: seq<byte>, start: nat) returns (h: nat, query: nat)
    requires start <= |name| && nptr + 1 + |name| - start < packet.Length && 0 !in name
    modifies packet
    ensures start <= h <= |name| && h - start == LabelLength(name[start..]) && query == nptr + 1 + (h - start)
    ensures Holds(packet[..], old(packet[..]), nptr, [U8(h - start)] + name[start..h])
  {
    hide U8, Holds, LabelLength;
    ghost var b := packet[..];
    h, query := start, nptr + 1;
    var n: byte := 0;
    U8Next(0);
    HoldsNothing(b, nptr + 1);
    assert name[start..start] == [];
    while At(name, h) != DOT && At(name, h) != 0
      invariant start <= h <= |name| && query == nptr + 1 + (h - start) && n == U8(h - start)
      invariant LabelLength(name[start..]) == h - start + LabelLength(name[h..])
      invariant Holds(packet[..], b, nptr + 1, name[start..h])
      decreases |name| - h
    {
      U8Next(h - start);
      LabelStep(name, h);
      HoldsByte(packet[..], b, nptr + 1, name[start..h], name[h]);
      assert name[start..h + 1] == name[start..h] + [name[h]];
      packet[query] := At(name, h);
      query := query + 1;
      h := h + 1;
      n := U8(n + 1);
    }
    LabelStep(name, h);
    HoldsLength(packet[..], b, nptr, name[start..h], n);
    packet[nptr] := n;
  }

  lemma LabelStep(name: seq<byte>, h: nat)
    requires h <= |name|
    ensures LabelLength(name[h..]) == if h == |name| || name[h] == DOT then 0 else 1 + LabelLength(name[h + 1..])
  {
    if h < |name| {
      assert name[h..][1..] == name[h + 1..];
    }
  }

  /** The writer has written `written` from `query` on and stands at h. */
  predicate Writing(now: seq<byte>, b: seq<byte>, name: seq<byte>, query: nat, h: nat, written: seq<byte>) {
    h == |written| <= |name| + 1 && Encode(name) == written + Unwritten(name, h) && Holds(now, b, query, written)
  }

  lemma StartWriting(b: seq<byte>, name: seq<byte>, query: nat)
    requires query <= |b|
    ensures Writing(b, b, name, query, 0, [])
  {
    assert name[0..] == name;
  }

  lemma EndWriting(now: seq<byte>, b: seq<byte>, name: seq<byte>, query: nat, written: seq<byte>)
    requires Writing(now, b, name, query, |name| + 1, written) && query + |name| + 2 <= |b|
    ensures |now| == |b| && Holds(now[query + |name| + 1 := 0], b, query, Encode(name))
  {
    hide Holds, Encode;
    assert Unwritten(name, |name| + 1) == [0];
    HoldsSize(now, b, query, written);
    HoldsByte(now, b, query, written, 0);
  }

  /** A round of the loop: one label, and the step over the dot or the end behind it. */
  method WritePiece(packet: array<byte>, query: nat, q: nat, name: seq<byte>, start: nat, ghost b: seq<byte>,
                    ghost written: seq<byte>)
    returns (h: nat, q': nat, ghost written': seq<byte>)
    requires start <= |name| && q == query + start && query + |name| + 2 <= packet.Length && 0 !in name
    requires Writing(packet[..], b, name, query, start, written)
    modifies packet
    ensures start < h <= |name| + 1 && q' == query + h && Writing(packet[..], b, name, query, h, written')
  {
    hide Encode, Holds, U8, LabelLength, Unwritten;
    ghost var now, j := packet[..], LabelLength(name[start..]);
    EncodeFrom(written, name, start, j);
    ghost var piece := [U8(j)] + name[start..start + j];
    h, q' := WriteLabel(packet, q, name, start);
    HoldsMore(now, b, query, written, packet[..], piece);
    written' := written + piece;
    h := h + 1;
  }

  /** The writer of dns_send: from the C string `name` into the packet at `query`; returns
      the position behind the name. */
  method WriteName(packet: array<byte>, query: nat, name: seq<byte>) returns (end: nat)
    requires query + |name| + 2 <= packet.Length && 0 !in name
    modifies packet
    ensures end == query + |name| + 2
    ensures Holds(packet[..], old(packet[..]), query, Encode(name))
  {
    var h, q := 0, query;
    ghost var b, written: seq<byte> := packet[..], [];
    StartWriting(b, name, query);
    hide Writing, Encode, Holds;
    while h <= |name|
      invariant h <= |name| + 1 && q == query + h && Writing(packet[..], b, name, query, h, written)
      decreases |name| + 1 - h
    {
      h, q, written := WritePiece(packet, query, q, name, h, b, written);
    }
    EndWriting(packet[..], b, name, query, written);
    packet[q] := 0;
    end := q + 1;
  }

  // ---------------------------------------------------------------- the walker

  /** A name whose end dns_parse_name finds: an empty label ends it too early, except in
      front, and the root name by itself is walked past. */
  predicate Walkable(w: WireName) {
    (w.labels == [] ==> w.ending.Pointer?) && forall k :: 1 <= k < |w.labels| ==> w.labels[k] != []
  }

  /** dns_parse_name as a function of memory: one round takes a length byte and its label. */
  function EndOfName(b: seq<byte>, p: nat): (end: nat)
    ensures end > p
    decreases |b| - p
  {
    var n := At(b, p);
    if IsPointer(n) then p + 2
    else if At(b, p + 1 + n) == 0 then p + n + 2
    else EndOfName(b, p + 1 + n)
  }

  /** dns_parse_name */
  method ParseName(b: seq<byte>, start: nat) returns (end: nat)
    ensures end == EndOfName(b, start)
  {
    var query := start;
    var more := true;
    while more
      invariant more ==> EndOfName(b, query) == EndOfName(b, start)
      invariant !more ==> query + 1 == EndOfName(b, start)
      decreases more, |b| - query
    {
      ghost var q0 := query;
      var n := At(b, query);
      query := query + 1;
      if IsPointer(n) {
        more := false;
      } else {
        while n > 0
          invariant query + n == q0 + 1 + At(b, q0)
        {
          query := query + 1;
          n := n - 1;
        }
        more := At(b, query) != 0;
      }
    }
    end := query + 1;
  }

  /** The walker finds the end of exactly the walkable names. */
  lemma {:induction false} WalkerFindsTheEnd(b: seq<byte>, p: nat, w: WireName)
    requires ValidName(w) && StandsAt(b, p, Wire(w))
    ensures EndOfName(b, p) == p + |Wire(w)| <==> Walkable(w)
    decreases |w.labels|
  {
    hide Wire, StandsAt, Walkable, ValidName;
    if w.labels == [] {
      PointerEndsBoth([], 0, b, p, w);
    } else {
      LengthIsNoPointer(w);
      var n, rest := |w.labels[0]|, Tail(w);
      RestOfName(b, p, w);
      WalkableTail(w);
      WireLength(rest);
      if FirstByte(rest) != 0 {
        WalkerFindsTheEnd(b, p + 1 + n, rest);
      }
    }
  }

  lemma WireLength(w: WireName)
    requires ValidName(w)
    ensures |Wire(w)| >= if w.labels != [] || w.ending.Pointer? then 2 else 1
    ensures w.labels == [] && w.ending.Root? ==> |Wire(w)| == 1
    ensures FirstByte(w) == 0 <==> if w.labels == [] then w.ending.Root? else w.labels[0] == []
  {
  }

  lemma WalkableTail(w: WireName)
    requires w.labels != []
    ensures Walkable(w) <==> |w.labels| == 1 || (w.labels[1] != [] && Walkable(Tail(w)))
    ensures |w.labels| == 1 && w.ending.Pointer? ==> Walkable(Tail(w))
  {
    if |w.labels| > 1 {
      assert forall k :: 1 <= k < |w.labels| ==> w.labels[k] == Tail(w).labels[k - 1];
      assert forall k :: 1 <= k < |Tail(w).labels| ==> Tail(w).labels[k] == w.labels[k + 1];
    }
  }

  function Tail(w: WireName): WireName
    requires w.labels != []
  {
    WireName(w.labels[1..], w.ending)
  }

  function FirstByte(w: WireName): int {
    if w.labels != [] then |w.labels[0]| else if w.ending.Root? then 0 else w.ending.hi
  }

  lemma WireSplits(w: WireName)
    requires ValidName(w)
    ensures Wire(w)[0] == FirstByte(w)
    ensures w.labels != [] ==> ValidName(Tail(w)) && Wire(w) == [|w.labels[0]|] + (w.labels[0] + Wire(Tail(w)))
  {
    if w.labels != [] {
      assert forall k :: 0 <= k < |Tail(w).labels| ==> Tail(w).labels[k] == w.labels[k + 1];
      Regroup([|w.labels[0]|] + w.labels[0], WireLabels(w.labels[1..]), WireEnding(w.ending));
      Regroup([|w.labels[0]|], w.labels[0], Wire(Tail(w)));
    }
  }

  /** The first label of a name, and the first byte of what follows. */
  lemma RestOfName(b: seq<byte>, p: nat, w: WireName)
    requires ValidName(w) && w.labels != [] && StandsAt(b, p, Wire(w))
    ensures var n := |w.labels[0]|;
            ValidName(Tail(w)) && |Wire(w)| == 1 + n + |Wire(Tail(w))| && StandsAt(b, p + 1 + n, Wire(Tail(w))) &&
            At(b, p) == n && StandsAt(b, p + 1, w.labels[0]) && At(b, p + 1 + n) == FirstByte(Tail(w))
  {
    var n, rest := |w.labels[0]|, Wire(Tail(w));
    WireSplits(w);
    WireSplits(Tail(w));
    hide Wire, WireLabels, WireEnding, StandsAt, At, FirstByte;
    HeadStands(b, p, n, w.labels[0], rest);
    StandsFirst(b, p + 1 + n, rest);
  }

  lemma HeadStands(b: seq<byte>, p: nat, n: byte, piece: seq<byte>, rest: seq<byte>)
    requires StandsAt(b, p, [n] + (piece + rest))
    ensures At(b, p) == n && StandsAt(b, p + 1, piece) && StandsAt(b, p + 1 + |piece|, rest)
  {
    var head := [n];
    hide StandsAt, At;
    StandsApart(b, p, head, piece + rest);
    StandsApart(b, p + 1, piece, rest);
    StandsFirst(b, p, head);
  }

  // ---------------------------------------------------------------- the comparison

  /** n bytes of q from i on are those of b from r on. */
  predicate Same(q: seq<byte>, i: nat, b: seq<byte>, r: nat, n: nat)
    decreases n
  {
    n == 0 || (At(q, i) == At(b, r) && Same(q, i + 1, b, r + 1, n - 1))
  }

  /** dns_compare_name as a function of memory: q is the whole array name[] of the table, of
      which the C string is the part before the first zero, looked at from index i on; b is the
      message at position r. The step over the dot of q does not look at it, nor does the
      comparison stop at the zero. */
  function Compare(q: seq<byte>, i: nat, b: seq<byte>, r: nat): int
    decreases |b| - r
  {
    var n := At(b, r);
    if IsPointer(n) then 0
    else if !Same(q, i, b, r + 1, n) then 1
    else if At(b, r + 1 + n) == 0 then 0
    else Compare(q, i + n + 1, b, r + 1 + n)
  }

  /** dns_compare_name */
  method CompareName(q: seq<byte>, b: seq<byte>, start: nat) returns (differ: int)
    ensures differ == Compare(q, 0, b, start)
  {
    var query, response := 0, start;
    var more := true;
    while more
      invariant if more then Compare(q, query, b, response) == Compare(q, 0, b, start) else Compare(q, 0, b, start) == 0
      decreases more, |b| - response
    {
      ghost var q0, r0 := query, response;
      var n: nat := At(b, response);
      response := response + 1;
      if IsPointer(n) {
        more := false;
      } else {
        while n > 0
          invariant query + n == q0 + At(b, r0) && response + n == r0 + 1 + At(b, r0)
          invariant Same(q, query, b, response, n) == Same(q, q0, b, r0 + 1, At(b, r0))
        {
          if At(q, query) != At(b, response) {
            return 1;
          }
          response := response + 1;
          query := query + 1;
          n := n - 1;
        }
        query := query + 1;
        more := At(b, response) != 0;
      }
    }
    differ := 0;
  }

  /** q has the label at i. */
  predicate HasLabel(q: seq<byte>, i: nat, piece: Label)
    decreases |piece|
  {
    piece == [] || (At(q, i) == piece[0] && HasLabel(q, i + 1, piece[1..]))
  }

  /** q has the labels in their places, whatever stands between and behind them. */
  predicate Agrees(q: seq<byte>, i: nat, labels: seq<Label>)
    decreases |labels|
  {
    labels == [] || (HasLabel(q, i, labels[0]) && Agrees(q, i + |labels[0]| + 1, labels[1..]))
  }

  /** The comparison looks at the labels that are written out in the message, and only at them. */
  lemma {:induction false} CompareChecksLabels(q: seq<byte>, i: nat, b: seq<byte>, r: nat, w: WireName)
    requires ValidName(w) && Walkable(w) && StandsAt(b, r, Wire(w))
    ensures Compare(q, i, b, r) == 0 <==> Agrees(q, i, w.labels)
    decreases |w.labels|
  {
    hide Wire, StandsAt, Walkable, Same, HasLabel, Agrees, DotsBetween, Dotted, ValidName;
    if w.labels == [] {
      NoLabels(q, i);
      PointerEndsBoth(q, i, b, r, w);
    } else {
      var n := |w.labels[0]|;
      RestOfName(b, r, w);
      WalkableTail(w);
      LengthIsNoPointer(w);
      SameAsLabel(q, i, b, r + 1, w.labels[0]);
      FirstPlace(q, i, w.labels);
      if |w.labels| == 1 {
        NoLabels(q, i + n + 1);
      }
      if FirstByte(Tail(w)) != 0 {
        CompareChecksLabels(q, i + n + 1, b, r + 1 + n, Tail(w));
      }
    }
  }

  /** A name without labels, which is walkable, is a pointer: walk and comparison end there. */
  lemma PointerEndsBoth(q: seq<byte>, i: nat, b: seq<byte>, r: nat, w: WireName)
    requires ValidName(w) && w.labels == [] && StandsAt(b, r, Wire(w))
    ensures Walkable(w) ==> Compare(q, i, b, r) == 0
    ensures EndOfName(b, r) == r + |Wire(w)| <==> Walkable(w)
  {
    WireSplits(w);
    StandsFirst(b, r, Wire(w));
  }

  lemma LengthIsNoPointer(w: WireName)
    requires ValidName(w) && w.labels != []
    ensures !IsPointer(|w.labels[0]|)
  {
  }

  lemma {:induction false} SameAsLabel(q: seq<byte>, i: nat, b: seq<byte>, r: nat, piece: Label)
    requires StandsAt(b, r, piece)
    ensures Same(q, i, b, r, |piece|) <==> HasLabel(q, i, piece)
    decreases |piece|
  {
    if piece != [] {
      StandsFirst(b, r, piece);
      StandsApart(b, r, [piece[0]], piece[1..]);
      assert piece == [piece[0]] + piece[1..];
      SameAsLabel(q, i + 1, b, r + 1, piece[1..]);
    }
  }

  // ---------------------------------------------------------------- what they are for

  predicate LabelsFit(labels: seq<Label>, max: nat) {
    labels == [] || (|labels[0]| <= max && LabelsFit(labels[1..], max))
  }

  lemma {:induction false} LabelsFitMeans(labels: seq<Label>, max: nat)
    ensures LabelsFit(labels, max) <==> forall k :: 0 <= k < |labels| ==> |labels[k]| <= max
  {
    if labels != [] {
      LabelsFitMeans(labels[1..], max);
      assert forall k :: 0 <= k < |labels[1..]| ==> labels[1..][k] == labels[k + 1];
      if forall k :: 0 <= k < |labels[1..]| ==> |labels[1..][k]| <= max {
        assert forall k :: 1 <= k < |labels| ==> labels[k] == labels[1..][k - 1];
      }
    }
  }

  /** A query name and the reply that repeats it: the walker finds the end of a name of the
      length that RFC 1035 allows, exactly if no label but the first is empty. */
  lemma EncodedNameIsWalked(b: seq<byte>, p: nat, s: seq<byte>)
    requires LabelsFit(LabelsOf(s), 63) && StandsAt(b, p, Encode(s))
    ensures EndOfName(b, p) == p + |s| + 2 <==> forall k :: 1 <= k < |LabelsOf(s)| ==> LabelsOf(s)[k] != []
  {
    LabelsFitMeans(LabelsOf(s), 63);
    EncodeIsWire(s);
    WalkerFindsTheEnd(b, p, WireName(LabelsOf(s), Root));
  }

  /** A name agrees with its own encoding, and so does every name that it is the beginning of. */
  lemma {:induction false} BeginningsAgree(s: seq<byte>, u: seq<byte>, h: nat, b: seq<byte>, r: nat)
    requires h <= |s| && LabelsFit(LabelsOf(s[h..]), 255) && StandsAt(b, r, Encode(s[h..]))
    ensures Compare(s + u, h, b, r) == 0
    decreases |s| - h
  {
    hide LabelLength, Encode, LabelsFit, HasLabel, StandsAt, LabelsOf, Unwritten;
    var j := LabelLength(s[h..]);
    FirstLabelFits(s[h..], 255);
    PieceStands(s, h, j, b, r);
    OwnLabel(s + u, h, s[h..h + j]);
    SameAsLabel(s + u, h, b, r + 1, s[h..h + j]);
    if h + j < |s| {
      assert s[h..][j + 1..] == s[h + j + 1..];
      BeginningsAgree(s, u, h + j + 1, b, r + 1 + j);
    }
  }

  /** Where the next piece of an encoded name stands, and what follows it. */
  lemma PieceStands(s: seq<byte>, h: nat, j: nat, b: seq<byte>, r: nat)
    requires h <= |s| && j == LabelLength(s[h..]) && j <= 255 && StandsAt(b, r, Encode(s[h..]))
    ensures At(b, r) == j && StandsAt(b, r + 1, s[h..h + j])
    ensures if h + j < |s| then StandsAt(b, r + 1 + j, Encode(s[h + j + 1..])) else At(b, r + 1 + j) == 0
  {
    hide LabelLength, Encode, StandsAt;
    var piece, rest := s[h..h + j], if h + j == |s| then [0] else Encode(s[h + j + 1..]);
    EncodePiece(s, h, j);
    StandsApart(b, r, [j], piece + rest);
    StandsApart(b, r + 1, piece, rest);
    StandsFirst(b, r, [j]);
    if h + j == |s| {
      StandsFirst(b, r + 1 + j, [0]);
    }
  }

  lemma EncodePiece(s: seq<byte>, h: nat, j: nat)
    requires h <= |s| && j == LabelLength(s[h..]) && j <= 255
    ensures Encode(s[h..]) == [j] + (s[h..h + j] + if h + j == |s| then [0] else Encode(s[h + j + 1..]))
  {
    hide LabelLength, Encode;
    EncodeRest(s, h, j);
    SmallLength([j], s[h..h + j], Unwritten(s, h + j + 1), j);
    assert Unwritten(s, h) == Encode(s[h..]);
    assert Unwritten(s, h + j + 1) == if h + j == |s| then [0] else Encode(s[h + j + 1..]);
  }

  lemma SmallLength(l: seq<byte>, piece: seq<byte>, rest: seq<byte>, j: nat)
    requires j <= 255 && l == [j]
    ensures ([U8(j)] + piece) + rest == l + (piece + rest)
  {
    Regroup(l, piece, rest);
  }

  lemma FirstLabelFits(s: seq<byte>, max: nat)
    requires LabelsFit(LabelsOf(s), max)
    ensures LabelLength(s) <= max && (LabelLength(s) < |s| ==> LabelsFit(LabelsOf(s[LabelLength(s) + 1..]), max))
  {
    hide LabelLength;
    if LabelLength(s) < |s| {
      assert LabelsOf(s)[1..] == LabelsOf(s[LabelLength(s) + 1..]);
    }
  }

  lemma {:induction false} OwnLabel(q: seq<byte>, i: nat, piece: Label)
    requires i + |piece| <= |q| && q[i..i + |piece|] == piece
    ensures HasLabel(q, i, piece)
    decreases |piece|
  {
    if piece != [] {
      assert q[i] == q[i..i + |piece|][0];
      assert q[i + 1..i + |piece|] == q[i..i + |piece|][1..];
      OwnLabel(q, i + 1, piece[1..]);
    }
  }

  /** So the comparison accepts a reply for "ab" when "abc" was asked. */
  lemma ComparisonAcceptsOthers()
    ensures Compare([0x61, 0x62, 0x63], 0, Encode([0x61, 0x62]), 0) == 0
  {
    var s: seq<byte> := [0x61, 0x62];
    assert LabelsOf(s) == [s] by {
      LabelLengthIs(s, 2);
    }
    assert s[0..] == s;
    BeginningsAgree(s, [0x63], 0, Encode(s), 0);
    assert s + [0x63] == [0x61, 0x62, 0x63];
  }

  /** What the comparison leaves out is the length and the dots: with them, it tells names apart. */
  lemma {:induction false} AgreementAndDots(q: seq<byte>, i: nat, labels: seq<Label>)
    requires labels != [] && i <= |q|
    ensures Agrees(q, i, labels) && |q| - i == |Dotted(labels)| && DotsBetween(q, i, labels) <==>
            q[i..] == Dotted(labels)
    decreases |labels|
  {
    hide HasLabel, Agrees, DotsBetween, Dotted, At;
    var j, rest := i + |labels[0]|, labels[1..];
    FirstPlace(q, i, labels);
    if |labels| == 1 {
      NoLabels(q, j + 1);
      if |q| == j {
        LabelIs(q, i, labels[0]);
        assert q[i..j] == q[i..];
      }
    } else if |q| - i == |Dotted(labels)| {
      LabelIs(q, i, labels[0]);
      AgreementAndDots(q, j + 1, rest);
      Joined(q[i..], labels[0], DOT, Dotted(rest));
      assert q[i..][..j - i] == q[i..j] && q[i..][j - i + 1..] == q[j + 1..];
      SameByte(q, [], j);
    }
  }

  lemma Joined(t: seq<byte>, a: seq<byte>, d: byte, c: seq<byte>)
    requires |t| == |a| + 1 + |c|
    ensures t == a + [d] + c <==> t[..|a|] == a && t[|a|] == d && t[|a| + 1..] == c
  {
    if t[..|a|] == a && t[|a|] == d && t[|a| + 1..] == c {
      assert t == t[..|a|] + [t[|a|]] + t[|a| + 1..];
    }
    if t == a + [d] + c {
      assert t[..|a|] == a && t[|a| + 1..] == c;
    }
  }

  /** q has dots between the places of the labels. */
  predicate DotsBetween(q: seq<byte>, i: nat, labels: seq<Label>)
    decreases |labels|
  {
    |labels| <= 1 || (At(q, i + |labels[0]|) == DOT && DotsBetween(q, i + |labels[0]| + 1, labels[1..]))
  }

  lemma {:induction false} LabelIs(q: seq<byte>, i: nat, piece: Label)
    requires i + |piece| <= |q|
    ensures HasLabel(q, i, piece) <==> q[i..i + |piece|] == piece
    decreases |piece|
  {
    if piece != [] {
      LabelIs(q, i + 1, piece[1..]);
      assert q[i..i + |piece|] == [q[i]] + q[i + 1..i + |piece|];
      assert piece == [piece[0]] + piece[1..];
    }
  }

  /** What stands behind the places of the labels does not matter. */
  lemma {:induction false} AgreesPrefix(q: seq<byte>, u: seq<byte>, i: nat, labels: seq<Label>)
    requires labels == [] || i + |Dotted(labels)| <= |q|
    ensures Agrees(q + u, i, labels) <==> Agrees(q, i, labels)
    ensures DotsBetween(q + u, i, labels) <==> DotsBetween(q, i, labels)
    decreases |labels|
  {
    hide HasLabel, Agrees, DotsBetween, Dotted, At;
    if labels == [] {
      NoLabels(q, i);
      NoLabels(q + u, i);
    } else {
      FirstPlace(q, i, labels);
      FirstPlace(q + u, i, labels);
      SamePlace(q, u, i, labels[0]);
      if |labels| == 1 {
        NoLabels(q, i + |labels[0]| + 1);
        NoLabels(q + u, i + |labels[0]| + 1);
      } else {
        AgreesPrefix(q, u, i + |labels[0]| + 1, labels[1..]);
        SameByte(q, u, i + |labels[0]|);
      }
    }
  }

  lemma NoLabels(q: seq<byte>, i: nat)
    ensures Agrees(q, i, []) && DotsBetween(q, i, [])
  {
  }

  /** The first label of a name, and what comes behind it. */
  lemma FirstPlace(q: seq<byte>, i: nat, labels: seq<Label>)
    requires labels != []
    ensures var j := i + |labels[0]|;
            (Agrees(q, i, labels) <==> HasLabel(q, i, labels[0]) && Agrees(q, j + 1, labels[1..])) &&
            (DotsBetween(q, i, labels) <==> |labels| == 1 || (At(q, j) == DOT && DotsBetween(q, j + 1, labels[1..])))
    ensures |Dotted(labels)| == |labels[0]| + if |labels| == 1 then 0 else 1 + |Dotted(labels[1..])|
    ensures |labels| == 1 ==> labels[1..] == [] && Dotted(labels) == labels[0]
    ensures |labels| > 1 ==> Dotted(labels) == labels[0] + [DOT] + Dotted(labels[1..])
  {
  }

  lemma SamePlace(q: seq<byte>, u: seq<byte>, i: nat, piece: Label)
    requires i + |piece| <= |q|
    ensures HasLabel(q + u, i, piece) <==> HasLabel(q, i, piece)
  {
    LabelIs(q, i, piece);
    LabelIs(q + u, i, piece);
    assert (q + u)[i..i + |piece|] == q[i..i + |piece|];
  }

  lemma SameByte(q: seq<byte>, u: seq<byte>, i: nat)
    requires i < |q|
    ensures At(q + u, i) == At(q, i) == q[i]
  {
  }

  /** The comparison, the length and the dots together decide exactly whether the message
      repeats the name that was asked for, whatever is behind the name in its array. */
  lemma CompareDecidesWithLengthAndDots(q: seq<byte>, behind: seq<byte>, s: seq<byte>, b: seq<byte>, p: nat)
    requires LabelsFit(LabelsOf(s), 63) && StandsAt(b, p, Encode(s))
    requires forall k :: 1 <= k < |LabelsOf(s)| ==> LabelsOf(s)[k] != []
    ensures Compare(q + behind, 0, b, p) == 0 && |q| == |s| && DotsBetween(q, 0, LabelsOf(s)) <==> q == s
  {
    hide StandsAt, Compare, Agrees, LabelsFit, Encode, LabelsOf, Dotted, DotsBetween;
    LabelsFitMeans(LabelsOf(s), 63);
    EncodeIsWire(s);
    EncodedIsWalkable(s);
    CompareChecksLabels(q + behind, 0, b, p, WireName(LabelsOf(s), Root));
    AgreementAndDots(q, 0, LabelsOf(s));
    LabelsRoundTrip(s);
    if |q| == |s| {
      AgreesPrefix(q, behind, 0, LabelsOf(s));
    }
    assert q[0..] == q;
  }

  lemma EncodedIsWalkable(s: seq<byte>)
    requires forall k :: 0 <= k < |LabelsOf(s)| ==> |LabelsOf(s)[k]| <= 63
    requires Encode(s) == WireLabels(LabelsOf(s)) + [0]
    ensures ValidName(WireName(LabelsOf(s), Root)) && Encode(s) == Wire(WireName(LabelsOf(s), Root))
  {
  }

  /** The bytes behind the name are read: when "ab" was asked in an entry that held a longer
      name before, a reply for "ab.cd" can be accepted. */
  lemma BytesBehindTheNameAreRead()
    ensures Compare([0x61, 0x62, 0, 0x63, 0x64, 0], 0, Encode([0x61, 0x62, DOT, 0x63, 0x64]), 0) == 0
  {
    var s: seq<byte> := [0x61, 0x62, DOT, 0x63, 0x64];
    LabelLengthIs(s, 2);
    assert s[3..] == [0x63, 0x64];
    LabelLengthIs(s[3..], 2);
    assert Encode(s[3..]) == [2, 0x63, 0x64, 0];
    assert Encode(s) == [2, 0x61, 0x62, 2, 0x63, 0x64, 0];
    var b: seq<byte> := [2, 0x61, 0x62, 2, 0x63, 0x64, 0];
    var q: seq<byte> := [0x61, 0x62, 0, 0x63, 0x64, 0];
    assert Same(q, 4, b, 5, 1) && Same(q, 3, b, 4, 2) && Compare(q, 3, b, 3) == 0;
    assert Same(q, 1, b, 2, 1) && Same(q, 0, b, 1, 2);
  }

  /** dns_gethostbyname takes names shorter than DNS_MAX_NAME_LENGTH, and dns_send has room for
      as many bytes between its header and its four bytes of query: all but the longest fit. */
  lemma QueryFits(s: seq<byte>, maxNameLength: nat)
    requires |s| < maxNameLength
    ensures 12 + |Encode(s)| + 4 <= 12 + maxNameLength + 4 <==> |s| != maxNameLength - 1
  {
  }
}
