/**
 * Reading IP addresses from text: dotted quads, and IPv6 with `::`, an embedded dotted tail and a
 * zone. Bytes are the integers 0 to 255.
 */
module IpText {
  import opened Numerals
  import opened Options
  import opened Strings

  predicate Bytes(bytes: seq<int>) { forall i :: 0 <= i < |bytes| ==> 0 <= bytes[i] < 256 }

  // --- Digits ------------------------------------------------------------------------------------

  predicate IsDec(s: string) { 1 <= |s| <= 3 && forall i :: 0 <= i < |s| ==> DecDigit(s[i]) }

  predicate IsHex(s: string) { 1 <= |s| <= 4 && AllHex(s) }

  lemma HexBelow(s: string)
    requires IsHex(s)
    ensures Value(s, 16) < 65536
  {
    if |s| > 1 { HexStep(s[..|s| - 1]); }
    if |s| > 2 { HexStep(s[..|s| - 2]); assert s[..|s| - 1][..|s| - 2] == s[..|s| - 2]; }
    if |s| > 3 { assert s[..|s| - 2][..|s| - 3] == s[..|s| - 3]; HexStep(s[..|s| - 3]); }
  }

  lemma HexStep(s: string)
    requires AllHex(s) && s != ""
    ensures Value(s, 16) <= Value(s[..|s| - 1], 16) * 16 + 15
  {
  }

  // --- Reading ---------------------------------------------------------------------------------------

  function Octet(part: string): Option<int> {
    if !IsDec(part) then None else if Value(part, 10) > 255 then None else Some(Value(part, 10))
  }

  /** Read every part, or nothing. */
  function Octets(parts: seq<string>): (octets: Option<seq<int>>)
    ensures octets.Some? ==> |octets.value| == |parts| && Bytes(octets.value)
  {
    if parts == [] then Some([])
    else
      var front, last := Octets(parts[..|parts| - 1]), Octet(parts[|parts| - 1]);
      if front.None? || last.None? then None else Some(front.value + [last.value])
  }

  function Ipv4(ip: string): (octets: Option<seq<int>>)
    ensures octets.Some? ==> |octets.value| == 4 && Bytes(octets.value)
  {
    var parts := Split(ip, '.');
    if |parts| != 4 then None else Octets(parts)
  }

  method Ipv4ToOctets(ip: string) returns (octets: Option<seq<int>>)
    ensures octets == Ipv4(ip)
  {
    var parts := Split(ip, '.');
    if |parts| != 4 { return None; }
    var out: seq<int> := [];
    for i := 0 to |parts|
      invariant Octets(parts[..i]) == Some(out)
    {
      assert parts[..i + 1][..i] == parts[..i];
      if !IsDec(parts[i]) || Value(parts[i], 10) > 255 {
        OctetsFail(parts, i);
        return None;
      }
      out := out + [Value(parts[i], 10)];
    }
    assert parts[..|parts|] == parts;
    return Some(out);
  }

  lemma {:induction false} OctetsFail(parts: seq<string>, i: nat)
    requires i < |parts| && Octet(parts[i]).None?
    ensures Octets(parts).None?
    decreases |parts|
  {
    if i < |parts| - 1 { OctetsFail(parts[..|parts| - 1], i); }
  }

  /** One colon-separated group: a dotted quad or up to four hexadecimal digits. */
  function Group(g: string): (bytes: Option<seq<int>>)
    ensures bytes.Some? ==> Bytes(bytes.value)
  {
    if '.' in g then Ipv4(g)
    else if !IsHex(g) then None
    else HexBelow(g); var word := Value(g, 16); Some([word / 256, word % 256])
  }

  /** A dotted quad may only be the last group. */
  function Groups(groups: seq<string>): (bytes: Option<seq<int>>)
    ensures bytes.Some? ==> Bytes(bytes.value)
  {
    if groups == [] then Some([])
    else if '.' in groups[0] && |groups| > 1 then None
    else
      var first, rest := Group(groups[0]), Groups(groups[1..]);
      if first.None? || rest.None? then None else Some(first.value + rest.value)
  }

  function Expanded(segment: string): (bytes: Option<seq<int>>)
    ensures bytes.Some? ==> Bytes(bytes.value)
  {
    if segment == "" then Some([]) else Groups(Split(segment, ':'))
  }

  method Expand(segment: string) returns (bytes: Option<seq<int>>)
    ensures bytes == Expanded(segment)
  {
    if segment == "" { return Some([]); }
    var groups := Split(segment, ':');
    var out: seq<int> := [];
    assert groups[0..] == groups;
    PrependNothing(Groups(groups));
    for i := 0 to |groups|
      invariant Groups(groups) == Prepend(out, Groups(groups[i..]))
    {
      assert groups[i..][1..] == groups[i + 1..];
      var g := groups[i];
      if '.' in g {
        if i != |groups| - 1 { return None; }
        var octets := Ipv4ToOctets(g);
        if octets.None? { return None; }
        PrependTwice(out, octets.value, Groups(groups[i + 1..]));
        out := out + octets.value;
      } else {
        if !IsHex(g) { return None; }
        HexBelow(g);
        var word := Value(g, 16);
        PrependTwice(out, [word / 256, word % 256], Groups(groups[i + 1..]));
        out := out + [word / 256, word % 256];
      }
    }
    assert Groups(groups[|groups|..]) == Some([]) && out + [] == out;
    return Some(out);
  }

  function Prepend(front: seq<int>, rest: Option<seq<int>>): Option<seq<int>> {
    if rest.None? then None else Some(front + rest.value)
  }

  lemma PrependNothing(rest: Option<seq<int>>)
    ensures Prepend([], rest) == rest
  {
    if rest.Some? { assert [] + rest.value == rest.value; }
  }

  lemma PrependTwice(a: seq<int>, b: seq<int>, rest: Option<seq<int>>)
    ensures Prepend(a, Prepend(b, rest)) == Prepend(a + b, rest)
  {
    if rest.Some? { assert a + (b + rest.value) == (a + b) + rest.value; }
  }

  /** Where `::` first stands. */
  function FirstDouble(s: string): (i: Option<nat>)
    ensures i.Some? ==> i.value + 2 <= |s| && s[i.value] == ':' && s[i.value + 1] == ':'
  {
    if |s| < 2 then None
    else if s[0] == ':' && s[1] == ':' then Some(0)
    else
      var i := FirstDouble(s[1..]);
      if i.None? then None else Some(i.value + 1)
  }

  function Halves(s: string): seq<string>
    decreases |s|
  {
    var i := FirstDouble(s);
    if i.None? then [s] else [s[..i.value]] + Halves(s[i.value + 2..])
  }

  function WithoutZone(ip: string): string {
    var pct := IndexOf(ip, '%');
    if pct.None? then ip else ip[..pct.value]
  }

  function Zeros(n: nat): seq<int> { seq(n, _ => 0) }

  function Ipv6(input: string): (bytes: Option<seq<int>>)
    ensures bytes.Some? ==> |bytes.value| == 16 && Bytes(bytes.value)
  {
    var halves := Halves(WithoutZone(input));
    if |halves| > 2 then None
    else
      var head := Expanded(halves[0]);
      if head.None? then None
      else if |halves| == 1 then (if |head.value| != 16 then None else head)
      else
        var tail := Expanded(halves[1]);
        if tail.None? || |head.value| + |tail.value| > 16 then None
        else Some(head.value + Zeros(16 - |head.value| - |tail.value|) + tail.value)
  }

  method Ipv6ToBytes(input: string) returns (result: Option<seq<int>>)
    ensures result == Ipv6(input)
  {
    hide Halves, WithoutZone, Expanded;
    HalvesNotEmpty(WithoutZone(input));
    var halves := Halves(WithoutZone(input));
    if |halves| > 2 { return None; }
    var head := Expand(halves[0]);
    if head.None? { return None; }
    if |halves| == 1 {
      if |head.value| != 16 { return None; }
      return head;
    }
    var tail := Expand(halves[1]);
    if tail.None? || |head.value| + |tail.value| > 16 { return None; }
    var bytes := Place(head.value, tail.value);
    return Some(bytes);
  }

  lemma HalvesNotEmpty(s: string)
    ensures Halves(s) != []
  {
  }

  /** Set the head at the front and the tail at the back of sixteen zero bytes. */
  method Place(head: seq<int>, tail: seq<int>) returns (placed: seq<int>)
    requires |head| + |tail| <= 16
    ensures placed == head + Zeros(16 - |head| - |tail|) + tail
  {
    var bytes := new int[16](_ => 0);
    for i := 0 to |head|
      invariant forall k :: 0 <= k < 16 ==> bytes[k] == if k < i then head[k] else 0
    {
      bytes[i] := head[i];
    }
    var at := 16 - |tail|;
    for i := 0 to |tail|
      invariant forall k :: 0 <= k < 16 ==>
                  bytes[k] == if k < |head| then head[k] else if at <= k < at + i then tail[k - at] else 0
    {
      bytes[at + i] := tail[i];
    }
    return bytes[..];
  }

  // --- Writing -------------------------------------------------------------------------------------------

  /** A group as it may be spelled: hexadecimal of any case and padding, or a dotted quad. */
  datatype Piece = Hex(text: string) | Dotted(parts: seq<string>)

  predicate Spelled(p: Piece) {
    match p
    case Hex(text) => IsHex(text)
    case Dotted(parts) => |parts| == 4 && forall i :: 0 <= i < 4 ==> Octet(parts[i]).Some?
  }

  function PieceText(p: Piece): string {
    match p
    case Hex(text) => text
    case Dotted(parts) => Join(parts, '.')
  }

  function PieceBytes(p: Piece): seq<int>
    requires Spelled(p)
  {
    match p
    case Hex(text) => [Value(text, 16) / 256, Value(text, 16) % 256]
    case Dotted(parts) => [Octet(parts[0]).value, Octet(parts[1]).value, Octet(parts[2]).value, Octet(parts[3]).value]
  }

  /** A segment as section 2.2 of RFC 4291 spells it: a dotted quad at most at its end. */
  predicate Segment(pieces: seq<Piece>) {
    && (forall i :: 0 <= i < |pieces| ==> Spelled(pieces[i]))
    && (forall i :: 0 <= i < |pieces| - 1 ==> pieces[i].Hex?)
  }

  function Texts(pieces: seq<Piece>): seq<string> { seq(|pieces|, i requires 0 <= i < |pieces| => PieceText(pieces[i])) }

  function SegmentText(pieces: seq<Piece>): string { Join(Texts(pieces), ':') }

  function SegmentBytes(pieces: seq<Piece>): seq<int>
    requires Segment(pieces)
  {
    if pieces == [] then [] else PieceBytes(pieces[0]) + SegmentBytes(pieces[1..])
  }

  lemma HexHasNoMarks(s: string)
    requires AllHex(s)
    ensures ':' !in s && '.' !in s && '%' !in s
  {
  }

  /** A group's text names no other group, is not empty, and reads back as its bytes. */
  lemma PieceReads(p: Piece)
    requires Spelled(p)
    ensures PieceText(p) != "" && ':' !in PieceText(p) && '%' !in PieceText(p) && ('.' in PieceText(p) <==> p.Dotted?)
    ensures Group(PieceText(p)) == Some(PieceBytes(p))
  {
    hide Octet, IndexOf, Split, Join;
    match p
    case Hex(text) => HexHasNoMarks(text);
    case Dotted(parts) => QuadReads(parts);
  }

  lemma QuadReads(parts: seq<string>)
    requires |parts| == 4 && forall i :: 0 <= i < 4 ==> Octet(parts[i]).Some?
    ensures var text := Join(parts, '.');
            && text != "" && ':' !in text && '%' !in text && '.' in text
            && Ipv4(text) == Some([Octet(parts[0]).value, Octet(parts[1]).value, Octet(parts[2]).value, Octet(parts[3]).value])
  {
    hide Join, Split, Octet, IndexOf;
    forall i | 0 <= i < 4 ensures ':' !in parts[i] && '.' !in parts[i] && '%' !in parts[i] { OctetText(parts[i]); }
    JoinHas(parts, '.', ':');
    JoinHas(parts, '.', '%');
    JoinHas(parts, '.', '.');
    SplitJoin(parts, '.');
    FourOctets(parts);
  }

  lemma OctetText(part: string)
    requires Octet(part).Some?
    ensures ':' !in part && '.' !in part && '%' !in part
  {
    HexHasNoMarks(part);
  }

  lemma OctetsStep(parts: seq<string>, i: nat)
    requires i < |parts| && Octets(parts[..i]).Some? && Octet(parts[i]).Some?
    ensures Octets(parts[..i + 1]) == Some(Octets(parts[..i]).value + [Octet(parts[i]).value])
  {
    hide Octet;
    assert parts[..i + 1][..i] == parts[..i];
  }

  lemma FourOctets(parts: seq<string>)
    requires |parts| == 4 && forall i :: 0 <= i < 4 ==> Octet(parts[i]).Some?
    ensures Octets(parts) == Some([Octet(parts[0]).value, Octet(parts[1]).value, Octet(parts[2]).value, Octet(parts[3]).value])
  {
    hide Octet, Octets;
    assert Octets(parts[..0]) == Some([]) by { NoOctets(parts[..0]); }
    OctetsStep(parts, 0);
    OctetsStep(parts, 1);
    OctetsStep(parts, 2);
    OctetsStep(parts, 3);
    assert parts[..4] == parts;
    var a, b, c, d := Octet(parts[0]).value, Octet(parts[1]).value, Octet(parts[2]).value, Octet(parts[3]).value;
    assert [] + [a] + [b] + [c] + [d] == [a, b, c, d];
  }

  lemma NoOctets(parts: seq<string>)
    requires parts == []
    ensures Octets(parts) == Some([])
  {
  }

  lemma {:induction false} GroupsRead(pieces: seq<Piece>)
    requires Segment(pieces)
    ensures Groups(Texts(pieces)) == Some(SegmentBytes(pieces))
    decreases |pieces|
  {
    hide Group, PieceText, PieceBytes, Spelled;
    if pieces == [] {
      assert Texts(pieces) == [];
    } else {
      PieceReads(pieces[0]);
      GroupsRead(pieces[1..]);
      assert Texts(pieces)[1..] == Texts(pieces[1..]);
    }
  }

  /** No `::` anywhere, and no `:` at either end. */
  predicate Smooth(s: string) {
    && (forall i :: 0 <= i < |s| - 1 ==> !(s[i] == ':' && s[i + 1] == ':'))
    && (s != "" ==> s[0] != ':' && s[|s| - 1] != ':')
    && '%' !in s
  }

  lemma {:induction false} SegmentSmooth(pieces: seq<Piece>)
    requires Segment(pieces)
    ensures Smooth(SegmentText(pieces)) && (SegmentText(pieces) == "" <==> pieces == [])
    decreases |pieces|
  {
    hide PieceText, Spelled;
    if pieces == [] {
      assert Texts(pieces) == [];
    } else {
      PieceReads(pieces[0]);
      var first, rest := PieceText(pieces[0]), SegmentText(pieces[1..]);
      if |pieces| == 1 {
        assert Texts(pieces) == [first];
      } else {
        SegmentSmooth(pieces[1..]);
        assert Texts(pieces)[1..] == Texts(pieces[1..]);
        SmoothJoin(first, rest);
      }
    }
  }

  lemma SmoothJoin(first: string, rest: string)
    requires first != "" && ':' !in first && '%' !in first && rest != "" && Smooth(rest)
    ensures Smooth(first + [':'] + rest)
  {
    var s := first + [':'] + rest;
    assert forall i :: 0 <= i < |first| ==> s[i] == first[i] && s[i] in first;
    assert forall i :: 0 <= i < |rest| ==> s[|first| + 1 + i] == rest[i];
  }

  lemma SegmentReads(pieces: seq<Piece>)
    requires Segment(pieces)
    ensures Expanded(SegmentText(pieces)) == Some(SegmentBytes(pieces))
  {
    hide Groups, PieceText, Spelled;
    SegmentSmooth(pieces);
    GroupsRead(pieces);
    if pieces != [] {
      forall i | 0 <= i < |pieces| ensures ':' !in Texts(pieces)[i] { PieceReads(pieces[i]); }
      SplitJoin(Texts(pieces), ':');
    } else {
      assert Texts(pieces) == [];
    }
  }

  lemma {:induction false} SmoothHasNoDouble(s: string)
    requires Smooth(s)
    ensures FirstDouble(s).None? && Halves(s) == [s]
  {
    var i := FirstDouble(s);
    assert i.None?;
  }

  lemma {:induction false} DoubleFound(head: string, tail: string)
    requires forall i :: 0 <= i < |head| - 1 ==> !(head[i] == ':' && head[i + 1] == ':')
    requires head != "" ==> head[|head| - 1] != ':'
    ensures FirstDouble(head + "::" + tail) == Some(|head|)
    decreases |head|
  {
    var s := head + "::" + tail;
    if head != "" {
      DoubleFound(head[1..], tail);
      assert s[1..] == head[1..] + "::" + tail;
      assert s[0] == head[0] && (|head| > 1 ==> s[1] == head[1]);
    } else {
      assert s[0] == ':' && s[1] == ':';
    }
  }

  lemma HalvesFound(head: string, tail: string)
    requires Smooth(head) && Smooth(tail)
    ensures Halves(head + "::" + tail) == [head, tail] && '%' !in head + "::" + tail
  {
    hide FirstDouble;
    var s := head + "::" + tail;
    DoubleFound(head, tail);
    SmoothHasNoDouble(tail);
    assert s[..|head|] == head && s[|head| + 2..] == tail;
  }

  /**
   * Every compressed spelling reads back as the bytes it spells: what stands before `::`, zeros, and
   * what stands after it, for any split of the sixteen bytes, any case and padding of the digits, and
   * with or without a dotted tail.
   */
  lemma CompressedReads(head: seq<Piece>, tail: seq<Piece>)
    requires Segment(head) && Segment(tail) && |SegmentBytes(head)| + |SegmentBytes(tail)| <= 16
    ensures Ipv6(SegmentText(head) + "::" + SegmentText(tail))
              == Some(SegmentBytes(head) + Zeros(16 - |SegmentBytes(head)| - |SegmentBytes(tail)|) + SegmentBytes(tail))
  {
    hide SegmentText, SegmentBytes, Segment, Smooth, Expanded, Halves, Zeros;
    SegmentSmooth(head);
    SegmentSmooth(tail);
    HalvesFound(SegmentText(head), SegmentText(tail));
    SegmentReads(head);
    SegmentReads(tail);
  }

  /** So does every full spelling. */
  lemma FullReads(pieces: seq<Piece>)
    requires Segment(pieces) && |SegmentBytes(pieces)| == 16
    ensures Ipv6(SegmentText(pieces)) == Some(SegmentBytes(pieces))
  {
    hide SegmentText, SegmentBytes, Segment, Expanded, Halves;
    SegmentSmooth(pieces);
    SmoothHasNoDouble(SegmentText(pieces));
    SegmentReads(pieces);
  }

  /** A zone is dropped, whatever it says. */
  lemma ZoneIgnored(text: string, zone: string)
    requires '%' !in text
    ensures Ipv6(text + "%" + zone) == Ipv6(text)
  {
    hide Halves, Expanded;
    IndexOfFirst(text, '%', zone);
    assert text + "%" + zone == text + ['%'] + zone;
    assert (text + "%" + zone)[..|text|] == text;
  }

  // --- Nothing else is read ----------------------------------------------------------------------------

  /** `text` spells `bytes`: in full, or with one `::` for the zeros between two segments. */
  ghost predicate Spells(text: string, bytes: seq<int>) {
    || (exists pieces :: Full(pieces, text, bytes))
    || (exists head, tail :: Compressed(head, tail, text, bytes))
  }

  ghost predicate Full(pieces: seq<Piece>, text: string, bytes: seq<int>) {
    Segment(pieces) && text == SegmentText(pieces) && bytes == SegmentBytes(pieces) && |bytes| == 16
  }

  ghost predicate Compressed(head: seq<Piece>, tail: seq<Piece>, text: string, bytes: seq<int>) {
    && Segment(head) && Segment(tail) && |SegmentBytes(head)| + |SegmentBytes(tail)| <= 16
    && text == SegmentText(head) + "::" + SegmentText(tail)
    && bytes == SegmentBytes(head) + Zeros(16 - |SegmentBytes(head)| - |SegmentBytes(tail)|) + SegmentBytes(tail)
  }

  lemma GroupIsPiece(g: string) returns (p: Piece)
    requires Group(g).Some?
    ensures Spelled(p) && PieceText(p) == g && PieceBytes(p) == Group(g).value
  {
    hide Octets, Octet, Join, Split;
    if '.' in g {
      var parts := Split(g, '.');
      JoinSplit(g, '.');
      forall i | 0 <= i < 4 ensures Octet(parts[i]).Some? {
        if Octet(parts[i]).None? { OctetsFail(parts, i); }
      }
      FourOctets(parts);
      p := Dotted(parts);
    } else {
      p := Hex(g);
    }
  }

  lemma {:induction false} GroupsArePieces(groups: seq<string>) returns (pieces: seq<Piece>)
    requires Groups(groups).Some?
    ensures Segment(pieces) && Texts(pieces) == groups && SegmentBytes(pieces) == Groups(groups).value
    decreases |groups|
  {
    hide Group, Spelled, PieceText, PieceBytes;
    if groups == [] {
      pieces := [];
    } else {
      var first := GroupIsPiece(groups[0]);
      var rest := GroupsArePieces(groups[1..]);
      PieceReads(first);
      pieces := [first] + rest;
      assert pieces[1..] == rest;
      assert groups == [groups[0]] + groups[1..];
      assert Texts(pieces) == [PieceText(first)] + Texts(rest);
    }
  }

  lemma SegmentIsPieces(segment: string) returns (pieces: seq<Piece>)
    requires Expanded(segment).Some?
    ensures Segment(pieces) && SegmentText(pieces) == segment && SegmentBytes(pieces) == Expanded(segment).value
  {
    hide Groups, Group, Spelled, PieceText, PieceBytes;
    if segment == "" {
      pieces := [];
      assert Texts(pieces) == [];
    } else {
      pieces := GroupsArePieces(Split(segment, ':'));
      JoinSplit(segment, ':');
    }
  }

  lemma HalvesJoin(s: string)
    ensures |Halves(s)| == 1 ==> Halves(s)[0] == s
    ensures |Halves(s)| == 2 ==> s == Halves(s)[0] + "::" + Halves(s)[1]
  {
    hide FirstDouble;
    var i := FirstDouble(s);
    HalvesNotEmpty(if i.Some? then s[i.value + 2..] else "");
    if i.Some? {
      var rest := s[i.value + 2..];
      assert s == s[..i.value] + "::" + rest;
      if |Halves(s)| == 2 { HalvesJoin(rest); }
    }
  }

  /** Without a zone, the parser reads a text as given bytes exactly when the text spells them. */
  lemma ParserIsGrammar(text: string, bytes: seq<int>)
    requires '%' !in text
    ensures Ipv6(text) == Some(bytes) <==> Spells(text, bytes)
  {
    hide Halves, Expanded, Segment, SegmentText, SegmentBytes, Zeros;
    if Ipv6(text) == Some(bytes) {
      HalvesJoin(text);
      HalvesNotEmpty(text);
      var head := SegmentIsPieces(Halves(text)[0]);
      if |Halves(text)| == 1 {
        assert Full(head, text, bytes);
      } else {
        var tail := SegmentIsPieces(Halves(text)[1]);
        assert Compressed(head, tail, text, bytes);
      }
    } else {
      forall pieces ensures !Full(pieces, text, bytes) {
        if Full(pieces, text, bytes) { FullReads(pieces); }
      }
      forall head, tail ensures !Compressed(head, tail, text, bytes) {
        if Compressed(head, tail, text, bytes) { CompressedReads(head, tail); }
      }
    }
  }

  // --- Every address, every elision ------------------------------------------------------------------

  /** A byte printed in decimal reads back as that byte. */
  lemma DecimalByte(b: int)
    requires 0 <= b < 256
    ensures Octet(Numeral(b, 10)) == Some(b)
  {
    NumeralLengths(b);
    NumeralValue(b, 10);
  }

  function Quad(bytes: seq<int>): Piece
    requires |bytes| == 4 && Bytes(bytes)
  {
    Dotted([Numeral(bytes[0], 10), Numeral(bytes[1], 10), Numeral(bytes[2], 10), Numeral(bytes[3], 10)])
  }

  lemma QuadSpelled(bytes: seq<int>)
    requires |bytes| == 4 && Bytes(bytes)
    ensures Spelled(Quad(bytes)) && PieceBytes(Quad(bytes)) == bytes
  {
    hide Octet, Numeral;
    DecimalByte(bytes[0]);
    DecimalByte(bytes[1]);
    DecimalByte(bytes[2]);
    DecimalByte(bytes[3]);
  }

  function WordPiece(high: int, low: int): Piece
    requires 0 <= high < 256 && 0 <= low < 256
  {
    Hex(Numeral(high * 256 + low, 16))
  }

  lemma WordSpelled(high: int, low: int)
    requires 0 <= high < 256 && 0 <= low < 256
    ensures Spelled(WordPiece(high, low)) && PieceBytes(WordPiece(high, low)) == [high, low]
  {
    hide Numeral, Value, AllHex;
    var word := high * 256 + low;
    NumeralLengths(word);
    NumeralValue(word, 16);
    assert word / 256 == high && word % 256 == low;
  }

  /** The groups `from` to `end`, the last two of them as a dotted quad if asked for. */
  function Pieces(bytes: seq<int>, from: int, end: int, dotted: bool): seq<Piece>
    requires Bytes(bytes) && 0 <= from <= end && 2 * end <= |bytes| && (dotted && from < end ==> from + 2 <= end)
    decreases end - from
  {
    if from == end then []
    else if dotted && from + 2 == end then [Quad(bytes[2 * from..2 * end])]
    else [WordPiece(bytes[2 * from], bytes[2 * from + 1])] + Pieces(bytes, from + 1, end, dotted)
  }

  lemma {:induction false} PiecesSpelled(bytes: seq<int>, from: int, end: int, dotted: bool)
    requires Bytes(bytes) && 0 <= from <= end && 2 * end <= |bytes| && (dotted && from < end ==> from + 2 <= end)
    ensures Segment(Pieces(bytes, from, end, dotted)) && SegmentBytes(Pieces(bytes, from, end, dotted)) == bytes[2 * from..2 * end]
    decreases end - from
  {
    hide PieceBytes, Spelled, Quad;
    if from == end {
    } else if dotted && from + 2 == end {
      QuadSpelled(bytes[2 * from..2 * end]);
    } else {
      var first := WordPiece(bytes[2 * from], bytes[2 * from + 1]);
      WordSpelled(bytes[2 * from], bytes[2 * from + 1]);
      PiecesSpelled(bytes, from + 1, end, dotted);
      var pieces := Pieces(bytes, from, end, dotted);
      assert pieces[1..] == Pieces(bytes, from + 1, end, dotted);
      assert bytes[2 * from..2 * end] == [bytes[2 * from], bytes[2 * from + 1]] + bytes[2 * (from + 1)..2 * end];
    }
  }

  /**
   * Text round trip. Every sixteen-byte address, printed with any run of its zero groups elided as
   * `::` and its last four bytes in hexadecimal or as a dotted quad, reads back as the same bytes.
   */
  lemma AddressRoundTrip(bytes: seq<int>, i: nat, j: nat, dotted: bool)
    requires |bytes| == 16 && Bytes(bytes) && i <= j <= 8 && (dotted ==> j <= 6)
    requires forall k :: 2 * i <= k < 2 * j ==> bytes[k] == 0
    ensures Ipv6(SegmentText(Pieces(bytes, 0, i, false)) + "::" + SegmentText(Pieces(bytes, j, 8, dotted))) == Some(bytes)
  {
    hide Ipv6, Segment, SegmentBytes, SegmentText, Pieces;
    PiecesSpelled(bytes, 0, i, false);
    PiecesSpelled(bytes, j, 8, dotted);
    CompressedReads(Pieces(bytes, 0, i, false), Pieces(bytes, j, 8, dotted));
    assert bytes == bytes[0..2 * i] + Zeros(2 * j - 2 * i) + bytes[2 * j..16];
  }

  /** Printed in full, with or without a dotted tail, it reads back too. */
  lemma FullRoundTrip(bytes: seq<int>, dotted: bool)
    requires |bytes| == 16 && Bytes(bytes)
    ensures Ipv6(SegmentText(Pieces(bytes, 0, 8, dotted))) == Some(bytes)
  {
    hide Ipv6, Segment, SegmentBytes, SegmentText, Pieces;
    PiecesSpelled(bytes, 0, 8, dotted);
    assert bytes[0..16] == bytes;
    FullReads(Pieces(bytes, 0, 8, dotted));
  }
}
