/** The skipper for unknown fields, `skipParams` and `skipTx`, and the grammar of records it
    accepts: the wire types of the Protocol Buffers Encoding specification with nested
    groups. */
module Skip {
  import opened Machine
  import opened Varint

  datatype SkipResult = Skipped(end: nat) | NotSkipped(err: WireError)

  /** One tag with its payload, as one turn of the skipper's loop reads it. The size of a
      fixed or length-delimited payload is not compared with the data here. */
  datatype Element = Element(wireType: int, size: nat) | NoElement(err: WireError)

  function ReadElement(data: Bytes): (r: Element)
    ensures r.Element? ==> 0 <= r.wireType <= 5 && r.size >= 1 && ReadVarint(data).Got?
  {
    match ReadVarint(data)
    case Bad(e, _) => NoElement(e)
    case Got(wire, n) =>
      match wire % 8
      case 0 =>
        (match ReadVarint(data[n..])
         case Bad(e, _) => NoElement(e)
         case Got(_, k) => Element(0, n + k))
      case 1 => Element(1, n + 8)
      case 2 =>
        (match ReadVarint(data[n..])
         case Bad(e, _) => NoElement(e)
         case Got(length, k) => if length >= TWO_63 then NoElement(InvalidLength) else Element(2, n + k + length))
      case 3 => Element(3, n)
      case 4 => Element(4, n)
      case 5 => Element(5, n + 4)
      case _ => NoElement(IllegalWireType)
  }

  function DepthAfter(wireType: int, depth: nat): int {
    if wireType == 3 then depth + 1 else if wireType == 4 then depth - 1 else depth
  }

  /** The skipper's loop with `data` left to read at index `at`, inside `depth` groups. */
  function SkipFrom(data: Bytes, depth: nat, at: nat): (r: SkipResult)
    ensures r.Skipped? ==> r.end > at && data != []
    decreases |data|
  {
    if data == [] then NotSkipped(UnexpectedEOF)
    else
      match ReadElement(data)
      case NoElement(e) => NotSkipped(e)
      case Element(wireType, size) =>
        var depth' := DepthAfter(wireType, depth);
        if depth' < 0 then NotSkipped(UnexpectedEndGroup)
        else if at + size >= TWO_63 then NotSkipped(InvalidLength)
        else if depth' == 0 then Skipped(at + size)
        else if size > |data| then NotSkipped(UnexpectedEOF)
        else SkipFrom(data[size..], depth', at + size)
  }

  /** A successful skip makes progress: it ends at 1 or later. */
  function SkipRecord(data: Bytes): (r: SkipResult)
    ensures r.Skipped? ==> r.end >= 1 && ReadVarint(data).Got?
  {
    SkipFrom(data, 0, 0)
  }

  // What follows does not matter

  lemma ElementIsPrefixStable(a: Bytes, b: Bytes)
    requires ReadElement(a).Element?
    ensures ReadElement(a + b) == ReadElement(a)
  {
    ReadIsPrefixStable(a, b, 0, 0);
    var n := ReadVarint(a).size;
    assert (a + b)[n..] == a[n..] + b;
    if ReadVarint(a[n..]).Got? {
      ReadIsPrefixStable(a[n..], b, 0, 0);
    }
  }

  lemma {:induction false} SkipIsPrefixStable(a: Bytes, b: Bytes, depth: nat, at: nat)
    requires SkipFrom(a, depth, at).Skipped?
    ensures SkipFrom(a + b, depth, at) == SkipFrom(a, depth, at)
    decreases |a|
  {
    hide ReadElement;
    ElementIsPrefixStable(a, b);
    var e := ReadElement(a);
    if DepthAfter(e.wireType, depth) > 0 {
      assert (a + b)[e.size..] == a[e.size..] + b;
      SkipIsPrefixStable(a[e.size..], b, DepthAfter(e.wireType, depth), at + e.size);
    }
  }

  // The grammar

  /** One record: a tag and a payload, or a group of records between a start and an end tag.
      Tags and lengths are varint bytes, canonical or padded. */
  datatype Record =
    | Simple(tag: Bytes, payload: Bytes)
    | Group(tag: Bytes, records: seq<Record>, end: Bytes)

  /** Exactly one varint, of a tag with this wire type. */
  predicate IsTag(bytes: Bytes, wireType: int) {
    var r := ReadVarint(bytes);
    r.Got? && r.size == |bytes| && r.value % 8 == wireType
  }

  /** A payload that its wire type describes in full. */
  predicate IsPayload(wireType: int, payload: Bytes) {
    match wireType
    case 0 => ReadVarint(payload).Got? && ReadVarint(payload).size == |payload|
    case 1 => |payload| == 8
    case 2 =>
      var r := ReadVarint(payload);
      r.Got? && r.value < TWO_63 && r.size + r.value == |payload|
    case 5 => |payload| == 4
    case _ => false
  }

  predicate WellFormed(r: Record)
    decreases r
  {
    match r
    case Simple(tag, payload) =>
      exists w :: 0 <= w <= 5 && IsTag(tag, w) && IsPayload(w, payload)
    case Group(tag, records, end) =>
      IsTag(tag, 3) && IsTag(end, 4) && forall x | x in records :: WellFormed(x)
  }

  function Print(r: Record): Bytes
    decreases r, 1
  {
    match r
    case Simple(tag, payload) => tag + payload
    case Group(tag, records, end) => tag + PrintAll(records) + end
  }

  function PrintAll(rs: seq<Record>): Bytes
    decreases rs, 0
  {
    if rs == [] then [] else Print(rs[0]) + PrintAll(rs[1..])
  }

  lemma TagReads(tag: Bytes, wireType: int, rest: Bytes)
    requires IsTag(tag, wireType)
    ensures ReadVarint(tag + rest) == ReadVarint(tag) && |tag| >= 1
    ensures (tag + rest)[|tag|..] == rest
  {
    ReadIsPrefixStable(tag, rest, 0, 0);
  }

  /** A well-formed simple record is read as one element of exactly its length. */
  lemma SimpleReads(tag: Bytes, payload: Bytes, wireType: int, rest: Bytes)
    requires IsTag(tag, wireType) && IsPayload(wireType, payload)
    ensures ReadElement(tag + payload + rest) == Element(wireType, |tag + payload|)
  {
    TagReads(tag, wireType, payload + rest);
    assert tag + payload + rest == tag + (payload + rest);
    if wireType == 0 || wireType == 2 {
      ReadIsPrefixStable(payload, rest, 0, 0);
    }
  }

  /** The skipper steps over every well-formed record, at any nesting depth. */
  lemma {:induction false} SkipsRecord(r: Record, rest: Bytes, depth: nat, at: nat)
    requires WellFormed(r) && at + |Print(r)| < TWO_63
    ensures SkipFrom(Print(r) + rest, depth, at)
            == if depth == 0 then Skipped(at + |Print(r)|) else SkipFrom(rest, depth, at + |Print(r)|)
    decreases r, 1
  {
    hide SkipFrom, ReadElement, IsTag, IsPayload;
    match r
    case Simple(tag, payload) =>
      var w :| 0 <= w <= 5 && IsTag(tag, w) && IsPayload(w, payload);
      SimpleReads(tag, payload, w, rest);
      SimpleIsNotGroup(w, payload);
      SkipStep(tag + payload, rest, w, depth, at);
    case Group(tag, records, end) =>
      var inner := PrintAll(records) + (end + rest);
      assert Print(r) + rest == tag + inner;
      GroupTagReads(tag, 3, inner);
      SkipStep(tag, inner, 3, depth, at);
      SkipsRecords(records, end + rest, depth + 1, at + |tag|);
      GroupTagReads(end, 4, rest);
      SkipStep(end, rest, 4, depth + 1, at + |tag| + |PrintAll(records)|);
  }

  lemma SimpleIsNotGroup(wireType: int, payload: Bytes)
    requires IsPayload(wireType, payload)
    ensures wireType != 3 && wireType != 4
  {
  }

  /** One turn of the loop over an element whose bytes are all there. */
  lemma SkipStep(element: Bytes, rest: Bytes, wireType: int, depth: nat, at: nat)
    requires ReadElement(element + rest) == Element(wireType, |element|) && |element| >= 1
    requires DepthAfter(wireType, depth) >= 0 && at + |element| < TWO_63
    ensures SkipFrom(element + rest, depth, at)
            == var depth' := DepthAfter(wireType, depth);
               if depth' == 0 then Skipped(at + |element|) else SkipFrom(rest, depth', at + |element|)
  {
    hide ReadElement;
    assert (element + rest)[|element|..] == rest;
  }

  lemma GroupTagReads(tag: Bytes, wireType: int, rest: Bytes)
    requires IsTag(tag, wireType) && (wireType == 3 || wireType == 4)
    ensures |tag| >= 1 && ReadElement(tag + rest) == Element(wireType, |tag|) && (tag + rest)[|tag|..] == rest
  {
    TagReads(tag, wireType, rest);
  }

  lemma {:induction false} SkipsRecords(rs: seq<Record>, rest: Bytes, depth: nat, at: nat)
    requires (forall x | x in rs :: WellFormed(x)) && depth > 0 && at + |PrintAll(rs)| < TWO_63
    ensures SkipFrom(PrintAll(rs) + rest, depth, at) == SkipFrom(rest, depth, at + |PrintAll(rs)|)
    decreases rs, 0
  {
    hide SkipFrom, WellFormed;
    if rs == [] {
      assert PrintAll(rs) + rest == rest;
    } else {
      var tail := PrintAll(rs[1..]) + rest;
      assert PrintAll(rs) + rest == Print(rs[0]) + tail;
      SkipsRecord(rs[0], tail, depth, at);
      SkipsRecords(rs[1..], rest, depth, at + |Print(rs[0])|);
    }
  }

  /** The wire types by their numbers: a varint, eight bytes, a length and as many bytes, four
      bytes; a lone end of a group and the numbers 6 and 7 are errors. */
  lemma SkipsByWireType(tag: Bytes, payload: Bytes, rest: Bytes, wire: uint64)
    requires ReadVarint(tag) == Got(wire, |tag|) && |tag| + |payload| < TWO_63
    ensures var r := SkipRecord(tag + payload + rest);
            && (wire % 8 == 0 && ReadVarint(payload).Got? && ReadVarint(payload).size == |payload| ==>
                  r == Skipped(|tag| + |payload|))
            && (wire % 8 == 1 && |payload| == 8 ==> r == Skipped(|tag| + 8))
            && (wire % 8 == 2 && ReadVarint(payload).Got?
                && ReadVarint(payload).size + ReadVarint(payload).value == |payload| ==>
                  r == Skipped(|tag| + |payload|))
            && (wire % 8 == 2 && ReadVarint(payload).Got? && ReadVarint(payload).value >= 0x8000_0000_0000_0000 ==>
                  r == NotSkipped(InvalidLength))
            && (wire % 8 == 5 && |payload| == 4 ==> r == Skipped(|tag| + 4))
            && (wire % 8 == 4 ==> r == NotSkipped(UnexpectedEndGroup))
            && (wire % 8 == 6 || wire % 8 == 7 ==> r == NotSkipped(IllegalWireType))
  {
    TagReads(tag, wire % 8, payload + rest);
    assert tag + payload + rest == tag + (payload + rest);
    if wire % 8 == 0 || wire % 8 == 2 {
      if ReadVarint(payload).Got? {
        ReadIsPrefixStable(payload, rest, 0, 0);
      }
    }
    hide ReadFrom;
  }

  /** A group is skipped from its start tag to the matching end tag, whatever well-formed
      records are between. */
  lemma SkipsGroup(tag: Bytes, records: seq<Record>, end: Bytes, rest: Bytes)
    requires IsTag(tag, 3) && IsTag(end, 4) && forall x | x in records :: WellFormed(x)
    requires |tag| + |PrintAll(records)| + |end| < TWO_63
    ensures SkipRecord(tag + PrintAll(records) + end + rest) == Skipped(|tag| + |PrintAll(records)| + |end|)
  {
    hide SkipFrom, WellFormed, IsTag;
    GroupWellFormed(tag, records, end);
    SkipsRecord(Group(tag, records, end), rest, 0, 0);
    assert Print(Group(tag, records, end)) + rest == tag + PrintAll(records) + end + rest;
  }

  /** Where the data ends too early, and where a tag cannot be read. */
  lemma SkipEndsEarly(tag: Bytes, records: seq<Record>, data: Bytes)
    requires IsTag(tag, 3) && (forall x | x in records :: WellFormed(x)) && |tag| + |PrintAll(records)| < TWO_63
    ensures SkipRecord(tag + PrintAll(records)) == NotSkipped(UnexpectedEOF)
    ensures SkipRecord([]) == NotSkipped(UnexpectedEOF)
    ensures data != [] && ReadVarint(data).Bad? ==> SkipRecord(data) == NotSkipped(ReadVarint(data).err)
  {
    hide WellFormed, IsTag, ReadVarint;
    var all := PrintAll(records);
    GroupTagReads(tag, 3, all);
    SkipStep(tag, all, 3, 0, 0);
    SkipsRecords(records, [], 1, |tag|);
    assert all + [] == all;
  }

  // The converse: whatever is skipped is a record

  lemma SplitTag(data: Bytes)
    requires ReadVarint(data).Got?
    ensures var n := ReadVarint(data).size; IsTag(data[..n], ReadVarint(data).value % 8)
  {
    ReadIsLocal(data, 0, 0);
  }

  /** An element other than a group tag, all of it present, is a simple record. */
  lemma SplitSimple(data: Bytes) returns (r: Record)
    requires ReadElement(data).Element? && ReadElement(data).size <= |data|
    requires ReadElement(data).wireType !in [3, 4]
    ensures WellFormed(r) && Print(r) == data[..ReadElement(data).size]
  {
    hide ReadFrom;
    var w, size, n := ReadElement(data).wireType, ReadElement(data).size, ReadVarint(data).size;
    SplitTag(data);
    var payload := data[n..size];
    if w == 0 {
      ReadIsLocal(data[n..], 0, 0);
      assert data[n..][..size - n] == payload;
    } else if w == 2 {
      var k := ReadVarint(data[n..]).size;
      ReadIsLocal(data[n..], 0, 0);
      ReadIsPrefixStable(data[n..][..k], payload[k..], 0, 0);
      assert data[n..][..k] + payload[k..] == payload;
    }
    assert IsPayload(w, payload);
    r := Simple(data[..n], payload);
  }

  /** A skip that starts inside `depth` groups reads records up to an end tag, and goes on
      one group further out. */
  lemma {:induction false} SplitGroup(data: Bytes, depth: nat, at: nat) returns (rs: seq<Record>, end: Bytes)
    requires depth > 0 && SkipFrom(data, depth, at).Skipped?
    ensures (forall x | x in rs :: WellFormed(x)) && IsTag(end, 4)
    ensures PrintAll(rs) + end <= data
    ensures var n := |PrintAll(rs) + end|;
            SkipFrom(data, depth, at)
            == if depth == 1 then Skipped(at + n) else SkipFrom(data[n..], depth - 1, at + n)
    decreases |data|, 1
  {
    hide SkipFrom, ReadElement, IsTag, WellFormed;
    FirstTurn(data, depth, at);
    var e := ReadElement(data);
    if e.wireType == 4 {
      SplitGroupTag(data, 4);
      rs, end := [], data[..e.size];
      assert PrintAll(rs) + end == end;
    } else {
      var first := SplitRecord(data, depth, at);
      var k := |Print(first)|;
      var others, lastEnd := SplitGroup(data[k..], depth, at + k);
      rs, end := [first] + others, lastEnd;
      PrintCons(first, others, end);
      Regroup(data, k, PrintAll(others) + end);
    }
  }

  lemma Regroup(data: Bytes, k: nat, next: Bytes)
    requires k <= |data| && next <= data[k..]
    ensures data[..k] + next == data[..k + |next|]
    ensures data[k..][|next|..] == data[k + |next|..]
  {
  }

  /** What the first turn of a successful loop did. */
  lemma FirstTurn(data: Bytes, depth: nat, at: nat)
    requires SkipFrom(data, depth, at).Skipped?
    ensures ReadElement(data).Element?
    ensures var e := ReadElement(data);
            var depth' := DepthAfter(e.wireType, depth);
            && depth' >= 0
            && (depth' == 0 ==> SkipFrom(data, depth, at) == Skipped(at + e.size))
            && (depth' > 0 ==> e.size <= |data|
                               && SkipFrom(data, depth, at) == SkipFrom(data[e.size..], depth', at + e.size))
  {
  }

  /** Inside a group, one record at a time. */
  lemma {:induction false} SplitRecord(data: Bytes, depth: nat, at: nat) returns (r: Record)
    requires depth > 0 && SkipFrom(data, depth, at).Skipped? && ReadElement(data).wireType != 4
    ensures WellFormed(r) && 1 <= |Print(r)| <= |data| && Print(r) == data[..|Print(r)|]
    ensures SkipFrom(data, depth, at) == SkipFrom(data[|Print(r)|..], depth, at + |Print(r)|)
    decreases |data|, 0
  {
    hide SkipFrom, ReadElement, IsTag, WellFormed;
    FirstTurn(data, depth, at);
    var e := ReadElement(data);
    if e.wireType == 3 {
      SplitGroupTag(data, 3);
      var tail := data[e.size..];
      var rs, end := SplitGroup(tail, depth + 1, at + e.size);
      r := Group(data[..e.size], rs, end);
      GroupWellFormed(data[..e.size], rs, end);
      assert Print(r) == data[..e.size] + (PrintAll(rs) + end);
      Regroup(data, e.size, PrintAll(rs) + end);
    } else {
      r := SplitSimple(data);
    }
  }

  lemma SplitGroupTag(data: Bytes, wireType: int)
    requires ReadElement(data).Element? && ReadElement(data).wireType == wireType && (wireType == 3 || wireType == 4)
    ensures ReadElement(data).size <= |data| && IsTag(data[..ReadElement(data).size], wireType)
  {
    SplitTag(data);
  }

  lemma GroupWellFormed(tag: Bytes, rs: seq<Record>, end: Bytes)
    requires IsTag(tag, 3) && IsTag(end, 4) && forall x | x in rs :: WellFormed(x)
    ensures WellFormed(Group(tag, rs, end))
  {
  }

  lemma PrintCons(first: Record, others: seq<Record>, end: Bytes)
    ensures PrintAll([first] + others) + end == Print(first) + (PrintAll(others) + end)
  {
    assert ([first] + others)[1..] == others;
  }

  /** The skipper accepts exactly the grammar: it ends at `n` within the data if and only if
      the first `n` bytes are one well-formed record, groups of any depth included. */
  lemma SkipAcceptsExactly(data: Bytes, n: nat)
    requires n <= |data| < TWO_63
    ensures SkipRecord(data) == Skipped(n) <==> exists r :: WellFormed(r) && Print(r) == data[..n]
  {
    hide ReadElement, WellFormed;
    if SkipRecord(data) == Skipped(n) {
      var r := SkippedIsRecord(data, n);
    }
    if exists r :: WellFormed(r) && Print(r) == data[..n] {
      var r :| WellFormed(r) && Print(r) == data[..n];
      SkipsRecord(r, data[n..], 0, 0);
      assert data[..n] + data[n..] == data;
    }
  }

  lemma SkippedIsRecord(data: Bytes, n: nat) returns (r: Record)
    requires n <= |data| && SkipRecord(data) == Skipped(n)
    ensures WellFormed(r) && Print(r) == data[..n]
  {
    hide ReadElement, WellFormed, IsTag;
    var e := ReadElement(data);
    if e.wireType == 3 {
      SplitGroupTag(data, 3);
      var tail := data[e.size..];
      var rs, end := SplitGroup(tail, 1, e.size);
      r := Group(data[..e.size], rs, end);
      GroupWellFormed(data[..e.size], rs, end);
      assert data == data[..e.size] + tail;
      assert Print(r) == data[..e.size] + (PrintAll(rs) + end);
    } else {
      r := SplitSimple(data);
    }
  }

  // The loop

  /** One turn of the loop: a tag and the end of its payload. */
  method DecodeElement(data: Bytes, start: nat) returns (r: Element)
    requires start <= |data|
    ensures r == ReadElement(data[start..])
  {
    hide ReadVarint;
    var tag := DecodeVarint(data, start);
    if tag.Bad? {
      return NoElement(tag.err);
    }
    var next := start + tag.size;
    assert data[next..] == data[start..][tag.size..];
    match tag.value % 8 {
      case 0 =>
        var value := DecodeVarint(data, next);
        if value.Bad? {
          return NoElement(value.err);
        }
        next := next + value.size;
      case 1 =>
        next := next + 8;
      case 2 =>
        var length := DecodeVarint(data, next);
        if length.Bad? {
          return NoElement(length.err);
        }
        if length.value >= TWO_63 {
          return NoElement(InvalidLength);
        }
        next := next + length.size + length.value;
      case 3 =>
      case 4 =>
      case 5 =>
        next := next + 4;
      case _ =>
        return NoElement(IllegalWireType);
    }
    return Element(tag.value % 8, next - start);
  }

  /** `skipParams` and `skipTx`. */
  method SkipUnknown(data: Bytes) returns (r: SkipResult)
    ensures r == SkipRecord(data)
  {
    hide ReadElement;
    var index, depth := 0, 0;
    assert data[0..] == data;
    while index < |data|
      invariant index >= 0 && depth >= 0
      invariant SkipRecord(data)
                == if index <= |data| then SkipFrom(data[index..], depth, index) else NotSkipped(UnexpectedEOF)
      decreases |data| - index
    {
      var element := DecodeElement(data, index);
      if element.NoElement? {
        return NotSkipped(element.err);
      }
      if element.wireType == 3 {
        depth := depth + 1;
      } else if element.wireType == 4 {
        if depth == 0 {
          return NotSkipped(UnexpectedEndGroup);
        }
        depth := depth - 1;
      }
      var next := index + element.size;
      if next >= TWO_63 {
        return NotSkipped(InvalidLength);
      }
      if depth == 0 {
        return Skipped(next);
      }
      assert next <= |data| ==> data[next..] == data[index..][element.size..];
      index := next;
    }
    return NotSkipped(UnexpectedEOF);
  }
}
