/** What the generated decoders share: tags, length windows, the three kinds of field, and
    the loop over the records of a message. The three `Unmarshal` functions are copies of
    one loop that differ in the record they decode, so the loop takes that as a parameter.
    `base` is the index of `data` in the whole input; only Go's overflow checks see it. */
module Wire {
  import opened Machine
  import opened Varint
  import opened Skip

  /** One record decoded into a message, or an error with the message as it was left. */
  datatype Step<M> = Next(m: M, size: nat) | Stop(m: M, err: WireError)

  datatype Outcome<M> = Done(m: M) | Fail(m: M, err: WireError)

  // Tags

  datatype Tag = Tag(field: int, wireType: int, size: nat) | NoTag(err: WireError)

  /** `int32(wire >> 3)`: the low 32 bits as a signed number, so a longer tag aliases. */
  function FieldNumber(wire: uint64): (f: int)
    ensures -0x8000_0000 <= f < 0x8000_0000 && (wire / 8 - f) % 0x1_0000_0000 == 0
  {
    var f := wire / 8 % 0x1_0000_0000;
    if f >= 0x8000_0000 then f - 0x1_0000_0000 else f
  }

  function ReadTag(data: Bytes): (r: Tag)
    ensures r.Tag? ==> 1 <= r.size <= |data| && r.field > 0
  {
    match ReadVarint(data)
    case Bad(e, _) => NoTag(e)
    case Got(wire, n) =>
      if wire % 8 == 4 then NoTag(EndGroupForNonGroup)
      else if FieldNumber(wire) <= 0 then NoTag(IllegalTag)
      else Tag(FieldNumber(wire), wire % 8, n)
  }

  /** The tag by arithmetic on the varint: the low three bits are the wire type, the 32 bits
      above them the field number, which is illegal when it is zero or negative. */
  lemma TagIsArithmetic(data: Bytes)
    ensures match ReadVarint(data)
            case Bad(e, _) => ReadTag(data) == NoTag(e)
            case Got(wire, n) =>
              var field := wire / 8 % 0x1_0000_0000;
              ReadTag(data) == if wire % 8 == 4 then NoTag(EndGroupForNonGroup)
                               else if 0 < field < 0x8000_0000 then Tag(field, wire % 8, n)
                               else NoTag(IllegalTag)
  {
  }

  /** The varint a record starts with. */
  lemma RecordStartsWithTag(r: Record)
    requires WellFormed(r)
    ensures ReadVarint(r.tag).Got? && ReadVarint(r.tag).value % 8 != 4
    ensures ReadVarint(Print(r)) == ReadVarint(r.tag)
  {
    match r
    case Simple(tag, payload) =>
      var w :| 0 <= w <= 5 && IsTag(tag, w) && IsPayload(w, payload);
      TagReads(tag, w, payload);
    case Group(tag, records, end) =>
      TagReads(tag, 3, PrintAll(records) + end);
      assert Print(r) == tag + (PrintAll(records) + end);
  }

  // Fields

  /** The bytes a length prefix announces. */
  datatype Window = Window(lo: nat, hi: nat) | NoWindow(err: WireError)

  function ReadWindow(data: Bytes, base: nat, n: nat): (r: Window)
    requires n <= |data|
    ensures r.Window? ==> n < r.lo <= r.hi <= |data|
  {
    match ReadVarint(data[n..])
    case Bad(e, _) => NoWindow(e)
    case Got(length, k) =>
      if length >= TWO_63 || base + n + k + length >= TWO_63 then NoWindow(InvalidLength)
      else if n + k + length > |data| then NoWindow(UnexpectedEOF)
      else Window(n + k, n + k + length)
  }

  /** The two errors of a length: one that no `int` holds or that overflows the index, and one
      that leaves the data. */
  lemma WindowByLength(data: Bytes, base: nat, n: nat, length: uint64, k: nat)
    requires n <= |data| && ReadVarint(data[n..]) == Got(length, k)
    ensures var r, end := ReadWindow(data, base, n), n + k + length;
            && (r == NoWindow(InvalidLength) <==> base + end >= 0x8000_0000_0000_0000)
            && (r == NoWindow(UnexpectedEOF) <==> base + end < 0x8000_0000_0000_0000 && end > |data|)
            && (r == Window(n + k, end) <==> base + end < 0x8000_0000_0000_0000 && end <= |data|)
  {
    hide ReadVarint;
  }

  function BytesField<M>(data: Bytes, base: nat, tag: Tag, m: M, put: Bytes -> M): (r: Step<M>)
    requires tag.Tag? && tag.size <= |data|
    ensures r.Next? ==> tag.size < r.size <= |data|
  {
    if tag.wireType != 2 then Stop(m, WrongWireType)
    else
      match ReadWindow(data, base, tag.size)
      case NoWindow(e) => Stop(m, e)
      case Window(lo, hi) => Next(put(data[lo..hi]), hi)
  }

  /** The field is reset and filled in place, so an error leaves the bits read so far. */
  function UintField<M>(data: Bytes, tag: Tag, m: M, put: uint64 -> M): (r: Step<M>)
    requires tag.Tag? && tag.size <= |data|
    ensures r.Next? ==> tag.size < r.size <= |data|
  {
    if tag.wireType != 0 then Stop(m, WrongWireType)
    else
      match ReadVarint(data[tag.size..])
      case Bad(e, partial) => Stop(put(partial), e)
      case Got(v, k) => Next(put(v), tag.size + k)
  }

  function UnknownField<M>(data: Bytes, base: nat, m: M): (r: Step<M>)
    ensures r.Next? ==> 1 <= r.size <= |data|
  {
    match SkipRecord(data)
    case NotSkipped(e) => Stop(m, e)
    case Skipped(n) =>
      if base + n >= TWO_63 then Stop(m, InvalidLength)
      else if n > |data| then Stop(m, UnexpectedEOF)
      else Next(m, n)
  }

  /** What a skip makes of an unknown field. */
  lemma UnknownByLength<M>(data: Bytes, base: nat, m: M, n: nat)
    ensures SkipRecord(data).NotSkipped? ==> UnknownField(data, base, m) == Stop(m, SkipRecord(data).err)
    ensures SkipRecord(data) == Skipped(n) ==>
              UnknownField(data, base, m)
              == if base + n >= 0x8000_0000_0000_0000 then Stop(m, InvalidLength)
                 else if n > |data| then Stop(m, UnexpectedEOF) else Next(m, n)
  {
  }

  // The loop

  /** Go reports a length that overflows an `int` and one that leaves the data by different
      errors; which of the two a bad length meets depends on where it stands. */
  predicate SameError(e: WireError, f: WireError) {
    e == f || ((e == InvalidLength || e == UnexpectedEOF) && (f == InvalidLength || f == UnexpectedEOF))
  }

  /** Equal, but for the two errors of a bad length. */
  ghost predicate SameStep<M>(x: Step<M>, y: Step<M>) {
    x == y || (x.Stop? && y.Stop? && x.m == y.m && SameError(x.err, y.err))
  }

  ghost predicate SameOutcome<M>(x: Outcome<M>, y: Outcome<M>) {
    x == y || (x.Fail? && y.Fail? && x.m == y.m && SameError(x.err, y.err))
  }

  /** What the loop relies on: a decoded record advances within the data, the bytes after it
      do not change it, and neither does its place in the input. */
  ghost predicate Regular<M(!new)>(step: (Bytes, nat, M) -> Step<M>) {
    && (forall a: Bytes, base: nat, m: M {:trigger step(a, base, m)} ::
          a != [] && step(a, base, m).Next? ==> 1 <= step(a, base, m).size <= |a|)
    && (forall a: Bytes, b: Bytes, base: nat, m: M {:trigger step(a + b, base, m)} ::
          a != [] && step(a, base, m).Next? ==> step(a + b, base, m) == step(a, base, m))
    && (forall a: Bytes, base: nat, other: nat, m: M {:trigger step(a, base, m), step(a, other, m)} ::
          a != [] && base + |a| < TWO_63 && other + |a| < TWO_63 ==> SameStep(step(a, base, m), step(a, other, m)))
  }

  function Decode<M(!new)>(step: (Bytes, nat, M) -> Step<M>, data: Bytes, base: nat, m: M): Outcome<M>
    requires Regular(step)
    decreases |data|
  {
    if data == [] then Done(m)
    else
      match step(data, base, m)
      case Stop(m', e) => Fail(m', e)
      case Next(m', size) => Decode(step, data[size..], base + size, m')
  }

  /** Decoding a whole input into a message. */
  function Unmarshal<M(!new)>(step: (Bytes, nat, M) -> Step<M>, data: Bytes, m: M): Outcome<M>
    requires Regular(step)
  {
    Decode(step, data, 0, m)
  }

  /** One turn of a regular loop: it advances, and later bytes do not change it. */
  lemma StepIsStable<M(!new)>(step: (Bytes, nat, M) -> Step<M>, a: Bytes, b: Bytes, base: nat, m: M)
    requires Regular(step) && a != [] && step(a, base, m).Next?
    ensures 1 <= step(a, base, m).size <= |a| && step(a + b, base, m) == step(a, base, m)
  {
  }

  lemma {:induction false} DecodeComposes<M(!new)>(step: (Bytes, nat, M) -> Step<M>, a: Bytes, b: Bytes,
        base: nat, m: M)
    requires Regular(step) && Decode(step, a, base, m).Done?
    ensures Decode(step, a + b, base, m) == Decode(step, b, base + |a|, Decode(step, a, base, m).m)
    decreases |a|
  {
    hide Regular;
    if a == [] {
      assert a + b == b;
    } else {
      var next := step(a, base, m);
      StepIsStable(step, a, b, base, m);
      assert (a + b)[next.size..] == a[next.size..] + b;
      DecodeComposes(step, a[next.size..], b, base + next.size, next.m);
    }
  }

  lemma {:induction false} DecodeIgnoresBase<M(!new)>(step: (Bytes, nat, M) -> Step<M>, a: Bytes, base: nat,
        other: nat, m: M)
    requires Regular(step) && base + |a| < TWO_63 && other + |a| < TWO_63
    ensures SameOutcome(Decode(step, a, base, m), Decode(step, a, other, m))
    decreases |a|
  {
    if a != [] {
      var next := step(a, base, m);
      assert SameStep(next, step(a, other, m));
      if next.Next? {
        DecodeIgnoresBase(step, a[next.size..], base + next.size, other + next.size, next.m);
      }
    }
  }

  /** Decoding a concatenation is decoding the second part on top of the first: fields of
      the second part win, nested messages merge, and a failure is the same failure. */
  lemma UnmarshalComposes<M(!new)>(step: (Bytes, nat, M) -> Step<M>, a: Bytes, b: Bytes, m: M)
    requires Regular(step) && Unmarshal(step, a, m).Done? && |a| + |b| < TWO_63
    ensures SameOutcome(Unmarshal(step, a + b, m), Unmarshal(step, b, Unmarshal(step, a, m).m))
  {
    DecodeComposes(step, a, b, 0, m);
    DecodeIgnoresBase(step, b, |a|, 0, Unmarshal(step, a, m).m);
  }

  /** A record the message does not know, dropped between two records, changes nothing. */
  lemma InsertedRecordIsIgnored<M(!new)>(step: (Bytes, nat, M) -> Step<M>, a: Bytes, u: Bytes, b: Bytes, m: M)
    requires Regular(step) && Unmarshal(step, a, m).Done? && |a| + |u| + |b| < TWO_63
    requires u != [] && step(u, 0, Unmarshal(step, a, m).m) == Next(Unmarshal(step, a, m).m, |u|)
    ensures SameOutcome(Unmarshal(step, a + u + b, m), Unmarshal(step, a + b, m))
  {
    var middle := Unmarshal(step, a, m).m;
    assert u[|u|..] == [];
    assert Decode(step, u, 0, middle) == Decode(step, u[|u|..], |u|, middle) == Done(middle);
    UnmarshalComposes(step, a, u, m);
    UnmarshalComposes(step, a + u, b, m);
    UnmarshalComposes(step, a, b, m);
  }

  // Regularity of the pieces

  lemma TagIsStable(a: Bytes, b: Bytes)
    requires ReadTag(a).Tag?
    ensures ReadTag(a + b) == ReadTag(a)
  {
    ReadIsPrefixStable(a, b, 0, 0);
  }

  lemma ValueIsStable(a: Bytes, b: Bytes, n: nat)
    requires n <= |a| && ReadVarint(a[n..]).Got?
    ensures ReadVarint((a + b)[n..]) == ReadVarint(a[n..])
  {
    assert (a + b)[n..] == a[n..] + b;
    ReadIsPrefixStable(a[n..], b, 0, 0);
  }

  lemma WindowIsStable(a: Bytes, b: Bytes, base: nat, n: nat)
    requires n <= |a| && ReadWindow(a, base, n).Window?
    ensures ReadWindow(a + b, base, n) == ReadWindow(a, base, n)
    ensures var w := ReadWindow(a, base, n); (a + b)[w.lo..w.hi] == a[w.lo..w.hi]
  {
    ValueIsStable(a, b, n);
  }

  /** A window is the same wherever the data stands, but for the error of a bad length. */
  lemma WindowIgnoresBase(a: Bytes, base: nat, other: nat, n: nat)
    requires n <= |a| && base + |a| < TWO_63 && other + |a| < TWO_63
    ensures var x, y := ReadWindow(a, base, n), ReadWindow(a, other, n);
            x == y || (x.NoWindow? && y.NoWindow? && SameError(x.err, y.err))
  {
  }

  lemma UnknownIgnoresBase<M>(a: Bytes, base: nat, other: nat, m: M)
    requires base + |a| < TWO_63 && other + |a| < TWO_63
    ensures SameStep(UnknownField(a, base, m), UnknownField(a, other, m))
  {
  }

  lemma UnknownIsStable<M>(a: Bytes, b: Bytes, base: nat, m: M)
    requires UnknownField(a, base, m).Next?
    ensures UnknownField(a + b, base, m) == UnknownField(a, base, m)
  {
    SkipIsPrefixStable(a, b, 0, 0);
  }

  /** A well-formed record is stepped over as an unknown field, wherever it stands. */
  lemma RecordIsSkipped<M>(r: Record, base: nat, m: M)
    requires WellFormed(r) && base + |Print(r)| < TWO_63
    ensures UnknownField(Print(r), base, m) == Next(m, |Print(r)|)
  {
    SkipsRecord(r, [], 0, 0);
    assert Print(r) + [] == Print(r);
  }

  // Records as the encoders write them

  /** A string field: nothing at all when it is empty. */
  function BytesRecord(field: nat, s: Bytes): Bytes
    requires 1 <= field <= 15
  {
    if s == [] then [] else [8 * field + 2] + EncodeVarint(|s|) + s
  }

  /** A nested message is written even when it is empty. */
  function NestedRecord(field: nat, payload: Bytes): Bytes
    requires 1 <= field <= 15
  {
    [8 * field + 2] + EncodeVarint(|payload|) + payload
  }

  /** A number field: nothing at all when it is zero. */
  function UintRecord(field: nat, v: uint64): Bytes
    requires 1 <= field <= 15
  {
    if v == 0 then [] else [8 * field] + EncodeVarint(v)
  }

  lemma TagByteReads(field: nat, wireType: int, rest: Bytes)
    requires 1 <= field <= 15 && (wireType == 0 || wireType == 2)
    ensures ReadTag([8 * field + wireType] + rest) == Tag(field, wireType, 1)
  {
    hide ReadVarint;
    VarintRoundTrip(8 * field + wireType, rest);
  }

  /** A length-delimited record is read back as its tag and a window on its bytes. */
  lemma DelimitedReads(field: nat, s: Bytes, rest: Bytes, base: nat)
    requires 1 <= field <= 15
    ensures var head := [8 * field + 2] + EncodeVarint(|s|);
            var data := head + s + rest;
            && ReadTag(data) == Tag(field, 2, 1)
            && (base + |head + s| < TWO_63 ==> ReadWindow(data, base, 1) == Window(|head|, |head + s|))
            && data[|head|..|head + s|] == s && data[|head + s|..] == rest
  {
    hide ReadVarint, ReadTag, EncodeVarint;
    var size := EncodeVarint(|s|);
    var data := [8 * field + 2] + size + s + rest;
    assert data == [8 * field + 2] + (size + (s + rest));
    TagByteReads(field, 2, size + (s + rest));
    assert data[1..] == size + (s + rest);
    if |s| < TWO_63 {
      VarintRoundTrip(|s|, s + rest);
    }
  }

  lemma UintReads(field: nat, v: uint64, rest: Bytes)
    requires 1 <= field <= 15
    ensures var head := [8 * field] + EncodeVarint(v);
            && ReadTag(head + rest) == Tag(field, 0, 1)
            && ReadVarint((head + rest)[1..]) == Got(v, |head| - 1)
            && (head + rest)[|head|..] == rest
  {
    hide ReadVarint, ReadTag, EncodeVarint;
    var code := EncodeVarint(v);
    var data := [8 * field] + code + rest;
    assert data == [8 * field] + (code + rest);
    TagByteReads(field, 0, code + rest);
    assert data[1..] == code + rest;
    VarintRoundTrip(v, rest);
  }

  /** Skipping a record an encoder wrote ends where decoding it ends: a string, a nested
      message with any payload, an empty one included, or a number. */
  lemma EncodedRecordsAreSkipped(field: nat, s: Bytes, v: uint64, rest: Bytes)
    requires 1 <= field <= 15 && |NestedRecord(field, s)| < TWO_63
    ensures SkipRecord(NestedRecord(field, s) + rest) == Skipped(|NestedRecord(field, s)|)
    ensures s != [] ==> SkipRecord(BytesRecord(field, s) + rest) == Skipped(|BytesRecord(field, s)|)
    ensures v != 0 ==> SkipRecord(UintRecord(field, v) + rest) == Skipped(|UintRecord(field, v)|)
  {
    DelimitedIsRecord(field, s);
    SkipsRecord(DelimitedAsRecord(field, s), rest, 0, 0);
    UintIsRecord(field, v);
    if v != 0 {
      VarintIsShort(v);
      SkipsRecord(UintAsRecord(field, v), rest, 0, 0);
    }
  }

  /** The record of the grammar that a length-delimited field is. */
  function DelimitedAsRecord(field: nat, s: Bytes): Record
    requires 1 <= field <= 15
  {
    Simple([8 * field + 2], EncodeVarint(|s|) + s)
  }

  function UintAsRecord(field: nat, v: uint64): Record
    requires 1 <= field <= 15
  {
    Simple([8 * field], EncodeVarint(v))
  }

  lemma DelimitedIsRecord(field: nat, s: Bytes)
    requires 1 <= field <= 15 && |NestedRecord(field, s)| < TWO_63
    ensures WellFormed(DelimitedAsRecord(field, s)) && Print(DelimitedAsRecord(field, s)) == NestedRecord(field, s)
  {
    hide ReadVarint, EncodeVarint;
    TagByteIsTag(field, 2);
    VarintRoundTrip(|s|, s);
    assert IsPayload(2, DelimitedAsRecord(field, s).payload);
  }

  lemma UintIsRecord(field: nat, v: uint64)
    requires 1 <= field <= 15
    ensures WellFormed(UintAsRecord(field, v)) && Print(UintAsRecord(field, v)) == [8 * field] + EncodeVarint(v)
  {
    hide ReadVarint, EncodeVarint;
    TagByteIsTag(field, 0);
    VarintRoundTrip(v, []);
    assert EncodeVarint(v) + [] == EncodeVarint(v);
    assert IsPayload(0, UintAsRecord(field, v).payload);
  }

  lemma VarintIsShort(v: uint64)
    ensures |EncodeVarint(v)| <= 10
  {
    VarintRoundTrip(v, []);
  }

  lemma TagByteIsTag(field: nat, wireType: int)
    requires 1 <= field <= 15 && (wireType == 0 || wireType == 2)
    ensures IsTag([8 * field + wireType], wireType)
  {
    VarintRoundTrip(8 * field + wireType, []);
    assert EncodeVarint(8 * field + wireType) + [] == [8 * field + wireType];
  }

  // Writing backwards

  /** Writing a record just before what is already written. */
  lemma WriteBefore(original: Bytes, i: nat, j: nat, record: Bytes, written: Bytes, tail: Bytes, now: Bytes,
        next: Bytes)
    requires j <= i <= |original|
    requires now == original[..i] + written + tail
    requires next == now[..j] + record + now[i..]
    ensures next == original[..j] + (record + written) + tail
  {
    assert now[..j] == original[..j];
    assert now[i..] == written + tail;
  }

  /** `encodeVarint` followed by the tag byte before it. */
  method PutHead(buffer: array<byte>, end: nat, tag: byte, v: uint64) returns (i: nat)
    requires 1 + |EncodeVarint(v)| <= end <= buffer.Length
    modifies buffer
    ensures i == end - 1 - |EncodeVarint(v)|
    ensures buffer[..] == old(buffer[..i]) + ([tag] + EncodeVarint(v)) + old(buffer[end..])
  {
    hide EncodeVarint, Sov;
    ghost var original := buffer[..];
    SovIsLength(v);
    i := EncodeVarintInto(buffer, end, v);
    ghost var coded := buffer[..];
    i := i - 1;
    buffer[i] := tag;
    assert buffer[..] == coded[..i] + [tag] + coded[i + 1..];
    WriteBefore(original, i + 1, i, [tag], EncodeVarint(v), original[end..], coded, buffer[..]);
  }

  /** `copy(dAtA[i:], s)`. */
  method CopyInto(buffer: array<byte>, i: nat, end: nat, s: Bytes)
    requires i + |s| == end <= buffer.Length
    modifies buffer
    ensures buffer[..] == old(buffer[..i]) + s + old(buffer[end..])
  {
    forall k | 0 <= k < |s| {
      buffer[i + k] := s[k];
    }
  }

  lemma BytesRecordParts(field: nat, s: Bytes)
    requires 1 <= field <= 15
    ensures BytesRecord(field, s) == if s == [] then [] else ([8 * field + 2] + EncodeVarint(|s|)) + s
  {
  }

  lemma UintRecordParts(field: nat, v: uint64)
    requires 1 <= field <= 15
    ensures UintRecord(field, v) == if v == 0 then [] else [8 * field] + EncodeVarint(v)
  {
  }

  /** The string block of a marshaller: content, length, tag, each before the last. */
  method PutBytes(buffer: array<byte>, end: nat, field: nat, s: Bytes) returns (i: nat)
    requires 1 <= field <= 15 && |BytesRecord(field, s)| <= end <= buffer.Length && |s| < TWO_64
    modifies buffer
    ensures i == end - |BytesRecord(field, s)|
    ensures buffer[..] == old(buffer[..i]) + BytesRecord(field, s) + old(buffer[end..])
  {
    BytesRecordParts(field, s);
    hide EncodeVarint, BytesRecord;
    i := end;
    ghost var original := buffer[..];
    if |s| > 0 {
      i := i - |s|;
      CopyInto(buffer, i, end, s);
      ghost var copied, mid := buffer[..], i;
      i := PutHead(buffer, i, 8 * field + 2, |s|);
      ghost var head := [8 * field + 2] + EncodeVarint(|s|);
      WriteBefore(original, mid, i, head, s, original[end..], copied, buffer[..]);
    } else {
      assert buffer[..] == original[..end] + [] + original[end..];
    }
  }

  /** The number block of a marshaller. */
  method PutUint(buffer: array<byte>, end: nat, field: nat, v: uint64) returns (i: nat)
    requires 1 <= field <= 15 && |UintRecord(field, v)| <= end <= buffer.Length
    modifies buffer
    ensures i == end - |UintRecord(field, v)|
    ensures buffer[..] == old(buffer[..i]) + UintRecord(field, v) + old(buffer[end..])
  {
    hide EncodeVarint;
    i := end;
    if v != 0 {
      i := PutHead(buffer, i, 8 * field, v);
    } else {
      assert buffer[..] == buffer[..end] + [] + buffer[end..];
    }
  }

  // Reading in place

  /** The length prefix at `start` and the window it announces, in indices of the whole
      input; `index` is where the record begins. */
  method DecodeWindow(data: Bytes, start: nat, ghost index: nat) returns (r: Window)
    requires index <= start <= |data|
    ensures match ReadWindow(data[index..], index, start - index)
            case NoWindow(e) => r == NoWindow(e)
            case Window(lo, hi) =>
              r == Window(index + lo, index + hi) && data[r.lo..r.hi] == data[index..][lo..hi]
  {
    hide ReadVarint;
    assert data[index..][start - index..] == data[start..];
    var length := DecodeVarint(data, start);
    if length.Bad? {
      return NoWindow(length.err);
    }
    if length.value >= TWO_63 {
      return NoWindow(InvalidLength);
    }
    var lo := start + length.size;
    var hi := lo + length.value;
    if hi >= TWO_63 {
      return NoWindow(InvalidLength);
    }
    if hi > |data| {
      return NoWindow(UnexpectedEOF);
    }
    return Window(lo, hi);
  }

  /** The tag at `start`. */
  method DecodeTag(data: Bytes, start: nat) returns (r: Tag)
    requires start <= |data|
    ensures r == ReadTag(data[start..])
  {
    hide ReadVarint;
    var wire := DecodeVarint(data, start);
    if wire.Bad? {
      return NoTag(wire.err);
    }
    var fieldNum, wireType := FieldNumber(wire.value), wire.value % 8;
    if wireType == 4 {
      return NoTag(EndGroupForNonGroup);
    }
    if fieldNum <= 0 {
      return NoTag(IllegalTag);
    }
    return Tag(fieldNum, wireType, wire.size);
  }

  /** The default branch of a decoder: back to the tag, and skip. */
  method DecodeUnknown(data: Bytes, index: nat) returns (next: nat, err: Option<WireError>)
    requires index <= |data|
    ensures match UnknownField(data[index..], index, ())
            case Stop(_, e) => err == Some(e)
            case Next(_, size) => err == None && next == index + size
  {
    hide SkipRecord;
    next := index;
    var skipped := SkipUnknown(data[index..]);
    if skipped.NotSkipped? {
      return next, Some(skipped.err);
    }
    if index + skipped.end >= TWO_63 {
      return next, Some(InvalidLength);
    }
    if index + skipped.end > |data| {
      return next, Some(UnexpectedEOF);
    }
    return index + skipped.end, None;
  }

  lemma UnknownKeepsMessage<M>(data: Bytes, base: nat, m: M)
    ensures match UnknownField(data, base, ())
            case Stop(_, e) => UnknownField(data, base, m) == Stop(m, e)
            case Next(_, size) => UnknownField(data, base, m) == Next(m, size)
  {
  }
}
