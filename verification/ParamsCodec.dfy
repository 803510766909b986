/** The protobuf codec of `Params`. */
module ParamsCodec {
  import opened Machine
  import opened DistroParams
  import opened Varint
  import opened Skip
  import opened Wire

  // The encoding

  /** The bytes of a message: its fields in ascending order, default values left out. */
  function EncodeParams(p: Params): Bytes {
    BytesRecord(1, p.mintingAddress)
    + (BytesRecord(2, p.receivingAddress)
       + (BytesRecord(3, p.denom)
          + (UintRecord(4, p.maxSupply)
             + (BytesRecord(5, p.distributionStartDate)
                + UintRecord(6, p.monthsInHalvingPeriod)))))
  }

  /** The encoding byte by byte: which tag each field has, in which order, and that a field at
      its default is left out. */
  lemma ParamsWireFormat(p: Params, f1: Bytes, f2: Bytes, f3: Bytes, f4: Bytes, f5: Bytes, f6: Bytes)
    requires f1 == if p.mintingAddress == [] then []
                   else [0x0a] + EncodeVarint(|p.mintingAddress|) + p.mintingAddress
    requires f2 == if p.receivingAddress == [] then []
                   else [0x12] + EncodeVarint(|p.receivingAddress|) + p.receivingAddress
    requires f3 == if p.denom == [] then [] else [0x1a] + EncodeVarint(|p.denom|) + p.denom
    requires f4 == if p.maxSupply == 0 then [] else [0x20] + EncodeVarint(p.maxSupply)
    requires f5 == if p.distributionStartDate == [] then []
                   else [0x2a] + EncodeVarint(|p.distributionStartDate|) + p.distributionStartDate
    requires f6 == if p.monthsInHalvingPeriod == 0 then [] else [0x30] + EncodeVarint(p.monthsInHalvingPeriod)
    ensures EncodeParams(p) == f1 + f2 + f3 + f4 + f5 + f6
  {
    assert BytesRecord(1, p.mintingAddress) == f1 && BytesRecord(2, p.receivingAddress) == f2;
    assert BytesRecord(3, p.denom) == f3 && UintRecord(4, p.maxSupply) == f4;
    assert BytesRecord(5, p.distributionStartDate) == f5 && UintRecord(6, p.monthsInHalvingPeriod) == f6;
    hide BytesRecord, UintRecord, EncodeVarint;
    Reassociate(f1, f2, f3, f4, f5, f6);
  }

  lemma Reassociate(a: Bytes, b: Bytes, c: Bytes, d: Bytes, e: Bytes, f: Bytes)
    ensures a + (b + (c + (d + (e + f)))) == a + b + c + d + e + f
  {
  }

  /** `Size`: the length, computed ahead of the writing. */
  function Size(p: Params): (n: nat)
    ensures n == |EncodeParams(p)|
  {
    BytesSizeIsLength(1, p.mintingAddress);
    BytesSizeIsLength(2, p.receivingAddress);
    BytesSizeIsLength(3, p.denom);
    UintSizeIsLength(4, p.maxSupply);
    BytesSizeIsLength(5, p.distributionStartDate);
    UintSizeIsLength(6, p.monthsInHalvingPeriod);
    BytesSize(p.mintingAddress) + BytesSize(p.receivingAddress) + BytesSize(p.denom)
    + UintSize(p.maxSupply) + BytesSize(p.distributionStartDate) + UintSize(p.monthsInHalvingPeriod)
  }

  function BytesSize(s: Bytes): nat {
    if |s| > 0 then 1 + |s| + Sov(|s|) else 0
  }

  function UintSize(v: uint64): nat {
    if v != 0 then 1 + Sov(v) else 0
  }

  lemma BytesSizeIsLength(field: nat, s: Bytes)
    requires 1 <= field <= 15
    ensures BytesSize(s) == |BytesRecord(field, s)|
  {
    SovIsLength(|s|);
  }

  lemma UintSizeIsLength(field: nat, v: uint64)
    requires 1 <= field <= 15
    ensures UintSize(v) == |UintRecord(field, v)|
  {
    SovIsLength(v);
  }

  // One record

  function SetBytes(p: Params, field: int, s: Bytes): Params {
    match field
    case 1 => p.(mintingAddress := s)
    case 2 => p.(receivingAddress := s)
    case 3 => p.(denom := s)
    case 5 => p.(distributionStartDate := s)
    case _ => p
  }

  function SetUint(p: Params, field: int, v: uint64): Params {
    match field
    case 4 => p.(maxSupply := v)
    case 6 => p.(monthsInHalvingPeriod := v)
    case _ => p
  }

  predicate IsBytesField(field: int) {
    field == 1 || field == 2 || field == 3 || field == 5
  }

  predicate IsUintField(field: int) {
    field == 4 || field == 6
  }

  /** One turn of `Unmarshal`'s loop. */
  function ParamsRecord(data: Bytes, base: nat, p: Params): Step<Params> {
    var tag := ReadTag(data);
    if tag.NoTag? then Stop(p, tag.err)
    else if IsBytesField(tag.field) then BytesField(data, base, tag, p, s => SetBytes(p, tag.field, s))
    else if IsUintField(tag.field) then UintField(data, tag, p, v => SetUint(p, tag.field, v))
    else UnknownField(data, base, p)
  }

  lemma ParamsRecordIsStable(a: Bytes, b: Bytes, base: nat, p: Params)
    requires ParamsRecord(a, base, p).Next?
    ensures ParamsRecord(a + b, base, p) == ParamsRecord(a, base, p)
  {
    hide ReadTag, ReadWindow, ReadVarint, SkipRecord, UnknownField;
    TagIsStable(a, b);
    var tag := ReadTag(a);
    if IsBytesField(tag.field) {
      WindowIsStable(a, b, base, tag.size);
    } else if IsUintField(tag.field) {
      ValueIsStable(a, b, tag.size);
    } else {
      UnknownIsStable(a, b, base, p);
    }
  }

  lemma ParamsRecordIgnoresBase(a: Bytes, base: nat, other: nat, p: Params)
    requires base + |a| < TWO_63 && other + |a| < TWO_63
    ensures SameStep(ParamsRecord(a, base, p), ParamsRecord(a, other, p))
  {
    hide ReadTag, ReadWindow, ReadVarint, UnknownField;
    var tag := ReadTag(a);
    if tag.Tag? {
      WindowIgnoresBase(a, base, other, tag.size);
      UnknownIgnoresBase(a, base, other, p);
    }
  }

  lemma ParamsRecordIsRegular()
    ensures Regular(ParamsRecord)
  {
    forall a: Bytes, b: Bytes, base: nat, p: Params | a != [] && ParamsRecord(a, base, p).Next?
      ensures ParamsRecord(a + b, base, p) == ParamsRecord(a, base, p)
    {
      ParamsRecordIsStable(a, b, base, p);
    }
    forall a: Bytes, base: nat, other: nat, p: Params | base + |a| < TWO_63 && other + |a| < TWO_63
      ensures SameStep(ParamsRecord(a, base, p), ParamsRecord(a, other, p))
    {
      ParamsRecordIgnoresBase(a, base, other, p);
    }
  }

  /** `Unmarshal` into a receiver. */
  function DecodeParams(data: Bytes, p: Params): Outcome<Params> {
    ParamsRecordIsRegular();
    Unmarshal(ParamsRecord, data, p)
  }

  // Round trip

  lemma BytesRecordDecodes(field: nat, s: Bytes, rest: Bytes, base: nat, p: Params)
    requires IsBytesField(field) && base + |BytesRecord(field, s)| < TWO_63
    requires s == [] ==> SetBytes(p, field, s) == p
    ensures Regular(ParamsRecord)
    ensures Decode(ParamsRecord, BytesRecord(field, s) + rest, base, p)
            == Decode(ParamsRecord, rest, base + |BytesRecord(field, s)|, SetBytes(p, field, s))
  {
    hide ReadTag, ReadWindow, ReadVarint, EncodeVarint, UintField, UnknownField, Regular, SetUint;
    ParamsRecordIsRegular();
    if s == [] {
      assert BytesRecord(field, s) + rest == rest;
    } else {
      DelimitedReads(field, s, rest, base);
    }
  }

  lemma UintRecordDecodes(field: nat, v: uint64, rest: Bytes, base: nat, p: Params)
    requires IsUintField(field)
    requires v == 0 ==> SetUint(p, field, v) == p
    ensures Regular(ParamsRecord)
    ensures Decode(ParamsRecord, UintRecord(field, v) + rest, base, p)
            == Decode(ParamsRecord, rest, base + |UintRecord(field, v)|, SetUint(p, field, v))
  {
    hide ReadTag, ReadWindow, ReadVarint, EncodeVarint, BytesField, UnknownField, Regular, SetBytes;
    ParamsRecordIsRegular();
    if v == 0 {
      assert UintRecord(field, v) + rest == rest;
    } else {
      UintReads(field, v, rest);
    }
  }

  /** Decoding the encoding of any parameters into an empty receiver gives them back. */
  lemma ParamsRoundTrip(p: Params)
    requires |EncodeParams(p)| < TWO_63
    ensures DecodeParams(EncodeParams(p), EMPTY_PARAMS) == Done(p)
  {
    hide BytesRecord, UintRecord, ParamsRecord, Decode, Regular;
    var f1, f2, f3 := BytesRecord(1, p.mintingAddress), BytesRecord(2, p.receivingAddress), BytesRecord(3, p.denom);
    var f4, f5, f6 := UintRecord(4, p.maxSupply), BytesRecord(5, p.distributionStartDate), UintRecord(6,
          p.monthsInHalvingPeriod);
    var p1 := SetBytes(EMPTY_PARAMS, 1, p.mintingAddress);
    var p2 := SetBytes(p1, 2, p.receivingAddress);
    var p3 := SetBytes(p2, 3, p.denom);
    var p4 := SetUint(p3, 4, p.maxSupply);
    var p5 := SetBytes(p4, 5, p.distributionStartDate);
    var n2, n3, n4 := |f1|, |f1| + |f2|, |f1| + |f2| + |f3|;
    var n5 := n4 + |f4|;
    var n6 := n5 + |f5|;
    BytesRecordDecodes(1, p.mintingAddress, f2 + (f3 + (f4 + (f5 + f6))), 0, EMPTY_PARAMS);
    BytesRecordDecodes(2, p.receivingAddress, f3 + (f4 + (f5 + f6)), n2, p1);
    BytesRecordDecodes(3, p.denom, f4 + (f5 + f6), n3, p2);
    UintRecordDecodes(4, p.maxSupply, f5 + f6, n4, p3);
    BytesRecordDecodes(5, p.distributionStartDate, f6, n5, p4);
    UintRecordDecodes(6, p.monthsInHalvingPeriod, [], n6, p5);
    assert f6 + [] == f6;
    EmptyDecodes(n6 + |f6|, SetUint(p5, 6, p.monthsInHalvingPeriod));
  }

  lemma EmptyDecodes(base: nat, p: Params)
    ensures Regular(ParamsRecord) && Decode(ParamsRecord, [], base, p) == Done(p)
  {
    ParamsRecordIsRegular();
  }

  // Concatenation and unknown fields

  /** Decoding `a` followed by `b` is decoding `b` on top of what `a` gave. */
  lemma ParamsConcatenate(a: Bytes, b: Bytes, p: Params)
    requires DecodeParams(a, p).Done? && |a| + |b| < TWO_63
    ensures SameOutcome(DecodeParams(a + b, p), DecodeParams(b, DecodeParams(a, p).m))
  {
    hide ParamsRecord, Decode;
    ParamsRecordIsRegular();
    UnmarshalComposes(ParamsRecord, a, b, p);
  }

  /** A well-formed record whose field number the message does not have, groups included,
      changes nothing between any two parts of an input. */
  lemma ParamsIgnoreUnknown(a: Bytes, u: Record, b: Bytes, p: Params)
    requires DecodeParams(a, p).Done? && WellFormed(u) && |a| + |Print(u)| + |b| < TWO_63
    requires ReadVarint(u.tag).Got? && 6 < ReadVarint(u.tag).value / 8 % 0x1_0000_0000 < 0x8000_0000
    ensures SameOutcome(DecodeParams(a + Print(u) + b, p), DecodeParams(a + b, p))
  {
    hide Decode, Print, WellFormed, ReadTag, ReadVarint, UnknownField;
    ParamsRecordIsRegular();
    RecordStartsWithTag(u);
    TagIsArithmetic(Print(u));
    RecordIsSkipped(u, 0, DecodeParams(a, p).m);
    InsertedRecordIsIgnored(ParamsRecord, a, Print(u), b, p);
  }
}
