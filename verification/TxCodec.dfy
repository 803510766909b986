/** The protobuf codecs of `MsgMint` and of `MsgUpdateParams`, which nests `Params`. */
module TxCodec {
  import opened Machine
  import opened DistroParams
  import opened Varint
  import opened Skip
  import opened Wire
  import opened ParamsCodec

  const EMPTY_MINT := MsgMint(0, [])
  const EMPTY_UPDATE := MsgUpdateParams([], EMPTY_PARAMS)

  // MsgMint

  function EncodeMint(m: MsgMint): Bytes {
    UintRecord(1, m.amount) + BytesRecord(2, m.signer)
  }

  /** The encoding byte by byte. */
  lemma MintWireFormat(m: MsgMint)
    ensures EncodeMint(m)
            == (if m.amount == 0 then [] else [0x08] + EncodeVarint(m.amount))
               + (if m.signer == [] then [] else [0x12] + EncodeVarint(|m.signer|) + m.signer)
  {
    hide EncodeVarint;
  }

  function SizeOfMint(m: MsgMint): (n: nat)
    ensures n == |EncodeMint(m)|
  {
    UintSizeIsLength(1, m.amount);
    BytesSizeIsLength(2, m.signer);
    UintSize(m.amount) + BytesSize(m.signer)
  }

  function MintRecord(data: Bytes, base: nat, m: MsgMint): Step<MsgMint> {
    var tag := ReadTag(data);
    if tag.NoTag? then Stop(m, tag.err)
    else if tag.field == 1 then UintField(data, tag, m, v => m.(amount := v))
    else if tag.field == 2 then BytesField(data, base, tag, m, s => m.(signer := s))
    else UnknownField(data, base, m)
  }

  lemma MintRecordIsStable(a: Bytes, b: Bytes, base: nat, m: MsgMint)
    requires MintRecord(a, base, m).Next?
    ensures MintRecord(a + b, base, m) == MintRecord(a, base, m)
  {
    hide ReadTag, ReadWindow, ReadVarint, UnknownField;
    TagIsStable(a, b);
    var tag := ReadTag(a);
    if tag.field == 1 {
      ValueIsStable(a, b, tag.size);
    } else if tag.field == 2 {
      WindowIsStable(a, b, base, tag.size);
    } else {
      UnknownIsStable(a, b, base, m);
    }
  }

  lemma MintRecordIgnoresBase(a: Bytes, base: nat, other: nat, m: MsgMint)
    requires base + |a| < TWO_63 && other + |a| < TWO_63
    ensures SameStep(MintRecord(a, base, m), MintRecord(a, other, m))
  {
    hide ReadTag, ReadWindow, ReadVarint, UnknownField;
    var tag := ReadTag(a);
    if tag.Tag? {
      WindowIgnoresBase(a, base, other, tag.size);
      UnknownIgnoresBase(a, base, other, m);
    }
  }

  lemma MintRecordIsRegular()
    ensures Regular(MintRecord)
  {
    forall a: Bytes, b: Bytes, base: nat, m: MsgMint | a != [] && MintRecord(a, base, m).Next?
      ensures MintRecord(a + b, base, m) == MintRecord(a, base, m)
    {
      MintRecordIsStable(a, b, base, m);
    }
    forall a: Bytes, base: nat, other: nat, m: MsgMint | base + |a| < TWO_63 && other + |a| < TWO_63
      ensures SameStep(MintRecord(a, base, m), MintRecord(a, other, m))
    {
      MintRecordIgnoresBase(a, base, other, m);
    }
  }

  function DecodeMint(data: Bytes, m: MsgMint): Outcome<MsgMint> {
    MintRecordIsRegular();
    Unmarshal(MintRecord, data, m)
  }

  lemma AmountDecodes(v: uint64, rest: Bytes, m: MsgMint)
    requires m.amount == 0
    ensures Regular(MintRecord)
    ensures Decode(MintRecord, UintRecord(1, v) + rest, 0, m)
            == Decode(MintRecord, rest, |UintRecord(1, v)|, m.(amount := v))
  {
    hide ReadTag, ReadWindow, ReadVarint, EncodeVarint;
    MintRecordIsRegular();
    if v == 0 {
      assert UintRecord(1, v) + rest == rest;
    } else {
      UintReads(1, v, rest);
    }
  }

  lemma SignerDecodes(s: Bytes, base: nat, m: MsgMint)
    requires m.signer == [] && base + |BytesRecord(2, s)| < TWO_63
    ensures Regular(MintRecord)
    ensures Decode(MintRecord, BytesRecord(2, s), base, m) == Done(m.(signer := s))
  {
    hide ReadTag, ReadWindow, ReadVarint, EncodeVarint;
    MintRecordIsRegular();
    if s != [] {
      DelimitedReads(2, s, [], base);
      assert BytesRecord(2, s) + [] == BytesRecord(2, s);
    }
  }

  /** Decoding the encoding of any mint message gives it back. */
  lemma MintRoundTrip(m: MsgMint)
    requires |EncodeMint(m)| < TWO_63
    ensures DecodeMint(EncodeMint(m), EMPTY_MINT) == Done(m)
  {
    hide UintRecord, BytesRecord, MintRecord, Decode, Regular;
    AmountDecodes(m.amount, BytesRecord(2, m.signer), EMPTY_MINT);
    SignerDecodes(m.signer, |UintRecord(1, m.amount)|, MsgMint(m.amount, []));
  }

  lemma MintConcatenates(a: Bytes, b: Bytes, m: MsgMint)
    requires DecodeMint(a, m).Done? && |a| + |b| < TWO_63
    ensures SameOutcome(DecodeMint(a + b, m), DecodeMint(b, DecodeMint(a, m).m))
  {
    hide MintRecord, Decode;
    MintRecordIsRegular();
    UnmarshalComposes(MintRecord, a, b, m);
  }

  lemma MintIgnoresUnknown(a: Bytes, u: Record, b: Bytes, m: MsgMint)
    requires DecodeMint(a, m).Done? && WellFormed(u) && |a| + |Print(u)| + |b| < TWO_63
    requires ReadVarint(u.tag).Got? && 2 < ReadVarint(u.tag).value / 8 % 0x1_0000_0000 < 0x8000_0000
    ensures SameOutcome(DecodeMint(a + Print(u) + b, m), DecodeMint(a + b, m))
  {
    hide Decode, Print, WellFormed, ReadTag, ReadVarint, UnknownField;
    MintRecordIsRegular();
    RecordStartsWithTag(u);
    TagIsArithmetic(Print(u));
    RecordIsSkipped(u, 0, DecodeMint(a, m).m);
    InsertedRecordIsIgnored(MintRecord, a, Print(u), b, m);
  }

  // MsgUpdateParams

  function EncodeUpdate(m: MsgUpdateParams): Bytes {
    BytesRecord(1, m.authority) + NestedRecord(2, EncodeParams(m.params))
  }

  /** The encoding byte by byte: the nested message is there even when it is empty. */
  lemma UpdateWireFormat(m: MsgUpdateParams)
    ensures EncodeUpdate(m)
            == (if m.authority == [] then [] else [0x0a] + EncodeVarint(|m.authority|) + m.authority)
               + ([0x12] + EncodeVarint(|EncodeParams(m.params)|) + EncodeParams(m.params))
  {
    hide EncodeVarint, EncodeParams;
  }

  function SizeOfUpdate(m: MsgUpdateParams): (n: nat)
    ensures n == |EncodeUpdate(m)|
  {
    BytesSizeIsLength(1, m.authority);
    var l := Size(m.params);
    SovIsLength(l);
    BytesSize(m.authority) + (1 + l + Sov(l))
  }

  /** The nested bytes are decoded on top of the parameters already there. */
  function NestedParams(data: Bytes, base: nat, tag: Tag, m: MsgUpdateParams): Step<MsgUpdateParams>
    requires tag.Tag? && tag.size <= |data|
  {
    if tag.wireType != 2 then Stop(m, WrongWireType)
    else
      match ReadWindow(data, base, tag.size)
      case NoWindow(e) => Stop(m, e)
      case Window(lo, hi) =>
        match DecodeParams(data[lo..hi], m.params)
        case Done(p) => Next(m.(params := p), hi)
        case Fail(p, e) => Stop(m.(params := p), e)
  }

  function UpdateRecord(data: Bytes, base: nat, m: MsgUpdateParams): Step<MsgUpdateParams> {
    var tag := ReadTag(data);
    if tag.NoTag? then Stop(m, tag.err)
    else if tag.field == 1 then BytesField(data, base, tag, m, s => m.(authority := s))
    else if tag.field == 2 then NestedParams(data, base, tag, m)
    else UnknownField(data, base, m)
  }

  lemma UpdateRecordIsStable(a: Bytes, b: Bytes, base: nat, m: MsgUpdateParams)
    requires UpdateRecord(a, base, m).Next?
    ensures UpdateRecord(a + b, base, m) == UpdateRecord(a, base, m)
  {
    hide ReadTag, ReadWindow, DecodeParams, UnknownField;
    TagIsStable(a, b);
    var tag := ReadTag(a);
    if tag.field == 1 || tag.field == 2 {
      WindowIsStable(a, b, base, tag.size);
    } else {
      UnknownIsStable(a, b, base, m);
    }
  }

  lemma UpdateRecordIgnoresBase(a: Bytes, base: nat, other: nat, m: MsgUpdateParams)
    requires base + |a| < TWO_63 && other + |a| < TWO_63
    ensures SameStep(UpdateRecord(a, base, m), UpdateRecord(a, other, m))
  {
    hide ReadTag, ReadWindow, UnknownField, DecodeParams;
    var tag := ReadTag(a);
    if tag.Tag? {
      WindowIgnoresBase(a, base, other, tag.size);
      UnknownIgnoresBase(a, base, other, m);
    }
  }

  lemma UpdateRecordIsRegular()
    ensures Regular(UpdateRecord)
  {
    hide DecodeParams;
    forall a: Bytes, b: Bytes, base: nat, m: MsgUpdateParams | a != [] && UpdateRecord(a, base, m).Next?
      ensures UpdateRecord(a + b, base, m) == UpdateRecord(a, base, m)
    {
      UpdateRecordIsStable(a, b, base, m);
    }
    forall a: Bytes, base: nat, other: nat, m: MsgUpdateParams | base + |a| < TWO_63 && other + |a| < TWO_63
      ensures SameStep(UpdateRecord(a, base, m), UpdateRecord(a, other, m))
    {
      UpdateRecordIgnoresBase(a, base, other, m);
    }
  }

  function DecodeUpdate(data: Bytes, m: MsgUpdateParams): Outcome<MsgUpdateParams> {
    UpdateRecordIsRegular();
    Unmarshal(UpdateRecord, data, m)
  }

  lemma AuthorityDecodes(s: Bytes, rest: Bytes, m: MsgUpdateParams)
    requires m.authority == [] && |BytesRecord(1, s)| < TWO_63
    ensures Regular(UpdateRecord)
    ensures Decode(UpdateRecord, BytesRecord(1, s) + rest, 0, m)
            == Decode(UpdateRecord, rest, |BytesRecord(1, s)|, m.(authority := s))
  {
    hide ReadTag, ReadWindow, DecodeParams, EncodeVarint;
    UpdateRecordIsRegular();
    if s == [] {
      assert BytesRecord(1, s) + rest == rest;
    } else {
      DelimitedReads(1, s, rest, 0);
    }
  }

  lemma NestedDecodes(payload: Bytes, base: nat, m: MsgUpdateParams)
    requires base + |NestedRecord(2, payload)| < TWO_63
    ensures Regular(UpdateRecord)
    ensures Decode(UpdateRecord, NestedRecord(2, payload), base, m)
            == match DecodeParams(payload, m.params)
               case Done(p) => Done(m.(params := p))
               case Fail(p, e) => Fail(m.(params := p), e)
  {
    hide ReadTag, ReadWindow, DecodeParams, EncodeVarint;
    UpdateRecordIsRegular();
    DelimitedReads(2, payload, [], base);
    assert NestedRecord(2, payload) + [] == NestedRecord(2, payload);
  }

  /** Decoding the encoding of any update gives it back, all-empty parameters included. */
  lemma UpdateRoundTrip(m: MsgUpdateParams)
    requires |EncodeUpdate(m)| < TWO_63
    ensures DecodeUpdate(EncodeUpdate(m), EMPTY_UPDATE) == Done(m)
  {
    hide BytesRecord, UpdateRecord, Decode, Regular, EncodeParams, DecodeParams;
    ParamsRoundTrip(m.params);
    AuthorityDecodes(m.authority, NestedRecord(2, EncodeParams(m.params)), EMPTY_UPDATE);
    NestedDecodes(EncodeParams(m.params), |BytesRecord(1, m.authority)|, MsgUpdateParams(m.authority, EMPTY_PARAMS));
  }

  lemma UpdateConcatenates(a: Bytes, b: Bytes, m: MsgUpdateParams)
    requires DecodeUpdate(a, m).Done? && |a| + |b| < TWO_63
    ensures SameOutcome(DecodeUpdate(a + b, m), DecodeUpdate(b, DecodeUpdate(a, m).m))
  {
    hide UpdateRecord, Decode;
    UpdateRecordIsRegular();
    UnmarshalComposes(UpdateRecord, a, b, m);
  }

  /** The outcome of decoding parameters, seen from the update that nests them. */
  function WithParams(m: MsgUpdateParams, r: Outcome<Params>): Outcome<MsgUpdateParams> {
    match r
    case Done(p) => Done(m.(params := p))
    case Fail(p, e) => Fail(m.(params := p), e)
  }

  /** Two occurrences of the nested message decode as one whose payload is both. */
  lemma NestedParamsMerge(x: Bytes, y: Bytes, m: MsgUpdateParams)
    requires DecodeParams(x, m.params).Done?
    requires |NestedRecord(2, x)| + |NestedRecord(2, y)| < TWO_63
    ensures SameOutcome(DecodeUpdate(NestedRecord(2, x) + NestedRecord(2, y), m),
                        WithParams(m, DecodeParams(x + y, m.params)))
  {
    hide UpdateRecord, Decode, DecodeParams, NestedRecord, Regular;
    NestedIsLonger(x);
    NestedIsLonger(y);
    var first := m.(params := DecodeParams(x, m.params).m);
    NestedDecodes(x, 0, m);
    NestedDecodes(y, 0, first);
    assert DecodeUpdate(NestedRecord(2, x), m) == Done(first);
    UpdateConcatenates(NestedRecord(2, x), NestedRecord(2, y), m);
    ParamsConcatenate(x, y, m.params);
  }

  lemma NestedIsLonger(x: Bytes)
    ensures |NestedRecord(2, x)| > |x|
  {
  }

  lemma UpdateIgnoresUnknown(a: Bytes, u: Record, b: Bytes, m: MsgUpdateParams)
    requires DecodeUpdate(a, m).Done? && WellFormed(u) && |a| + |Print(u)| + |b| < TWO_63
    requires ReadVarint(u.tag).Got? && 2 < ReadVarint(u.tag).value / 8 % 0x1_0000_0000 < 0x8000_0000
    ensures SameOutcome(DecodeUpdate(a + Print(u) + b, m), DecodeUpdate(a + b, m))
  {
    hide Decode, Print, WellFormed, ReadTag, ReadVarint, UnknownField, DecodeParams;
    UpdateRecordIsRegular();
    RecordStartsWithTag(u);
    TagIsArithmetic(Print(u));
    RecordIsSkipped(u, 0, DecodeUpdate(a, m).m);
    InsertedRecordIsIgnored(UpdateRecord, a, Print(u), b, m);
  }
}
