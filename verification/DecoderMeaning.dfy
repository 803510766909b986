/** What the decoders make of the inputs they accept: the effects of the records, one after
    the other, on what the receiver held. */
module DecoderMeaning {
  import opened Machine
  import opened DistroParams
  import opened Varint
  import opened Skip
  import opened Wire
  import opened ParamsCodec
  import opened TxCodec
  import opened DecoderLanguage

  /** The number behind the tag of a varint record. */
  function Number(r: Record): uint64 {
    if r.Simple? && ReadVarint(r.payload).Got? then ReadVarint(r.payload).value else 0
  }

  /** The field a record sets: the 32 bits above the wire type. */
  function Field(r: Record): int {
    if ReadVarint(r.tag).Got? then ReadVarint(r.tag).value / 8 % 0x1_0000_0000 else 0
  }

  function Fold<M>(effect: (M, Record) -> M, m: M, rs: seq<Record>): M
    decreases |rs|
  {
    if rs == [] then m else Fold(effect, effect(m, rs[0]), rs[1..])
  }

  /** One turn of a decoder has the effect of the record it takes. */
  ghost predicate Means<M(!new)>(step: (Bytes, nat, M) -> Step<M>, fits: Record -> bool, effect: (M, Record) -> M) {
    forall r: Record, a: Bytes, base: nat, m: M {:trigger step(a, base, m), effect(m, r)}
      | WellFormed(r) && fits(r) && Print(r) <= a && base + |a| < TWO_63 ::
      step(a, base, m) == Next(effect(m, r), |Print(r)|)
  }

  lemma {:induction false} FoldsRecords<M(!new)>(step: (Bytes, nat, M) -> Step<M>, fits: Record -> bool,
        effect: (M, Record) -> M, rs: seq<Record>, base: nat, m: M)
    requires Regular(step) && Means(step, fits, effect) && base + |PrintAll(rs)| < TWO_63
    requires forall r | r in rs :: WellFormed(r) && fits(r)
    ensures Decode(step, PrintAll(rs), base, m) == Done(Fold(effect, m, rs))
    decreases |rs|
  {
    hide Regular, WellFormed, Print;
    if rs != [] {
      var data, rest, first := PrintAll(rs), PrintAll(rs[1..]), rs[0];
      RecordIsNotEmpty(first);
      assert step(data, base, m) == Next(effect(m, first), |Print(first)|);
      assert data[|Print(first)|..] == rest;
      FoldsRecords(step, fits, effect, rs[1..], base + |Print(first)|, effect(m, first));
    }
  }

  /** A length-delimited record read in place gives its content. */
  lemma BytesFieldMeans<M>(r: Record, a: Bytes, base: nat, m: M, put: Bytes -> M)
    requires WellFormed(r) && Print(r) <= a && base + |a| < TWO_63
    requires ReadTag(r.tag).Tag? && ReadTag(r.tag).wireType == 2
    ensures ReadTag(a) == ReadTag(r.tag) && ReadTag(a).size <= |a|
    ensures BytesField(a, base, ReadTag(a), m, put) == Next(put(Content(r)), |Print(r)|)
  {
    hide WellFormed, Print, ReadTag, Content;
    WindowIsContent(r, a, base);
  }

  /** And a varint record its number. */
  lemma UintFieldMeans<M>(r: Record, a: Bytes, m: M, put: uint64 -> M)
    requires WellFormed(r) && Print(r) <= a && ReadTag(r.tag).Tag? && ReadTag(r.tag).wireType == 0
    ensures ReadTag(a) == ReadTag(r.tag) && ReadTag(a).size <= |a|
    ensures UintField(a, ReadTag(a), m, put) == Next(put(Number(r)), |Print(r)|)
  {
    TagOfRecord(r, a);
    var n := |r.tag|;
    var w :| 0 <= w <= 5 && IsTag(r.tag, w) && IsPayload(w, r.payload);
    assert a[n..] == r.payload + a[|Print(r)|..];
    ReadIsPrefixStable(r.payload, a[|Print(r)|..], 0, 0);
  }

  /** Any other record is stepped over. */
  lemma UnknownFieldMeans<M>(r: Record, a: Bytes, base: nat, m: M)
    requires WellFormed(r) && Print(r) <= a && base + |a| < TWO_63
    ensures ReadTag(a) == ReadTag(r.tag) && UnknownField(a, base, m) == Next(m, |Print(r)|)
  {
    hide WellFormed, Print, ReadTag, SkipFrom;
    RecordsAreSkips(a, r);
  }

  // Params

  /** A record sets the field its number names, and a foreign one sets nothing. */
  function ParamsEffect(p: Params, r: Record): Params {
    match Field(r)
    case 1 => p.(mintingAddress := Content(r))
    case 2 => p.(receivingAddress := Content(r))
    case 3 => p.(denom := Content(r))
    case 4 => p.(maxSupply := Number(r))
    case 5 => p.(distributionStartDate := Content(r))
    case 6 => p.(monthsInHalvingPeriod := Number(r))
    case _ => p
  }

  lemma ParamsStepMeans(r: Record, a: Bytes, base: nat, p: Params)
    requires WellFormed(r) && ParamsFits(r) && Print(r) <= a && base + |a| < TWO_63
    ensures ParamsRecord(a, base, p) == Next(ParamsEffect(p, r), |Print(r)|)
  {
    hide WellFormed, ParamsFits, Print, ReadTag, ReadVarint, BytesField, UintField, UnknownField, Content, Number;
    ParamsFitsByTag(r);
    TagIsArithmetic(r.tag);
    UnknownFieldMeans(r, a, base, p);
    var tag := ReadTag(r.tag);
    if tag.wireType == 2 {
      BytesFieldMeans(r, a, base, p, s => SetBytes(p, tag.field, s));
    } else if tag.wireType == 0 {
      UintFieldMeans(r, a, p, v => SetUint(p, tag.field, v));
    }
  }

  /** Decoding a concatenation of records gives the receiver with their effects in order, so
      the last occurrence of a field wins and what is not set stays. */
  lemma ParamsMeaning(rs: seq<Record>, p: Params)
    requires |PrintAll(rs)| < TWO_63 && forall r | r in rs :: WellFormed(r) && ParamsFits(r)
    ensures DecodeParams(PrintAll(rs), p) == Done(Fold(ParamsEffect, p, rs))
  {
    hide WellFormed, ParamsFits, Print, ParamsRecord, ParamsEffect, Decode, Fold;
    ParamsRecordIsRegular();
    forall r: Record, a: Bytes, base: nat, q: Params
      | WellFormed(r) && ParamsFits(r) && Print(r) <= a && base + |a| < TWO_63
      ensures ParamsRecord(a, base, q) == Next(ParamsEffect(q, r), |Print(r)|)
    {
      ParamsStepMeans(r, a, base, q);
    }
    FoldsRecords(ParamsRecord, ParamsFits, ParamsEffect, rs, 0, p);
  }

  // MsgMint

  function MintEffect(m: MsgMint, r: Record): MsgMint {
    match Field(r)
    case 1 => m.(amount := Number(r))
    case 2 => m.(signer := Content(r))
    case _ => m
  }

  lemma MintStepMeans(r: Record, a: Bytes, base: nat, m: MsgMint)
    requires WellFormed(r) && MintFits(r) && Print(r) <= a && base + |a| < TWO_63
    ensures MintRecord(a, base, m) == Next(MintEffect(m, r), |Print(r)|)
  {
    hide WellFormed, MintFits, Print, ReadTag, ReadVarint, BytesField, UintField, UnknownField, Content, Number;
    MintFitsByTag(r);
    TagIsArithmetic(r.tag);
    UnknownFieldMeans(r, a, base, m);
    var tag := ReadTag(r.tag);
    if tag.wireType == 2 {
      BytesFieldMeans(r, a, base, m, s => m.(signer := s));
    } else if tag.wireType == 0 {
      UintFieldMeans(r, a, m, v => m.(amount := v));
    }
  }

  lemma MintMeaning(rs: seq<Record>, m: MsgMint)
    requires |PrintAll(rs)| < TWO_63 && forall r | r in rs :: WellFormed(r) && MintFits(r)
    ensures DecodeMint(PrintAll(rs), m) == Done(Fold(MintEffect, m, rs))
  {
    hide WellFormed, MintFits, Print, MintRecord, MintEffect, Decode, Fold;
    MintRecordIsRegular();
    forall r: Record, a: Bytes, base: nat, q: MsgMint
      | WellFormed(r) && MintFits(r) && Print(r) <= a && base + |a| < TWO_63
      ensures MintRecord(a, base, q) == Next(MintEffect(q, r), |Print(r)|)
    {
      MintStepMeans(r, a, base, q);
    }
    FoldsRecords(MintRecord, MintFits, MintEffect, rs, 0, m);
  }

  // MsgUpdateParams

  /** The nested field decodes its content on top of the parameters already there. */
  function UpdateEffect(m: MsgUpdateParams, r: Record): MsgUpdateParams {
    match Field(r)
    case 1 => m.(authority := Content(r))
    case 2 => m.(params := DecodeParams(Content(r), m.params).m)
    case _ => m
  }

  lemma UpdateStepMeans(r: Record, a: Bytes, base: nat, m: MsgUpdateParams)
    requires WellFormed(r) && UpdateFits(r) && Print(r) <= a && base + |a| < TWO_63
    ensures UpdateRecord(a, base, m) == Next(UpdateEffect(m, r), |Print(r)|)
  {
    hide WellFormed, UpdateFits, Print, ReadTag, ReadVarint, BytesField, UnknownField, Content, DecodeParams,
          InLanguage, ReadWindow;
    UpdateFitsByTag(r);
    TagIsArithmetic(r.tag);
    UnknownFieldMeans(r, a, base, m);
    var tag := ReadTag(r.tag);
    if tag.wireType == 2 {
      BytesFieldMeans(r, a, base, m, s => m.(authority := s));
      WindowIsContent(r, a, base);
      NestedLanguage(a, base, m);
    }
  }

  lemma UpdateMeaning(rs: seq<Record>, m: MsgUpdateParams)
    requires |PrintAll(rs)| < TWO_63 && forall r | r in rs :: WellFormed(r) && UpdateFits(r)
    ensures DecodeUpdate(PrintAll(rs), m) == Done(Fold(UpdateEffect, m, rs))
  {
    hide WellFormed, UpdateFits, Print, UpdateRecord, UpdateEffect, Decode, Fold;
    UpdateRecordIsRegular();
    forall r: Record, a: Bytes, base: nat, q: MsgUpdateParams
      | WellFormed(r) && UpdateFits(r) && Print(r) <= a && base + |a| < TWO_63
      ensures UpdateRecord(a, base, q) == Next(UpdateEffect(q, r), |Print(r)|)
    {
      UpdateStepMeans(r, a, base, q);
    }
    FoldsRecords(UpdateRecord, UpdateFits, UpdateEffect, rs, 0, m);
  }

  // Failures

  /** What a failing turn leaves: a known field of the wrong wire type and a bad length change
      nothing, and a number that breaks off leaves the bits read so far in its field. */
  lemma ParamsFailures(data: Bytes, base: nat, p: Params, wire: uint64, n: nat)
    requires ReadVarint(data) == Got(wire, n) && wire % 8 != 4
    ensures var field, value := wire / 8 % 0x1_0000_0000, ReadVarint(data[n..]);
            var r := ParamsRecord(data, base, p);
            && (field == 0 || field >= 0x8000_0000 ==> r == Stop(p, IllegalTag))
            && (field in {1, 2, 3, 5} && wire % 8 != 2 ==> r == Stop(p, WrongWireType))
            && (field in {4, 6} && wire % 8 != 0 ==> r == Stop(p, WrongWireType))
            && (field in {1, 2, 3, 5} && wire % 8 == 2 && value.Bad? ==> r == Stop(p, value.err))
            && (field == 4 && wire % 8 == 0 && value.Bad? ==> r == Stop(p.(maxSupply := value.partial), value.err))
            && (field == 6 && wire % 8 == 0 && value.Bad? ==>
                  r == Stop(p.(monthsInHalvingPeriod := value.partial), value.err))
  {
    hide ReadVarint, ReadTag, UnknownField;
    TagIsArithmetic(data);
  }

  lemma MintFailures(data: Bytes, base: nat, m: MsgMint, wire: uint64, n: nat)
    requires ReadVarint(data) == Got(wire, n) && wire % 8 != 4
    ensures var field, value := wire / 8 % 0x1_0000_0000, ReadVarint(data[n..]);
            var r := MintRecord(data, base, m);
            && (field == 0 || field >= 0x8000_0000 ==> r == Stop(m, IllegalTag))
            && ((field == 1 && wire % 8 != 0) || (field == 2 && wire % 8 != 2) ==> r == Stop(m, WrongWireType))
            && (field == 1 && wire % 8 == 0 && value.Bad? ==> r == Stop(m.(amount := value.partial), value.err))
            && (field == 2 && wire % 8 == 2 && value.Bad? ==> r == Stop(m, value.err))
  {
    hide ReadVarint, ReadTag, UnknownField;
    TagIsArithmetic(data);
  }

  lemma UpdateFailures(data: Bytes, base: nat, m: MsgUpdateParams, wire: uint64, n: nat)
    requires ReadVarint(data) == Got(wire, n) && wire % 8 != 4
    ensures var field, value := wire / 8 % 0x1_0000_0000, ReadVarint(data[n..]);
            var r := UpdateRecord(data, base, m);
            && (field == 0 || field >= 0x8000_0000 ==> r == Stop(m, IllegalTag))
            && (field in {1, 2} && wire % 8 != 2 ==> r == Stop(m, WrongWireType))
            && (field in {1, 2} && wire % 8 == 2 && value.Bad? ==> r == Stop(m, value.err))
            && (field == 2 && wire % 8 == 2 && ReadWindow(data, base, n).Window? ==>
                  var w := ReadWindow(data, base, n);
                  var nested := DecodeParams(data[w.lo..w.hi], m.params);
                  nested.Fail? ==> r == Stop(m.(params := nested.m), nested.err))
  {
    hide ReadVarint, ReadTag, UnknownField, DecodeParams;
    TagIsArithmetic(data);
  }
}
