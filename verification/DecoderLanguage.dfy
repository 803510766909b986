/** Exactly which inputs the decoders accept: concatenations of well-formed records whose
    known fields carry the wire type the message expects. */
module DecoderLanguage {
  import opened Machine
  import opened DistroParams
  import opened Varint
  import opened Skip
  import opened Wire
  import opened ParamsCodec
  import opened TxCodec

  /** A concatenation of well-formed records that all fit a message. */
  ghost predicate InLanguage(fits: Record -> bool, data: Bytes) {
    exists rs: seq<Record> :: PrintAll(rs) == data && forall r | r in rs :: WellFormed(r) && fits(r)
  }

  /** One turn of a decoder takes a fitting record off the front, and nothing else. */
  ghost predicate TakesRecord<M>(step: (Bytes, nat, M) -> Step<M>, fits: Record -> bool, a: Bytes, base: nat, m: M) {
    && (step(a, base, m).Next? ==>
          && 1 <= step(a, base, m).size <= |a|
          && exists r :: WellFormed(r) && fits(r) && Print(r) == a[..step(a, base, m).size])
    && (forall r | WellFormed(r) && fits(r) && Print(r) <= a ::
          step(a, base, m).Next? && step(a, base, m).size == |Print(r)|)
  }

  ghost predicate Recognizes<M(!new)>(step: (Bytes, nat, M) -> Step<M>, fits: Record -> bool) {
    forall a: Bytes, base: nat, m: M | a != [] && base + |a| < TWO_63 :: TakesRecord(step, fits, a, base, m)
  }

  lemma {:induction false} DecodedIsInLanguage<M(!new)>(step: (Bytes, nat, M) -> Step<M>, fits: Record -> bool,
        data: Bytes, base: nat, m: M) returns (rs: seq<Record>)
    requires Regular(step) && Recognizes(step, fits) && base + |data| < TWO_63
    requires Decode(step, data, base, m).Done?
    ensures PrintAll(rs) == data && forall r | r in rs :: WellFormed(r) && fits(r)
    decreases |data|
  {
    hide Regular, WellFormed, Print;
    if data == [] {
      rs := [];
    } else {
      assert TakesRecord(step, fits, data, base, m);
      var next := step(data, base, m);
      var r :| WellFormed(r) && fits(r) && Print(r) == data[..next.size];
      var rest := DecodedIsInLanguage(step, fits, data[next.size..], base + next.size, next.m);
      rs := [r] + rest;
      assert rs[1..] == rest;
      assert data == data[..next.size] + data[next.size..];
    }
  }

  lemma {:induction false} LanguageDecodes<M(!new)>(step: (Bytes, nat, M) -> Step<M>, fits: Record -> bool,
        rs: seq<Record>, base: nat, m: M)
    requires Regular(step) && Recognizes(step, fits) && base + |PrintAll(rs)| < TWO_63
    requires forall r | r in rs :: WellFormed(r) && fits(r)
    ensures Decode(step, PrintAll(rs), base, m).Done?
    decreases |rs|
  {
    hide Regular, WellFormed, Print;
    if rs != [] {
      var data, rest := PrintAll(rs), PrintAll(rs[1..]);
      RecordIsNotEmpty(rs[0]);
      assert TakesRecord(step, fits, data, base, m);
      var next := step(data, base, m);
      assert data[next.size..] == rest;
      LanguageDecodes(step, fits, rs[1..], base + next.size, next.m);
    }
  }

  lemma RecordIsNotEmpty(r: Record)
    requires WellFormed(r)
    ensures |Print(r)| >= 1 && r.tag <= Print(r)
  {
  }

  /** A decoder that takes one fitting record at a time accepts exactly their
      concatenations, whatever the receiver holds. */
  lemma DecodesExactly<M(!new)>(step: (Bytes, nat, M) -> Step<M>, fits: Record -> bool, data: Bytes, m: M)
    requires Regular(step) && Recognizes(step, fits) && |data| < TWO_63
    ensures Unmarshal(step, data, m).Done? <==> InLanguage(fits, data)
  {
    hide Regular, Recognizes, WellFormed;
    if Unmarshal(step, data, m).Done? {
      var rs := DecodedIsInLanguage(step, fits, data, 0, m);
    }
    if InLanguage(fits, data) {
      var rs: seq<Record> :| PrintAll(rs) == data && forall r | r in rs :: WellFormed(r) && fits(r);
      LanguageDecodes(step, fits, rs, 0, m);
    }
  }

  // Fields and the skipper agree on where a record ends

  /** The tag of a record is the tag the decoder reads off it. */
  lemma TagOfRecord(r: Record, a: Bytes)
    requires WellFormed(r) && Print(r) <= a
    ensures ReadVarint(a) == ReadVarint(r.tag) && ReadTag(a) == ReadTag(r.tag)
  {
    RecordIsNotEmpty(r);
    assert a == r.tag + a[|r.tag|..];
    ReadIsPrefixStable(r.tag, a[|r.tag|..], 0, 0);
  }

  lemma ElementEnds(a: Bytes)
    requires a != [] && |a| < TWO_63 && ReadElement(a).Element? && ReadElement(a).wireType !in [3, 4]
    ensures ReadElement(a).size <= |a| ==> SkipRecord(a) == Skipped(ReadElement(a).size)
    ensures SkipRecord(a).Skipped? ==> SkipRecord(a).end == ReadElement(a).size
  {
    hide ReadElement;
  }

  predicate Skips(a: Bytes, n: nat) {
    n <= |a| && SkipRecord(a) == Skipped(n)
  }

  lemma BytesFieldSkips<M>(a: Bytes, base: nat, m: M, put: Bytes -> M)
    requires base + |a| < TWO_63 && ReadTag(a).Tag? && ReadTag(a).wireType == 2
    ensures ReadWindow(a, base, ReadTag(a).size).Window? <==> exists n :: Skips(a, n)
    ensures BytesField(a, base, ReadTag(a), m, put).Next? <==> exists n :: Skips(a, n)
    ensures forall n | Skips(a, n) ::
              ReadWindow(a, base, ReadTag(a).size).hi == n && BytesField(a, base, ReadTag(a), m, put).size == n
  {
    hide ReadVarint, SkipRecord;
    if ReadElement(a).Element? {
      ElementEnds(a);
    }
    SkippedHasElement(a);
    assert ReadWindow(a, base, ReadTag(a).size).Window? ==> Skips(a, ReadWindow(a, base, ReadTag(a).size).hi);
  }

  lemma UintFieldSkips<M>(a: Bytes, m: M, put: uint64 -> M)
    requires |a| < TWO_63 && ReadTag(a).Tag? && ReadTag(a).wireType == 0
    ensures UintField(a, ReadTag(a), m, put).Next? <==> exists n :: Skips(a, n)
    ensures forall n | Skips(a, n) :: UintField(a, ReadTag(a), m, put).size == n
  {
    hide ReadVarint, SkipRecord;
    if ReadElement(a).Element? {
      ElementEnds(a);
    }
    SkippedHasElement(a);
    var f := UintField(a, ReadTag(a), m, put);
    assert f.Next? ==> Skips(a, f.size);
  }

  lemma SkippedHasElement(a: Bytes)
    ensures SkipRecord(a).Skipped? ==> ReadElement(a).Element?
  {
  }

  lemma UnknownFieldSkips<M>(a: Bytes, base: nat, m: M)
    requires base + |a| < TWO_63
    ensures UnknownField(a, base, m).Next? <==> exists n :: Skips(a, n)
    ensures forall n | Skips(a, n) :: UnknownField(a, base, m).size == n
  {
    hide SkipRecord;
    var f := UnknownField(a, base, m);
    assert f.Next? ==> Skips(a, f.size);
  }

  /** What is skipped at the front of the data is a record with the tag read there. */
  lemma SkipsAreRecords(a: Bytes, n: nat) returns (r: Record)
    requires Skips(a, n)
    ensures WellFormed(r) && Print(r) == a[..n] && ReadTag(r.tag) == ReadTag(a)
  {
    hide SkipRecord, WellFormed, Print, ReadTag;
    r := SkippedIsRecord(a, n);
    TagOfRecord(r, a);
  }

  lemma RecordsAreSkips(a: Bytes, r: Record)
    requires WellFormed(r) && Print(r) <= a && |a| < TWO_63
    ensures Skips(a, |Print(r)|) && ReadTag(a) == ReadTag(r.tag)
  {
    hide SkipRecord, WellFormed, Print, ReadTag, SkipFrom;
    TagOfRecord(r, a);
    SkipsRecord(r, a[|Print(r)|..], 0, 0);
    assert a == Print(r) + a[|Print(r)|..];
    SkipRecordDef(a);
  }

  lemma SkipRecordDef(a: Bytes)
    ensures SkipRecord(a) == SkipFrom(a, 0, 0)
  {
  }

  // Params

  /** A legal tag whose known fields carry the wire type the message expects. */
  predicate ParamsFits(r: Record) {
    ReadVarint(r.tag).Got?
    && var wire := ReadVarint(r.tag).value;
       var field := wire / 8 % 0x1_0000_0000;
       && wire % 8 != 4 && 0 < field < 0x8000_0000
       && (field == 1 || field == 2 || field == 3 || field == 5 ==> wire % 8 == 2)
       && (field == 4 || field == 6 ==> wire % 8 == 0)
  }

  lemma ParamsFitsByTag(r: Record)
    ensures ParamsFits(r) <==>
            var tag := ReadTag(r.tag);
            && tag.Tag?
            && (IsBytesField(tag.field) ==> tag.wireType == 2)
            && (IsUintField(tag.field) ==> tag.wireType == 0)
  {
    hide ReadVarint, ReadTag;
    TagIsArithmetic(r.tag);
  }

  lemma ParamsTakes(a: Bytes, base: nat, p: Params)
    requires a != [] && base + |a| < TWO_63
    ensures TakesRecord(ParamsRecord, ParamsFits, a, base, p)
  {
    hide ParamsFits, ReadVarint, Skips, WellFormed, Print, ReadTag, BytesField, UintField, UnknownField;
    var tag := ReadTag(a);
    if tag.Tag? {
      if tag.wireType == 2 {
        BytesFieldSkips(a, base, p, s => SetBytes(p, tag.field, s));
      }
      if tag.wireType == 0 {
        UintFieldSkips(a, p, v => SetUint(p, tag.field, v));
      }
      UnknownFieldSkips(a, base, p);
    }
    if ParamsRecord(a, base, p).Next? {
      WrongTypeStops(a, base, p);
      var n :| Skips(a, n);
      SkipsBounds(a, n);
      var r := SkipsAreRecords(a, n);
      ParamsFitsByTag(r);
    }
    forall r | WellFormed(r) && ParamsFits(r) && Print(r) <= a
      ensures ParamsRecord(a, base, p).Next? && ParamsRecord(a, base, p).size == |Print(r)|
    {
      RecordsAreSkips(a, r);
      ParamsFitsByTag(r);
    }
  }

  lemma SkipsBounds(a: Bytes, n: nat)
    requires Skips(a, n)
    ensures 1 <= n <= |a|
  {
  }

  lemma WrongTypeStops(a: Bytes, base: nat, p: Params)
    requires ParamsRecord(a, base, p).Next?
    ensures ReadTag(a).Tag?
    ensures IsBytesField(ReadTag(a).field) ==> ReadTag(a).wireType == 2
    ensures IsUintField(ReadTag(a).field) ==> ReadTag(a).wireType == 0
  {
  }

  lemma ParamsRecognized()
    ensures Recognizes(ParamsRecord, ParamsFits)
  {
    hide TakesRecord;
    forall a: Bytes, base: nat, p: Params | a != [] && base + |a| < TWO_63
      ensures TakesRecord(ParamsRecord, ParamsFits, a, base, p)
    {
      ParamsTakes(a, base, p);
    }
  }

  /** `Params.Unmarshal` succeeds exactly on concatenations of well-formed records whose
      known fields carry the right wire type, whatever the receiver holds. */
  lemma ParamsLanguage(data: Bytes, p: Params)
    requires |data| < TWO_63
    ensures DecodeParams(data, p).Done? <==> InLanguage(ParamsFits, data)
  {
    hide ParamsRecord, Decode, InLanguage, Recognizes;
    ParamsRecordIsRegular();
    ParamsRecognized();
    DecodesExactly(ParamsRecord, ParamsFits, data, p);
  }

  // MsgMint

  predicate MintFits(r: Record) {
    ReadVarint(r.tag).Got?
    && var wire := ReadVarint(r.tag).value;
       var field := wire / 8 % 0x1_0000_0000;
       && wire % 8 != 4 && 0 < field < 0x8000_0000
       && (field == 1 ==> wire % 8 == 0) && (field == 2 ==> wire % 8 == 2)
  }

  lemma MintFitsByTag(r: Record)
    ensures MintFits(r) <==>
            var tag := ReadTag(r.tag);
            tag.Tag? && (tag.field == 1 ==> tag.wireType == 0) && (tag.field == 2 ==> tag.wireType == 2)
  {
    hide ReadVarint, ReadTag;
    TagIsArithmetic(r.tag);
  }

  lemma MintTakes(a: Bytes, base: nat, m: MsgMint)
    requires a != [] && base + |a| < TWO_63
    ensures TakesRecord(MintRecord, MintFits, a, base, m)
  {
    MintTypes(a, base, m);
    hide MintFits, ReadVarint, Skips, WellFormed, Print, ReadTag, BytesField, UintField, UnknownField;
    var tag := ReadTag(a);
    if tag.Tag? {
      if tag.wireType == 2 {
        BytesFieldSkips(a, base, m, s => m.(signer := s));
      }
      if tag.wireType == 0 {
        UintFieldSkips(a, m, v => m.(amount := v));
      }
      UnknownFieldSkips(a, base, m);
    }
    if MintRecord(a, base, m).Next? {
      var n :| Skips(a, n);
      SkipsBounds(a, n);
      var r := SkipsAreRecords(a, n);
      MintFitsByTag(r);
    }
    forall r | WellFormed(r) && MintFits(r) && Print(r) <= a
      ensures MintRecord(a, base, m).Next? && MintRecord(a, base, m).size == |Print(r)|
    {
      RecordsAreSkips(a, r);
      MintFitsByTag(r);
    }
  }

  lemma MintTypes(a: Bytes, base: nat, m: MsgMint)
    ensures MintRecord(a, base, m).Next? ==>
              var tag := ReadTag(a);
              tag.Tag? && (tag.field == 1 ==> tag.wireType == 0) && (tag.field == 2 ==> tag.wireType == 2)
  {
  }

  /** The inputs `MsgMint.Unmarshal` accepts. */
  lemma MintLanguage(data: Bytes, m: MsgMint)
    requires |data| < TWO_63
    ensures DecodeMint(data, m).Done? <==> InLanguage(MintFits, data)
  {
    hide MintRecord, Decode, InLanguage, TakesRecord;
    MintRecordIsRegular();
    forall a: Bytes, base: nat, x: MsgMint | a != [] && base + |a| < TWO_63
      ensures TakesRecord(MintRecord, MintFits, a, base, x)
    {
      MintTakes(a, base, x);
    }
    DecodesExactly(MintRecord, MintFits, data, m);
  }

  // MsgUpdateParams

  /** The bytes behind the length prefix of a length-delimited record. */
  function Content(r: Record): Bytes {
    if r.Simple? && ReadVarint(r.payload).Got? then r.payload[ReadVarint(r.payload).size..] else []
  }

  /** Besides the wire types, the nested field must hold an input `Params` accepts. */
  ghost predicate UpdateFits(r: Record) {
    ReadVarint(r.tag).Got?
    && var wire := ReadVarint(r.tag).value;
       var field := wire / 8 % 0x1_0000_0000;
       && wire % 8 != 4 && 0 < field < 0x8000_0000
       && (field == 1 ==> wire % 8 == 2)
       && (field == 2 ==> wire % 8 == 2 && InLanguage(ParamsFits, Content(r)))
  }

  lemma UpdateFitsByTag(r: Record)
    ensures UpdateFits(r) <==>
            var tag := ReadTag(r.tag);
            && tag.Tag?
            && (tag.field == 1 ==> tag.wireType == 2)
            && (tag.field == 2 ==> tag.wireType == 2 && InLanguage(ParamsFits, Content(r)))
  {
    hide ReadVarint, ReadTag, InLanguage, Content;
    TagIsArithmetic(r.tag);
  }

  /** The window a decoder opens on a length-delimited record is its content. */
  lemma WindowIsContent(r: Record, a: Bytes, base: nat)
    requires WellFormed(r) && Print(r) <= a && base + |a| < TWO_63
    requires ReadTag(r.tag).Tag? && ReadTag(r.tag).wireType == 2
    ensures ReadTag(a) == ReadTag(r.tag) && ReadTag(a).size <= |a|
    ensures var w := ReadWindow(a, base, ReadTag(a).size);
            w.Window? && w.hi == |Print(r)| && a[w.lo..w.hi] == Content(r)
  {
    TagOfRecord(r, a);
    var n := |r.tag|;
    var w :| 0 <= w <= 5 && IsTag(r.tag, w) && IsPayload(w, r.payload);
    assert a[n..] == r.payload + a[|Print(r)|..];
    ReadIsPrefixStable(r.payload, a[|Print(r)|..], 0, 0);
  }

  lemma UpdateTakes(a: Bytes, base: nat, m: MsgUpdateParams)
    requires a != [] && base + |a| < TWO_63
    ensures TakesRecord(UpdateRecord, UpdateFits, a, base, m)
  {
    UpdateTypes(a, base, m);
    hide UpdateFits, ReadVarint, Skips, WellFormed, Print, ReadTag, ReadWindow, BytesField, UnknownField, DecodeParams,
          InLanguage, Content;
    var tag := ReadTag(a);
    if tag.Tag? {
      if tag.wireType == 2 {
        BytesFieldSkips(a, base, m, s => m.(authority := s));
        NestedLanguage(a, base, m);
      }
      UnknownFieldSkips(a, base, m);
    }
    if UpdateRecord(a, base, m).Next? {
      var n :| Skips(a, n);
      SkipsBounds(a, n);
      var r := SkipsAreRecords(a, n);
      UpdateFitsByTag(r);
      assert Print(r) <= a;
      if tag.wireType == 2 {
        WindowIsContent(r, a, base);
      }
      assert UpdateFits(r);
    }
    forall r | WellFormed(r) && UpdateFits(r) && Print(r) <= a
      ensures UpdateRecord(a, base, m).Next? && UpdateRecord(a, base, m).size == |Print(r)|
    {
      RecordsAreSkips(a, r);
      UpdateFitsByTag(r);
      if tag.wireType == 2 {
        WindowIsContent(r, a, base);
      }
    }
  }

  lemma NestedLanguage(a: Bytes, base: nat, m: MsgUpdateParams)
    requires base + |a| < TWO_63 && ReadTag(a).Tag?
    ensures var w := ReadWindow(a, base, ReadTag(a).size);
            w.Window? ==> (DecodeParams(a[w.lo..w.hi], m.params).Done? <==> InLanguage(ParamsFits, a[w.lo..w.hi]))
  {
    var w := ReadWindow(a, base, ReadTag(a).size);
    if w.Window? {
      ParamsLanguage(a[w.lo..w.hi], m.params);
    }
  }

  lemma UpdateTypes(a: Bytes, base: nat, m: MsgUpdateParams)
    ensures UpdateRecord(a, base, m).Next? ==>
              var tag := ReadTag(a);
              tag.Tag? && (tag.field == 1 || tag.field == 2 ==> tag.wireType == 2)
  {
    hide DecodeParams;
  }

  /** The inputs `MsgUpdateParams.Unmarshal` accepts: the nested parameters, in each of their
      occurrences, are an input `Params.Unmarshal` accepts. */
  lemma UpdateLanguage(data: Bytes, m: MsgUpdateParams)
    requires |data| < TWO_63
    ensures DecodeUpdate(data, m).Done? <==> InLanguage(UpdateFits, data)
  {
    hide UpdateRecord, Decode, InLanguage, TakesRecord;
    UpdateRecordIsRegular();
    forall a: Bytes, base: nat, x: MsgUpdateParams | a != [] && base + |a| < TWO_63
      ensures TakesRecord(UpdateRecord, UpdateFits, a, base, x)
    {
      UpdateTakes(a, base, x);
    }
    DecodesExactly(UpdateRecord, UpdateFits, data, m);
  }
}
