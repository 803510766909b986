/** The `MsgMint` and `MsgUpdateParams` messages with their generated in-place methods. */
module TxMarshal {
  import opened Machine
  import opened DistroParams
  import opened Varint
  import opened Wire
  import opened ParamsCodec
  import opened ParamsMarshal
  import opened TxCodec

  class MintMessage {
    var amount: uint64
    var signer: Bytes

    function Value(): MsgMint
      reads this
    {
      MsgMint(amount, signer)
    }

    constructor (m: MsgMint)
      ensures Value() == m
    {
      amount, signer := m.amount, m.signer;
    }

    method MarshalToSizedBuffer(buffer: array<byte>, end: nat) returns (n: nat)
      requires |EncodeMint(Value())| <= end <= buffer.Length && |EncodeMint(Value())| < TWO_63
      modifies buffer
      ensures n == SizeOfMint(Value())
      ensures buffer[..] == old(buffer[..end - n]) + EncodeMint(Value()) + old(buffer[end..])
    {
      ShortField(2, signer);
      hide BytesRecord, UintRecord, SizeOfMint;
      ghost var before := buffer[..];
      var i := PutBytes(buffer, end, 2, signer);
      ghost var last, now := i, buffer[..];
      i := PutUint(buffer, i, 1, amount);
      WriteBefore(before, last, i, UintRecord(1, amount), BytesRecord(2, signer), before[end..], now, buffer[..]);
      return end - i;
    }

    method Marshal() returns (data: Bytes)
      requires |EncodeMint(Value())| < TWO_63
      ensures data == EncodeMint(Value())
    {
      hide EncodeMint, SizeOfMint;
      var size := SizeOfMint(Value());
      var buffer := new byte[size](_ => 0);
      var n := MarshalToSizedBuffer(buffer, size);
      data := buffer[..n];
    }

    method DecodeRecord(data: Bytes, index: nat) returns (next: nat, err: Option<WireError>)
      requires index < |data|
      modifies this
      ensures match MintRecord(data[index..], index, old(Value()))
              case Stop(m, e) => Value() == m && err == Some(e)
              case Next(m, size) => Value() == m && err == None && next == index + size
    {
      hide ReadTag, ReadWindow, ReadVarint, UnknownField;
      next := index;
      var tag := DecodeTag(data, index);
      if tag.NoTag? {
        return next, Some(tag.err);
      }
      var start := index + tag.size;
      match tag.field {
        case 1 =>
          if tag.wireType != 0 {
            return next, Some(WrongWireType);
          }
          var number := DecodeVarint(data, start);
          assert data[start..] == data[index..][tag.size..];
          amount := if number.Got? then number.value else number.partial;
          if number.Bad? {
            return next, Some(number.err);
          }
          return start + number.size, None;
        case 2 =>
          if tag.wireType != 2 {
            return next, Some(WrongWireType);
          }
          var window := DecodeWindow(data, start, index);
          if window.NoWindow? {
            return next, Some(window.err);
          }
          signer := data[window.lo..window.hi];
          return window.hi, None;
        case _ =>
          next, err := DecodeUnknown(data, index);
          UnknownKeepsMessage(data[index..], index, Value());
      }
    }

    method Unmarshal(data: Bytes) returns (err: Option<WireError>)
      modifies this
      ensures DecodeMint(data, old(Value())) == if err.None? then Done(Value()) else Fail(Value(), err.value)
    {
      hide MintRecord, Regular;
      MintRecordIsRegular();
      var index := 0;
      assert data[0..] == data;
      while index < |data|
        invariant 0 <= index <= |data|
        invariant Decode(MintRecord, data, 0, old(Value())) == Decode(MintRecord, data[index..], index, Value())
      {
        ghost var left := data[index..];
        MintRecordAdvances(left, index, Value());
        var next, stop := DecodeRecord(data, index);
        if stop.Some? {
          return stop;
        }
        assert left[next - index..] == data[next..];
        index := next;
      }
      return None;
    }
  }

  class UpdateMessage {
    var authority: Bytes
    const params: ParamsMessage

    function Value(): MsgUpdateParams
      reads this, params
    {
      MsgUpdateParams(authority, params.Value())
    }

    constructor (m: MsgUpdateParams)
      ensures Value() == m && fresh(params)
    {
      authority := m.authority;
      params := new ParamsMessage(m.params);
    }

    /** The nested message is written first, at the end, and its size and tag before it. */
    method PutParams(buffer: array<byte>, end: nat) returns (i: nat)
      requires |NestedRecord(2, EncodeParams(params.Value()))| <= end <= buffer.Length
      requires |NestedRecord(2, EncodeParams(params.Value()))| < TWO_63
      modifies buffer
      ensures i == end - |NestedRecord(2, EncodeParams(params.Value()))|
      ensures buffer[..] == old(buffer[..i]) + NestedRecord(2, EncodeParams(params.Value())) + old(buffer[end..])
    {
      hide Size, EncodeParams, EncodeVarint;
      ghost var before, nested := buffer[..], EncodeParams(params.Value());
      var size := params.MarshalToSizedBuffer(buffer, end);
      ghost var now := buffer[..];
      i := PutHead(buffer, end - size, 0x12, size);
      ghost var head := [0x12] + EncodeVarint(size);
      WriteBefore(before, end - size, i, head, nested, before[end..], now, buffer[..]);
    }

    method MarshalToSizedBuffer(buffer: array<byte>, end: nat) returns (n: nat)
      requires |EncodeUpdate(Value())| <= end <= buffer.Length && |EncodeUpdate(Value())| < TWO_63
      modifies buffer
      ensures n == SizeOfUpdate(Value())
      ensures buffer[..] == old(buffer[..end - n]) + EncodeUpdate(Value()) + old(buffer[end..])
    {
      ShortField(1, authority);
      hide BytesRecord, SizeOfUpdate, EncodeParams, NestedRecord;
      ghost var before, nested := buffer[..], NestedRecord(2, EncodeParams(params.Value()));
      var i := PutParams(buffer, end);
      ghost var last, now := i, buffer[..];
      i := PutBytes(buffer, i, 1, authority);
      WriteBefore(before, last, i, BytesRecord(1, authority), nested, before[end..], now, buffer[..]);
      return end - i;
    }

    method Marshal() returns (data: Bytes)
      requires |EncodeUpdate(Value())| < TWO_63
      ensures data == EncodeUpdate(Value())
    {
      hide EncodeUpdate, SizeOfUpdate;
      var size := SizeOfUpdate(Value());
      var buffer := new byte[size](_ => 0);
      var n := MarshalToSizedBuffer(buffer, size);
      data := buffer[..n];
    }

    method DecodeRecord(data: Bytes, index: nat) returns (next: nat, err: Option<WireError>)
      requires index < |data|
      modifies this, params
      ensures match UpdateRecord(data[index..], index, old(Value()))
              case Stop(m, e) => Value() == m && err == Some(e)
              case Next(m, size) => Value() == m && err == None && next == index + size
    {
      hide ReadTag, ReadWindow, UnknownField, DecodeParams;
      next := index;
      var tag := DecodeTag(data, index);
      if tag.NoTag? {
        return next, Some(tag.err);
      }
      var start := index + tag.size;
      match tag.field {
        case 1 =>
          if tag.wireType != 2 {
            return next, Some(WrongWireType);
          }
          var window := DecodeWindow(data, start, index);
          if window.NoWindow? {
            return next, Some(window.err);
          }
          authority := data[window.lo..window.hi];
          return window.hi, None;
        case 2 =>
          if tag.wireType != 2 {
            return next, Some(WrongWireType);
          }
          var window := DecodeWindow(data, start, index);
          if window.NoWindow? {
            return next, Some(window.err);
          }
          err := params.Unmarshal(data[window.lo..window.hi]);
          if err.None? {
            next := window.hi;
          }
        case _ =>
          next, err := DecodeUnknown(data, index);
          UnknownKeepsMessage(data[index..], index, Value());
      }
    }

    /** `Unmarshal`, with the nested parameters decoded in place. */
    method Unmarshal(data: Bytes) returns (err: Option<WireError>)
      modifies this, params
      ensures DecodeUpdate(data, old(Value())) == if err.None? then Done(Value()) else Fail(Value(), err.value)
    {
      hide UpdateRecord, Regular;
      UpdateRecordIsRegular();
      var index := 0;
      assert data[0..] == data;
      while index < |data|
        invariant 0 <= index <= |data|
        invariant Decode(UpdateRecord, data, 0, old(Value())) == Decode(UpdateRecord, data[index..], index, Value())
      {
        ghost var left := data[index..];
        UpdateRecordAdvances(left, index, Value());
        var next, stop := DecodeRecord(data, index);
        if stop.Some? {
          return stop;
        }
        assert left[next - index..] == data[next..];
        index := next;
      }
      return None;
    }
  }

  lemma ShortField(field: nat, s: Bytes)
    requires 1 <= field <= 15
    ensures |BytesRecord(field, s)| >= |s|
  {
  }

  lemma MintRecordAdvances(data: Bytes, base: nat, m: MsgMint)
    requires data != []
    ensures MintRecord(data, base, m).Next? ==> 1 <= MintRecord(data, base, m).size <= |data|
  {
  }

  lemma UpdateRecordAdvances(data: Bytes, base: nat, m: MsgUpdateParams)
    requires data != []
    ensures UpdateRecord(data, base, m).Next? ==> 1 <= UpdateRecord(data, base, m).size <= |data|
  {
  }
}
