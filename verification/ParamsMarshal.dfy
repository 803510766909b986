/** The `Params` message with its generated in-place methods. */
module ParamsMarshal {
  import opened Machine
  import opened DistroParams
  import opened Varint
  import opened Wire
  import opened ParamsCodec

  class ParamsMessage {
    var mintingAddress: Bytes
    var receivingAddress: Bytes
    var denom: Denom
    var maxSupply: uint64
    var distributionStartDate: Bytes
    var monthsInHalvingPeriod: uint64

    function Value(): Params
      reads this
    {
      Params(mintingAddress, receivingAddress, denom, maxSupply, distributionStartDate, monthsInHalvingPeriod)
    }

    constructor (p: Params)
      ensures Value() == p
    {
      mintingAddress, receivingAddress, denom := p.mintingAddress, p.receivingAddress, p.denom;
      maxSupply, distributionStartDate := p.maxSupply, p.distributionStartDate;
      monthsInHalvingPeriod := p.monthsInHalvingPeriod;
    }

    /** `MarshalToSizedBuffer` on `dAtA[:end]`: the fields are written last to first, each
        before the one written before it, and nothing else is touched. */
    method MarshalToSizedBuffer(buffer: array<byte>, end: nat) returns (n: nat)
      requires |EncodeParams(Value())| <= end <= buffer.Length && |EncodeParams(Value())| < TWO_63
      modifies buffer
      ensures n == Size(Value())
      ensures buffer[..] == old(buffer[..end - n]) + EncodeParams(Value()) + old(buffer[end..])
    {
      hide BytesRecord, UintRecord, Size;
      ghost var p, before := Value(), buffer[..];
      ghost var tail := before[end..];
      ghost var done := UintRecord(6, p.monthsInHalvingPeriod);
      ShortFields(p);
      var i := PutUint(buffer, end, 6, monthsInHalvingPeriod);
      ghost var last, now := i, buffer[..];
      i := PutBytes(buffer, i, 5, distributionStartDate);
      WriteBefore(before, last, i, BytesRecord(5, p.distributionStartDate), done, tail, now, buffer[..]);
      done, last, now := BytesRecord(5, p.distributionStartDate) + done, i, buffer[..];
      i := PutUint(buffer, i, 4, maxSupply);
      WriteBefore(before, last, i, UintRecord(4, p.maxSupply), done, tail, now, buffer[..]);
      done, last, now := UintRecord(4, p.maxSupply) + done, i, buffer[..];
      i := PutBytes(buffer, i, 3, denom);
      WriteBefore(before, last, i, BytesRecord(3, p.denom), done, tail, now, buffer[..]);
      done, last, now := BytesRecord(3, p.denom) + done, i, buffer[..];
      i := PutBytes(buffer, i, 2, receivingAddress);
      WriteBefore(before, last, i, BytesRecord(2, p.receivingAddress), done, tail, now, buffer[..]);
      done, last, now := BytesRecord(2, p.receivingAddress) + done, i, buffer[..];
      i := PutBytes(buffer, i, 1, mintingAddress);
      WriteBefore(before, last, i, BytesRecord(1, p.mintingAddress), done, tail, now, buffer[..]);
      return end - i;
    }

    /** `Marshal`: a buffer of exactly the precomputed size, filled completely. */
    method Marshal() returns (data: Bytes)
      requires |EncodeParams(Value())| < TWO_63
      ensures data == EncodeParams(Value())
    {
      hide EncodeParams, Size;
      var size := Size(Value());
      var buffer := new byte[size](_ => 0);
      var n := MarshalToSizedBuffer(buffer, size);
      data := buffer[..n];
    }

    /** One turn of `Unmarshal`'s loop: the tag, then the field it names. */
    method DecodeRecord(data: Bytes, index: nat) returns (next: nat, err: Option<WireError>)
      requires index < |data|
      modifies this
      ensures match ParamsRecord(data[index..], index, old(Value()))
              case Stop(p, e) => Value() == p && err == Some(e)
              case Next(p, size) => Value() == p && err == None && next == index + size
    {
      hide ReadTag, ReadWindow, ReadVarint, UnknownField;
      next := index;
      var tag := DecodeTag(data, index);
      if tag.NoTag? {
        return next, Some(tag.err);
      }
      var start := index + tag.size;
      if IsBytesField(tag.field) {
        if tag.wireType != 2 {
          return next, Some(WrongWireType);
        }
        var window := DecodeWindow(data, start, index);
        if window.NoWindow? {
          return next, Some(window.err);
        }
        var text := data[window.lo..window.hi];
        match tag.field {
          case 1 => mintingAddress := text;
          case 2 => receivingAddress := text;
          case 3 => denom := text;
          case _ => distributionStartDate := text;
        }
        return window.hi, None;
      } else if IsUintField(tag.field) {
        if tag.wireType != 0 {
          return next, Some(WrongWireType);
        }
        var number := DecodeVarint(data, start);
        assert data[start..] == data[index..][tag.size..];
        var bits := if number.Got? then number.value else number.partial;
        match tag.field {
          case 4 => maxSupply := bits;
          case _ => monthsInHalvingPeriod := bits;
        }
        if number.Bad? {
          return next, Some(number.err);
        }
        return start + number.size, None;
      } else {
        next, err := DecodeUnknown(data, index);
        UnknownKeepsMessage(data[index..], index, Value());
      }
    }

    /** `Unmarshal` into this receiver, which on an error keeps what was decoded so far. */
    method Unmarshal(data: Bytes) returns (err: Option<WireError>)
      modifies this
      ensures DecodeParams(data, old(Value())) == if err.None? then Done(Value()) else Fail(Value(), err.value)
    {
      hide ParamsRecord, Regular;
      ParamsRecordIsRegular();
      var index := 0;
      assert data[0..] == data;
      while index < |data|
        invariant 0 <= index <= |data|
        invariant Decode(ParamsRecord, data, 0, old(Value())) == Decode(ParamsRecord, data[index..], index, Value())
      {
        ghost var left, was := data[index..], Value();
        RecordAdvances(left, index, was);
        var next, stop := DecodeRecord(data, index);
        if stop.Some? {
          return stop;
        }
        assert left[next - index..] == data[next..];
        index := next;
      }
      return None;
    }
  }

  lemma ShortFields(p: Params)
    requires |EncodeParams(p)| < TWO_63
    ensures |p.mintingAddress| < TWO_63 && |p.receivingAddress| < TWO_63
    ensures |p.denom| < TWO_63 && |p.distributionStartDate| < TWO_63
  {
  }

  lemma RecordAdvances(data: Bytes, base: nat, p: Params)
    requires data != []
    ensures ParamsRecord(data, base, p).Next? ==> 1 <= ParamsRecord(data, base, p).size <= |data|
  {
  }
}
