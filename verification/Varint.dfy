/** Base 128 varints, as the Protocol Buffers Encoding specification defines them and the
    generated code reads and writes them. Go's `|` joins bits that never overlap, so it is
    addition here; the loop's invariant `value < 2^shift` is what makes that exact. */
module Varint {
  import opened Machine
  import opened Arithmetic

  datatype WireError =
    | IntOverflow
    | UnexpectedEOF
    | InvalidLength
    | UnexpectedEndGroup
    | EndGroupForNonGroup
    | IllegalTag
    | WrongWireType
    | IllegalWireType

  /** The outcome of reading a varint: its value and size, or an error with the bits read so
      far, which a field decoded in place keeps. */
  datatype Read = Got(value: uint64, size: nat) | Bad(err: WireError, partial: uint64)

  /** `bits.Len64`. */
  function BitLen(x: nat): nat {
    if x == 0 then 0 else 1 + BitLen(x / 2)
  }

  /** `sovParams` and `sovTx`: `(bits.Len64(x|1) + 6) / 7`. */
  function Sov(v: nat): nat {
    (BitLen(if v % 2 == 0 then v + 1 else v) + 6) / 7
  }

  /** The canonical varint of a value. */
  function EncodeVarint(v: nat): (r: Bytes)
    ensures |r| >= 1
  {
    if v < 0x80 then [v] else [v % 0x80 + 0x80] + EncodeVarint(v / 0x80)
  }

  /** The bits of `v` joined to `acc` at the shift of byte `k`. */
  function Join(acc: nat, v: nat, k: nat): nat {
    MulNonnegative(v, Pow2(7 * k));
    acc + v * Pow2(7 * k)
  }

  /** The decoding loop after `k` bytes have contributed `acc`; the shift is `7 * k`. */
  function ReadFrom(data: Bytes, k: nat, acc: uint64): (r: Read)
    ensures r.Got? ==> k < r.size <= k + |data| && r.size <= 10
    decreases |data|
  {
    if 7 * k >= 64 then Bad(IntOverflow, acc)
    else if data == [] then Bad(UnexpectedEOF, acc)
    else
      var acc' := Wrap64(Join(acc, data[0] % 0x80, k));
      if data[0] < 0x80 then Got(acc', k + 1) else ReadFrom(data[1..], k + 1, acc')
  }

  function ReadVarint(data: Bytes): (r: Read)
    ensures r.Got? ==> 1 <= r.size <= |data| && r.size <= 10
  {
    ReadFrom(data, 0, 0)
  }

  // The size

  lemma BitLenBy1(v: nat, half: nat)
    requires v > 0 && v / 2 == half
    ensures BitLen(v) == 1 + BitLen(half)
  {
  }

  lemma BitLenBy7(v: nat)
    requires v >= 0x80
    ensures BitLen(v) == 7 + BitLen(v / 0x80)
  {
    hide BitLen;
    BitLenBy1(v, v / 2);
    BitLenBy1(v / 2, v / 4);
    BitLenBy1(v / 4, v / 8);
    BitLenBy1(v / 8, v / 16);
    BitLenBy1(v / 16, v / 32);
    BitLenBy1(v / 32, v / 64);
    BitLenBy1(v / 64, v / 128);
  }

  lemma BitLenSmall(v: nat)
    requires 0 < v < 0x80
    ensures 1 <= BitLen(v) <= 7
  {
  }

  /** The precomputed size is the number of bytes the encoder writes. */
  lemma {:induction false} SovIsLength(v: nat)
    ensures Sov(v) == |EncodeVarint(v)|
  {
    var odd := if v % 2 == 0 then v + 1 else v;
    if v < 0x80 {
      BitLenSmall(odd);
    } else {
      hide BitLen;
      var high := v / 0x80;
      SovIsLength(high);
      assert odd / 0x80 == high;
      BitLenBy7(odd);
      BitLenOddOrNot(high);
    }
  }

  /** Setting the lowest bit changes the length of zero only. */
  lemma BitLenOddOrNot(x: nat)
    ensures x > 0 ==> BitLen(x) == BitLen(if x % 2 == 0 then x + 1 else x)
  {
  }

  // Reading back

  lemma Pow2Split(k: nat)
    requires 7 * k <= 64
    ensures Pow2(7 * k) * Pow2(64 - 7 * k) == TWO_64
  {
    hide Pow2;
    Pow2Of64();
    Pow2Adds(7 * k, 64 - 7 * k);
  }

  lemma Pow2Next(k: nat)
    ensures Pow2(7 * (k + 1)) == 0x80 * Pow2(7 * k)
    ensures 7 * (k + 1) <= 64 ==> Pow2(64 - 7 * k) == 0x80 * Pow2(64 - 7 * (k + 1))
  {
    Pow2By7(7 * k);
    if 7 * (k + 1) <= 64 {
      Pow2By7(64 - 7 * (k + 1));
    }
  }

  lemma Pow2By7(n: nat)
    ensures Pow2(n + 7) == 0x80 * Pow2(n)
  {
    assert Pow2(n + 2) == 4 * Pow2(n);
    assert Pow2(n + 4) == 4 * Pow2(n + 2);
    assert Pow2(n + 6) == 4 * Pow2(n + 4);
    assert Pow2(n + 7) == 2 * Pow2(n + 6);
  }

  /** A value that fits in the bits left fits in 64 bits once shifted and joined. */
  lemma JoinFits(acc: nat, v: nat, k: nat)
    requires 7 * k <= 64 && acc < Pow2(7 * k) && v < Pow2(64 - 7 * k)
    ensures Join(acc, v, k) < TWO_64
  {
    hide Pow2;
    var p := Pow2(7 * k);
    Pow2Split(k);
    MulNonnegative(v, p);
    MulOrder(p, v, Pow2(64 - 7 * k));
    assert v * p == p * v;
  }

  /** The decoding loop reads an encoded value back, whatever follows it. */
  lemma {:induction false} ReadsBackFrom(v: nat, rest: Bytes, k: nat, acc: uint64)
    requires 7 * k < 64 && acc < Pow2(7 * k) && v < Pow2(64 - 7 * k)
    ensures Join(acc, v, k) < TWO_64
    ensures ReadFrom(EncodeVarint(v) + rest, k, acc) == Got(Join(acc, v, k), k + |EncodeVarint(v)|)
    decreases v
  {
    hide Pow2, Join;
    JoinFits(acc, v, k);
    var data := EncodeVarint(v) + rest;
    if v < 0x80 {
      assert data[0] % 0x80 == v;
    } else {
      var high := v / 0x80;
      assert data[1..] == EncodeVarint(high) + rest && data[0] % 0x80 == v % 0x80;
      MoreThanOneByte(v, k);
      Pow2Next(k);
      var acc' := JoinLowBits(acc, v, k);
      ReadsBackFrom(high, rest, k + 1, acc');
    }
  }

  lemma JoinLowBits(acc: nat, v: nat, k: nat) returns (acc': uint64)
    requires 7 * (k + 1) < 64 && acc < Pow2(7 * k)
    ensures acc' == Wrap64(Join(acc, v % 0x80, k)) < Pow2(7 * (k + 1))
    ensures Join(acc, v, k) == Join(acc', v / 0x80, k + 1)
  {
    hide Pow2;
    Pow2Of64();
    Pow2Grows(7 * (k + 1), 64);
    LowBitsFit(acc, v % 0x80, k);
    Pow2Next(k);
    acc' := Join(acc, v % 0x80, k);
    SplitProduct(v, Pow2(7 * k));
  }

  lemma SplitProduct(v: nat, p: nat)
    ensures v * p == v % 0x80 * p + v / 0x80 * (0x80 * p)
  {
  }

  lemma MoreThanOneByte(v: nat, k: nat)
    requires 7 * k < 64 && 0x80 <= v < Pow2(64 - 7 * k)
    ensures 7 * (k + 1) < 64
  {
    SevenBitsOrFewer(64 - 7 * k);
  }

  lemma SevenBitsOrFewer(n: nat)
    ensures n <= 7 ==> Pow2(n) <= 0x80
  {
    if n <= 7 {
      Pow2Grows(n, 7);
      Pow2By7(0);
    }
  }

  lemma LowBitsFit(acc: nat, low: nat, k: nat)
    requires acc < Pow2(7 * k) && low < 0x80
    ensures Join(acc, low, k) < Pow2(7 * (k + 1))
  {
    hide Pow2;
    Pow2Next(k);
    var p := Pow2(7 * k);
    MulNonnegative(low, p);
    MulOrder(p, low, 0x7f);
    assert low * p == p * low;
  }

  /** For every 64-bit value, decoding its encoding returns it and consumes exactly it. */
  lemma VarintRoundTrip(v: uint64, rest: Bytes)
    ensures ReadVarint(EncodeVarint(v) + rest) == Got(v, |EncodeVarint(v)|)
  {
    Pow2Of64();
    assert Pow2(0) == 1;
    ReadsBackFrom(v, rest, 0, 0);
  }

  /** A varint that has been read does not depend on what follows it. */
  lemma {:induction false} ReadIsPrefixStable(a: Bytes, b: Bytes, k: nat, acc: uint64)
    requires ReadFrom(a, k, acc).Got?
    ensures ReadFrom(a + b, k, acc) == ReadFrom(a, k, acc)
    decreases |a|
  {
    assert (a + b)[0] == a[0];
    if a[0] >= 0x80 {
      assert (a + b)[1..] == a[1..] + b;
      ReadIsPrefixStable(a[1..], b, k + 1, Wrap64(Join(acc, a[0] % 0x80, k)));
    }
  }

  /** Nor on anything beyond its last byte. */
  lemma {:induction false} ReadIsLocal(a: Bytes, k: nat, acc: uint64)
    requires ReadFrom(a, k, acc).Got?
    ensures ReadFrom(a[..ReadFrom(a, k, acc).size - k], k, acc) == ReadFrom(a, k, acc)
    decreases |a|
  {
    var n := ReadFrom(a, k, acc).size - k;
    if a[0] >= 0x80 {
      assert a[..n][1..] == a[1..][..n - 1];
      ReadIsLocal(a[1..], k + 1, Wrap64(Join(acc, a[0] % 0x80, k)));
    }
  }

  // The meaning of the bytes

  /** Seven bits a byte, the lowest first. */
  function Base128(bytes: Bytes): nat {
    if bytes == [] then 0 else bytes[0] % 0x80 + 0x80 * Base128(bytes[1..])
  }

  /** The encoder's bytes have the value, and no shorter varint has: the last byte is not a
      zero of padding. */
  lemma {:induction false} EncodesValue(v: nat)
    ensures var e := EncodeVarint(v);
            && Base128(e) == v
            && e[|e| - 1] < 0x80 && (forall i :: 0 <= i < |e| - 1 ==> e[i] >= 0x80)
            && (|e| > 1 ==> e[|e| - 1] > 0)
  {
    hide Base128;
    var e := EncodeVarint(v);
    Base128Step(e);
    if v < 0x80 {
      assert e[1..] == [];
      NoBytes();
    } else {
      var high := EncodeVarint(v / 0x80);
      EncodesValue(v / 0x80);
      assert e == [v % 0x80 + 0x80] + high && e[1..] == high;
      assert e[|e| - 1] == high[|high| - 1];
      assert forall i :: 0 < i < |e| ==> e[i] == high[i - 1];
    }
  }

  lemma {:induction false} ReadEnds(data: Bytes, k: nat, acc: uint64, n: nat)
    requires k <= 10
    ensures ReadFrom(data, k, acc).Got? && ReadFrom(data, k, acc).size == k + n <==>
            1 <= n <= |data| && k + n <= 10 && data[n - 1] < 0x80 && forall i :: 0 <= i < n - 1 ==> data[i] >= 0x80
    decreases |data|
  {
    hide Join;
    if 7 * k < 64 && data != [] && data[0] >= 0x80 {
      ReadEnds(data[1..], k + 1, Wrap64(Join(acc, data[0] % 0x80, k)), if n == 0 then 0 else n - 1);
    }
  }

  lemma {:induction false} ReadSums(data: Bytes, k: nat, acc: uint64)
    requires ReadFrom(data, k, acc).Got?
    ensures var r := ReadFrom(data, k, acc);
            r.value == Wrap64(acc + Pow2(7 * k) * Base128(data[..r.size - k]))
    decreases |data|
  {
    hide Pow2, Wrap64, Join, Base128;
    var r := ReadFrom(data, k, acc);
    var n, low := r.size - k, data[0] % 0x80;
    var used, next := data[..n], Wrap64(Join(acc, low, k));
    JoinIsSum(acc, low, k);
    Base128Step(used);
    if data[0] < 0x80 {
      assert used[1..] == [];
      NoBytes();
      assert Pow2(7 * k) * low == low * Pow2(7 * k);
    } else {
      assert used[1..] == data[1..][..n - 1];
      ReadSums(data[1..], k + 1, next);
      Pow2Next(k);
      NextGroup(acc, low, Base128(used[1..]), Pow2(7 * k));
    }
  }

  lemma JoinIsSum(acc: nat, v: nat, k: nat)
    ensures Join(acc, v, k) == acc + v * Pow2(7 * k)
  {
  }

  lemma Base128Step(bytes: Bytes)
    requires bytes != []
    ensures Base128(bytes) == bytes[0] % 0x80 + 0x80 * Base128(bytes[1..])
  {
  }

  lemma NoBytes()
    ensures Base128([]) == 0
  {
  }

  lemma NextGroup(acc: nat, low: nat, rest: nat, p: nat)
    ensures Wrap64(Wrap64(acc + low * p) + 0x80 * p * rest) == Wrap64(acc + p * (low + 0x80 * rest))
  {
    hide Wrap64;
    assert p * (low + 0x80 * rest) == low * p + 0x80 * p * rest;
    WrapTwice(acc + low * p, 0x80 * p * rest);
  }

  lemma WrapTwice(x: int, y: int)
    ensures Wrap64(Wrap64(x) + y) == Wrap64(x + y)
  {
  }

  lemma {:induction false} ReadFails(data: Bytes, k: nat, acc: uint64)
    requires k <= 10 && ReadFrom(data, k, acc).Bad?
    ensures ReadFrom(data, k, acc).err == if k + |data| >= 10 then IntOverflow else UnexpectedEOF
    ensures ReadFrom(data, k, acc).partial == Wrap64(acc + Pow2(7 * k) * Base128(data[..Min(|data|, 10 - k)]))
    decreases |data|
  {
    hide Pow2, Wrap64, Join, Base128;
    var used := data[..Min(|data|, 10 - k)];
    if 7 * k < 64 && data != [] {
      var low := data[0] % 0x80;
      var next := Wrap64(Join(acc, low, k));
      JoinIsSum(acc, low, k);
      Base128Step(used);
      ReadFails(data[1..], k + 1, next);
      assert used[1..] == data[1..][..Min(|data[1..]|, 10 - (k + 1))];
      Pow2Next(k);
      NextGroup(acc, low, Base128(used[1..]), Pow2(7 * k));
    } else {
      assert used == [];
      NoBytes();
      WrapOfWord(acc);
    }
  }

  lemma WrapOfWord(x: uint64)
    ensures Wrap64(x) == x
  {
  }

  /** What the decoder reads from any bytes: the first byte below 128 among the first ten ends
      the number, its value is the sum of the seven-bit groups modulo 2^64, and without such a
      byte the error is an overflow if there are ten bytes and a lack of bytes if not, with
      what was read so far kept. */
  lemma ReadsExactly(data: Bytes, n: nat)
    ensures ReadVarint(data).Got? && ReadVarint(data).size == n <==>
            1 <= n <= |data| && n <= 10 && data[n - 1] < 0x80 && forall i :: 0 <= i < n - 1 ==> data[i] >= 0x80
    ensures ReadVarint(data).Got? ==>
              ReadVarint(data).value == Base128(data[..ReadVarint(data).size]) % 0x1_0000_0000_0000_0000
    ensures ReadVarint(data).Bad? ==>
              && ReadVarint(data).err == (if |data| >= 10 then IntOverflow else UnexpectedEOF)
              && ReadVarint(data).partial == Base128(data[..Min(|data|, 10)]) % 0x1_0000_0000_0000_0000
  {
    ReadEnds(data, 0, 0, n);
    if ReadVarint(data).Got? {
      ReadSums(data, 0, 0);
    } else {
      ReadFails(data, 0, 0);
    }
    assert Pow2(7 * 0) == 1 by { Pow2OfZero(); }
  }

  // The loops

  /** The shift loop every field decoder starts with. */
  method DecodeVarint(data: Bytes, start: nat) returns (r: Read)
    requires start <= |data|
    ensures r == ReadVarint(data[start..])
  {
    hide Pow2, Join;
    var index, shift, value: uint64 := start, 0, 0;
    ghost var k := 0;
    assert Pow2(7 * 0) == 1 by { Pow2OfZero(); }
    while true
      invariant start <= index <= |data| && shift == 7 * k && k == index - start
      invariant k <= 10 && (k <= 9 ==> value < Pow2(shift))
      invariant ReadVarint(data[start..]) == ReadFrom(data[index..], k, value)
      decreases |data| - index
    {
      if shift >= 64 {
        return Bad(IntOverflow, value);
      }
      if index >= |data| {
        return Bad(UnexpectedEOF, value);
      }
      var b := data[index];
      index := index + 1;
      assert data[index - 1..][1..] == data[index..];
      LowBitsFit(value, b % 0x80, k);
      if k <= 8 {
        Pow2Grows(7 * (k + 1), 64);
        Pow2Of64();
      }
      value := Wrap64(Join(value, b % 0x80, shift / 7));
      if b < 0x80 {
        return Got(value, index - start);
      }
      shift := shift + 7;
      k := k + 1;
    }
  }

  lemma Pow2OfZero()
    ensures Pow2(0) == 1
  {
  }

  /** `encodeVarintParams` and `encodeVarintTx`: the bytes end at the old offset, their
      start is returned, and the rest of the buffer is untouched. */
  method EncodeVarintInto(buffer: array<byte>, offset: nat, v: uint64) returns (base: nat)
    requires Sov(v) <= offset <= buffer.Length
    modifies buffer
    ensures base == offset - |EncodeVarint(v)|
    ensures buffer[..] == old(buffer[..base]) + EncodeVarint(v) + old(buffer[offset..])
  {
    hide Sov;
    SovIsLength(v);
    base := offset - Sov(v);
    ghost var before, code := buffer[..], EncodeVarint(v);
    var at: nat, rest: uint64 := base, v;
    while rest >= 0x80
      invariant base <= at < offset
      invariant code[at - base..] == EncodeVarint(rest)
      invariant forall i :: 0 <= i < buffer.Length ==>
                  buffer[i] == if base <= i < at then code[i - base] else before[i]
    {
      assert code[at - base] == rest % 0x80 + 0x80;
      buffer[at] := rest % 0x80 + 0x80;
      assert code[at + 1 - base..] == code[at - base..][1..];
      rest := rest / 0x80;
      at := at + 1;
    }
    assert code[at - base] == rest && at + 1 == offset;
    buffer[at] := rest;
    assert buffer[..] == before[..base] + code + before[offset..];
  }
}
