/** The entropy-coded segment writer: a 64-bit accumulator drained byte by byte with zero stuffing
    after every 0xFF (section F.1.2.3 of ITU-T T.81). */
module JpegBitWriter {
  import opened Words

  /** The bits of whole bytes, first byte first. */
  function RawBits(raw: seq<byte>): (bits: seq<bool>)
    ensures |bits| == 8 * |raw|
  {
    if raw == [] then [] else RawBits(raw[..|raw| - 1]) + BitsOf(raw[|raw| - 1], 8)
  }

  function StuffByte(b: byte): seq<byte> {
    if b == 0xFF then [0xFF, 0x00] else [b]
  }

  function Stuff(raw: seq<byte>): seq<byte> {
    if raw == [] then [] else Stuff(raw[..|raw| - 1]) + StuffByte(raw[|raw| - 1])
  }

  /** What a decoder takes from the stream: 0xFF 0x00 is a data byte, any other 0xFF starts a marker. */
  function Unstuff(s: seq<byte>): seq<byte> {
    if s == [] then []
    else if s[0] != 0xFF then [s[0]] + Unstuff(s[1..])
    else if 2 <= |s| && s[1] == 0x00 then [0xFF] + Unstuff(s[2..])
    else []
  }

  ghost predicate NoMarker(s: seq<byte>) {
    forall i :: 0 <= i < |s| && s[i] == 0xFF ==> i + 1 < |s| && s[i + 1] == 0x00
  }

  lemma UnstuffByte(b: byte, rest: seq<byte>)
    ensures Unstuff(StuffByte(b) + rest) == [b] + Unstuff(rest)
  {
    var s := StuffByte(b) + rest;
    assert s[|StuffByte(b)|..] == rest;
  }

  /** Stuffing is undone, and reading stops exactly at what follows the segment. */
  lemma {:induction false} UnstuffStuff(raw: seq<byte>, rest: seq<byte>)
    ensures Unstuff(Stuff(raw) + rest) == raw + Unstuff(rest)
  {
    if raw == [] {
      assert Stuff(raw) + rest == rest;
    } else {
      var init, b := raw[..|raw| - 1], raw[|raw| - 1];
      assert Stuff(raw) + rest == Stuff(init) + (StuffByte(b) + rest);
      UnstuffStuff(init, StuffByte(b) + rest);
      UnstuffByte(b, rest);
      assert raw + Unstuff(rest) == init + ([b] + Unstuff(rest));
    }
  }

  lemma {:induction false} StuffHasNoMarker(raw: seq<byte>)
    ensures NoMarker(Stuff(raw))
  {
    if raw != [] {
      StuffHasNoMarker(raw[..|raw| - 1]);
    }
  }

  lemma {:induction false} RawBitsAppend(a: seq<byte>, b: seq<byte>)
    ensures RawBits(a + b) == RawBits(a) + RawBits(b)
  {
    if b == [] {
      assert a + b == a;
    } else {
      var c := a + b;
      assert c[..|c| - 1] == a + b[..|b| - 1];
      RawBitsAppend(a, b[..|b| - 1]);
    }
  }

  /** Whole bytes from bits. */
  function Pack(bits: seq<bool>): (raw: seq<byte>)
    requires |bits| % 8 == 0
    ensures RawBits(raw) == bits
  {
    if bits == [] then []
    else
      var init, last := bits[..|bits| - 8], bits[|bits| - 8..];
      assert Pow2(8) == 256;
      BitsOfValueOf(last);
      assert bits == init + last;
      Pack(init) + [ValueOf(last)]
  }

  /** Bytes are determined by their bits. */
  lemma {:induction false} RawBitsInjective(a: seq<byte>, b: seq<byte>)
    requires RawBits(a) == RawBits(b)
    ensures a == b
  {
    if a != [] {
      var n := |a| - 1;
      assert |b| == |a|;
      assert RawBits(a)[..8 * n] == RawBits(a[..n]) && RawBits(a)[8 * n..] == BitsOf(a[n], 8);
      assert RawBits(b)[..8 * n] == RawBits(b[..n]) && RawBits(b)[8 * n..] == BitsOf(b[n], 8);
      RawBitsInjective(a[..n], b[..n]);
      assert Pow2(8) == 256;
      ValueOfBitsOf(a[n], 8);
      ValueOfBitsOf(b[n], 8);
      assert a == a[..n] + [a[n]] && b == b[..n] + [b[n]];
    }
  }

  /** The final padding: one 1-bit, then zeros, to the next byte boundary. */
  function Padding(bitCount: nat): (pad: seq<bool>)
    ensures |pad| < 8 && (bitCount + |pad|) % 8 == 0
  {
    if bitCount % 8 == 0 then [] else [true] + seq(7 - bitCount % 8, i => false)
  }

  /** `pending` sits in the top bits of the 64-bit accumulator, above zeros. */
  ghost predicate InTopBits(acc: nat, pending: seq<bool>) {
    |pending| <= 64 && acc == Shl(ValueOf(pending), 64 - |pending|)
  }

  lemma MergeLemma(acc: nat, pending: seq<bool>, code: nat, len: nat)
    requires InTopBits(acc, pending) && |pending| + len <= 64 && code < Pow2(len)
    ensures InTopBits(Or(acc, Shl(code, 64 - |pending| - len)), pending + BitsOf(code, len))
  {
    hide Shl, Or, BitsOf, Pow2;
    MergeWord(ValueOf(pending), code, len, 64 - |pending| - len);
    ValueOfConcat(pending, BitsOf(code, len));
    ValueOfBitsOf(code, len);
  }

  /** Oring `code` in just below `v` makes one word of the two. */
  lemma MergeWord(v: nat, code: nat, len: nat, k: nat)
    requires code < Pow2(len)
    ensures Or(Shl(v, len + k), Shl(code, k)) == Shl(Shl(v, len) + code, k)
  {
    ShlBound(code, len, k);
    OrDisjoint(v, Shl(code, k), len + k);
    ShlAdd(Shl(v, len), code, k);
    ShlShl(v, len, k);
  }

  /** A word holding `b` above `u` bits of `t`, above `k` zeros: its top field, and what is left
      when it is shifted out at the top. */
  lemma TopField(b: nat, t: nat, u: nat, k: nat)
    requires t < Pow2(u)
    ensures Shr(Shl(Shl(b, u) + t, k), u + k) == b
  {
    ShlAdd(Shl(b, u), t, k);
    ShlShl(b, u, k);
    ShlBound(t, u, k);
    SplitWord(b, Shl(t, k), u + k);
  }

  lemma DropTopField(b: nat, t: nat, u: nat, k: nat, s: nat)
    requires t < Pow2(u)
    ensures Low(Shl(Shl(Shl(b, u) + t, k), s), u + k + s) == Shl(t, k + s)
  {
    ShlShl(Shl(b, u) + t, k, s);
    ShlAdd(Shl(b, u), t, k + s);
    ShlShl(b, u, k + s);
    ShlBound(t, u, k + s);
    SplitWord(b, Shl(t, k + s), u + (k + s));
  }

  lemma FlushLemma(acc: nat, pending: seq<bool>)
    requires InTopBits(acc, pending) && |pending| < 8
    ensures InTopBits(Or(acc, Shl(1, 63 - |pending|)), pending + ([true] + seq(8 - |pending| - 1, i => false)))
  {
    MergeLemma(acc, pending, 1, 1);
    var merged := pending + BitsOf(1, 1);
    PadLemma(Or(acc, Shl(1, 63 - |pending|)), merged, 8 - |pending| - 1);
    assert BitsOf(1, 1) == [true];
    assert pending + ([true] + seq(8 - |pending| - 1, i => false)) == merged + seq(8 - |pending| - 1, i => false);
  }

  function TopByte(acc: nat): (b: byte) {
    LowBound(Shr(acc, 56), 8);
    Low(Shr(acc, 56), 8)
  }

  function DropByte(acc: nat): nat {
    Low(Shl(acc, 8), 64)
  }

  lemma DrainLemma(acc: nat, pending: seq<bool>)
    requires InTopBits(acc, pending) && 8 <= |pending|
    ensures BitsOf(TopByte(acc), 8) == pending[..8]
    ensures InTopBits(DropByte(acc), pending[8..])
  {
    hide Shl, Shr, Low, ValueOf, BitsOf, Pow2;
    var k := 64 - |pending|;
    var b, t := ValueOf(pending[..8]), ValueOf(pending[8..]);
    assert acc == Shl(Shl(b, |pending| - 8) + t, k) by {
      ValueOfSplit(pending, 8);
    }
    assert TopByte(acc) == b by {
      TopField(b, t, |pending| - 8, k);
      LowBound(b, 8);
    }
    DropTopField(b, t, |pending| - 8, k, 8);
    BitsOfValueOf(pending[..8]);
  }

  lemma PadLemma(acc: nat, pending: seq<bool>, n: nat)
    requires InTopBits(acc, pending) && |pending| + n <= 64
    ensures InTopBits(acc, pending + seq(n, i => false))
  {
    ValueOfConcat(pending, seq(n, i => false));
    BitsOfZero(n);
    ValueOfBitsOf(0, n);
    ShlShl(ValueOf(pending), n, 64 - |pending| - n);
  }

  /** `(n + 7) & ~7`. */
  function RoundUp8(n: nat): (r: nat)
    ensures 1 <= n <= 8 ==> r == 8
  {
    (n + 7) / 8 * 8
  }

  lemma PaddingAligned(raw: seq<byte>, pending: seq<bool>)
    requires pending == []
    ensures RawBits(raw) + pending == RawBits(raw) + pending + Padding(|RawBits(raw) + pending|)
  {
  }

  lemma PaddingFrom(raw: seq<byte>, pending: seq<bool>)
    requires 0 < |pending| < 8
    ensures RawBits(raw) + (pending + ([true] + seq(8 - |pending| - 1, i => false)))
         == (RawBits(raw) + pending) + Padding(|RawBits(raw) + pending|)
  {
    var bits := RawBits(raw) + pending;
    assert |bits| % 8 == |pending|;
  }

  lemma AppendByte(head: seq<byte>, raw: seq<byte>, pending: seq<bool>, b: byte)
    requires 8 <= |pending| && pending[..8] == BitsOf(b, 8)
    ensures RawBits(raw + [b]) + pending[8..] == RawBits(raw) + pending
    ensures head + Stuff(raw + [b]) == head + Stuff(raw) + StuffByte(b)
  {
    assert (raw + [b])[..|raw|] == raw;
    assert pending == BitsOf(b, 8) + pending[8..];
    assert RawBits(raw) + (BitsOf(b, 8) + pending[8..]) == RawBits(raw) + BitsOf(b, 8) + pending[8..];
  }

  class BitWriter {
    var out: seq<byte>
    var acc: nat
    var nbits: nat
    ghost var head: seq<byte>     // what was in `out` before the segment
    ghost var raw: seq<byte>      // the bytes drained so far, before stuffing
    ghost var pending: seq<bool>  // the bits still in the accumulator

    ghost predicate Consistent()
      reads this
    {
      |pending| == nbits && InTopBits(acc, pending) && out == head + Stuff(raw)
    }

    ghost predicate Valid()
      reads this
    {
      nbits < 8 && Consistent()
    }

    /** Every bit put so far: those drained, then the top `nbits` bits of the accumulator. */
    ghost function Bits(): (bits: seq<bool>)
      reads this
    {
      RawBits(raw) + pending
    }

    constructor (header: seq<byte>)
      ensures Valid() && out == head == header && raw == [] && Bits() == []
    {
      ShlZero(64);
      out, acc, nbits := header, 0, 0;
      head, raw, pending := header, [], [];
    }

    /** Appends the low `len` bits of `code`; nothing when `len` is not positive. */
    method PutBits(code: nat, len: int)
      requires Valid()
      requires len <= 32 && (0 < len ==> code < Pow2(len))
      modifies this`acc, this`nbits, this`out, this`raw, this`pending
      ensures Valid()
      ensures Bits() == old(Bits()) + if 0 < len then BitsOf(code, len) else []
      ensures old(raw) <= raw
    {
      if len <= 0 {
        return;
      }
      hide InTopBits, BitsOf, ValueOf, Or, Shl, Pow2, RawBits, Stuff;
      MergeLemma(acc, pending, code, len);
      ConcatAssoc(RawBits(raw), pending, BitsOf(code, len));
      acc := Or(acc, Shl(code, 64 - nbits - len));
      nbits := nbits + len;
      pending := pending + BitsOf(code, len);
      Drain();
    }

    /** Pads with a 1 and zeros to a byte boundary and empties the accumulator. */
    method Flush()
      requires Valid()
      modifies this`acc, this`nbits, this`out, this`raw, this`pending
      ensures Valid() && nbits == 0
      ensures Bits() == old(Bits()) + Padding(|old(Bits())|)
      ensures Bits() == RawBits(raw)
      ensures old(raw) <= raw
    {
      hide Shl, Or, RawBits, Stuff, ValueOf, BitsOf, Padding, RoundUp8, InTopBits;
      if nbits == 0 {
        PaddingAligned(raw, pending);
        return;
      }
      FlushLemma(acc, pending);
      acc := Or(acc, Shl(1, 63 - nbits));
      nbits := nbits + 1;
      nbits := RoundUp8(nbits);
      PaddingFrom(raw, pending);
      pending := pending + ([true] + seq(8 - |pending| - 1, i => false));
      Drain();
    }

    /** Moves whole bytes from the accumulator to the output. */
    method Drain()
      requires nbits <= 64 && Consistent()
      modifies this`acc, this`nbits, this`out, this`raw, this`pending
      ensures Valid()
      ensures Bits() == old(Bits())
      ensures old(nbits) == 8 ==> nbits == 0
      ensures old(raw) <= raw
    {
      while 8 <= nbits
        invariant nbits <= 64 && Consistent()
        invariant Bits() == old(Bits())
        invariant old(nbits) == 8 ==> nbits == 0 || nbits == 8
        invariant old(raw) <= raw
      {
        DrainByte();
      }
    }

    method DrainByte()
      requires 8 <= nbits <= 64 && Consistent()
      modifies this`acc, this`nbits, this`out, this`raw, this`pending
      ensures Consistent() && nbits == old(nbits) - 8
      ensures Bits() == old(Bits())
      ensures old(raw) <= raw
    {
      hide TopByte, DropByte, InTopBits, RawBits, Stuff, ValueOf, BitsOf;
      DrainLemma(acc, pending);
      var b := TopByte(acc);
      acc := DropByte(acc);
      nbits := nbits - 8;
      out := out + [b];
      if b == 0xFF {
        out := out + [0x00];
      }
      assert out == old(out) + StuffByte(b);
      AppendByte(head, raw, pending, b);
      raw := raw + [b];
      pending := pending[8..];
    }
  }
}
