/** SHA-1 as FIPS PUB 180-1 defines it: pad, cut into blocks, fold the blocks. */
module Sha1Standard {
  import opened Words

  datatype Digest = Digest(a: bv32, b: bv32, c: bv32, d: bv32, e: bv32)

  const INITIAL := Digest(0x67452301, 0xEFCDAB89, 0x98BADCFE, 0x10325476, 0xC3D2E1F0)

  const MESSAGE_LIMIT := 0x2000_0000_0000_0000  // bytes: 2^64 bits

  /** The operation S^n(X) of section 3. */
  function CircularShift(n: nat, x: bv32): bv32
    requires n < 32
  {
    (x << n) | (x >> (32 - n))
  }

  /** The functions of section 5. */
  function F(t: nat, b: bv32, c: bv32, d: bv32): bv32 {
    if t < 20 then Choose(b, c, d)
    else if t < 40 then Parity(b, c, d)
    else if t < 60 then Majority(b, c, d)
    else Parity(b, c, d)
  }

  function Choose(b: bv32, c: bv32, d: bv32): bv32 { (b & c) | ((!b) & d) }

  function Parity(b: bv32, c: bv32, d: bv32): bv32 { b ^ c ^ d }

  function Majority(b: bv32, c: bv32, d: bv32): bv32 { (b & c) | (b & d) | (c & d) }

  /** The constants of section 6. */
  function K(t: nat): bv32 {
    if t < 20 then 0x5A827999
    else if t < 40 then 0x6ED9EBA1
    else if t < 60 then 0x8F1BBCDC
    else 0xCA62C1D6
  }

  /** Choose agrees with `c` where `b` has ones, and with `d` elsewhere. */
  lemma ChooseSelects(b: bv32, c: bv32, d: bv32)
    ensures Choose(b, c, d) & b == c & b && Choose(b, c, d) & !b == d & !b
  {
  }

  /** Majority agrees with `b` and `c` where those agree, and with `d` elsewhere. */
  lemma MajorityRules(b: bv32, c: bv32, d: bv32)
    ensures Majority(b, c, d) & !(b ^ c) == b & !(b ^ c) && Majority(b, c, d) & (b ^ c) == d & (b ^ c)
  {
  }

  /** Parity agrees with `d` where `b` and `c` agree, and differs from it elsewhere. */
  lemma ParityDiffers(b: bv32, c: bv32, d: bv32)
    ensures Parity(b, c, d) & !(b ^ c) == d & !(b ^ c) && Parity(b, c, d) & (b ^ c) == !d & (b ^ c)
  {
  }

  /** The constants are the square roots of 2, 3, 5 and 10, scaled by 2^30 and cut off. */
  lemma ConstantsAreRoots(t: nat)
    requires t < 80
    ensures var n, k := if t < 20 then 2 else if t < 40 then 3 else if t < 60 then 5 else 10, K(t) as int;
      k * k <= n * 0x1000_0000_0000_0000 < (k + 1) * (k + 1)
  {
  }

  function WordOf(b0: Byte, b1: Byte, b2: Byte, b3: Byte): bv32 {
    ((b0 as bv32) << 24) | ((b1 as bv32) << 16) | ((b2 as bv32) << 8) | (b3 as bv32)
  }

  /** The words W(t) of section 7, steps a and b. */
  function Schedule(block: seq<Byte>, t: nat): bv32
    requires |block| == 64
  {
    if t < 16 then WordOf(block[4 * t], block[4 * t + 1], block[4 * t + 2], block[4 * t + 3])
    else Mix(Schedule(block, t - 3), Schedule(block, t - 8), Schedule(block, t - 14), Schedule(block, t - 16))
  }

  function Mix(w3: bv32, w8: bv32, w14: bv32, w16: bv32): bv32 {
    CircularShift(1, w3 ^ w8 ^ w14 ^ w16)
  }

  /** TEMP of section 7, step d: a sum modulo 2^32. */
  function Temp(a: bv32, f: bv32, e: bv32, w: bv32, k: bv32): bv32 {
    CircularShift(5, a) + f + e + w + k
  }

  /** One pass of section 7, step d. */
  function Round(t: nat, v: Digest, w: bv32): Digest {
    Digest(Temp(v.a, F(t, v.b, v.c, v.d), v.e, w, K(t)), v.a, CircularShift(30, v.b), v.c, v.d)
  }

  /** The buffers A to E after `t` passes. */
  function Rounds(h: Digest, block: seq<Byte>, t: nat): Digest
    requires |block| == 64
  {
    if t == 0 then h else Round(t - 1, Rounds(h, block, t - 1), Schedule(block, t - 1))
  }

  function Sum(x: Digest, y: Digest): Digest {
    Digest(Plus(x.a, y.a), Plus(x.b, y.b), Plus(x.c, y.c), Plus(x.d, y.d), Plus(x.e, y.e))
  }

  /** Addition modulo 2^32. */
  function Plus(x: bv32, y: bv32): bv32 { x + y }

  function Compress(h: Digest, block: seq<Byte>): Digest
    requires |block| == 64
  {
    Sum(h, Rounds(h, block, 80))
  }

  /** The digest after all the blocks of `data`. */
  function Absorb(data: seq<Byte>): Digest
    requires |data| % 64 == 0
  {
    if |data| == 0 then INITIAL
    else Compress(Absorb(data[..|data| - 64]), data[|data| - 64..])
  }

  function Zeros(n: nat): (z: seq<Byte>)
    ensures |z| == n
  {
    seq(n, i => 0)
  }

  /** The number of zero bytes that section 4 puts between the first padding byte and the length. */
  function ZeroCount(length: nat): nat {
    if length % 64 <= 55 then 55 - length % 64 else 119 - length % 64
  }

  lemma PaddingFills(length: nat)
    ensures (length + 1 + ZeroCount(length) + 8) % 64 == 0
  {
    var q, r := length / 64, length % 64;
    assert length == 64 * q + r;
  }

  /** The length in bits as two words, high word first. */
  function LengthBytes(length: nat): (bs: seq<Byte>)
    requires length < MESSAGE_LIMIT
    ensures |bs| == 8
  {
    Bytes32(8 * length / 0x1_0000_0000) + Bytes32(8 * length % 0x1_0000_0000)
  }

  /** Section 4: a one bit, zeros, and the length fill the message up to whole blocks. */
  function Pad(message: seq<Byte>): (p: seq<Byte>)
    requires |message| < MESSAGE_LIMIT
    ensures |p| % 64 == 0
  {
    PaddingFills(|message|);
    message + [0x80] + Zeros(ZeroCount(|message|)) + LengthBytes(|message|)
  }

  function Sha1(message: seq<Byte>): Digest
    requires |message| < MESSAGE_LIMIT
  {
    Absorb(Pad(message))
  }

  /** Byte `i` of a word, counted from the top, as the implementation extracts it. */
  function ByteOf(w: Word32, i: nat): Byte {
    if i == 0 then w / 0x100_0000 % 0x100
    else if i == 1 then w / 0x1_0000 % 0x100
    else if i == 2 then w / 0x100 % 0x100
    else w % 0x100
  }

  lemma Bytes32Shifts(w: Word32)
    ensures Bytes32(w) == [ByteOf(w, 0), ByteOf(w, 1), ByteOf(w, 2), ByteOf(w, 3)]
  {
    var bs := Bytes32(w);
    Join32Bytes32(w);
    hide Bytes32, Join32, Join16, ByteOf;
    assert bs == [bs[0], bs[1], bs[2], bs[3]];
    JoinShifts(bs[0], bs[1], bs[2], bs[3]);
  }

  lemma JoinShifts(a: Byte, b: Byte, c: Byte, d: Byte)
    ensures var w := Join32([a, b, c, d]);
      ByteOf(w, 0) == a && ByteOf(w, 1) == b && ByteOf(w, 2) == c && ByteOf(w, 3) == d
  {
    var w := Join32([a, b, c, d]);
    var low, mid := 0x100 * c + d, 0x100 * a + b;
    assert w == 0x1_0000 * mid + low;
    TopByte(w, a, 0x1_0000 * b + low);
    HighHalf(w, mid, low);
    LowByte(mid, a, b);
    var upper := 0x1_0000 * a + 0x100 * b + c;
    assert w == 0x100 * upper + d;
    LowByte(w, upper, d);
    LowByte(upper, mid, c);
  }

  lemma TopByte(w: nat, q: nat, r: nat)
    requires w == 0x100_0000 * q + r && r < 0x100_0000 && q < 0x100
    ensures w / 0x100_0000 % 0x100 == q
  {
  }

  lemma HighHalf(w: nat, q: nat, r: nat)
    requires w == 0x1_0000 * q + r && r < 0x1_0000
    ensures w / 0x1_0000 == q
  {
  }

  lemma LowByte(w: nat, q: nat, r: nat)
    requires w == 0x100 * q + r && r < 0x100
    ensures w / 0x100 == q && w % 0x100 == r
  {
  }

  lemma LengthBytesShifts(length: nat, high: Word32, low: Word32)
    requires length < MESSAGE_LIMIT && high * 0x1_0000_0000 + low == 8 * length
    ensures LengthBytes(length) == [ByteOf(high, 0), ByteOf(high, 1), ByteOf(high, 2), ByteOf(high, 3),
                                    ByteOf(low, 0), ByteOf(low, 1), ByteOf(low, 2), ByteOf(low, 3)]
  {
    hide Bytes32, ByteOf;
    Bytes32Shifts(high);
    Bytes32Shifts(low);
  }

  lemma Residue(w: nat, r: nat)
    requires w % 64 == 0 && r < 64
    ensures (w + r) % 64 == r
  {
  }

  /** The last block when the padding fits behind the message, and the last two when it does not. */
  lemma LastBlock(whole: seq<Byte>, rest: seq<Byte>)
    requires |whole| % 64 == 0 && |rest| <= 55 && |whole + rest| < MESSAGE_LIMIT
    ensures Sha1(whole + rest)
         == Compress(Absorb(whole), rest + [0x80] + Zeros(55 - |rest|) + LengthBytes(|whole + rest|))
  {
    hide Absorb, Compress, LengthBytes;
    var n := |whole + rest|;
    Residue(|whole|, |rest|);
    assert ZeroCount(n) == 55 - |rest|;
    hide Zeros, ZeroCount;
    Regroup(whole, rest, [0x80], Zeros(55 - |rest|), LengthBytes(n));
    AbsorbBlock(whole, rest + [0x80] + Zeros(55 - |rest|) + LengthBytes(n));
  }

  lemma Regroup(a: seq<Byte>, b: seq<Byte>, c: seq<Byte>, d: seq<Byte>, e: seq<Byte>)
    ensures a + b + c + d + e == a + (b + c + d + e)
  {
  }

  lemma LastTwoBlocks(whole: seq<Byte>, rest: seq<Byte>)
    requires |whole| % 64 == 0 && 55 < |rest| < 64 && |whole + rest| < MESSAGE_LIMIT
    ensures Sha1(whole + rest)
         == Compress(Compress(Absorb(whole), rest + [0x80] + Zeros(63 - |rest|)),
                     Zeros(56) + LengthBytes(|whole + rest|))
  {
    hide Absorb, Compress, LengthBytes;
    var n := |whole + rest|;
    var first, second := rest + [0x80] + Zeros(63 - |rest|), Zeros(56) + LengthBytes(n);
    Residue(|whole|, |rest|);
    assert Zeros(63 - |rest|) + Zeros(56) == Zeros(ZeroCount(n));
    hide Zeros, ZeroCount;
    assert Pad(whole + rest) == whole + first + second;
    AbsorbBlock(whole, first);
    AbsorbBlock(whole + first, second);
  }

  lemma RoundsStart(h: Digest, block: seq<Byte>)
    requires |block| == 64
    ensures Rounds(h, block, 0) == h
  {
  }

  lemma RoundsStep(h: Digest, block: seq<Byte>, t: nat)
    requires |block| == 64
    ensures Rounds(h, block, t + 1) == Round(t, Rounds(h, block, t), Schedule(block, t))
  {
    hide Round, Schedule;
  }

  lemma ScheduleStart(block: seq<Byte>, t: nat)
    requires |block| == 64 && t < 16
    ensures Schedule(block, t) == WordOf(block[t * 4], block[t * 4 + 1], block[t * 4 + 2], block[t * 4 + 3])
  {
    hide WordOf;
  }

  lemma ScheduleStep(block: seq<Byte>, t: nat)
    requires |block| == 64 && t >= 16
    ensures Schedule(block, t)
         == Mix(Schedule(block, t - 3), Schedule(block, t - 8), Schedule(block, t - 14), Schedule(block, t - 16))
  {
    hide WordOf, Mix;
  }

  lemma AbsorbBlock(data: seq<Byte>, block: seq<Byte>)
    requires |data| % 64 == 0 && |block| == 64
    ensures |data + block| % 64 == 0 && Absorb(data + block) == Compress(Absorb(data), block)
  {
    var all := data + block;
    assert all[..|all| - 64] == data && all[|all| - 64..] == block;
  }
}

/** The byte-at-a-time implementation of `sha1.c`. */
module Sha1 {
  import opened Words
  import opened Sha1Standard

  class Context {
    const digest: array<bv32>
    const block: array<Byte>
    var index: int
    var lengthLow: int
    var lengthHigh: int
    var computed: bool
    var corrupted: bool
    /** Every byte accepted since the last reset, and the whole blocks among them. */
    ghost var message: seq<Byte>
    ghost var whole: seq<Byte>

    ghost predicate Shape()
      reads this
    {
      digest.Length == 5 && block.Length == 64 && 0 <= index <= 64 &&
      0 <= lengthLow < 0x1_0000_0000 && 0 <= lengthHigh < 0x1_0000_0000
    }

    function Value(): Digest
      requires digest.Length == 5
      reads digest
    {
      Digest(digest[0], digest[1], digest[2], digest[3], digest[4])
    }

    /** What the context holds of a message that is still being read. */
    ghost predicate Reading()
      requires Shape()
      reads this, digest, block
    {
      message == whole + block[..index] &&
      |message| < MESSAGE_LIMIT &&
      lengthHigh * 0x1_0000_0000 + lengthLow == 8 * |message| &&
      |whole| % 64 == 0 && Value() == Absorb(whole)
    }

    ghost predicate Valid()
      reads this, digest, block
    {
      Shape() && index < 64 &&
      (!corrupted && !computed ==> Reading()) &&
      (!corrupted && computed ==> |message| < MESSAGE_LIMIT && Value() == Sha1(message))
    }

    constructor ()
      ensures Valid() && fresh(digest) && fresh(block)
      ensures message == [] && !computed && !corrupted
    {
      digest := new bv32[5];
      block := new Byte[64](i => 0);
      index, lengthLow, lengthHigh := 0, 0, 0;
      computed, corrupted := false, false;
      new;
      Reset();
    }

    /** `SHA1Reset`. */
    method Reset()
      requires Shape()
      modifies this, digest
      ensures Valid() && message == [] && !computed && !corrupted
    {
      hide Absorb, Sha1;
      lengthLow, lengthHigh, index := 0, 0, 0;
      digest[0] := 0x67452301;
      digest[1] := 0xEFCDAB89;
      digest[2] := 0x98BADCFE;
      digest[3] := 0x10325476;
      digest[4] := 0xC3D2E1F0;
      computed, corrupted := false, false;
      message, whole := [], [];
      ResetIsInitial();
    }

    lemma ResetIsInitial()
      requires digest.Length == 5 && Value() == INITIAL
      ensures Value() == Absorb([])
    {
      hide Compress;
    }

    /** `SHA1Input`. */
    method Input(bytes: seq<Byte>)
      requires Valid()
      modifies this, digest, block
      ensures Valid() && computed == old(computed)
      ensures corrupted <==> old(corrupted)
                             || (bytes != [] && (old(computed) || |old(message)| + |bytes| >= MESSAGE_LIMIT))
      ensures !corrupted ==> message == old(message) + bytes
    {
      hide Absorb, Sha1;
      if |bytes| == 0 {
        return;
      }
      if computed || corrupted {
        corrupted := true;
        return;
      }
      var i := 0;
      while i < |bytes| && !corrupted
        invariant 0 <= i <= |bytes| && Valid() && !computed
        invariant corrupted <==> |old(message)| + i >= MESSAGE_LIMIT
        invariant message == old(message) + bytes[..i]
      {
        AppendByte(bytes[i]);
        i := i + 1;
      }
    }

    /** The body of the loop of `SHA1Input`. */
    method AppendByte(b: Byte)
      requires Valid() && !computed && !corrupted
      modifies this, digest, block
      ensures Valid() && !computed && message == old(message) + [b]
      ensures corrupted <==> |message| >= MESSAGE_LIMIT
    {
      hide Compress, Sha1, Absorb;
      block[index] := b;
      index := index + 1;
      assert block[..index] == old(block[..index]) + [b];
      message := message + [b];
      assert message == whole + block[..index];
      CountByte();
      if index == 64 {
        AbsorbBlock(whole, block[..]);
        assert block[..] == block[..64];
        ProcessBlock();
        whole := message;
      }
    }

    /** Eight more bits, in two 32-bit halves. */
    method CountByte()
      requires 0 <= lengthLow < 0x1_0000_0000 && 0 <= lengthHigh < 0x1_0000_0000
      requires message != [] && lengthHigh * 0x1_0000_0000 + lengthLow == 8 * (|message| - 1) && !corrupted
      modifies `lengthLow, `lengthHigh, `corrupted
      ensures 0 <= lengthLow < 0x1_0000_0000 && 0 <= lengthHigh < 0x1_0000_0000
      ensures !corrupted ==> lengthHigh * 0x1_0000_0000 + lengthLow == 8 * |message|
      ensures corrupted <==> |message| >= MESSAGE_LIMIT
    {
      lengthLow := (lengthLow + 8) % 0x1_0000_0000;
      if lengthLow == 0 {
        lengthHigh := (lengthHigh + 1) % 0x1_0000_0000;
        if lengthHigh == 0 {
          corrupted := true;
        }
      }
    }

    /** `SHA1Result`. */
    method Result() returns (ok: bool)
      requires Valid()
      modifies this, digest, block
      ensures Valid() && message == old(message) && corrupted == old(corrupted)
      ensures ok <==> !corrupted
      ensures ok ==> computed && |message| < MESSAGE_LIMIT && Value() == Sha1(message)
    {
      hide Absorb, Sha1;
      if corrupted {
        return false;
      }
      if !computed {
        PadMessage();
        computed := true;
      }
      return true;
    }

    /** `SHA1PadMessage`. */
    method PadMessage()
      requires Valid() && !computed && !corrupted
      modifies digest, block, `index
      ensures Shape() && index < 64 && Value() == Sha1(message)
    {
      hide Absorb, Compress, LengthBytes, Sha1, Zeros;
      if index > 55 {
        LastTwoBlocks(whole, block[..index]);
        StartPadding(64);
        assert block[..] == block[..64];
        ProcessBlock();
        FillZeros(56);
        assert block[..56] == Zeros(56);
      } else {
        LastBlock(whole, block[..index]);
        StartPadding(56);
      }
      StoreLength();
      assert block[..] == block[..56] + block[56..];
      ProcessBlock();
    }

    /** The first padding byte, and zeros up to an index of the block. */
    method StartPadding(upto: int)
      requires Shape() && 0 <= index < upto <= 64
      modifies block, `index
      ensures Shape() && index == upto
      ensures block[..upto] == old(block[..index]) + [0x80] + Zeros(upto - old(index) - 1)
    {
      hide Zeros;
      block[index] := 0x80;
      index := index + 1;
      assert block[..index] == old(block[..index]) + [0x80];
      FillZeros(upto);
    }

    method FillZeros(upto: int)
      requires Shape() && 0 <= index <= upto <= 64
      modifies block, `index
      ensures Shape() && index == upto
      ensures block[..upto] == old(block[..index]) + Zeros(upto - old(index))
    {
      ghost var prefix, start := block[..index], index;
      while index < upto
        invariant Shape() && start <= index <= upto
        invariant block[..index] == prefix + Zeros(index - start)
      {
        block[index] := 0;
        index := index + 1;
      }
    }

    /** The message length as the last eight bytes of the block. */
    method StoreLength()
      requires Shape() && |message| < MESSAGE_LIMIT
      requires lengthHigh * 0x1_0000_0000 + lengthLow == 8 * |message|
      modifies block
      ensures block[..56] == old(block[..56]) && block[56..] == LengthBytes(|message|)
    {
      hide ByteOf, LengthBytes;
      block[56] := ByteOf(lengthHigh, 0);
      block[57] := ByteOf(lengthHigh, 1);
      block[58] := ByteOf(lengthHigh, 2);
      block[59] := ByteOf(lengthHigh, 3);
      block[60] := ByteOf(lengthLow, 0);
      block[61] := ByteOf(lengthLow, 1);
      block[62] := ByteOf(lengthLow, 2);
      block[63] := ByteOf(lengthLow, 3);
      LengthBytesShifts(|message|, lengthHigh, lengthLow);
    }

    /** `SHA1ProcessMessageBlock`. */
    method ProcessBlock()
      requires Shape()
      modifies digest, `index
      ensures Shape() && index == 0
      ensures Value() == Compress(old(Value()), block[..])
    {
      hide Rounds, Plus;
      var W := Expand();
      var A, B, C, D, E := Mangle(W);
      digest[0] := Plus(digest[0], A);
      digest[1] := Plus(digest[1], B);
      digest[2] := Plus(digest[2], C);
      digest[3] := Plus(digest[3], D);
      digest[4] := Plus(digest[4], E);
      index := 0;
    }

    /** The four loops over the word buffers. */
    method Mangle(W: array<bv32>) returns (A: bv32, B: bv32, C: bv32, D: bv32, E: bv32)
      requires Shape() && W.Length == 80
      requires forall t :: 0 <= t < 80 ==> W[t] == Schedule(block[..], t)
      ensures Digest(A, B, C, D, E) == Rounds(Value(), block[..], 80)
    {
      hide CircularShift, Temp, Choose, Parity, Majority, Schedule, Rounds;
      ghost var bytes, h := block[..], Value();
      A, B, C, D, E := digest[0], digest[1], digest[2], digest[3], digest[4];
      RoundsStart(h, bytes);
      for t := 0 to 20
        invariant Digest(A, B, C, D, E) == Rounds(h, bytes, t)
      {
        RoundsStep(h, bytes, t);
        var temp := Temp(A, Choose(B, C, D), E, W[t], 0x5A827999);
        A, B, C, D, E := temp, A, CircularShift(30, B), C, D;
      }
      for t := 20 to 40
        invariant Digest(A, B, C, D, E) == Rounds(h, bytes, t)
      {
        RoundsStep(h, bytes, t);
        var temp := Temp(A, Parity(B, C, D), E, W[t], 0x6ED9EBA1);
        A, B, C, D, E := temp, A, CircularShift(30, B), C, D;
      }
      for t := 40 to 60
        invariant Digest(A, B, C, D, E) == Rounds(h, bytes, t)
      {
        RoundsStep(h, bytes, t);
        var temp := Temp(A, Majority(B, C, D), E, W[t], 0x8F1BBCDC);
        A, B, C, D, E := temp, A, CircularShift(30, B), C, D;
      }
      for t := 60 to 80
        invariant Digest(A, B, C, D, E) == Rounds(h, bytes, t)
      {
        RoundsStep(h, bytes, t);
        var temp := Temp(A, Parity(B, C, D), E, W[t], 0xCA62C1D6);
        A, B, C, D, E := temp, A, CircularShift(30, B), C, D;
      }
    }

    /** The word sequence W of the block. */
    method Expand() returns (W: array<bv32>)
      requires Shape()
      ensures fresh(W) && W.Length == 80
      ensures forall t :: 0 <= t < 80 ==> W[t] == Schedule(block[..], t)
    {
      hide Mix, Schedule, WordOf;
      W := new bv32[80];
      ghost var bytes := block[..];
      for t := 0 to 16
        invariant forall u :: 0 <= u < t ==> W[u] == Schedule(bytes, u)
      {
        ScheduleStart(bytes, t);
        W[t] := WordOf(block[t * 4], block[t * 4 + 1], block[t * 4 + 2], block[t * 4 + 3]);
      }
      for t := 16 to 80
        invariant forall u :: 0 <= u < t ==> W[u] == Schedule(bytes, u)
      {
        ScheduleStep(bytes, t);
        W[t] := Mix(W[t - 3], W[t - 8], W[t - 14], W[t - 16]);
      }
    }
  }

  function Flatten(chunks: seq<seq<Byte>>): seq<Byte> {
    if chunks == [] then [] else Flatten(chunks[..|chunks| - 1]) + chunks[|chunks| - 1]
  }

  /**
   * The use `sr_vns_comm.c` makes of the functions: reset, any number of inputs, result.
   * However the message is cut, the answer is the standard's digest of the whole,
   * and it is refused exactly when the message has 2^64 bits or more.
   */
  method HashChunks(chunks: seq<seq<Byte>>) returns (ok: bool, d: Digest)
    ensures ok <==> |Flatten(chunks)| < MESSAGE_LIMIT
    ensures ok ==> d == Sha1(Flatten(chunks))
  {
    hide Sha1;
    var ctx := new Context();
    for i := 0 to |chunks|
      invariant fresh(ctx) && fresh(ctx.digest) && fresh(ctx.block)
      invariant ctx.Valid() && !ctx.computed
      invariant ctx.corrupted <==> |Flatten(chunks[..i])| >= MESSAGE_LIMIT
      invariant !ctx.corrupted ==> ctx.message == Flatten(chunks[..i])
    {
      assert chunks[..i + 1][..i] == chunks[..i];
      ctx.Input(chunks[i]);
    }
    assert chunks[..|chunks|] == chunks;
    ok := ctx.Result();
    d := ctx.Value();
  }

  /** Input after the result latches failure: every later result is refused until the next reset. */
  method LateInputIsRefused(ctx: Context, late: seq<Byte>, more: seq<seq<Byte>>) returns (ok: bool)
    requires ctx.Valid() && ctx.computed && late != []
    modifies ctx, ctx.digest, ctx.block
    ensures !ok && ctx.Valid() && ctx.corrupted
  {
    ctx.Input(late);
    for i := 0 to |more|
      invariant ctx.Valid() && ctx.corrupted
    {
      ctx.Input(more[i]);
    }
    ok := ctx.Result();
  }
}
