/** Machine words as bounded integers, the byte order of the wire, and bitwise conjunction. */
module Words {

  type Byte = b: int | 0 <= b < 0x100
  type Word16 = w: int | 0 <= w < 0x1_0000
  type Word32 = w: int | 0 <= w < 0x1_0000_0000

  datatype Option<+T> = None | Some(value: T)

  /** `htons` / `ntohs` on the little-endian host the sources are configured for. */
  function Swap16(w: Word16): Word16 {
    w % 256 * 256 + w / 256
  }

  lemma Swap16Involutive(w: Word16)
    ensures Swap16(Swap16(w)) == w
  {
  }

  /** The two bytes of a 16-bit field in network order. */
  function Bytes16(w: Word16): (bs: seq<Byte>)
    ensures |bs| == 2
  {
    [w / 256, w % 256]
  }

  function Join16(hi: Byte, lo: Byte): Word16 {
    hi * 256 + lo
  }

  /** The four bytes of a 32-bit field in network order. */
  function Bytes32(w: Word32): (bs: seq<Byte>)
    ensures |bs| == 4
  {
    Bytes16(w / 0x1_0000) + Bytes16(w % 0x1_0000)
  }

  function Join32(bs: seq<Byte>): Word32
    requires |bs| == 4
  {
    Join16(bs[0], bs[1]) * 0x1_0000 + Join16(bs[2], bs[3])
  }

  lemma Join32Bytes32(w: Word32)
    ensures Join32(Bytes32(w)) == w
  {
    var bs := Bytes32(w);
    assert bs[0] == Bytes16(w / 0x1_0000)[0] && bs[1] == Bytes16(w / 0x1_0000)[1];
    assert bs[2] == Bytes16(w % 0x1_0000)[0] && bs[3] == Bytes16(w % 0x1_0000)[1];
    Join16Bytes16(w / 0x1_0000);
    Join16Bytes16(w % 0x1_0000);
  }

  lemma Join16Bytes16(w: Word16)
    ensures Join16(Bytes16(w)[0], Bytes16(w)[1]) == w
  {
  }

  lemma Bytes16Join16(hi: Byte, lo: Byte)
    ensures Bytes16(Join16(hi, lo)) == [hi, lo]
  {
  }

  lemma Bytes32Join32(bs: seq<Byte>)
    requires |bs| == 4
    ensures Bytes32(Join32(bs)) == bs
  {
    var hi, lo := Join16(bs[0], bs[1]), Join16(bs[2], bs[3]);
    assert Join32(bs) / 0x1_0000 == hi && Join32(bs) % 0x1_0000 == lo;
    Bytes16Join16(bs[0], bs[1]);
    Bytes16Join16(bs[2], bs[3]);
  }

  /** Bitwise conjunction, bit by bit from the bottom. */
  function And(x: nat, y: nat): nat {
    if x == 0 || y == 0 then 0
    else (if x % 2 == 1 && y % 2 == 1 then 1 else 0) + 2 * And(x / 2, y / 2)
  }

  /** `x >> j`. */
  function ShiftRight(x: nat, j: nat): nat {
    if j == 0 then x else ShiftRight(x / 2, j - 1)
  }

  /** `x << j`. */
  function ShiftLeft(x: nat, j: nat): nat {
    if j == 0 then x else 2 * ShiftLeft(x, j - 1)
  }

  /** `m` ones above `j` zeros. */
  function Mask(m: nat, j: nat): nat {
    if j > 0 then 2 * Mask(m, j - 1)
    else if m > 0 then 2 * Mask(m - 1, 0) + 1
    else 0
  }

  /** Masking an `m + j` bit number with `m` ones above `j` zeros clears its `j` low bits and nothing else. */
  lemma {:induction false} AndMask(x: nat, m: nat, j: nat)
    requires ShiftRight(x, m + j) == 0
    ensures And(x, Mask(m, j)) == ShiftLeft(ShiftRight(x, j), j)
    decreases m + j
  {
    if j > 0 {
      AndEven(x, Mask(m, j - 1));
      AndMask(x / 2, m, j - 1);
    } else if m > 0 {
      AndMask(x / 2, m - 1, 0);
      assert Mask(m, 0) / 2 == Mask(m - 1, 0);
    }
  }

  lemma AndEven(x: nat, h: nat)
    ensures And(x, 2 * h) == 2 * And(x / 2, h)
  {
    if x != 0 && h != 0 {
      assert 2 * h / 2 == h && 2 * h % 2 == 0;
    }
  }

  lemma {:induction false} ShiftLeftInjective(x: nat, y: nat, j: nat)
    requires ShiftLeft(x, j) == ShiftLeft(y, j)
    ensures x == y
  {
    if j > 0 {
      ShiftLeftInjective(x, y, j - 1);
    }
  }

  /** A longer run of leading ones is a greater number. */
  lemma {:induction false} MaskGrows(m: nat, j: nat)
    requires j > 0
    ensures Mask(m, j) < Mask(m + 1, j - 1)
  {
    if j > 1 {
      MaskGrows(m, j - 1);
    } else {
      assert Mask(m + 1, 0) == 2 * Mask(m, 0) + 1;
      assert Mask(m, 1) == 2 * Mask(m, 0);
    }
  }

  lemma {:induction false} ShiftRightAll(x: nat, n: nat)
    requires x < ShiftLeft(1, n)
    ensures ShiftRight(x, n) == 0
  {
    if n > 0 {
      ShiftRightAll(x / 2, n - 1);
    }
  }
}
