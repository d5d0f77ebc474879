/** The Internet checksum of `sr_utils.c` (RFC 1071, RFC 791 section 3.1). */
module Checksum {
  import opened Words

  /** The sum of the big-endian 16-bit words of `data`; an odd last byte is a high byte. */
  function WordSum(data: seq<Byte>): nat {
    if |data| == 0 then 0
    else if |data| == 1 then Join16(data[0], 0)
    else Join16(data[0], data[1]) + WordSum(data[2..])
  }

  /** One's-complement folding of a 32-bit accumulator, one carry round at a time. */
  function Fold(sum: nat): (r: nat)
    ensures r <= 0xffff && r % 0xffff == sum % 0xffff
    ensures r == 0 <==> sum == 0
  {
    if sum <= 0xffff then sum
    else
      CarryKeepsResidue(sum, sum / 0x1_0000, sum % 0x1_0000);
      Fold(sum / 0x1_0000 + sum % 0x1_0000)
  }

  lemma CarryKeepsResidue(sum: nat, high: nat, low: nat)
    requires sum == 0x1_0000 * high + low
    ensures (high + low) % 0xffff == sum % 0xffff
  {
    assert sum == 0xffff * high + (high + low);
  }

  /** The one value in 1..65535 that is congruent to `-sum` modulo 65535. */
  function Complement(sum: nat): Word16 {
    0xffff - sum % 0xffff
  }

  lemma ComplementUnique(sum: nat, r: Word16)
    ensures r == Complement(sum) <==> 1 <= r && (r + sum) % 0xffff == 0
  {
  }

  /** The checksum as it lies on the wire, in network order; `cksum` returns it with its bytes swapped. */
  function NetChecksum(data: seq<Byte>): Word16 {
    Complement(Wrap(WordSum(data)))
  }

  /**
   * `cksum`: the accumulator is 32 bits wide, `~` is truncated to 16 bits by `htons`,
   * and a zero result is replaced by all ones.
   */
  method Cksum(data: seq<Byte>) returns (r: Word16)
    ensures Swap16(r) == NetChecksum(data)
    ensures |data| <= 131074 ==> 1 <= Swap16(r) && (Swap16(r) + WordSum(data)) % 0xffff == 0
  {
    var sum, i := 0, 0;
    ghost var carries := 0;
    while |data| - i >= 2
      invariant 0 <= i <= |data|
      invariant 0 <= sum < 0x1_0000_0000
      invariant sum + 0x1_0000_0000 * carries + WordSum(data[i..]) == WordSum(data)
    {
      assert data[i..][2..] == data[i + 2..];
      sum := sum + Join16(data[i], data[i + 1]);
      if sum >= 0x1_0000_0000 {
        sum, carries := sum - 0x1_0000_0000, carries + 1;
      }
      i := i + 2;
    }
    if |data| - i > 0 {
      sum := sum + Join16(data[i], 0);
      if sum >= 0x1_0000_0000 {
        sum, carries := sum - 0x1_0000_0000, carries + 1;
      }
    }
    WrapIs(WordSum(data), sum, carries);
    ghost var total := sum;
    while sum > 0xffff
      invariant 0 <= sum && Fold(sum) == Fold(total)
      decreases sum
    {
      sum := sum / 0x1_0000 + sum % 0x1_0000;
    }
    r := Swap16(0xffff - sum);
    if r == 0 {
      r := 0xffff;
    }
    FinishIsComplement(total, sum, r);
    if |data| <= 131074 {
      ShortChecksum(data);
      ComplementUnique(WordSum(data), Swap16(r));
    }
  }

  /** What is left of a sum in the 32 bits of the accumulator. */
  function Wrap(x: nat): nat {
    x % 0x1_0000_0000
  }

  lemma WrapIs(x: nat, r: nat, carries: int)
    requires r < 0x1_0000_0000 && x == r + 0x1_0000_0000 * carries
    ensures Wrap(x) == r
  {
  }

  lemma ShortChecksum(data: seq<Byte>)
    requires |data| <= 131074
    ensures NetChecksum(data) == Complement(WordSum(data))
  {
    WordSumBound(data);
    WrapIs(WordSum(data), WordSum(data), 0);
  }

  lemma FinishIsComplement(total: nat, folded: Word16, r: Word16)
    requires folded == Fold(total)
    requires r == if Swap16(0xffff - folded) == 0 then 0xffff else Swap16(0xffff - folded)
    ensures Swap16(r) == Complement(total)
  {
    Swap16Involutive(0xffff - folded);
  }

  /** 65537 words are the most a 32-bit accumulator can hold: up to 131074 bytes never wrap. */
  lemma {:induction false} WordSumBound(data: seq<Byte>)
    ensures WordSum(data) <= (|data| + 1) / 2 * 0xffff
  {
    if |data| >= 2 {
      WordSumBound(data[2..]);
    }
  }

  /** Two more bytes can wrap: the bound on the length is exact. */
  lemma {:induction false} AllOnesSum(data: seq<Byte>)
    requires forall i :: 0 <= i < |data| ==> data[i] == 0xff
    requires |data| % 2 == 0
    ensures WordSum(data) == |data| / 2 * 0xffff
    ensures |data| == 131076 ==> NetChecksum(data) != Complement(WordSum(data))
  {
    if |data| >= 2 {
      AllOnesSum(data[2..]);
    }
  }

  lemma {:induction false} WordSumConcat(a: seq<Byte>, b: seq<Byte>)
    requires |a| % 2 == 0
    ensures WordSum(a + b) == WordSum(a) + WordSum(b)
  {
    if |a| == 0 {
      assert a + b == b;
    } else {
      assert (a + b)[2..] == a[2..] + b;
      WordSumConcat(a[2..], b);
    }
  }

  // ----- what the checksum does and does not see

  function WordSeq(data: seq<Byte>): (ws: seq<Word16>)
    ensures |ws| == (|data| + 1) / 2
  {
    if |data| == 0 then []
    else if |data| == 1 then [Join16(data[0], 0)]
    else [Join16(data[0], data[1])] + WordSeq(data[2..])
  }

  function Total(ws: seq<Word16>): nat {
    if ws == [] then 0 else ws[0] + Total(ws[1..])
  }

  lemma {:induction false} WordSumIsTotal(data: seq<Byte>)
    ensures WordSum(data) == Total(WordSeq(data))
  {
    if |data| >= 2 {
      WordSumIsTotal(data[2..]);
    }
  }

  lemma {:induction false} TotalConcat(a: seq<Word16>, b: seq<Word16>)
    ensures Total(a + b) == Total(a) + Total(b)
  {
    if a == [] {
      assert a + b == b;
    } else {
      assert (a + b)[1..] == a[1..] + b;
      TotalConcat(a[1..], b);
    }
  }

  lemma {:induction false} TotalOfMultiset(a: seq<Word16>, b: seq<Word16>)
    requires multiset(a) == multiset(b)
    ensures Total(a) == Total(b)
  {
    if a == [] {
      assert |multiset(b)| == 0;
    } else {
      var k := MoveToFront(a, b);
      var rest := b[..k] + b[k + 1..];
      TotalOfMultiset(a[1..], rest);
      TotalConcat(b[..k], b[k + 1..]);
      assert b == b[..k] + ([b[k]] + b[k + 1..]);
      TotalConcat(b[..k], [b[k]] + b[k + 1..]);
    }
  }

  lemma MoveToFront(a: seq<Word16>, b: seq<Word16>) returns (k: nat)
    requires a != [] && multiset(a) == multiset(b)
    ensures k < |b| && b[k] == a[0] && multiset(a[1..]) == multiset(b[..k] + b[k + 1..])
  {
    assert a[0] in multiset(a);
    k :| 0 <= k < |b| && b[k] == a[0];
    assert b == b[..k] + [b[k]] + b[k + 1..];
    assert a == [a[0]] + a[1..];
    assert multiset(b) == multiset{b[k]} + multiset(b[..k] + b[k + 1..]);
    assert multiset(a) == multiset{a[0]} + multiset(a[1..]);
    assert multiset(a[1..]) == multiset(a) - multiset{a[0]};
    assert multiset(b[..k] + b[k + 1..]) == multiset(b) - multiset{a[0]};
  }

  /** Word order is invisible to the checksum. */
  lemma ReorderingIsInvisible(a: seq<Byte>, b: seq<Byte>)
    requires multiset(WordSeq(a)) == multiset(WordSeq(b))
    ensures NetChecksum(a) == NetChecksum(b)
  {
    WordSumIsTotal(a);
    WordSumIsTotal(b);
    TotalOfMultiset(WordSeq(a), WordSeq(b));
  }

  /** `data` with the word at byte offset `at` replaced. */
  function WithWord(data: seq<Byte>, at: nat, w: Word16): (r: seq<Byte>)
    requires at + 2 <= |data|
    ensures |r| == |data|
  {
    data[..at] + Bytes16(w) + data[at + 2..]
  }

  lemma WordSumWithWord(data: seq<Byte>, at: nat, w: Word16)
    requires at + 2 <= |data| && at % 2 == 0
    ensures WordSum(WithWord(data, at, w)) == WordSum(data[..at]) + w + WordSum(data[at + 2..])
  {
    WordSumConcat(data[..at] + Bytes16(w), data[at + 2..]);
    WordSumConcat(data[..at], Bytes16(w));
    Join16Bytes16(w);
  }

  lemma WithOwnWord(data: seq<Byte>, at: nat)
    requires at + 2 <= |data|
    ensures WithWord(data, at, Join16(data[at], data[at + 1])) == data
  {
    Bytes16Join16(data[at], data[at + 1]);
  }

  /** A change to a single word goes unseen exactly when it swaps the two representations of zero. */
  lemma SingleWordDetection(data: seq<Byte>, at: nat, w: Word16)
    requires at + 2 <= |data| <= 131074 && at % 2 == 0
    ensures var u := Join16(data[at], data[at + 1]);
      NetChecksum(WithWord(data, at, w)) == NetChecksum(data)
      <==> (u == w || (u == 0 && w == 0xffff) || (u == 0xffff && w == 0))
  {
    var u := Join16(data[at], data[at + 1]);
    WithOwnWord(data, at);
    WordSumWithWord(data, at, u);
    WordSumWithWord(data, at, w);
    ShortChecksum(data);
    ShortChecksum(WithWord(data, at, w));
    SameResidue(WordSum(data), WordSum(WithWord(data, at, w)), w - u);
  }

  lemma SameResidue(a: nat, b: nat, d: int)
    requires b == a + d && -0xffff <= d <= 0xffff
    ensures a % 0xffff == b % 0xffff <==> d in {-0xffff, 0, 0xffff}
  {
  }

  // ----- the receiver's check

  /** The check of `sr_handlepacket`: clear the field, recompute, compare with what was stored. */
  predicate Accepts(data: seq<Byte>, at: nat)
    requires at + 2 <= |data|
  {
    Join16(data[at], data[at + 1]) == NetChecksum(WithWord(data, at, 0))
  }

  /** The check is the RFC 1071 rule, "the sum over everything folds to all ones", for a non-zero field. */
  lemma AcceptsIffSumFolds(data: seq<Byte>, at: nat)
    requires at + 2 <= |data| <= 131074 && at % 2 == 0
    ensures Accepts(data, at) <==> Join16(data[at], data[at + 1]) != 0 && Fold(WordSum(data)) == 0xffff
  {
    hide WithWord, WordSum, Complement, NetChecksum, Fold, Join16;
    var field := Join16(data[at], data[at + 1]);
    var zeroed := WithWord(data, at, 0);
    WithOwnWord(data, at);
    WordSumWithWord(data, at, field);
    WordSumWithWord(data, at, 0);
    ShortChecksum(zeroed);
    var sum := WordSum(zeroed);
    assert WordSum(data) == sum + field;
    FoldsToOnes(sum, field);
  }

  lemma FoldsToOnes(sum: nat, field: Word16)
    ensures field == Complement(sum) <==> field != 0 && Fold(sum + field) == 0xffff
  {
    ComplementUnique(sum, field);
  }

  /** Writing the computed checksum into the field always makes the check pass. */
  lemma SealedIsAccepted(data: seq<Byte>, at: nat)
    requires at + 2 <= |data|
    ensures Accepts(WithWord(data, at, NetChecksum(WithWord(data, at, 0))), at)
  {
    var sum := NetChecksum(WithWord(data, at, 0));
    WithWordTwice(data, at, sum, 0);
    Join16Bytes16(sum);
  }

  lemma WithWordTwice(data: seq<Byte>, at: nat, v: Word16, w: Word16)
    requires at + 2 <= |data|
    ensures WithWord(WithWord(data, at, v), at, w) == WithWord(data, at, w)
  {
    var once := WithWord(data, at, v);
    assert once[..at] == data[..at] && once[at + 2..] == data[at + 2..];
  }
}
