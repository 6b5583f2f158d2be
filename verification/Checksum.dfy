// The Internet checksum (sections 1 and 2 of RFC 1071) and big-endian fields
// of a packet buffer.
module Checksum {

  type byte = x: int | 0 <= x < 256

  const WORD: nat := 0x1_0000
  const ONES: nat := 0xFFFF

  function U16At(s: seq<byte>, off: nat): (r: nat)
    requires off + 2 <= |s|
    ensures r < WORD
  {
    (s[off] as nat) * 256 + s[off + 1] as nat
  }

  function SetU16(s: seq<byte>, off: nat, v: nat): (r: seq<byte>)
    requires off + 2 <= |s| && v < WORD
    ensures |r| == |s| && U16At(r, off) == v
    ensures forall i :: 0 <= i < |s| && !(off <= i < off + 2) ==> r[i] == s[i]
  {
    s[off := v / 256][off + 1 := v % 256]
  }

  // The sum of the 16-bit words, an odd last byte padded with zero.
  function WordSum(s: seq<byte>): nat {
    if |s| == 0 then 0
    else if |s| == 1 then (s[0] as nat) * 256
    else U16At(s, 0) + WordSum(s[2..])
  }

  // End-around carry, twice.
  function Fold(sum: nat): nat {
    var once := sum / WORD + sum % WORD;
    once / WORD + once % WORD
  }

  lemma FoldOnce(sum: nat)
    ensures (sum / WORD + sum % WORD) % ONES == sum % ONES
    ensures sum / WORD + sum % WORD == 0 <==> sum == 0
  {
    var hi, lo := sum / WORD, sum % WORD;
    assert sum == hi + lo + hi * ONES;
    ModPlusMultiple(hi + lo, hi);
  }

  lemma {:induction false} ModPlusMultiple(x: nat, k: nat)
    ensures (x + k * ONES) % ONES == x % ONES
  {
    if k > 0 {
      ModPlusMultiple(x, k - 1);
      assert x + k * ONES == (x + (k - 1) * ONES) + ONES;
    }
  }

  // Folding keeps the residue modulo 2^16 - 1 and keeps zero apart from the
  // other multiples of it.
  lemma FoldResidue(sum: nat)
    requires sum < WORD * WORD
    ensures Fold(sum) < WORD
    ensures Fold(sum) % ONES == sum % ONES
    ensures Fold(sum) == 0 <==> sum == 0
  {
    FoldOnce(sum);
    FoldOnce(sum / WORD + sum % WORD);
  }

  // A 16-bit value is determined by its residue and by whether it is zero.
  lemma FoldUnique(a: nat, b: nat)
    requires a < WORD * WORD && b < WORD * WORD
    requires a % ONES == b % ONES && (a == 0 <==> b == 0)
    ensures Fold(a) == Fold(b)
  {
    FoldResidue(a);
    FoldResidue(b);
  }

  lemma ModOfSum(a: nat, b: nat)
    ensures (a + b) % ONES == (a % ONES + b % ONES) % ONES
  {
    ModPlusMultiple(a % ONES + b % ONES, a / ONES + b / ONES);
    assert a + b == (a % ONES + b % ONES) + (a / ONES + b / ONES) * ONES;
  }

  // Folding partial sums first does not change the folded total.
  lemma FoldCombines(a: nat, b: nat)
    requires a + b < WORD * WORD
    ensures Fold(Fold(a) + Fold(b)) == Fold(a + b)
  {
    FoldResidue(a);
    FoldResidue(b);
    ModOfSum(a, b);
    ModOfSum(Fold(a), Fold(b));
    FoldUnique(Fold(a) + Fold(b), a + b);
  }

  // The RFC 1071 acceptance test, a folded sum of all ones, holds exactly of
  // the positive multiples of 2^16 - 1.
  lemma AllOnesIff(sum: nat)
    requires sum < WORD * WORD
    ensures Fold(sum) == ONES <==> sum > 0 && sum % ONES == 0
  {
    FoldResidue(sum);
  }

  // Adding the complement of a non-zero sum makes the total pass the test.
  lemma ComplementVerifies(sum: nat)
    requires 0 < sum && sum + ONES < WORD * WORD
    ensures Fold(sum + (ONES - Fold(sum))) == ONES
  {
    FoldResidue(sum);
    ModOfSum(sum, ONES - Fold(sum));
    ModOfSum(Fold(sum), ONES - Fold(sum));
    AllOnesIff(sum + (ONES - Fold(sum)));
  }

  // The same with a zero complement sent as all ones.
  lemma NonZeroComplementVerifies(sum: nat)
    requires 0 < sum && sum + ONES < WORD * WORD
    ensures
      var complement := ONES - Fold(sum);
      var stored := if complement == 0 then ONES else complement;
      0 < stored < WORD && Fold(sum + stored) == ONES
  {
    FoldResidue(sum);
    ComplementVerifies(sum);
    if Fold(sum) == ONES {
      ModPlusMultiple(sum, 1);
      AllOnesIff(sum);
      AllOnesIff(sum + ONES);
    }
  }

  lemma {:induction false} WordSumBound(s: seq<byte>)
    ensures WordSum(s) <= ONES * ((|s| + 1) / 2)
  {
    if |s| > 1 {
      WordSumBound(s[2..]);
    }
  }

  // A word at an even offset contributes its value to the sum.
  lemma {:induction false} WordSumSet(s: seq<byte>, off: nat, v: nat)
    requires off + 2 <= |s| && off % 2 == 0 && v < WORD
    ensures WordSum(SetU16(s, off, v)) + U16At(s, off) == WordSum(s) + v
  {
    var t := SetU16(s, off, v);
    if off == 0 {
      assert t[2..] == s[2..];
    } else {
      WordSumSet(s[2..], off - 2, v);
      assert t[2..] == SetU16(s[2..], off - 2, v);
    }
  }

  lemma {:induction false} WordSumPositive(s: seq<byte>, i: nat)
    requires i < |s| && s[i] != 0
    ensures WordSum(s) > 0
  {
    if |s| > 1 && i >= 2 {
      WordSumPositive(s[2..], i - 2);
    }
  }
}
