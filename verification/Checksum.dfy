/** The one's complement summation of the packet headers, and the Internet checksum it stands for. */
module Checksum {
  import opened Ints

  function Word(high: byte, low: byte): uint16 {
    0x100 * high + low
  }

  /** The network-order words of `s`, added without any carry handling; an odd last byte counts as a low byte. */
  function WordSum(s: seq<byte>): nat {
    if |s| == 0 then 0
    else if |s| == 1 then s[0]
    else Word(s[0], s[1]) + WordSum(s[2..])
  }

  /** The carries of a 32-bit sum added back once. */
  function Fold(sum: nat): nat {
    sum / 0x1_0000 + sum % 0x1_0000
  }

  /** Adding the carries once produces another carry. */
  predicate CarriesAgain(sum: nat) {
    Fold(sum) >= 0x1_0000
  }

  /** One fold, cut to sixteen bits. */
  function Short(sum: nat): uint16 {
    Fold(sum) % 0x1_0000
  }

  function ShortSum(s: seq<byte>): uint16 {
    Short(WordSum(s))
  }

  function Complement(x: uint16): uint16 {
    0xffff - x
  }

  lemma WordSumStep(s: seq<byte>, i: nat)
    requires 2 * i + 1 < |s|
    ensures WordSum(s[2 * i..]) == Word(s[2 * i], s[2 * i + 1]) + WordSum(s[2 * i + 2..])
  {
    assert s[2 * i..][2..] == s[2 * i + 2..];
  }

  method OnesComplementShortSummation(data: seq<byte>, size: uint16) returns (r: uint16)
    requires size <= |data|
    ensures r == ShortSum(data[..size])
  {
    hide WordSum, Word;
    var sum: uint32 := 0;
    ghost var s := data[..size];
    assert s[0..] == s;
    for i := 0 to size / 2
      invariant sum <= 0xffff * i
      invariant sum + WordSum(s[2 * i..]) == WordSum(s)
    {
      WordSumStep(s, i);
      sum := sum + Word(data[2 * i], data[2 * i + 1]);
    }
    WordSumEnds(s[2 * (size / 2)..]);
    if size % 2 != 0 {
      sum := sum + data[size - 1];
    }
    sum := sum / 0x1_0000 + sum % 0x1_0000;
    return sum % 0x1_0000;
  }

  lemma WordSumEnds(s: seq<byte>)
    requires |s| < 2
    ensures WordSum(s) == if |s| == 1 then s[0] else 0
  {
  }

  lemma {:induction false} WordSumConcat(s: seq<byte>, t: seq<byte>)
    requires |s| % 2 == 0
    ensures WordSum(s + t) == WordSum(s) + WordSum(t)
  {
    if s == [] {
      assert s + t == t;
    } else {
      assert (s + t)[2..] == s[2..] + t;
      WordSumConcat(s[2..], t);
    }
  }

  lemma {:induction false} WordSumBound(s: seq<byte>)
    ensures 2 * WordSum(s) <= 0xffff * (|s| + 1)
  {
    if |s| > 1 {
      WordSumBound(s[2..]);
    }
  }

  // ----- the checksum of RFC 1071 -----

  /** One's complement addition: a carry out of the word is added at its low end. */
  function OnesAdd(x: uint16, y: uint16): uint16 {
    if x + y >= 0x1_0000 then x + y - 0xffff else x + y
  }

  /** The one's complement sum of the words of `s`; an odd last byte is followed by a zero byte. */
  function OnesSum(s: seq<byte>): uint16 {
    if |s| == 0 then 0
    else if |s| == 1 then Word(s[0], 0)
    else OnesAdd(Word(s[0], s[1]), OnesSum(s[2..]))
  }

  predicate Congruent(x: int, y: int) {
    (x - y) % 0xffff == 0
  }

  /** What an odd last byte counts more as a high byte than as a low one. */
  function Skew(s: seq<byte>): nat {
    if |s| % 2 == 0 then 0 else 0xff * (s[|s| - 1] as int)
  }

  lemma {:induction false} OnesSumCongruent(s: seq<byte>)
    ensures Congruent(OnesSum(s), WordSum(s) + Skew(s))
    ensures OnesSum(s) == 0 <==> WordSum(s) + Skew(s) == 0
  {
    hide OnesAdd, Congruent;
    NothingCongruent();
    if |s| == 1 {
      SameCongruent(OnesSum(s), WordSum(s) + Skew(s));
    } else if |s| > 1 {
      OnesSumCongruent(s[2..]);
      SkewOfRest(s);
      OnesAddCongruent(Word(s[0], s[1]), OnesSum(s[2..]), WordSum(s[2..]) + Skew(s[2..]));
    }
  }

  lemma SkewOfRest(s: seq<byte>)
    requires |s| > 1
    ensures Skew(s[2..]) == Skew(s)
  {
  }

  lemma SameCongruent(x: int, y: int)
    requires x == y
    ensures Congruent(x, y)
  {
  }

  lemma NothingCongruent()
    ensures Congruent(0, 0)
  {
  }

  lemma OnesAddCongruent(x: uint16, y: uint16, sum: nat)
    requires Congruent(y, sum) && (y == 0 <==> sum == 0)
    ensures Congruent(OnesAdd(x, y), x + sum)
    ensures OnesAdd(x, y) == 0 <==> x + sum == 0
  {
    var q := (y - sum) / 0xffff;
    assert y - sum == 0xffff * q;
    assert OnesAdd(x, y) - (x + sum) == 0xffff * (if x + y >= 0x1_0000 then q - 1 else q);
  }

  lemma FoldCongruent(sum: nat)
    ensures Congruent(Fold(sum), sum)
    ensures Fold(sum) == 0 <==> sum == 0
  {
    assert sum - Fold(sum) == 0xffff * (sum / 0x1_0000);
  }

  /** The fold of anything the summation can meet carries at most once more. */
  lemma ShortCongruent(sum: nat)
    requires sum < 0x1_0000_0000
    ensures Congruent(Short(sum) + (if CarriesAgain(sum) then 1 else 0), sum)
    ensures Short(sum) == Fold(sum) - if CarriesAgain(sum) then 0x1_0000 else 0
  {
    hide Congruent;
    FoldCongruent(sum);
    FoldBelow(sum);
    if CarriesAgain(sum) {
      LostCarry(Fold(sum), sum);
    }
  }

  lemma LostCarry(x: int, y: int)
    requires Congruent(x, y)
    ensures Congruent(x - 0x1_0000 + 1, y)
  {
    var q := (x - y) / 0xffff;
    assert x - y == 0xffff * q;
    assert x - 0x1_0000 + 1 - y == 0xffff * (q - 1);
  }

  lemma SameResidue(x: uint16, y: uint16)
    requires Congruent(x, y) && (x == 0 <==> y == 0)
    ensures x == y
  {
  }

  /** A sum that lost a carry, or a skew of an odd byte, leave another residue than the one's complement sum. */
  lemma ResiduesDiffer(short: int, ones: int, sum: int, lost: int, last: int)
    requires Congruent(short + lost, sum) && Congruent(ones, sum + 0xff * last)
    requires 0 <= lost <= 4 && 0 <= last <= 0xff && lost + last > 0
    ensures short != ones
  {
    var q, r := (short + lost - sum) / 0xffff, (ones - sum - 0xff * last) / 0xffff;
    assert short - ones == 0xffff * (q - r) - lost - 0xff * last;
    assert lost + 0xff * last == 0xff * (0x101 * (q - r)) - (short - ones);
  }

  /** Whether an odd last byte has the same value in both readings. */
  predicate EvenOrZeroEnd(s: seq<byte>) {
    |s| % 2 == 1 ==> s[|s| - 1] == 0
  }

  /**
   * The summation is the one's complement sum exactly when its fold does not carry again and no
   * odd last byte has a value.
   */
  lemma SummationIsOnesSum(s: seq<byte>)
    requires |s| < 0x1_0000
    ensures ShortSum(s) == OnesSum(s) <==> !CarriesAgain(WordSum(s)) && EvenOrZeroEnd(s)
  {
    hide WordSum, OnesSum, CarriesAgain, Congruent;
    WordSumBound(s);
    var w := WordSum(s);
    ShortCongruent(w);
    FoldCongruent(w);
    OnesSumCongruent(s);
    var last := if |s| % 2 == 1 then s[|s| - 1] else 0;
    if last == 0 && !CarriesAgain(w) {
      SameResidueOf(ShortSum(s), OnesSum(s), w);
    } else {
      ResiduesDiffer(ShortSum(s), OnesSum(s), w, if CarriesAgain(w) then 1 else 0, last);
    }
  }

  lemma SameResidueOf(x: uint16, y: uint16, sum: nat)
    requires Congruent(x, sum) && Congruent(y, sum) && (x == 0 <==> sum == 0) && (y == 0 <==> sum == 0)
    ensures x == y
  {
    var q, r := (x - sum) / 0xffff, (y - sum) / 0xffff;
    assert x - y == 0xffff * (q - r);
    SameResidue(x, y);
  }

  /** The shortest text on which the summation is not the one's complement sum. */
  lemma OddByteDiffers()
    ensures ShortSum([1]) == 1 && OnesSum([1]) == 0x100
  {
  }

  lemma MultipleFolds(m: nat)
    requires 0 < m <= 0xffff
    ensures Fold(0xffff * m) == 0xffff
  {
    assert 0xffff * m == 0x1_0000 * (m - 1) + (0x1_0000 - m);
  }

  /** All bits set is the sum exactly when it is the one's complement sum: the check is that of RFC 1071. */
  lemma AllOnesIsOnesSum(s: seq<byte>)
    requires |s| % 2 == 0 && |s| < 0x1_0000
    ensures ShortSum(s) == 0xffff <==> OnesSum(s) == 0xffff
  {
    hide WordSum, OnesSum, Short, Congruent;
    WordSumBound(s);
    OnesSumCongruent(s);
    assert Skew(s) == 0;
    OnesMeansMultiple(OnesSum(s), WordSum(s));
    ShortMeansMultiple(WordSum(s));
  }

  lemma OnesMeansMultiple(ones: uint16, sum: nat)
    requires Congruent(ones, sum) && (ones == 0 <==> sum == 0)
    ensures ones == 0xffff <==> sum > 0 && sum % 0xffff == 0
  {
    var q := (ones - sum) / 0xffff;
    assert ones == sum + 0xffff * q;
  }

  lemma ShortMeansMultiple(sum: nat)
    requires sum < 0x8000_0000
    ensures Short(sum) == 0xffff <==> sum > 0 && sum % 0xffff == 0
  {
    hide CarriesAgain, Fold;
    FoldCongruent(sum);
    FoldBelow(sum);
    if sum > 0 && sum % 0xffff == 0 {
      MultipleFolds(sum / 0xffff);
    }
  }

  lemma FoldBelow(sum: nat)
    requires sum < 0x1_0000_0000
    ensures Fold(sum) < 0x1_ffff
    ensures Short(sum) == 0xffff ==> Fold(sum) == 0xffff
  {
  }
}
