/** The Base64 encoder of the web server's library, writing into a buffer of given size. */
module Base64 {
  import opened Ints
  import opened Wrappers

  // ----- the encoding of section 4 of RFC 4648 -----

  const UPPER := "ABCDEFGHIJKLMNOPQRSTUVWXYZ"
  const OTHERS := "abcdefghijklmnopqrstuvwxyz0123456789+/"
  const ALPHABET := UPPER + OTHERS

  type sextet = x: int | 0 <= x < 64

  /** Table 1 of RFC 4648. */
  function Digit(x: sextet): char {
    if x < 26 then (x + 65) as char
    else if x < 52 then (x - 26 + 97) as char
    else if x < 62 then (x - 52 + 48) as char
    else if x == 62 then '+'
    else '/'
  }

  /** The value of a character of the alphabet. */
  function ValueOf(c: char): Option<sextet> {
    if 'A' <= c <= 'Z' then Some(c as int - 65)
    else if 'a' <= c <= 'z' then Some(c as int - 97 + 26)
    else if '0' <= c <= '9' then Some(c as int - 48 + 52)
    else if c == '+' then Some(62)
    else if c == '/' then Some(63)
    else None
  }

  lemma UpperDigits(x: sextet)
    requires x < 26
    ensures ALPHABET[x] as int == x + 65
  {
    assert UPPER[x] as int == x + 65;
  }

  lemma LowerDigits(x: sextet)
    requires 26 <= x < 52
    ensures ALPHABET[x] as int == x - 26 + 97
  {
    assert OTHERS[x as int - 26] as int == x - 26 + 97;
  }

  lemma OtherDigits(x: sextet)
    requires 52 <= x
    ensures ALPHABET[x] as int == if x < 62 then x - 52 + 48 else if x == 62 then '+' as int else '/' as int
  {
    assert OTHERS[x as int - 26] as int == if x < 62 then x - 52 + 48 else if x == 62 then '+' as int else '/' as int;
  }

  /** The table in the code is the alphabet of the standard. */
  lemma AlphabetIsStandard(x: sextet)
    ensures B64(x) == Digit(x)
  {
    if x < 26 {
      UpperDigits(x);
    } else if x < 52 {
      LowerDigits(x);
    } else {
      OtherDigits(x);
    }
  }

  function B64(x: sextet): char {
    ALPHABET[x]
  }

  function Octet1(a: int, b: int): byte
    requires 0 <= a < 64 && 0 <= b < 64
  {
    4 * a + b / 16
  }

  function Octet2(b: int, c: int): byte
    requires 0 <= b < 64 && 0 <= c < 64
  {
    b % 16 * 16 + c / 4
  }

  function Octet3(c: int, d: int): byte
    requires 0 <= c < 64 && 0 <= d < 64
  {
    c % 4 * 64 + d
  }

  /** Four characters to up to three octets, padding only as section 4 of RFC 4648 has it. */
  function DecodeQuantum(q: string): Option<seq<byte>>
    requires |q| == 4
  {
    match (ValueOf(q[0]), ValueOf(q[1]), ValueOf(q[2]), ValueOf(q[3]))
    case (Some(a), Some(b), Some(c), Some(d)) => Some([Octet1(a, b), Octet2(b, c), Octet3(c, d)])
    case (Some(a), Some(b), Some(c), None) =>
      if q[3] == '=' && c % 4 == 0 then Some([Octet1(a, b), Octet2(b, c)]) else None
    case (Some(a), Some(b), None, None) =>
      if q[2] == '=' && q[3] == '=' && b % 16 == 0 then Some([Octet1(a, b)]) else None
    case _ => None
  }

  /** The octets that a text stands for; only the last quantum may be padded. */
  function Decode(text: string): Option<seq<byte>> {
    if |text| == 0 then Some([])
    else if |text| < 4 then None
    else
      match (DecodeQuantum(text[..4]), Decode(text[4..]))
      case (Some(b), Some(rest)) => if |b| == 3 || rest == [] then Some(b + rest) else None
      case _ => None
  }

  function Sextet1(a: byte): sextet {
    a / 4
  }

  function Sextet2(a: byte, b: byte): sextet {
    a % 4 * 16 + b / 16
  }

  function Sextet3(b: byte, c: byte): sextet {
    b % 16 * 4 + c / 64
  }

  function Sextet4(c: byte): sextet {
    c % 64
  }

  /** The character `k` of the quantum for the octets `a`, `b` and `c`, of which `n` are there. */
  function QuantumAt(a: byte, b: byte, c: byte, n: nat, k: nat): char {
    if k == 0 then Digit(Sextet1(a))
    else if k == 1 then Digit(Sextet2(a, b))
    else if k == 2 then (if n > 1 then Digit(Sextet3(b, c)) else '=')
    else if n > 2 then Digit(Sextet4(c))
    else '='
  }

  function Quantum(a: byte, b: byte, c: byte, n: nat): (q: string)
    ensures |q| == 4
  {
    [QuantumAt(a, b, c, n, 0), QuantumAt(a, b, c, n, 1), QuantumAt(a, b, c, n, 2), QuantumAt(a, b, c, n, 3)]
  }

  /** The quantum for the octets at the start of `s`; missing ones count as zero. */
  function FirstQuantum(s: seq<byte>): (q: string)
    requires |s| > 0
    ensures |q| == 4
  {
    Quantum(s[0], if |s| > 1 then s[1] else 0, if |s| > 2 then s[2] else 0, |s|)
  }

  /** Four characters for every three octets begun. */
  function TextLength(n: nat): nat {
    4 * ((n + 2) / 3)
  }

  function Encode(s: seq<byte>): (text: string)
    ensures |text| == TextLength(|s|)
  {
    if |s| == 0 then ""
    else if |s| <= 3 then FirstQuantum(s)
    else
      assert (|s| + 2) / 3 == (|s| - 3 + 2) / 3 + 1;
      FirstQuantum(s) + Encode(s[3..])
  }

  lemma DigitValue(x: sextet)
    ensures ValueOf(Digit(x)) == Some(x) && Digit(x) != '='
  {
  }

  lemma ValueDigit(c: char)
    ensures ValueOf(c).Some? ==> Digit(ValueOf(c).value) == c
    ensures ValueOf('=') == None
  {
  }

  lemma QuantumDecodes(s: seq<byte>)
    requires |s| > 0
    ensures DecodeQuantum(FirstQuantum(s)) == Some(if |s| < 3 then s else s[..3])
  {
    hide ValueOf, Digit, Sextet1, Sextet2, Sextet3, Sextet4, Octet1, Octet2, Octet3;
    var a, b, c := s[0], if |s| > 1 then s[1] else 0, if |s| > 2 then s[2] else 0;
    DigitValue(Sextet1(a));
    DigitValue(Sextet2(a, b));
    DigitValue(Sextet3(b, c));
    DigitValue(Sextet4(c));
    ValueDigit('=');
    OctetsOfSextets(a, b, c);
    assert if |s| == 1 then s == [a] else if |s| == 2 then s == [a, b] else s[..3] == [a, b, c];
  }

  lemma OctetsOfSextets(a: byte, b: byte, c: byte)
    ensures Octet1(Sextet1(a), Sextet2(a, b)) == a
    ensures Octet2(Sextet2(a, b), Sextet3(b, c)) == b
    ensures Octet3(Sextet3(b, c), Sextet4(c)) == c
    ensures b == 0 ==> Sextet2(a, b) % 16 == 0
    ensures c == 0 ==> Sextet3(b, c) % 4 == 0
  {
  }

  lemma SextetsOfOctets(a: sextet, b: sextet, c: sextet, d: sextet)
    ensures Sextet1(Octet1(a, b)) == a
    ensures Sextet2(Octet1(a, b), Octet2(b, c)) == b
    ensures Sextet3(Octet2(b, c), Octet3(c, d)) == c
    ensures Sextet4(Octet3(c, d)) == d
    ensures b % 16 == 0 ==> Sextet2(Octet1(a, b), 0) == b
    ensures c % 4 == 0 ==> Sextet3(Octet2(b, c), 0) == c
  {
  }

  /** Decoding gives back what was encoded. */
  lemma {:induction false} EncodeThenDecode(s: seq<byte>)
    ensures Decode(Encode(s)) == Some(s)
  {
    hide DecodeQuantum, FirstQuantum;
    if |s| > 0 {
      QuantumDecodes(s);
      assert Encode(s)[..4] == FirstQuantum(s);
      if |s| <= 3 {
        assert Encode(s)[4..] == "";
        assert s + [] == s;
      } else {
        assert Encode(s)[4..] == Encode(s[3..]);
        EncodeThenDecode(s[3..]);
        assert s == s[..3] + s[3..];
      }
    }
  }

  lemma QuantumEncodes(q: string)
    requires |q| == 4 && DecodeQuantum(q).Some?
    ensures var b := DecodeQuantum(q).value; 1 <= |b| <= 3 && FirstQuantum(b) == q
  {
    hide ValueOf, Digit, Sextet1, Sextet2, Sextet3, Sextet4, Octet1, Octet2, Octet3;
    ValueDigit(q[0]);
    ValueDigit(q[1]);
    ValueDigit(q[2]);
    ValueDigit(q[3]);
    match (ValueOf(q[0]), ValueOf(q[1]), ValueOf(q[2]), ValueOf(q[3])) {
      case (Some(a), Some(b), Some(c), Some(d)) => SextetsOfOctets(a, b, c, d);
      case (Some(a), Some(b), Some(c), None) => SextetsOfOctets(a, b, c, 0);
      case (Some(a), Some(b), None, None) => SextetsOfOctets(a, b, 0, 0);
    }
  }

  /** And no other text stands for the same octets. */
  lemma {:induction false} DecodeThenEncode(text: string)
    ensures Decode(text).Some? ==> Encode(Decode(text).value) == text
  {
    hide DecodeQuantum, FirstQuantum;
    if Decode(text).Some? && |text| > 0 {
      var q := text[..4];
      QuantumEncodes(q);
      DecodeThenEncode(text[4..]);
      var b, rest := DecodeQuantum(q).value, Decode(text[4..]).value;
      assert text == q + text[4..];
      if rest == [] {
        assert b + rest == b;
      } else {
        FirstOfThree(b, rest);
        assert (b + rest)[3..] == rest;
      }
    }
  }

  lemma FirstOfThree(b: seq<byte>, rest: seq<byte>)
    requires |b| == 3
    ensures FirstQuantum(b + rest) == FirstQuantum(b)
  {
  }

  /** The quantum that stands for the octets from `i` on. */
  lemma {:induction false} EncodeAt(s: seq<byte>, q: nat)
    requires 3 * q < |s|
    ensures 4 * q + 4 <= |Encode(s)| && Encode(s)[4 * q..4 * q + 4] == FirstQuantum(s[3 * q..])
  {
    hide FirstQuantum, Encode, TextLength;
    EncodeStep(s);
    if q == 0 {
      assert s[0..] == s;
    } else {
      var rest := s[3..];
      EncodeAt(rest, q - 1);
      assert rest[3 * (q - 1)..] == s[3 * q..];
      assert Encode(s)[4 * q..4 * q + 4] == Encode(rest)[4 * (q - 1)..4 * (q - 1) + 4];
    }
  }

  lemma EncodeStep(s: seq<byte>)
    requires |s| > 0
    ensures |s| <= 3 ==> Encode(s) == FirstQuantum(s)
    ensures |s| > 3 ==> Encode(s) == FirstQuantum(s) + Encode(s[3..])
  {
    hide FirstQuantum;
  }

  // ----- the encoder -----

  /** The first `j` characters of the text were written over the original contents, and nothing else. */
  ghost predicate Written(dst: array<char>, j: nat, text: string, original: seq<char>)
    reads dst
  {
    |original| == dst.Length && j <= |text| && j <= dst.Length && dst[..] == text[..j] + original[j..]
  }

  /** Writes the next character of the text. */
  method Put(dst: array<char>, j: nat, c: char, ghost text: string, ghost original: seq<char>)
    requires Written(dst, j, text, original) && j < |text| && j < dst.Length && c == text[j]
    modifies dst
    ensures Written(dst, j + 1, text, original)
  {
    dst[j] := c;
  }

  /** The number of characters without the padding. */
  function DigitCount(n: nat): nat {
    (4 * n + 2) / 3
  }

  lemma ExpectedChars(s: seq<byte>, i: nat, k: nat)
    requires i % 3 == 0 && i < |s| && k < 4
    ensures var b, c := if i + 1 < |s| then s[i + 1] else 0, if i + 2 < |s| then s[i + 2] else 0;
      i / 3 * 4 + k < |Encode(s)| && Encode(s)[i / 3 * 4 + k] == QuantumAt(s[i], b, c, |s| - i, k)
  {
    hide QuantumAt, Encode;
    var q := i / 3;
    assert i == 3 * q;
    EncodeAt(s, q);
    assert Encode(s)[4 * q..4 * q + 4][k] == Encode(s)[4 * q + k];
  }

  /**
   * What a call did with a buffer of `dstLen` characters: all of the text and a terminator, with
   * their number returned; or as much of the text as fits when it does not fit with a terminator.
   */
  ghost predicate Encoded(s: seq<byte>, dstLen: nat, before: string, after: string, r: int)
    requires dstLen <= |before|
  {
    var text := Encode(s);
    if dstLen > |text| then
      r == |text| + 1 && after == text + ['\0'] + before[r..]
    else
      r == -1 && after == text[..dstLen] + before[dstLen..]
  }

  method Base64Encode(src: seq<byte>, srcLen: int, dst: array<char>, dstLen: int) returns (r: int)
    requires srcLen <= |src| && dstLen <= dst.Length
    modifies dst
    ensures srcLen <= 0 || dstLen < 1 ==> r == -1 && dst[..] == old(dst[..])
    ensures srcLen > 0 && dstLen >= 1 ==> Encoded(src[..srcLen], dstLen, old(dst[..]), dst[..], r)
  {
    hide Encode, Encoded, QuantumAt, Written, B64, Digit, DigitCount, TextLength, Sextet1, Sextet2, Sextet3, Sextet4;
    if srcLen <= 0 || dstLen < 1 {
      return -1;
    }
    ghost var s := src[..srcLen];
    ghost var text := Encode(s);
    ghost var original := dst[..];
    var j: nat := 0;
    var i: nat := 0;
    Start(dst, text);
    while i < srcLen
      invariant i % 3 == 0 && j < dstLen && j == DigitCount(if i < srcLen then i else srcLen)
      invariant Written(dst, j, text, original)
    {
      var full;
      j, full := EncodeOctets(src, srcLen, i, dst, j, dstLen, original);
      if full {
        Full(s, dst, dstLen, original);
        return -1;
      }
      i := i + 3;
    }
    r := PadAndEnd(dst, j, dstLen, s, original);
  }

  /** The digits for the octets at `i`, with a check for space after each. */
  method EncodeOctets(src: seq<byte>, srcLen: nat, i: nat, dst: array<char>, start: nat, dstLen: nat,
      ghost original: string)
    returns (j: nat, full: bool)
    requires i < srcLen <= |src| && i % 3 == 0 && start == DigitCount(i) < dstLen <= dst.Length
    requires Written(dst, start, Encode(src[..srcLen]), original)
    modifies dst
    ensures Written(dst, j, Encode(src[..srcLen]), original)
    ensures if full then j == dstLen else j == DigitCount(if i + 3 < srcLen then i + 3 else srcLen) < dstLen
  {
    hide Encode, Written, B64, DigitCount, Sextet1, Sextet2, Sextet3, Sextet4;
    ghost var text := Encode(src[..srcLen]);
    j := start;
    full := false;
    var a := src[i];
    var b := if i + 1 >= srcLen then 0 else src[i + 1];
    var c := if i + 2 >= srcLen then 0 else src[i + 2];
    CharsOfOctets(src[..srcLen], i, a, b, c);
    Put(dst, j, B64(Sextet1(a)), text, original);
    j := j + 1;
    if j >= dstLen {
      return j, true;
    }
    Put(dst, j, B64(Sextet2(a, b)), text, original);
    j := j + 1;
    if j >= dstLen {
      return j, true;
    }
    if i + 1 < srcLen {
      Put(dst, j, B64(Sextet3(b, c)), text, original);
      j := j + 1;
    }
    if j >= dstLen {
      return j, true;
    }
    if i + 2 < srcLen {
      Put(dst, j, B64(Sextet4(c)), text, original);
      j := j + 1;
    }
    if j >= dstLen {
      return j, true;
    }
    DigitsSoFar(srcLen, i);
  }

  /** The padding and the terminator. */
  method PadAndEnd(dst: array<char>, start: nat, dstLen: int, ghost s: seq<byte>,
      ghost original: string) returns (r: int)
    requires |s| > 0 && dstLen <= dst.Length && start < dstLen && start == DigitCount(|s|)
    requires Written(dst, start, Encode(s), original)
    modifies dst
    ensures Encoded(s, dstLen, original, dst[..], r)
  {
    hide Encode, Encoded, Written, DigitCount, TextLength;
    ghost var text := Encode(s);
    var j := start;
    PaddingFollows(s);
    while j % 4 != 0
      invariant DigitCount(|s|) <= j <= |text| && j < dstLen
      invariant Written(dst, j, text, original)
      decreases |text| - j
    {
      Put(dst, j, '=', text, original);
      j := j + 1;
      if j >= dstLen {
        Full(s, dst, dstLen, original);
        return -1;
      }
    }
    AllWritten(dst, j, text, original);
    ghost var written := dst[..];
    dst[j] := '\0';
    assert dst[..] == written[j := '\0'];
    Ends(s, dstLen, original, written, dst[..]);
    j := j + 1;
    return j;
  }

  lemma Start(dst: array<char>, text: string)
    ensures Written(dst, 0, text, dst[..])
    ensures DigitCount(0) == 0
  {
  }

  lemma Full(s: seq<byte>, dst: array<char>, dstLen: nat, original: seq<char>)
    requires Written(dst, dstLen, Encode(s), original)
    ensures Encoded(s, dstLen, original, dst[..], -1)
  {
  }

  lemma AllWritten(dst: array<char>, j: nat, text: string, original: seq<char>)
    requires Written(dst, j, text, original) && j + 4 > |text| && j % 4 == |text| % 4
    ensures j == |text| && |original| == dst.Length && dst[..] == text + original[j..]
  {
  }

  lemma Ends(s: seq<byte>, dstLen: nat, original: string, written: string, after: string)
    requires |Encode(s)| < dstLen <= |original| && written == Encode(s) + original[|Encode(s)|..]
    requires after == written[|Encode(s)| := '\0']
    ensures Encoded(s, dstLen, original, after, |Encode(s)| + 1)
  {
    hide Encode;
    var n := |Encode(s)|;
    assert original[n..] == [original[n]] + original[n + 1..];
  }

  lemma DigitCountAt(q: nat, r: nat)
    requires r < 3
    ensures DigitCount(3 * q + r) == 4 * q + if r == 0 then 0 else r + 1
  {
  }

  lemma DigitsSoFar(n: nat, i: nat)
    requires i % 3 == 0 && i < n
    ensures DigitCount(if i + 3 < n then i + 3 else n) ==
      DigitCount(i) + (if i + 2 < n then 4 else if i + 1 < n then 3 else 2)
  {
    hide DigitCount;
    var q := i / 3;
    DigitCountAt(q, 0);
    DigitCountAt(q, 1);
    DigitCountAt(q, 2);
    DigitCountAt(q + 1, 0);
  }

  lemma CharsOfOctets(s: seq<byte>, i: nat, a: byte, b: byte, c: byte)
    requires i % 3 == 0 && i < |s|
    requires a == s[i] && b == (if i + 1 < |s| then s[i + 1] else 0) && c == (if i + 2 < |s| then s[i + 2] else 0)
    ensures var text, j := Encode(s), DigitCount(i);
      && j + 4 <= |text| && text[j] == B64(Sextet1(a)) && text[j + 1] == B64(Sextet2(a, b))
      && text[j + 2] == (if i + 1 < |s| then B64(Sextet3(b, c)) else '=')
      && text[j + 3] == (if i + 2 < |s| then B64(Sextet4(c)) else '=')
  {
    hide Encode, Digit, B64, Sextet1, Sextet2, Sextet3, Sextet4;
    AlphabetIsStandard(Sextet1(a));
    AlphabetIsStandard(Sextet2(a, b));
    AlphabetIsStandard(Sextet3(b, c));
    AlphabetIsStandard(Sextet4(c));
    assert DigitCount(i) == i / 3 * 4;
    ExpectedChars(s, i, 0);
    ExpectedChars(s, i, 1);
    ExpectedChars(s, i, 2);
    ExpectedChars(s, i, 3);
  }

  /** After the digits only padding follows, up to a multiple of four. */
  lemma PaddingFollows(s: seq<byte>)
    requires |s| > 0
    ensures forall k :: DigitCount(|s|) <= k < |Encode(s)| ==> Encode(s)[k] == '='
    ensures DigitCount(|s|) <= |Encode(s)| < DigitCount(|s|) + 4 && |Encode(s)| % 4 == 0
  {
    hide Encode, B64, DigitCount;
    var i := (|s| - 1) / 3 * 3;
    var b, c := if i + 1 < |s| then s[i + 1] else 0, if i + 2 < |s| then s[i + 2] else 0;
    CharsOfOctets(s, i, s[i], b, c);
    DigitsSoFar(|s|, i);
    DigitCountAt(i / 3, 0);
  }
}
