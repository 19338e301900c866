/** The synthetic key encoder of the benchmark: an integer becomes a string of
    lower-case letters by repeated division by 26, digit d written as the letter
    with code d + 97. This is ordinary positional base 26 whose zero digit is
    'a' (1 is "b", 26 is "ba"); it is not a bijective numbering, so no positive
    integer is ever encoded as "a". */
module KeyEncoder {

  /** The letter for a base-26 digit: 0 is 'a', 25 is 'z'. */
  function Letter(d: int): (c: char)
    requires 0 <= d < 26
    ensures IsLetter(c) && DigitValue(c) == d
  {
    (d + 97) as char
  }

  /** The digit a letter stands for when a key is read back ('a' is 0). */
  function DigitValue(c: char): int
  {
    c as int - 97
  }

  predicate IsLetter(c: char)
  {
    'a' <= c <= 'z'
  }

  /** A string the encoder can produce: letters only and no leading zero digit. */
  predicate IsCanonical(s: string)
  {
    (forall i :: 0 <= i < |s| ==> IsLetter(s[i])) && (s == [] || s[0] != 'a')
  }

  /** 26 to the power k (1 for k <= 0). */
  function Pow26(k: int): nat
  {
    if k <= 0 then 1 else 26 * Pow26(k - 1)
  }

  /** The string the encoder produces for n, most significant digit first.
      The source's loop runs only while n > 0, so every n <= 0 gives the
      empty string; for positive n Python's % and // agree with Dafny's. */
  function Encode(n: int): (s: string)
    ensures s == [] <==> n <= 0
    ensures forall i :: 0 <= i < |s| ==> IsLetter(s[i])
    decreases n
  {
    if n <= 0 then [] else Encode(n / 26) + [Letter(n % 26)]
  }

  /** Reads a string as base-26 digits, most significant first, 'a' being 0. */
  function Decode(s: string): int
  {
    if s == [] then 0 else Decode(s[..|s| - 1]) * 26 + DigitValue(s[|s| - 1])
  }

  /** The encoder as the source writes it: a loop that takes the remainder
      mod 26, divides by 26 and puts the digit's letter in front of the list. */
  method GenerateCrypto(num: int) returns (ret: string)
    ensures ret == Encode(num)
  {
    var n := num;
    var digits: seq<char> := [];
    while n > 0
      invariant Encode(num) == Encode(n) + digits
      decreases n
    {
      var rem := n % 26;
      n := n / 26;
      digits := [Letter(rem)] + digits;
    }
    ret := digits;
  }

  /** Round trip: decoding the key of a non-negative n gives back n. */
  lemma {:induction false} DecodeEncode(n: int)
    requires n >= 0
    ensures Decode(Encode(n)) == n
  {
    if n > 0 {
      DecodeEncode(n / 26);
      var s := Encode(n);
      assert s[..|s| - 1] == Encode(n / 26);
    }
  }

  /** Every key has no leading 'a' digit. */
  lemma {:induction false} EncodeCanonical(n: int)
    ensures IsCanonical(Encode(n))
  {
    if n > 0 {
      EncodeCanonical(n / 26);
      if n / 26 == 0 {
        assert Encode(n) == [Letter(n)];
      } else {
        assert Encode(n)[0] == Encode(n / 26)[0];
      }
    }
  }

  /** No integer at all is encoded as "a". */
  lemma NeverA(n: int)
    ensures Encode(n) != "a"
  {
    EncodeCanonical(n);
  }

  /** The key of a positive n has L letters exactly when 26^(L-1) <= n < 26^L. */
  lemma {:induction false} EncodeLength(n: int)
    requires n >= 1
    ensures Pow26(|Encode(n)| - 1) <= n < Pow26(|Encode(n)|)
  {
    var q := n / 26;
    if q == 0 {
      assert Encode(n) == [Letter(n)];
    } else {
      EncodeLength(q);
      var len := |Encode(q)|;
      assert |Encode(n)| == len + 1;
      assert Pow26(len) == 26 * Pow26(len - 1);
      assert Pow26(len + 1) == 26 * Pow26(len);
      assert n == 26 * q + n % 26;
    }
  }

  /** Two integers share a key exactly when they are equal or both non-positive. */
  lemma EncodeEqualIff(n: int, m: int)
    ensures Encode(n) == Encode(m) <==> n == m || (n <= 0 && m <= 0)
  {
    if n > 0 && m > 0 && Encode(n) == Encode(m) {
      DecodeEncode(n);
      DecodeEncode(m);
    }
  }

  /** Distinct positive integers have distinct keys. */
  lemma EncodeInjective(n: int, m: int)
    requires n >= 1 && m >= 1 && n != m
    ensures Encode(n) != Encode(m)
  {
    EncodeEqualIff(n, m);
  }

  /** A non-empty canonical string reads as a positive number. */
  lemma {:induction false} DecodePositive(s: string)
    requires IsCanonical(s) && s != []
    ensures Decode(s) > 0
  {
    var p := s[..|s| - 1];
    if p != [] {
      assert p[0] == s[0];
      DecodePositive(p);
    }
  }

  /** The other direction of the round trip: every canonical string is the key
      of the number it reads as, so the keys of 1, 2, 3, ... are exactly the
      non-empty canonical strings. */
  lemma {:induction false} EncodeDecode(s: string)
    requires IsCanonical(s)
    ensures Decode(s) >= 0 && Encode(Decode(s)) == s
  {
    if s != [] {
      var p := s[..|s| - 1];
      var c := s[|s| - 1];
      var d := DigitValue(c);
      assert 0 <= d < 26 && Letter(d) == c;
      if p == [] {
        assert Decode(s) == d;
        assert s == [c];
      } else {
        assert p[0] == s[0];
        EncodeDecode(p);
        DecodePositive(p);
        var v := Decode(s);
        assert v == Decode(p) * 26 + d;
        assert v / 26 == Decode(p) && v % 26 == d;
        assert s == p + [c];
      }
    }
  }

  /** Keys of a few small numbers, showing the positional (not bijective)
      numbering: 26 is "ba", not "z", and 27 is "bb", not "aa". */
  lemma EncodeExamples()
    ensures Encode(0) == "" && Encode(1) == "b" && Encode(25) == "z"
    ensures Encode(26) == "ba" && Encode(27) == "bb" && Encode(676) == "baa"
  {
  }
}
