/** Valid UTF-8 is what encoding code points gives: section 3 of RFC 3629. */
module Utf8 {
  import opened Wire

  /** Code points that are no surrogates. */
  predicate Scalar(cp: nat)
  {
    cp < 0xD800 || 0xE000 <= cp < 0x11_0000
  }

  function Encoded(cp: nat): (s: Bytes)
    requires Scalar(cp)
    ensures |s| == if cp < 0x80 then 1 else if cp < 0x800 then 2 else if cp < 0x1_0000 then 3 else 4
  {
    if cp < 0x80 then [Octet(cp)]
    else if cp < 0x800 then [Octet(0xC0 + cp / 0x40), Octet(0x80 + cp % 0x40)]
    else if cp < 0x1_0000 then
      [Octet(0xE0 + cp / 0x1000), Octet(0x80 + cp / 0x40 % 0x40), Octet(0x80 + cp % 0x40)]
    else
      [Octet(0xF0 + cp / 0x4_0000), Octet(0x80 + cp / 0x1000 % 0x40), Octet(0x80 + cp / 0x40 % 0x40),
       Octet(0x80 + cp % 0x40)]
  }

  predicate AllScalar(cps: seq<nat>)
  {
    forall i | 0 <= i < |cps| :: Scalar(cps[i])
  }

  function EncodedAll(cps: seq<nat>): Bytes
    requires AllScalar(cps)
  {
    if cps == [] then [] else Encoded(cps[0]) + EncodedAll(cps[1..])
  }

  lemma EncodedIsASequence(cp: nat, rest: Bytes)
    requires Scalar(cp)
    ensures SequenceLength(Encoded(cp) + rest) == |Encoded(cp)|
  {
  }

  lemma {:induction false} EncodedIsValid(cps: seq<nat>)
    requires AllScalar(cps)
    ensures ValidUtf8(EncodedAll(cps))
  {
    hide Encoded, SequenceLength;
    if cps != [] {
      var rest := EncodedAll(cps[1..]);
      EncodedIsValid(cps[1..]);
      EncodedIsASequence(cps[0], rest);
      assert (Encoded(cps[0]) + rest)[|Encoded(cps[0])|..] == rest;
    }
  }

  function Six(b: Byte): nat
    requires Continuation(b)
  {
    b as int - 0x80
  }

  /** The code point that a sequence encodes. */
  function CodePoint(s: Bytes): nat
    requires |s| > 0 && SequenceLength(s) > 0
  {
    var b0 := s[0] as int;
    if SequenceLength(s) == 1 then b0
    else if SequenceLength(s) == 2 then (b0 - 0xC0) * 0x40 + Six(s[1])
    else if SequenceLength(s) == 3 then (b0 - 0xE0) * 0x1000 + Six(s[1]) * 0x40 + Six(s[2])
    else (b0 - 0xF0) * 0x4_0000 + Six(s[1]) * 0x1000 + Six(s[2]) * 0x40 + Six(s[3])
  }

  lemma LastDigit(front: nat, last: nat, base: nat)
    requires last < base && base in {0x40, 0x1000, 0x4_0000}
    ensures (front * base + last) / base == front && (front * base + last) % base == last
  {
  }

  /** Digits to the base of 64. */
  lemma Digits(a: nat, b: nat, c: nat, d: nat)
    requires b < 0x40 && c < 0x40 && d < 0x40
    ensures var n := a * 0x4_0000 + b * 0x1000 + c * 0x40 + d;
            n / 0x4_0000 == a && n / 0x1000 == a * 0x40 + b && n / 0x1000 % 0x40 == b && n / 0x40 % 0x40 == c
            && n % 0x40 == d
  {
    LastDigit(a, b * 0x1000 + c * 0x40 + d, 0x4_0000);
    LastDigit(a * 0x40 + b, c * 0x40 + d, 0x1000);
    LastDigit(a * 0x1000 + b * 0x40 + c, d, 0x40);
    LastDigit(a * 0x40 + b, c, 0x40);
    LastDigit(a, b, 0x40);
  }

  lemma EncodedInTwo(a: nat, b: nat)
    requires 2 <= a < 0x20 && b < 0x40
    ensures var cp := a * 0x40 + b; Scalar(cp) && Encoded(cp) == [Octet(0xC0 + a), Octet(0x80 + b)]
  {
    Digits(0, 0, a, b);
  }

  lemma EncodedInThree(a: nat, b: nat, c: nat)
    requires a < 0x10 && b < 0x40 && c < 0x40 && (a == 0 ==> b >= 0x20) && (a == 0xD ==> b < 0x20)
    ensures var cp := a * 0x1000 + b * 0x40 + c;
            Scalar(cp) && Encoded(cp) == [Octet(0xE0 + a), Octet(0x80 + b), Octet(0x80 + c)]
  {
    Digits(0, a, b, c);
  }

  lemma EncodedInFour(a: nat, b: nat, c: nat, d: nat)
    requires a < 5 && b < 0x40 && c < 0x40 && d < 0x40 && (a == 0 ==> b >= 0x10) && (a == 4 ==> b < 0x10)
    ensures var cp := a * 0x4_0000 + b * 0x1000 + c * 0x40 + d;
            Scalar(cp) && Encoded(cp) == [Octet(0xF0 + a), Octet(0x80 + b), Octet(0x80 + c), Octet(0x80 + d)]
  {
    Digits(a, b, c, d);
  }

  lemma SequenceIsEncoded(s: Bytes)
    requires |s| > 0 && SequenceLength(s) > 0
    ensures Scalar(CodePoint(s)) && Encoded(CodePoint(s)) == s[..SequenceLength(s)]
  {
    hide Encoded, Scalar;
    var n, b0 := SequenceLength(s), s[0] as int;
    if n == 1 {
      EncodedInOne(s[0]);
    } else if n == 2 {
      EncodedInTwo(b0 - 0xC0, Six(s[1]));
    } else if n == 3 {
      EncodedInThree(b0 - 0xE0, Six(s[1]), Six(s[2]));
    } else {
      EncodedInFour(b0 - 0xF0, Six(s[1]), Six(s[2]), Six(s[3]));
    }
  }

  lemma EncodedInOne(b: Byte)
    requires b < 0x80
    ensures Scalar(b as int) && Encoded(b as int) == [b]
  {
  }

  function CodePoints(s: Bytes): (cps: seq<nat>)
    requires ValidUtf8(s)
  {
    if s == [] then [] else [CodePoint(s)] + CodePoints(s[SequenceLength(s)..])
  }

  lemma {:induction false} ValidIsEncoded(s: Bytes)
    requires ValidUtf8(s)
    ensures AllScalar(CodePoints(s)) && EncodedAll(CodePoints(s)) == s
  {
    hide Encoded, CodePoint, SequenceLength, Scalar;
    if s != [] {
      var n := SequenceLength(s);
      SequenceIsEncoded(s);
      ValidIsEncoded(s[n..]);
      assert s == s[..n] + s[n..];
      assert CodePoints(s)[1..] == CodePoints(s[n..]);
    }
  }

  /** Octets are valid if and only if they encode some code points. */
  lemma ValidIffEncoded(s: Bytes)
    ensures ValidUtf8(s) <==> exists cps :: AllScalar(cps) && EncodedAll(cps) == s
  {
    hide ValidUtf8, EncodedAll, AllScalar;
    if ValidUtf8(s) {
      ValidIsEncoded(s);
    }
    if exists cps :: AllScalar(cps) && EncodedAll(cps) == s {
      var cps :| AllScalar(cps) && EncodedAll(cps) == s;
      EncodedIsValid(cps);
    }
  }
}
