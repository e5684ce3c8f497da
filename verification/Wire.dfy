/** Octets, big-endian integers and UTF-8: the raw material of replication messages. */
module Wire {

  newtype Byte = b: int | 0 <= b < 256
  type Bytes = seq<Byte>

  const NUL: Byte := 0

  type Int32 = n: int | -0x8000_0000 <= n < 0x8000_0000
  type Int64 = n: int | -0x8000_0000_0000_0000 <= n < 0x8000_0000_0000_0000
  type UInt16 = n: nat | n < 0x1_0000
  type UInt32 = n: nat | n < 0x1_0000_0000
  type UInt64 = n: nat | n < 0x1_0000_0000_0000_0000

  /** Readers: network byte order, taken from the front of the input. */
  function U16(data: Bytes): (n: UInt16)
    requires |data| >= 2
  {
    data[0] as int * 0x100 + data[1] as int
  }

  function U32(data: Bytes): (n: UInt32)
    requires |data| >= 4
  {
    U16(data) * 0x1_0000 + U16(data[2..])
  }

  function U64(data: Bytes): (n: UInt64)
    requires |data| >= 8
  {
    U32(data) * 0x1_0000_0000 + U32(data[4..])
  }

  /** Two's complement. */
  function I32(data: Bytes): (n: Int32)
    requires |data| >= 4
  {
    var u := U32(data);
    if u < 0x8000_0000 then u else u - 0x1_0000_0000
  }

  function I64(data: Bytes): (n: Int64)
    requires |data| >= 8
  {
    var u := U64(data);
    if u < 0x8000_0000_0000_0000 then u else u - 0x1_0000_0000_0000_0000
  }

  /** Writers. */
  function Octet(n: nat): Byte
    requires n < 256
  {
    n as Byte
  }

  function Put16(n: UInt16): (data: Bytes)
    ensures |data| == 2
  {
    [Octet(n / 0x100), Octet(n % 0x100)]
  }

  function Put32(n: UInt32): (data: Bytes)
    ensures |data| == 4
  {
    Put16(n / 0x1_0000) + Put16(n % 0x1_0000)
  }

  function Put64(n: UInt64): (data: Bytes)
    ensures |data| == 8
  {
    Put32(n / 0x1_0000_0000) + Put32(n % 0x1_0000_0000)
  }

  function PutI32(n: Int32): (data: Bytes)
    ensures |data| == 4
  {
    Put32(if n >= 0 then n else n + 0x1_0000_0000)
  }

  function PutI64(n: Int64): (data: Bytes)
    ensures |data| == 8
  {
    Put64(if n >= 0 then n else n + 0x1_0000_0000_0000_0000)
  }

  lemma Read16(n: UInt16, rest: Bytes)
    ensures U16(Put16(n) + rest) == n
  {
  }

  lemma Read32(n: UInt32, rest: Bytes)
    ensures U32(Put32(n) + rest) == n
  {
    var hi, lo := n / 0x1_0000, n % 0x1_0000;
    assert Put32(n) + rest == Put16(hi) + (Put16(lo) + rest);
    assert (Put32(n) + rest)[2..] == Put16(lo) + rest;
    Read16(hi, Put16(lo) + rest);
    Read16(lo, rest);
  }

  lemma Read64(n: UInt64, rest: Bytes)
    ensures U64(Put64(n) + rest) == n
  {
    var hi, lo := n / 0x1_0000_0000, n % 0x1_0000_0000;
    assert Put64(n) + rest == Put32(hi) + (Put32(lo) + rest);
    assert (Put64(n) + rest)[4..] == Put32(lo) + rest;
    Read32(hi, Put32(lo) + rest);
    Read32(lo, rest);
  }

  lemma ReadI32(n: Int32, rest: Bytes)
    ensures I32(PutI32(n) + rest) == n
  {
    Read32(if n >= 0 then n else n + 0x1_0000_0000, rest);
  }

  lemma ReadI64(n: Int64, rest: Bytes)
    ensures I64(PutI64(n) + rest) == n
  {
    Read64(if n >= 0 then n else n + 0x1_0000_0000_0000_0000, rest);
  }

  /** And the writers undo the readers. */
  lemma Printed16(data: Bytes)
    requires |data| >= 2
    ensures Put16(U16(data)) == data[..2]
  {
  }

  lemma Printed32(data: Bytes)
    requires |data| >= 4
    ensures Put32(U32(data)) == data[..4]
  {
    Printed16(data);
    Printed16(data[2..]);
    assert data[..4] == data[..2] + data[2..][..2];
    var hi: int, lo: int := U16(data), U16(data[2..]);
    assert (hi * 0x1_0000 + lo) / 0x1_0000 == hi && (hi * 0x1_0000 + lo) % 0x1_0000 == lo;
  }

  lemma Printed64(data: Bytes)
    requires |data| >= 8
    ensures Put64(U64(data)) == data[..8]
  {
    hide U32, Put32;
    Printed32(data);
    Printed32(data[4..]);
    assert data[..8] == data[..4] + data[4..][..4];
    var hi: int, lo: int := U32(data), U32(data[4..]);
    assert (hi * 0x1_0000_0000 + lo) / 0x1_0000_0000 == hi && (hi * 0x1_0000_0000 + lo) % 0x1_0000_0000 == lo;
  }

  lemma PrintedI32(data: Bytes)
    requires |data| >= 4
    ensures PutI32(I32(data)) == data[..4]
  {
    hide U32, Put32;
    Printed32(data);
  }

  lemma PrintedI64(data: Bytes)
    requires |data| >= 8
    ensures PutI64(I64(data)) == data[..8]
  {
    hide U64, Put64;
    Printed64(data);
  }

  /** Dropping what was put in front. */
  lemma DropFront(front: Bytes, back: Bytes)
    ensures (front + back)[|front|..] == back
  {
  }

  /** Well-formed UTF-8 as in table 3-7 of the Unicode Standard. */
  predicate ValidUtf8(s: Bytes)
  {
    if |s| == 0 then true
    else
      var n := SequenceLength(s);
      n > 0 && ValidUtf8(s[n..])
  }

  predicate Continuation(b: Byte)
  {
    0x80 <= b < 0xC0
  }

  /** Length of the code point that `s` starts with; 0 when it starts with none. */
  function SequenceLength(s: Bytes): (n: nat)
    requires |s| > 0
    ensures n <= |s|
  {
    var b0 := s[0];
    if b0 < 0x80 then 1
    else if 0xC2 <= b0 < 0xE0 then
      if |s| >= 2 && Continuation(s[1]) then 2 else 0
    else if 0xE0 <= b0 < 0xF0 then
      if |s| >= 3 && Continuation(s[1]) && Continuation(s[2])
         && (b0 == 0xE0 ==> s[1] >= 0xA0) && (b0 == 0xED ==> s[1] < 0xA0) then 3 else 0
    else if 0xF0 <= b0 < 0xF5 then
      if |s| >= 4 && Continuation(s[1]) && Continuation(s[2]) && Continuation(s[3])
         && (b0 == 0xF0 ==> s[1] >= 0x90) && (b0 == 0xF4 ==> s[1] < 0x90) then 4 else 0
    else 0
  }

  predicate Ascii(s: Bytes)
  {
    forall i | 0 <= i < |s| :: s[i] < 128
  }

  lemma {:induction false} AsciiIsUtf8(s: Bytes)
    requires Ascii(s)
    ensures ValidUtf8(s)
  {
    if |s| > 0 {
      AsciiIsUtf8(s[1..]);
    }
  }
}
