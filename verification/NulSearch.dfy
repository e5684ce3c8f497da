/** The search for the NUL that ends a C string: a byte-by-byte reference and the word-parallel forms. */
module NulSearch {
  import opened Wrappers
  import opened Wire

  /** Reference: position of the first NUL. */
  function FirstNul(data: Bytes): (r: Option<nat>)
  {
    if data == [] then None
    else if data[0] == NUL then Some(0)
    else
      match FirstNul(data[1..])
      case None => None
      case Some(i) => Some(i + 1)
  }

  predicate NulFree(s: Bytes)
  {
    forall i | 0 <= i < |s| :: s[i] != NUL
  }

  /** The reference is what its name says, and nothing else is. */
  lemma {:induction false} FirstNulMeaning(data: Bytes, r: Option<nat>)
    ensures FirstNul(data) == r <==>
            match r
            case None => NulFree(data)
            case Some(i) => i < |data| && data[i] == NUL && NulFree(data[..i])
  {
    if data != [] {
      if data[0] == NUL {
        if r.Some? && r.value > 0 && r.value <= |data| {
          assert data[..r.value][0] == NUL;
        }
      } else {
        var shifted := if r.Some? && r.value > 0 then Some(r.value - 1) else None;
        FirstNulMeaning(data[1..], shifted);
        FirstNulMeaning(data[1..], None);
        if r.Some? && 0 < r.value < |data| {
          assert data[..r.value] == [data[0]] + data[1..][..r.value - 1];
          assert data[1..][r.value - 1] == data[r.value];
          assert NulFree(data[..r.value]) <==> NulFree(data[1..][..r.value - 1]) by {
            if NulFree(data[..r.value]) {
              var rest := data[1..][..r.value - 1];
              forall i | 0 <= i < |rest| ensures rest[i] != NUL {
                assert data[..r.value][i + 1] != NUL;
              }
            }
          }
        }
        assert NulFree(data) <==> NulFree(data[1..]) by {
          if NulFree(data) {
            forall i | 0 <= i < |data[1..]| ensures data[1..][i] != NUL {
              assert data[i + 1] != NUL;
            }
          }
        }
      }
    }
  }

  /** A NUL-terminated string at the front of the input ends at its own length. */
  lemma FirstNulOfTerminated(s: Bytes, tail: Bytes)
    requires NulFree(s)
    ensures FirstNul(s + [NUL] + tail) == Some(|s|)
  {
    var data := s + [NUL] + tail;
    assert data[..|s|] == s;
    FirstNulMeaning(data, Some(|s|));
  }

  /** One loop pass per byte, as in the benchmark's reference. */
  method Linear(data: Bytes) returns (r: Option<nat>)
    ensures r == FirstNul(data)
  {
    for i := 0 to |data|
      invariant NulFree(data[..i])
    {
      if data[i] == NUL {
        FirstNulMeaning(data, Some(i));
        return Some(i);
      }
    }
    assert data[..|data|] == data;
    FirstNulMeaning(data, None);
    return None;
  }

  // ----- 64-bit words -----

  function Lane(b: Byte): bv8
  {
    b as int as bv8
  }

  /** Eight octets as a little-endian machine word. */
  function Word64(b0: bv8, b1: bv8, b2: bv8, b3: bv8, b4: bv8, b5: bv8, b6: bv8, b7: bv8): bv64
  {
    b0 as bv64 | (b1 as bv64 << 8) | (b2 as bv64 << 16) | (b3 as bv64 << 24) |
    (b4 as bv64 << 32) | (b5 as bv64 << 40) | (b6 as bv64 << 48) | (b7 as bv64 << 56)
  }

  function LoadWord64(data: Bytes, i: nat): bv64
    requires i + 8 <= |data|
  {
    Word64(Lane(data[i]), Lane(data[i + 1]), Lane(data[i + 2]), Lane(data[i + 3]),
           Lane(data[i + 4]), Lane(data[i + 5]), Lane(data[i + 6]), Lane(data[i + 7]))
  }

  /** High bit of every lane that may be zero; the borrow can flag lanes above the first zero lane wrongly. */
  function ZeroMask64(w: bv64): bv64
  {
    (w - 0x0101010101010101) & !w & 0x8080808080808080
  }

  function LowestBit(m: bv64): nat
  {
    if m & 0x01 != 0 then 0 else if m & 0x02 != 0 then 1
    else if m & 0x04 != 0 then 2 else if m & 0x08 != 0 then 3
    else if m & 0x10 != 0 then 4 else if m & 0x20 != 0 then 5
    else if m & 0x40 != 0 then 6 else 7
  }

  /** The count-trailing-zeros instruction. */
  function TrailingZeros(m: bv64): nat
  {
    if m & 0xFF != 0 then LowestBit(m)
    else if m & 0xFF00 != 0 then 8 + LowestBit(m >> 8)
    else if m & 0xFF0000 != 0 then 16 + LowestBit(m >> 16)
    else if m & 0xFF000000 != 0 then 24 + LowestBit(m >> 24)
    else if m & 0xFF00000000 != 0 then 32 + LowestBit(m >> 32)
    else if m & 0xFF0000000000 != 0 then 40 + LowestBit(m >> 40)
    else if m & 0xFF000000000000 != 0 then 48 + LowestBit(m >> 48)
    else if m != 0 then 56 + LowestBit(m >> 56)
    else 64
  }

  /** Index of the first zero lane, 8 when there is none. */
  function FirstZeroLane(b0: bv8, b1: bv8, b2: bv8, b3: bv8, b4: bv8, b5: bv8, b6: bv8, b7: bv8): nat
  {
    if b0 == 0 then 0 else if b1 == 0 then 1 else if b2 == 0 then 2 else if b3 == 0 then 3
    else if b4 == 0 then 4 else if b5 == 0 then 5 else if b6 == 0 then 6 else if b7 == 0 then 7 else 8
  }

  /** A lane's flag is right as long as every lane below it is nonzero; above, the borrow may set it wrongly. */
  lemma BorrowSparesFirstZero(b0: bv8, b1: bv8, b2: bv8, b3: bv8, b4: bv8, b5: bv8, b6: bv8, b7: bv8)
    ensures var mask := ZeroMask64(Word64(b0, b1, b2, b3, b4, b5, b6, b7));
            && mask & 0x7F7F7F7F7F7F7F7F == 0
            && FlaggedLane(mask) == FirstZeroLane(b0, b1, b2, b3, b4, b5, b6, b7)
  {
  }

  /** The first lane whose flag is set. */
  function FlaggedLane(mask: bv64): nat
  {
    if mask & 0x80 != 0 then 0 else if mask & 0x8000 != 0 then 1
    else if mask & 0x800000 != 0 then 2 else if mask & 0x80000000 != 0 then 3
    else if mask & 0x8000000000 != 0 then 4 else if mask & 0x800000000000 != 0 then 5
    else if mask & 0x80000000000000 != 0 then 6 else if mask & 0x8000000000000000 != 0 then 7 else 8
  }

  lemma TrailingZerosFindsFlag(mask: bv64)
    requires mask & 0x7F7F7F7F7F7F7F7F == 0
    ensures mask == 0 <==> FlaggedLane(mask) == 8
    ensures TrailingZeros(mask) / 8 == FlaggedLane(mask)
  {
  }

  /** The lowest set bit of the mask marks the first zero lane. */
  lemma MaskMarksFirstZero(b0: bv8, b1: bv8, b2: bv8, b3: bv8, b4: bv8, b5: bv8, b6: bv8, b7: bv8)
    ensures var mask := ZeroMask64(Word64(b0, b1, b2, b3, b4, b5, b6, b7));
            && (mask == 0 <==> FirstZeroLane(b0, b1, b2, b3, b4, b5, b6, b7) == 8)
            && TrailingZeros(mask) / 8 == FirstZeroLane(b0, b1, b2, b3, b4, b5, b6, b7)
  {
    BorrowSparesFirstZero(b0, b1, b2, b3, b4, b5, b6, b7);
    TrailingZerosFindsFlag(ZeroMask64(Word64(b0, b1, b2, b3, b4, b5, b6, b7)));
  }

  lemma LaneIsZero(b: Byte)
    ensures Lane(b) == 0 <==> b == NUL
  {
  }

  lemma NulFreeConcat(data: Bytes, i: nat, j: nat, k: nat)
    requires j <= i <= k <= |data|
    requires NulFree(data[..i]) && forall x | j <= x < k :: data[x] != NUL
    ensures NulFree(data[..k])
  {
    forall x | 0 <= x < k ensures data[x] != NUL {
      assert x < i ==> data[..i][x] != NUL;
    }
  }

  function FirstZeroOctet(data: Bytes, i: nat): nat
    requires i + 8 <= |data|
  {
    FirstZeroLane(Lane(data[i]), Lane(data[i + 1]), Lane(data[i + 2]), Lane(data[i + 3]),
                  Lane(data[i + 4]), Lane(data[i + 5]), Lane(data[i + 6]), Lane(data[i + 7]))
  }

  lemma FirstZeroOctetMeaning(data: Bytes, i: nat)
    requires i + 8 <= |data|
    ensures var k := FirstZeroOctet(data, i);
            && k <= 8
            && (k < 8 ==> data[i + k] == NUL)
            && forall x | i <= x < i + k :: data[x] != NUL
  {
    forall j | i <= j < i + 8 ensures Lane(data[j]) == 0 <==> data[j] == NUL {
      LaneIsZero(data[j]);
    }
  }

  /** The mask of the word at `start` finds the first NUL among its eight octets. */
  lemma WordFindsNul(data: Bytes, start: nat)
    requires start + 8 <= |data|
    ensures var mask := ZeroMask64(LoadWord64(data, start));
            && (mask == 0 <==> FirstZeroOctet(data, start) == 8)
            && TrailingZeros(mask) / 8 == FirstZeroOctet(data, start)
  {
    MaskMarksFirstZero(Lane(data[start]), Lane(data[start + 1]), Lane(data[start + 2]), Lane(data[start + 3]),
                       Lane(data[start + 4]), Lane(data[start + 5]), Lane(data[start + 6]), Lane(data[start + 7]));
  }

  /** A word read that may overlap octets already scanned neither misses nor misreports a NUL. */
  lemma OverlappingWord(data: Bytes, scanned: nat, start: nat)
    requires start <= scanned <= start + 8 <= |data|
    requires NulFree(data[..scanned])
    ensures var mask := ZeroMask64(LoadWord64(data, start));
            && (mask == 0 ==> NulFree(data[..start + 8]))
            && (mask != 0 ==> FirstNul(data) == Some(start + TrailingZeros(mask) / 8))
  {
    hide FirstNul, LoadWord64, ZeroMask64, TrailingZeros, FirstZeroOctet;
    WordFindsNul(data, start);
    FirstZeroOctetMeaning(data, start);
    var k := FirstZeroOctet(data, start);
    if k == 8 {
      NulFreeConcat(data, scanned, start, start + 8);
    } else {
      var at := start + k;
      assert forall x | 0 <= x < scanned :: data[x] == data[..scanned][x];
      assert scanned <= at;
      NulFreeConcat(data, scanned, start, at);
      FirstNulMeaning(data, Some(at));
    }
  }

  // ----- 128-bit vectors -----

  /** Bit j of the result is set when octet j is NUL: compare-equal with zero, then move-mask. */
  function MoveMask(chunk: Bytes): (m: nat)
  {
    if chunk == [] then 0 else (if chunk[0] == NUL then 1 else 0) + 2 * MoveMask(chunk[1..])
  }

  function TrailingZerosNat(m: nat): nat
    requires m != 0
  {
    if m % 2 == 1 then 0 else 1 + TrailingZerosNat(m / 2)
  }

  lemma {:induction false} MoveMaskFindsNul(chunk: Bytes)
    ensures MoveMask(chunk) == 0 <==> FirstNul(chunk) == None
    ensures MoveMask(chunk) != 0 ==> FirstNul(chunk) == Some(TrailingZerosNat(MoveMask(chunk)))
  {
    if chunk != [] {
      MoveMaskFindsNul(chunk[1..]);
    }
  }

  /** Octets 0xFF appended to a short input add no hit. */
  lemma PaddingAddsNoHit(data: Bytes, pad: Bytes)
    requires NulFree(pad)
    ensures FirstNul(data + pad) == FirstNul(data)
  {
    match FirstNul(data)
    case None =>
      FirstNulMeaning(data, None);
      FirstNulMeaning(data + pad, None);
    case Some(i) =>
      FirstNulMeaning(data, Some(i));
      assert (data + pad)[..i] == data[..i];
      FirstNulMeaning(data + pad, Some(i));
  }

  /** A hit inside the first octets is the hit of the whole input. */
  lemma PrefixHit(data: Bytes, n: nat)
    requires n <= |data|
    ensures FirstNul(data[..n]).Some? ==> FirstNul(data) == FirstNul(data[..n])
    ensures FirstNul(data[..n]) == None ==> NulFree(data[..n])
  {
    match FirstNul(data[..n])
    case None =>
      FirstNulMeaning(data[..n], None);
    case Some(i) =>
      FirstNulMeaning(data[..n], Some(i));
      assert data[..n][..i] == data[..i];
      FirstNulMeaning(data, Some(i));
  }

  /** Load 16 octets, compare with zero, move-mask, count trailing zeros. */
  method VectorHit(chunk: Bytes) returns (r: Option<nat>)
    requires |chunk| == 16
    ensures r == FirstNul(chunk)
  {
    var mask := MoveMask(chunk);
    MoveMaskFindsNul(chunk);
    return if mask != 0 then Some(TrailingZerosNat(mask)) else None;
  }

  /** The x86-64 form: 16-octet vector first, then 8-octet words the last of which may overlap. */
  method FindNullWord(data: Bytes) returns (r: Option<nat>)
    ensures r == FirstNul(data)
  {
    hide FirstNul, LoadWord64, ZeroMask64, TrailingZeros, MoveMask;
    var len := |data|;
    if len < 16 {
      var pad := seq(16 - len, _ => 0xFF);
      PaddingAddsNoHit(data, pad);
      r := VectorHit(data + pad);
      return r;
    }

    PrefixHit(data, 16);
    r := VectorHit(data[..16]);
    if r.Some? {
      return r;
    }

    var i := 24;
    while i <= len + 7
      invariant 24 <= i
      invariant NulFree(data[..if i - 8 < len then i - 8 else len])
      decreases len + 8 - i
    {
      var boundary := if i < len then i else len;
      var hit := ZeroMask64(LoadWord64(data, boundary - 8));
      OverlappingWord(data, if i - 8 < len then i - 8 else len, boundary - 8);
      if hit != 0 {
        return Some((boundary - 8) + TrailingZeros(hit) / 8);
      }
      i := i + 8;
    }
    assert data[..len] == data;
    FirstNulMeaning(data, None);
    return None;
  }

  /** The form for other targets, as it runs on a little-endian one: 8-octet words, then the tail octet by octet. */
  method FindNullWordPortable(data: Bytes) returns (r: Option<nat>)
    ensures r == FirstNul(data)
  {
    var len := |data|;
    var i := 0;
    while i + 8 <= len
      invariant 0 <= i <= len
      invariant NulFree(data[..i])
    {
      var mask := ZeroMask64(LoadWord64(data, i));
      OverlappingWord(data, i, i);
      if mask != 0 {
        return Some(i + TrailingZeros(mask) / 8);
      }
      i := i + 8;
    }
    r := FirstNul(data[i..]);
    match r {
      case None =>
        FirstNulMeaning(data[i..], None);
        NulFreeConcat(data, i, i, len);
        assert data[..len] == data;
        FirstNulMeaning(data, None);
      case Some(j) =>
        FirstNulMeaning(data[i..], Some(j));
        assert data[i..][..j] == data[i..i + j];
        NulFreeConcat(data, i, i, i + j);
        FirstNulMeaning(data, Some(i + j));
        r := Some(i + j);
    }
  }

  // ----- 32-bit words -----

  function Word32(b0: bv8, b1: bv8, b2: bv8, b3: bv8): bv32
  {
    b0 as bv32 | (b1 as bv32 << 8) | (b2 as bv32 << 16) | (b3 as bv32 << 24)
  }

  function ZeroMask32(w: bv32): bv32
  {
    (w - 0x01010101) & !w & 0x80808080
  }

  lemma Mask32MarksFirstZero(b0: bv8, b1: bv8, b2: bv8, b3: bv8)
    ensures var mask := ZeroMask32(Word32(b0, b1, b2, b3));
            && (mask == 0 <==> FirstZeroLane(b0, b1, b2, b3, 1, 1, 1, 1) == 8)
            && (mask != 0 ==> TrailingZeros(mask as bv64) / 8 == FirstZeroLane(b0, b1, b2, b3, 1, 1, 1, 1))
  {
  }

  /** The benchmark's 32-bit form. */
  method UnalignedU32(data: Bytes) returns (r: Option<nat>)
    ensures r == FirstNul(data)
  {
    var len := |data|;
    var i := 0;
    while i + 4 <= len
      invariant 0 <= i <= len
      invariant NulFree(data[..i])
    {
      var b0, b1, b2, b3 := Lane(data[i]), Lane(data[i + 1]), Lane(data[i + 2]), Lane(data[i + 3]);
      var mask := ZeroMask32(Word32(b0, b1, b2, b3));
      Mask32MarksFirstZero(b0, b1, b2, b3);
      LaneIsZero(data[i]);
      LaneIsZero(data[i + 1]);
      LaneIsZero(data[i + 2]);
      LaneIsZero(data[i + 3]);
      if mask != 0 {
        var at := i + TrailingZeros(mask as bv64) / 8;
        NulFreeConcat(data, i, i, at);
        FirstNulMeaning(data, Some(at));
        return Some(at);
      }
      NulFreeConcat(data, i, i, i + 4);
      i := i + 4;
    }
    while i < len
      invariant 0 <= i <= len
      invariant NulFree(data[..i])
    {
      if data[i] == NUL {
        FirstNulMeaning(data, Some(i));
        return Some(i);
      }
      i := i + 1;
    }
    assert data[..len] == data;
    FirstNulMeaning(data, None);
    return None;
  }
}
