/** Which pieces a peer has (internal/peer/bitfield.go). */
module Bitfields {
  import opened ByteStrings

  /** The test b & (1 << k) != 0. */
  predicate TestBit(b: nat, k: nat) {
    if k == 0 then b % 2 == 1 else TestBit(b / 2, k - 1)
  }

  /** The value b & ((1 << k) - 1): the k low bits of b. */
  function LowBits(b: nat, k: nat): nat {
    if k == 0 then 0 else b % 2 + 2 * LowBits(b / 2, k - 1)
  }

  function ByteCount(pieces: nat): nat {
    (pieces + 7) / 8
  }

  /** A payload of the right length whose unused low bits are zero. */
  predicate Accepted(payload: Bytes, pieces: nat) {
    |payload| == ByteCount(pieces)
    && (pieces % 8 != 0 && |payload| > 0 ==> LowBits(payload[|payload| - 1], 8 - pieces % 8) == 0)
  }

  function Bits(payload: Bytes, pieces: nat): (bits: seq<bool>)
    requires |payload| == ByteCount(pieces)
    ensures |bits| == pieces
  {
    seq(pieces, i requires 0 <= i < pieces => TestBit(payload[i / 8], 7 - i % 8))
  }

  method ParseBitfield(payload: Bytes, totalPieces: int) returns (r: Result<seq<bool>>)
    ensures r.Success? <==> totalPieces >= 0 && Accepted(payload, totalPieces)
    ensures r.Success? ==> r.value == Bits(payload, totalPieces)
  {
    if totalPieces < 0 {
      return Failure;
    }
    var expectedLength := (totalPieces + 7) / 8;
    if |payload| != expectedLength {
      return Failure;
    }
    if totalPieces % 8 != 0 && |payload| > 0 {
      if LowBits(payload[|payload| - 1], 8 - totalPieces % 8) != 0 {
        return Failure;
      }
    }
    var pieces := seq(totalPieces, _ => false);
    for i := 0 to totalPieces
      invariant |pieces| == totalPieces
      invariant forall j :: 0 <= j < i ==> pieces[j] == Bits(payload, totalPieces)[j]
    {
      pieces := pieces[i := TestBit(payload[i / 8], 7 - i % 8)];
    }
    r := Success(pieces);
  }

  method SetPiece(pieces: seq<bool>, index: int) returns (r: Result<seq<bool>>)
    ensures r == if 0 <= index < |pieces| then Success(pieces[index := true]) else Failure
  {
    if index < 0 || index >= |pieces| {
      return Failure;
    }
    r := Success(pieces[index := true]);
  }

  // ----- The packing of BEP 3, "peer messages": the high bit of the first byte is piece 0 -----

  /** Bit i of a bit string padded with zeros. */
  predicate Padded(bits: seq<bool>, i: nat) {
    i < |bits| && bits[i]
  }

  /** The number whose n bits, from the high one down, are bits from, from + 1, ... */
  function PackBits(bits: seq<bool>, from: nat, n: nat): (v: nat)
    ensures v < Power(n)
  {
    if n == 0 then 0 else 2 * PackBits(bits, from, n - 1) + (if Padded(bits, from + n - 1) then 1 else 0)
  }

  function Pack(bits: seq<bool>): (payload: Bytes)
    ensures |payload| == ByteCount(|bits|)
  {
    seq(ByteCount(|bits|), i requires 0 <= i < ByteCount(|bits|) => PackByte(bits, 8 * i))
  }

  function PackByte(bits: seq<bool>, from: nat): (b: Byte) {
    assert Power(8) == 256;
    PackBits(bits, from, 8)
  }

  lemma ShiftedBit(b: nat, low: nat, k: nat)
    requires low < 2 && k > 0
    ensures TestBit(2 * b + low, k) == TestBit(b, k - 1)
  {
    assert (2 * b + low) / 2 == b;
  }

  lemma {:induction false} PackedBit(bits: seq<bool>, from: nat, n: nat, i: nat)
    requires i < n
    ensures TestBit(PackBits(bits, from, n), n - 1 - i) == Padded(bits, from + i)
  {
    var low := if Padded(bits, from + n - 1) then 1 else 0;
    assert PackBits(bits, from, n) == 2 * PackBits(bits, from, n - 1) + low;
    if i < n - 1 {
      PackedBit(bits, from, n - 1, i);
      ShiftedBit(PackBits(bits, from, n - 1), low, n - 1 - i);
    }
  }

  /** Bit i from the top of the n-bit number b is bit from + i of the bit string. */
  predicate SameBit(bits: seq<bool>, from: nat, i: nat, b: nat, n: nat)
    requires i < n
  {
    Padded(bits, from + i) == TestBit(b, n - 1 - i)
  }

  /** A byte is determined by its bits. */
  lemma {:induction false} RepackBits(b: nat, bits: seq<bool>, from: nat, n: nat, bound: nat)
    requires b < bound && bound == Power(n)
    requires forall i: nat :: i < n ==> SameBit(bits, from, i, b, n)
    ensures PackBits(bits, from, n) == b
  {
    if n > 0 {
      assert SameBit(bits, from, n - 1, b, n);
      var half, m := b / 2, n - 1;
      forall i: nat | i < m ensures SameBit(bits, from, i, half, m) {
        assert SameBit(bits, from, i, b, n);
      }
      RepackBits(half, bits, from, m, Power(m));
    }
  }

  function Power(n: nat): nat {
    if n == 0 then 1 else 2 * Power(n - 1)
  }

  lemma {:induction false} LowBitsAreClear(b: nat, k: nat, j: nat)
    requires LowBits(b, k) == 0 && j < k
    ensures !TestBit(b, j)
  {
    if j > 0 {
      LowBitsAreClear(b / 2, k - 1, j - 1);
    }
  }

  lemma {:induction false} ClearBitsAreLow(b: nat, k: nat)
    requires forall j: nat :: j < k ==> !TestBit(b, j)
    ensures LowBits(b, k) == 0
  {
    if k > 0 {
      assert !TestBit(b, 0);
      forall j: nat | j < k - 1 ensures !TestBit(b / 2, j) {
        assert !TestBit(b, j + 1);
      }
      ClearBitsAreLow(b / 2, k - 1);
    }
  }

  /** Parsing undoes packing: every bit string is the meaning of an accepted payload. */
  lemma PackIsAccepted(bits: seq<bool>)
    ensures Accepted(Pack(bits), |bits|) && Bits(Pack(bits), |bits|) == bits
  {
    var payload, n := Pack(bits), |bits|;
    if n % 8 != 0 {
      var last := |payload| - 1;
      forall j: nat | j < 8 - n % 8 ensures !TestBit(payload[last], j) {
        PackedBit(bits, 8 * last, 8, 7 - j);
      }
      ClearBitsAreLow(payload[last], 8 - n % 8);
    }
    forall i | 0 <= i < n ensures Bits(payload, n)[i] == bits[i] {
      PackedBit(bits, 8 * (i / 8), 8, i % 8);
    }
  }

  /** Which byte and which bit of it piece 8 * k + i is in. */
  lemma WhereBitIs(pieces: nat, k: nat, i: nat)
    requires k < ByteCount(pieces) && i < 8
    ensures (8 * k + i) / 8 == k && (8 * k + i) % 8 == i
    ensures 8 * k + i >= pieces ==> k == ByteCount(pieces) - 1 && pieces % 8 != 0 && i >= pieces % 8
  {
  }

  lemma BitOfPayload(payload: Bytes, pieces: nat, k: nat, i: nat)
    requires Accepted(payload, pieces) && k < |payload| && i < 8
    ensures SameBit(Bits(payload, pieces), 8 * k, i, payload[k], 8)
  {
    WhereBitIs(pieces, k, i);
    if 8 * k + i >= pieces {
      LowBitsAreClear(payload[k], 8 - pieces % 8, 7 - i);
    }
  }

  /** Packing undoes parsing: no two accepted payloads mean the same pieces. */
  lemma RepackIsIdentity(payload: Bytes, pieces: nat)
    requires Accepted(payload, pieces)
    ensures Pack(Bits(payload, pieces)) == payload
  {
    var bits := Bits(payload, pieces);
    assert Power(8) == 256;
    forall k | 0 <= k < |payload| ensures Pack(bits)[k] == payload[k] {
      forall i: nat | i < 8 ensures SameBit(bits, 8 * k, i, payload[k], 8) {
        BitOfPayload(payload, pieces, k, i);
      }
      RepackBits(payload[k], bits, 8 * k, 8, 256);
    }
  }
}
