/** Prefix masks: the two validators that scan a mask bit by bit (sai_meta.cpp and
    saiserialize.cpp) and the writer that expands a prefix length, in the notation of
    section 2.3 of RFC 4291 and section 3.1 of RFC 4632. */
module IpMask {
  import opened Sai

  /** Weight of bit `i` of a byte, bit 0 being the most significant. */
  function Weight(i: nat): nat
    requires i < 8
  {
    [128, 64, 32, 16, 8, 4, 2, 1][i]
  }

  predicate BitOf(b: Byte, i: nat)
    requires i < 8
  {
    b / Weight(i) % 2 == 1
  }

  predicate Bit(mask: seq<Byte>, i: nat)
    requires i < 8 * |mask|
  {
    BitOf(mask[i / 8], i % 8)
  }

  /** A mask is valid when no one bit follows a zero bit. */
  predicate Contiguous(mask: seq<Byte>) {
    forall i, j :: 0 <= i < j < 8 * |mask| && Bit(mask, j) ==> Bit(mask, i)
  }

  function MaskByte(bits: nat, j: nat): Byte {
    if 8 * j + 8 <= bits then 255
    else if bits <= 8 * j then 0
    else 256 - 2 * Weight(bits - 8 * j)
  }

  /** The mask of `size` bytes whose first `bits` bits are ones. */
  function MaskOf(bits: nat, size: nat): (mask: seq<Byte>)
    ensures |mask| == size
  {
    seq(size, (j: nat) => MaskByte(bits, j))
  }

  /** The place of the first zero bit from `from` on. */
  function Leading(mask: seq<Byte>, from: nat): (n: nat)
    requires from <= 8 * |mask|
    ensures n <= 8 * |mask|
    decreases 8 * |mask| - from
  {
    if from == 8 * |mask| || !Bit(mask, from) then from else Leading(mask, from + 1)
  }

  function MaskLength(mask: seq<Byte>): Option<nat> {
    if Contiguous(mask) then Some(Leading(mask, 0)) else None
  }

  /** The first bits are the high ones of the first bytes. */
  lemma MaskSamples()
    ensures MaskOf(0, 4) == [0, 0, 0, 0] && MaskOf(32, 4) == [255, 255, 255, 255]
    ensures MaskOf(12, 4) == [255, 0xf0, 0, 0] && MaskOf(17, 4) == [255, 255, 0x80, 0]
  {
  }

  // ---------------------------------------------------------------- methods

  /** `is_ipv6_mask_valid` */
  method IsIpv6MaskValid(mask: array?<Byte>) returns (valid: bool)
    requires mask != null ==> mask.Length == 16
    ensures valid <==> mask != null && Contiguous(mask[..])
  {
    if mask == null {
      return false;
    }
    var ones, zeros, i := 0, false, 0;
    while i < 128
      invariant 0 <= ones <= i <= 128
      invariant zeros <==> ones < i
      invariant forall k: nat :: k < i ==> (Bit(mask[..], k) <==> k < ones)
    {
      var bit := BitOf(mask[i / 8], i % 8);
      assert bit == Bit(mask[..], i);
      if zeros && bit {
        assert !Bit(mask[..], ones) && Bit(mask[..], i);
        return false;
      }
      zeros := zeros || !bit;
      if bit {
        ones := ones + 1;
      }
      i := i + 1;
    }
    valid := true;
  }

  /** `get_ip_mask`; `None` is the exception it throws on an invalid mask. */
  method GetIpMask(mask: seq<Byte>) returns (bits: Option<nat>)
    requires |mask| == 4 || |mask| == 16
    ensures bits.Some? <==> Contiguous(mask)
    ensures bits.Some? ==> bits.value <= 8 * |mask| && mask == MaskOf(bits.value, |mask|)
    ensures bits == MaskLength(mask)
  {
    var count := 8 * |mask|;
    var ones, zeros, i := 0, false, 0;
    while i < count
      invariant 0 <= ones <= i <= count
      invariant zeros <==> ones < i
      invariant forall k: nat :: k < i ==> (Bit(mask, k) <==> k < ones)
    {
      var bit := BitOf(mask[i / 8], i % 8);
      assert bit == Bit(mask, i);
      if zeros && bit {
        assert !Bit(mask, ones) && Bit(mask, i);
        return None;
      }
      zeros := zeros || !bit;
      if bit {
        ones := ones + 1;
      }
      i := i + 1;
    }
    LeadingOnesDetermine(mask, ones);
    MaskLengthExpanded(mask, ones);
    bits := Some(ones);
  }

  /** `sai_populate_ip_mask`; false is the exception it throws. */
  method PopulateIpMask(bits: Byte, mask: array?<Byte>, ipv6: bool) returns (ok: bool)
    requires mask != null ==> mask.Length == if ipv6 then 16 else 4
    modifies if mask == null then {} else {mask}
    ensures ok <==> mask != null && bits <= if ipv6 then 128 else 32
    ensures ok ==> mask[..] == MaskOf(bits, mask.Length)
    ensures !ok && mask != null ==> mask[..] == old(mask[..])
  {
    if mask == null {
      return false;
    }
    if (ipv6 && bits > 128) || (!ipv6 && bits > 32) {
      return false;
    }
    forall j | 0 <= j < mask.Length {
      mask[j] := 0;
    }
    var i := 0;
    while i < bits / 8
      invariant 0 <= i <= bits / 8
      invariant forall j :: 0 <= j < mask.Length ==> mask[j] == if j < i then 255 else 0
    {
      mask[i] := 0xFF;
      i := i + 1;
    }
    var rem := bits % 8;
    if rem != 0 {
      mask[bits / 8] := ShiftedOnes(rem);
    }
    assert mask[..] == MaskOf(bits, mask.Length);
    ok := true;
  }

  /** `(uint8_t)(0xFF << (8 - rem))` */
  function ShiftedOnes(rem: nat): Byte
    requires 0 < rem < 8
  {
    255 * (2 * Weight(rem)) % 256
  }

  // ----------------------------------------------------------------- lemmas

  /** A byte is determined by its eight bits. */
  lemma BitsDetermineByte(a: Byte, b: Byte)
    requires forall i: nat :: i < 8 ==> (BitOf(a, i) <==> BitOf(b, i))
    ensures a == b
  {
    assert BitOf(a, 0) <==> BitOf(b, 0);
    SameHigherBits(a, b, 1);
    SameHigherBits(a, b, 2);
    SameHigherBits(a, b, 3);
    SameHigherBits(a, b, 4);
    SameHigherBits(a, b, 5);
    SameHigherBits(a, b, 6);
    SameHigherBits(a, b, 7);
  }

  lemma SameHigherBits(a: Byte, b: Byte, i: nat)
    requires 0 < i < 8
    requires a / Weight(i - 1) == b / Weight(i - 1)
    requires BitOf(a, i) <==> BitOf(b, i)
    ensures a / Weight(i) == b / Weight(i)
  {
    HalfQuotient(a, i);
    HalfQuotient(b, i);
  }

  lemma HalfQuotient(a: Byte, i: nat)
    requires 0 < i < 8
    ensures a / Weight(i - 1) == a / Weight(i) / 2
  {
    match i
    case 1 => assert a / 128 == a / 64 / 2;
    case 2 => assert a / 64 == a / 32 / 2;
    case 3 => assert a / 32 == a / 16 / 2;
    case 4 => assert a / 16 == a / 8 / 2;
    case 5 => assert a / 8 == a / 4 / 2;
    case 6 => assert a / 4 == a / 2 / 2;
    case _ =>
  }

  lemma MaskByteBits(bits: nat, j: nat, i: nat)
    requires i < 8
    ensures BitOf(MaskByte(bits, j), i) <==> 8 * j + i < bits
  {
    if 8 * j + 8 <= bits {
    } else if bits <= 8 * j {
    } else {
      var rem := bits - 8 * j;
      assert rem in {1, 2, 3, 4, 5, 6, 7};
      assert i in {0, 1, 2, 3, 4, 5, 6, 7};
    }
  }

  /** The expanded mask has ones exactly in its first `bits` places. */
  lemma MaskOfBits(bits: nat, size: nat, i: nat)
    requires i < 8 * size
    ensures Bit(MaskOf(bits, size), i) <==> i < bits
  {
    MaskByteBits(bits, i / 8, i % 8);
  }

  lemma LeadingOnesDetermine(mask: seq<Byte>, ones: nat)
    requires ones <= 8 * |mask|
    requires forall k: nat :: k < 8 * |mask| ==> (Bit(mask, k) <==> k < ones)
    ensures mask == MaskOf(ones, |mask|)
  {
    forall j | 0 <= j < |mask| ensures mask[j] == MaskOf(ones, |mask|)[j] {
      forall i: nat | i < 8
        ensures BitOf(mask[j], i) <==> BitOf(MaskByte(ones, j), i)
      {
        var k := 8 * j + i;
        assert k / 8 == j && k % 8 == i;
        assert Bit(mask, k) <==> k < ones;
        MaskByteBits(ones, j, i);
      }
      BitsDetermineByte(mask[j], MaskByte(ones, j));
    }
  }

  /** The masks both validators accept are exactly the expanded prefix lengths, and the
      prefix length is unique, so expanding and measuring invert each other. */
  lemma ContiguousIffExpanded(mask: seq<Byte>)
    ensures Contiguous(mask) <==> exists n: nat :: n <= 8 * |mask| && mask == MaskOf(n, |mask|)
  {
    if Contiguous(mask) {
      LeadingOnes(mask, 0);
      LeadingOnesDetermine(mask, Leading(mask, 0));
    }
    if n: nat :| n <= 8 * |mask| && mask == MaskOf(n, |mask|) {
      forall i, j | 0 <= i < j < 8 * |mask| && Bit(mask, j) ensures Bit(mask, i) {
        MaskOfBits(n, |mask|, i);
        MaskOfBits(n, |mask|, j);
      }
    }
  }

  lemma {:induction false} LeadingOnes(mask: seq<Byte>, from: nat)
    requires Contiguous(mask) && from <= 8 * |mask|
    requires forall k: nat :: k < from ==> Bit(mask, k)
    ensures forall k: nat :: k < 8 * |mask| ==> (Bit(mask, k) <==> k < Leading(mask, from))
    decreases 8 * |mask| - from
  {
    if from != 8 * |mask| && Bit(mask, from) {
      LeadingOnes(mask, from + 1);
    }
  }

  lemma MaskOfInjective(m: nat, n: nat, size: nat)
    requires m <= 8 * size && n <= 8 * size
    requires MaskOf(m, size) == MaskOf(n, size)
    ensures m == n
  {
    if m < n {
      MaskOfBits(m, size, m);
      MaskOfBits(n, size, m);
    } else if n < m {
      MaskOfBits(m, size, n);
      MaskOfBits(n, size, n);
    }
  }

  /** A mask that is the expansion of a prefix length has that length. */
  lemma MaskLengthExpanded(mask: seq<Byte>, bits: nat)
    requires bits <= 8 * |mask| && mask == MaskOf(bits, |mask|)
    ensures MaskLength(mask) == Some(bits)
  {
    ContiguousIffExpanded(mask);
    LeadingOnes(mask, 0);
    LeadingOnesDetermine(mask, Leading(mask, 0));
    MaskOfInjective(bits, Leading(mask, 0), |mask|);
  }

  /** A valid mask is the expansion of its length. */
  lemma MaskLengthInverts(mask: seq<Byte>)
    requires Contiguous(mask)
    ensures mask == MaskOf(Leading(mask, 0), |mask|)
  {
    LeadingOnes(mask, 0);
    LeadingOnesDetermine(mask, Leading(mask, 0));
  }

  /** Measuring an expanded mask: `get_ip_mask(sai_populate_ip_mask(n)) == n`. */
  method MeasureExpanded(bits: nat, size: nat) returns (measured: Option<nat>)
    requires size == 4 || size == 16
    requires bits <= 8 * size
    ensures measured == Some(bits)
  {
    var mask := MaskOf(bits, size);
    ContiguousIffExpanded(mask);
    measured := GetIpMask(mask);
    MaskOfInjective(bits, measured.value, size);
  }
}
