/** The SDK's proof-of-work check: leading zero bits of a block id given as bytes. */
module PowBits {
  import opened Common

  type Byte = x: nat | x < 256

  function Pow2(k: nat): (p: nat)
    ensures p >= 1
  {
    if k == 0 then 1 else 2 * Pow2(k - 1)
  }

  /** The bytes as one big-endian number. */
  function Number(bytes: seq<Byte>): nat {
    if bytes == [] then 0 else 256 * Number(bytes[..|bytes| - 1]) + bytes[|bytes| - 1]
  }

  /** `z` is the number of zero bits in front of the first one among `bits` bits of `n`. */
  ghost predicate LeadingZeros(n: nat, bits: nat, z: nat) {
    z <= bits && n < Pow2(bits - z) && (z < bits ==> n >= Pow2(bits - z - 1))
  }

  lemma {:induction false} Pow2Adds(a: nat, b: nat)
    ensures Pow2(a + b) == Pow2(a) * Pow2(b)
  {
    if a > 0 {
      Pow2Adds(a - 1, b);
      assert Pow2(a + b) == 2 * Pow2(a - 1 + b);
      assert 2 * (Pow2(a - 1) * Pow2(b)) == 2 * Pow2(a - 1) * Pow2(b);
    }
  }

  lemma {:induction false} Pow2Grows(a: nat, b: nat)
    requires a <= b
    ensures Pow2(a) <= Pow2(b)
    decreases b
  {
    if a < b { Pow2Grows(a, b - 1); }
  }

  lemma {:induction false} Pow2Eight()
    ensures Pow2(8) == 256
  {}

  /** Appending a byte shifts the number by eight bits. */
  lemma {:induction false} NumberSnoc(bytes: seq<Byte>, b: Byte)
    ensures Number(bytes + [b]) == 256 * Number(bytes) + b
  {}

  /** Later bytes do not change the leading zeros of a number that is not zero. */
  lemma {:induction false} LeadingZerosKept(n: nat, bits: nat, z: nat, b: Byte)
    requires LeadingZeros(n, bits, z) && z < bits
    ensures LeadingZeros(256 * n + b, bits + 8, z)
  {
    Pow2Eight();
    Pow2Adds(8, bits - z);
    Pow2Adds(8, bits - z - 1);
  }

  lemma {:induction false} LeadingZerosKeptAll(bytes: seq<Byte>, i: nat, z: nat)
    requires i <= |bytes| && LeadingZeros(Number(bytes[..i]), 8 * i, z) && z < 8 * i
    ensures LeadingZeros(Number(bytes), 8 * |bytes|, z)
    decreases |bytes| - i
  {
    if i < |bytes| {
      assert bytes[..i + 1] == bytes[..i] + [bytes[i]];
      NumberSnoc(bytes[..i], bytes[i]);
      LeadingZerosKept(Number(bytes[..i]), 8 * i, z, bytes[i]);
      LeadingZerosKeptAll(bytes, i + 1, z);
    } else {
      assert bytes[..i] == bytes;
    }
  }

  /** At least `r` leading zero bits is the same as lying below the target `2^(bits - r)`. */
  lemma {:induction false} BelowTargetIff(n: nat, bits: nat, z: nat, r: nat)
    requires LeadingZeros(n, bits, z)
    ensures z >= r <==> r <= bits && n < Pow2(bits - r)
  {
    if z >= r {
      Pow2Grows(bits - z, bits - r);
    } else if r <= bits {
      Pow2Grows(bits - r, bits - z - 1);
    }
  }

  /** Zero bits in front of the highest set bit of one byte. */
  method CountInByte(byte: Byte) returns (zeroBits: nat)
    requires byte != 0
    ensures LeadingZeros(byte, 8, zeroBits) && zeroBits < 8
  {
    Pow2Eight();
    var mask: nat := 128;
    zeroBits := 0;
    assert mask == Pow2(7);
    while mask > 0 && byte / mask % 2 == 0
      invariant zeroBits <= 8 && byte < Pow2(8 - zeroBits)
      invariant mask == if zeroBits < 8 then Pow2(7 - zeroBits) else 0
    {
      BitClear(byte, mask);
      zeroBits := zeroBits + 1;
      mask := mask / 2;
    }
    if zeroBits < 8 { BitSet(byte, mask); }
  }

  lemma {:induction false} BitClear(x: nat, mask: nat)
    requires mask > 0 && x < 2 * mask && x / mask % 2 == 0
    ensures x < mask
  {}

  lemma {:induction false} BitSet(x: nat, mask: nat)
    requires mask > 0 && x / mask % 2 != 0
    ensures x >= mask
  {}

  /** The check holds exactly for numbers below the target. */
  method CheckPowBits(bytes: seq<Byte>, requiredBits: nat) returns (ok: bool)
    ensures ok <==> requiredBits <= 8 * |bytes| && Number(bytes) < Pow2(8 * |bytes| - requiredBits)
  {
    hide Pow2;
    var zeroBits: nat := 0;
    var i := 0;
    if requiredBits == 0 {
      NumberBelow(bytes);
      return true;
    }
    while i < |bytes|
      invariant i <= |bytes| && zeroBits == 8 * i && Number(bytes[..i]) == 0
    {
      assert bytes[..i + 1] == bytes[..i] + [bytes[i]];
      NumberSnoc(bytes[..i], bytes[i]);
      if bytes[i] == 0 {
        zeroBits := zeroBits + 8;
        i := i + 1;
      } else {
        var z := CountInByte(bytes[i]);
        zeroBits := zeroBits + z;
        ByteAfterZeros(bytes[i], i, z);
        LeadingZerosKeptAll(bytes, i + 1, zeroBits);
        break;
      }
    }
    if i == |bytes| { assert bytes[..i] == bytes; }
    BelowTargetIff(Number(bytes), 8 * |bytes|, zeroBits, requiredBits);
    return zeroBits >= requiredBits;
  }

  lemma {:induction false} ByteAfterZeros(b: Byte, i: nat, z: nat)
    requires LeadingZeros(b, 8, z)
    ensures LeadingZeros(b, 8 * (i + 1), 8 * i + z)
  {}

  lemma {:induction false} NumberBelow(bytes: seq<Byte>)
    ensures Number(bytes) < Pow2(8 * |bytes|)
  {
    if bytes != [] {
      var n := |bytes| - 1;
      NumberBelow(bytes[..n]);
      Pow2Eight();
      Pow2Adds(8, 8 * n);
    }
  }
}
