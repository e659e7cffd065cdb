/** Bytes, MSB-first bit strings and the one-byte shift register that the
    SST25V driver uses to serialise and deserialise bytes on the bus. */
module Bits {

  /** An unsigned 8-bit value (CCS `int8`, unsigned by default). */
  type Byte = x: int | 0 <= x < 0x100

  /** An unsigned 16-bit value (CCS `int16`). */
  type Word16 = x: int | 0 <= x < 0x1_0000

  /** An unsigned 32-bit value (CCS `int32`). */
  type Word32 = x: int | 0 <= x < 0x1_0000_0000

  function Pow2(n: nat): (r: nat)
    ensures r >= 1
  {
    if n == 0 then 1 else 2 * Pow2(n - 1)
  }

  /** The number whose binary digits, most significant first, are `bits`. */
  function Value(bits: seq<bool>): (v: nat)
    ensures v < Pow2(|bits|)
  {
    if bits == [] then 0
    else 2 * Value(bits[..|bits| - 1]) + (if bits[|bits| - 1] then 1 else 0)
  }

  /** The low `n` binary digits of `x`, most significant first. */
  function BitsOf(x: nat, n: nat): (bits: seq<bool>)
    ensures |bits| == n
  {
    if n == 0 then [] else BitsOf(x / 2, n - 1) + [x % 2 == 1]
  }

  /** The eight bits of a byte in the order they travel on the bus: bit 7 first. */
  function MsbFirst(b: Byte): (bits: seq<bool>)
    ensures |bits| == 8
  {
    BitsOf(b, 8)
  }

  /** The byte assembled from eight bits received most significant first. */
  function ByteOf(bits: seq<bool>): (b: Byte)
    requires |bits| == 8
  {
    assert Pow2(8) == 256;
    Value(bits)
  }

  /** A byte string serialised byte by byte, each byte MSB-first. */
  function Pack(bytes: seq<Byte>): (bits: seq<bool>)
    ensures |bits| == 8 * |bytes|
  {
    if bytes == [] then [] else MsbFirst(bytes[0]) + Pack(bytes[1..])
  }

  /** A bit string cut into consecutive groups of eight, each read MSB-first. */
  function Unpack(bits: seq<bool>): (bytes: seq<Byte>)
    requires |bits| % 8 == 0
    ensures 8 * |bytes| == |bits|
  {
    if bits == [] then [] else [ByteOf(bits[..8])] + Unpack(bits[8..])
  }

  /** CCS `shift_left(&x, 1, b)` on a one-byte variable: the new value of
      `x` (shifted up, `b` entering at bit 0) and the bit that left bit 7. */
  function ShiftLeft(x: Byte, b: bool): (Byte, bool)
  {
    ((2 * x + (if b then 1 else 0)) % 0x100, x >= 0x80)
  }

  /** CCS `Make8(a, k)`: byte `k` of `a`, counting from the least significant. */
  function Make8(a: Word32, k: nat): Byte
    requires k < 4
  {
    if k == 0 then a % 0x100
    else if k == 1 then a / 0x100 % 0x100
    else if k == 2 then a / 0x1_0000 % 0x100
    else a / 0x100_0000 % 0x100
  }

  /** The 24-bit address field of an addressed command, in the order the
      driver sends it: `Make8(a, 2)`, `Make8(a, 1)`, `Make8(a, 0)`. */
  function AddressBytes(a: Word32): (bytes: seq<Byte>)
    ensures |bytes| == 3
  {
    [Make8(a, 2), Make8(a, 1), Make8(a, 0)]
  }

  // ---------------------------------------------------------------------
  // Bit strings

  /** Reading a bit string MSB-first peels its first bit off the top. */
  lemma {:induction false} ValueFront(bits: seq<bool>)
    requires bits != []
    ensures Value(bits) == (if bits[0] then Pow2(|bits| - 1) else 0) + Value(bits[1..])
  {
    if |bits| > 1 {
      var init := bits[..|bits| - 1];
      ValueFront(init);
      assert init[1..] == bits[1..][..|bits| - 2];
    } else {
      assert bits[1..] == [];
    }
  }

  /** Reading back the low `n` bits of `x < 2^n` gives `x`. */
  lemma {:induction false} ValueOfBitsOf(x: nat, n: nat)
    requires x < Pow2(n)
    ensures Value(BitsOf(x, n)) == x
  {
    if n > 0 {
      ValueOfBitsOf(x / 2, n - 1);
      assert BitsOf(x, n)[..n - 1] == BitsOf(x / 2, n - 1);
    }
  }

  /** A bit string is the binary expansion of its own value. */
  lemma {:induction false} BitsOfValue(bits: seq<bool>)
    ensures BitsOf(Value(bits), |bits|) == bits
  {
    if bits != [] {
      var init := bits[..|bits| - 1];
      BitsOfValue(init);
      assert bits == init + [bits[|bits| - 1]];
    }
  }

  /** Serialising a byte MSB-first and reading the bits back MSB-first
      reconstructs the byte. */
  lemma MsbFirstRoundTrip(b: Byte)
    ensures ByteOf(MsbFirst(b)) == b
  {
    assert Pow2(8) == 256;
    ValueOfBitsOf(b, 8);
  }

  /** Eight received bits are exactly the MSB-first serialisation of the byte
      they assemble to. */
  lemma ByteOfRoundTrip(bits: seq<bool>)
    requires |bits| == 8
    ensures MsbFirst(ByteOf(bits)) == bits
  {
    BitsOfValue(bits);
  }

  /** Bit 0 of a received byte is the last bit sampled. */
  lemma ByteOfBit0(bits: seq<bool>)
    requires |bits| == 8
    ensures ByteOf(bits) % 2 == 1 <==> bits[7]
  {
  }

  /** Unpack undoes Pack. */
  lemma {:induction false} UnpackPack(bytes: seq<Byte>)
    ensures Unpack(Pack(bytes)) == bytes
  {
    if bytes != [] {
      var bits := Pack(bytes);
      assert bits[..8] == MsbFirst(bytes[0]);
      assert bits[8..] == Pack(bytes[1..]);
      MsbFirstRoundTrip(bytes[0]);
      UnpackPack(bytes[1..]);
    }
  }

  /** Serialising two byte strings one after the other. */
  lemma {:induction false} PackAppend(x: seq<Byte>, y: seq<Byte>)
    ensures Pack(x + y) == Pack(x) + Pack(y)
  {
    if x != [] {
      assert (x + y)[1..] == x[1..] + y;
      PackAppend(x[1..], y);
    } else {
      assert x + y == y;
    }
  }

  /** Distinct bytes travel as distinct bit strings. */
  lemma MsbFirstInjective(a: Byte, b: Byte)
    ensures MsbFirst(a) == MsbFirst(b) <==> a == b
  {
    MsbFirstRoundTrip(a);
    MsbFirstRoundTrip(b);
  }

  /** A serialised byte string starts with its first byte, MSB-first. */
  lemma PackFirst(bytes: seq<Byte>)
    requires bytes != []
    ensures Pack(bytes)[..8] == MsbFirst(bytes[0])
  {
  }

  /** Pack undoes Unpack on any whole number of bytes. */
  lemma {:induction false} PackUnpack(bits: seq<bool>)
    requires |bits| % 8 == 0
    ensures Pack(Unpack(bits)) == bits
  {
    if bits != [] {
      ByteOfRoundTrip(bits[..8]);
      PackUnpack(bits[8..]);
      assert bits == bits[..8] + bits[8..];
    }
  }

  /** Byte `k` of `n` unpacked bytes is the `k`-th group of eight bits. */
  lemma {:induction false} UnpackAt(bits: seq<bool>, n: nat, k: nat)
    requires |bits| == 8 * n && k < n
    ensures Unpack(bits)[k] == ByteOf(bits[8 * k..8 * k + 8])
  {
    if k > 0 {
      UnpackAt(bits[8..], n - 1, k - 1);
      assert bits[8..][8 * (k - 1)..8 * (k - 1) + 8] == bits[8 * k..8 * k + 8];
    }
  }

  /** Unpacking one more group of eight appends one more byte. */
  lemma {:induction false} UnpackNext(bits: seq<bool>, i: nat)
    requires 8 * (i + 1) <= |bits|
    ensures Unpack(bits[..8 * (i + 1)]) == Unpack(bits[..8 * i]) + [ByteOf(bits[8 * i..8 * i + 8])]
  {
    if i > 0 {
      UnpackNext(bits[8..], i - 1);
      assert bits[..8 * (i + 1)][8..] == bits[8..][..8 * i];
      assert bits[..8 * i][8..] == bits[8..][..8 * (i - 1)];
      assert bits[8..][8 * (i - 1)..8 * (i - 1) + 8] == bits[8 * i..8 * i + 8];
      assert bits[..8 * (i + 1)][..8] == bits[..8 * i][..8];
    } else {
      assert bits[..8][8..] == [] && bits[..0] == [] && bits[..8][..8] == bits[0..8];
    }
  }

  /** Storing the byte of the group of eight at `8i` at index `i` extends
      the unpacked prefix by one and leaves the entries after it alone. */
  lemma UnpackStore(bits: seq<bool>, i: nat, before: seq<Byte>, after: seq<Byte>)
    requires 8 * (i + 1) <= |bits| && i < |before|
    requires before[..i] == Unpack(bits[..8 * i])
    requires after == before[i := ByteOf(bits[8 * i..8 * i + 8])]
    ensures after[..i + 1] == Unpack(bits[..8 * (i + 1)])
    ensures after[i + 1..] == before[i + 1..]
  {
    UnpackNext(bits, i);
    assert after[..i + 1] == before[..i] + [ByteOf(bits[8 * i..8 * i + 8])];
  }

  /** Bytes that are, one by one, the groups of eight of `bits` are its unpacking. */
  lemma UnpackAll(bits: seq<bool>, bytes: seq<Byte>)
    requires |bits| == 8 * |bytes|
    requires forall k :: 0 <= k < |bytes| ==> bytes[k] == ByteOf(bits[8 * k..8 * k + 8])
    ensures bytes == Unpack(bits)
  {
    forall k | 0 <= k < |bytes|
      ensures bytes[k] == Unpack(bits)[k]
    {
      UnpackAt(bits, |bytes|, k);
    }
  }

  // ---------------------------------------------------------------------
  // The shift register

  /** One `shift_left(&x, 1, b)` on a byte whose bits (MSB-first) are `reg`
      pushes out `reg[0]` and leaves `reg[1..] + [b]`: the byte is a
      window of eight bits sliding along the bit stream. */
  lemma ShiftRegister(reg: seq<bool>, b: bool)
    requires |reg| == 8
    ensures ShiftLeft(ByteOf(reg), b) == (ByteOf(reg[1..] + [b]), reg[0])
  {
    assert Pow2(7) == 128;
    ValueFront(reg);
    assert (reg[1..] + [b])[..7] == reg[1..];
  }

  /** The byte variable and the bits pushed out of bit 7 after `n` calls of
      `shift_left(&x, 1, 0)` starting from `x` (the loop of STFlash_SendByte). */
  function ShiftedOut(x: Byte, n: nat): (r: (Byte, seq<bool>))
    ensures |r.1| == n
  {
    if n == 0 then (x, [])
    else
      var (y, out) := ShiftedOut(x, n - 1);
      var (y', b) := ShiftLeft(y, false);
      (y', out + [b])
  }

  /** The byte variable after `shift_left(&x, 1, b)` for each `b` of `bits`
      in turn, starting from `x` (the loops of STFlash_GetByte and STFlash_getBytes). */
  function ShiftedIn(x: Byte, bits: seq<bool>): Byte
  {
    if bits == [] then x
    else ShiftLeft(ShiftedIn(x, bits[..|bits| - 1]), bits[|bits| - 1]).0
  }

  /** `n` falses: what shifting in zeros leaves at the bottom of the register. */
  function Zeros(n: nat): (z: seq<bool>)
    ensures |z| == n && forall k :: 0 <= k < n ==> !z[k]
  {
    seq(n, _ => false)
  }

  /** After `i` shifts the register holds the unsent bits on top of `i` zeros,
      and the bits pushed out are the first `i` bits of the byte, MSB first. */
  lemma {:induction false} ShiftedOutRegister(x: Byte, i: nat)
    requires i <= 8
    ensures ShiftedOut(x, i).0 == ByteOf(MsbFirst(x)[i..] + Zeros(i))
    ensures ShiftedOut(x, i).1 == MsbFirst(x)[..i]
  {
    var bits := MsbFirst(x);
    if i == 0 {
      MsbFirstRoundTrip(x);
      assert bits[0..] + Zeros(0) == bits;
    } else {
      ShiftedOutRegister(x, i - 1);
      var reg := bits[i - 1..] + Zeros(i - 1);
      ShiftRegister(reg, false);
      assert reg[1..] + [false] == bits[i..] + Zeros(i);
      assert bits[..i - 1] + [reg[0]] == bits[..i];
    }
  }

  /** STFlash_SendByte's eight shifts push out exactly the byte's bits, MSB first. */
  lemma ShiftedOutAll(x: Byte)
    ensures ShiftedOut(x, 8).1 == MsbFirst(x)
  {
    ShiftedOutRegister(x, 8);
  }

  /** After shifting in `bits` (at most eight), the register holds the old
      value's low bits on top of the bits shifted in. */
  lemma {:induction false} ShiftedInRegister(x: Byte, bits: seq<bool>)
    requires |bits| <= 8
    ensures ShiftedIn(x, bits) == ByteOf(MsbFirst(x)[|bits|..] + bits)
  {
    var n := |bits|;
    if n == 0 {
      MsbFirstRoundTrip(x);
      assert MsbFirst(x)[0..] + bits == MsbFirst(x);
    } else {
      var init := bits[..n - 1];
      ShiftedInRegister(x, init);
      var reg := MsbFirst(x)[n - 1..] + init;
      ShiftRegister(reg, bits[n - 1]);
      assert reg[1..] + [bits[n - 1]] == MsbFirst(x)[n..] + bits;
    }
  }

  /** Eight shifts push every old bit out: the byte read is the eight bits
      received, whatever the variable held before. */
  lemma ShiftedInAll(x: Byte, bits: seq<bool>)
    requires |bits| == 8
    ensures ShiftedIn(x, bits) == ByteOf(bits)
  {
    ShiftedInRegister(x, bits);
    assert MsbFirst(x)[8..] + bits == bits;
  }

  /** One more shift of the loops, stated on prefixes. */
  lemma ShiftedNext(x: Byte, bits: seq<bool>, i: nat)
    requires i < |bits|
    ensures ShiftedIn(x, bits[..i + 1]) == ShiftLeft(ShiftedIn(x, bits[..i]), bits[i]).0
  {
    assert bits[..i + 1][..i] == bits[..i];
  }

  // ---------------------------------------------------------------------
  // Addresses

  /** The three address bytes, read back big-endian, are the address modulo
      2^24: bits 24 to 31 of the 32-bit `Address` never reach the bus. */
  lemma AddressBytesValue(a: Word32)
    ensures AddressBytes(a)[0] as int * 0x1_0000 + AddressBytes(a)[1] as int * 0x100
            + AddressBytes(a)[2] as int == a % 0x100_0000
  {
    var q1, r0 := a / 0x100, a % 0x100;
    var q2, r1 := q1 / 0x100, q1 % 0x100;
    var q3, r2 := q2 / 0x100, q2 % 0x100;
    assert a == 0x100 * q1 + r0;
    assert q1 == 0x100 * q2 + r1;
    assert a == 0x1_0000 * q2 + 0x100 * r1 + r0;
    assert a / 0x1_0000 == q2;
    assert a == 0x100_0000 * q3 + (0x1_0000 * r2 + 0x100 * r1 + r0);
  }

  /** Two addresses produce the same address field exactly when they agree
      modulo 2^24. */
  lemma AddressBytesEqual(a: Word32, b: Word32)
    ensures AddressBytes(a) == AddressBytes(b) <==> a % 0x100_0000 == b % 0x100_0000
  {
    AddressBytesValue(a);
    AddressBytesValue(b);
    if a % 0x100_0000 == b % 0x100_0000 {
      var r := a % 0x100_0000;
      assert a == 0x100_0000 * (a / 0x100_0000) + r;
      assert b == 0x100_0000 * (b / 0x100_0000) + r;
      assert a / 0x1_0000 == 0x100 * (a / 0x100_0000) + r / 0x1_0000;
      assert b / 0x1_0000 == 0x100 * (b / 0x100_0000) + r / 0x1_0000;
      assert a / 0x100 == 0x1_0000 * (a / 0x100_0000) + r / 0x100;
      assert b / 0x100 == 0x1_0000 * (b / 0x100_0000) + r / 0x100;
    }
  }
}
