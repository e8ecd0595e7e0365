/**
 * validatePublicKey of keypair.go: a Curve25519 public key is refused when it
 * equals one of twelve forbidden 32-byte values, the list that the Noise
 * Explorer C implementation uses. Read as little-endian integers
 * (decodeLittleEndian in section 5 of RFC 7748), those values are meant to be
 * every 32-byte encoding of a u-coordinate congruent modulo p = 2^255 - 19 to
 * one of five low-order residues. The table as keypair.go writes it breaks
 * that pattern in its last entry. Keys are validated against the table as
 * written; the corrected table is kept beside it.
 */
module Validation {
  import opened Wire

  /** The field prime 2^255 - 19 of Curve25519 (RFC 7748 section 4.1). */
  const P: nat := 57896044618658097711785492504343953926634992332820282019728792003956564819949

  /** 2^256: every 32-byte string decodes below it. */
  const TwoTo256: nat := 115792089237316195423570985008687907853269984665640564039457584007913129639936

  /** The two u-coordinates of points of order 8 that the table lists (its entries 2 and 3). */
  const OrderEightA: nat := 325606250916557431795983626356110631294008115727848805560023387167927233504
  const OrderEightB: nat := 39382357235489614581723060781553021112529911719440698176882885853963445705823

  /** The residues modulo p of the low-order u-coordinates the table is meant to exclude. */
  const LowOrderResidues: set<nat> := {0, 1, OrderEightA, OrderEightB, P - 1}

  /**
   * The integers the corrected table encodes: for each low-order residue r,
   * every one of r, r + p and r + 2p that is below 2^256.
   */
  const ForbiddenIntegers: set<nat> := {
    0, 1, OrderEightA, OrderEightB, P - 1,
    P, P + 1, P + OrderEightA, P + OrderEightB,
    2 * P - 1, 2 * P, 2 * P + 1
  }

  /** 0, little-endian (keypair.go:155). */
  const EncodedZero: seq<byte> :=
    [0, 0, 0, 0, 0, 0, 0, 0, 0, 0, 0, 0, 0, 0, 0, 0,
     0, 0, 0, 0, 0, 0, 0, 0, 0, 0, 0, 0, 0, 0, 0, 0]

  /** 1, little-endian (keypair.go:156). */
  const EncodedOne: seq<byte> :=
    [1, 0, 0, 0, 0, 0, 0, 0, 0, 0, 0, 0, 0, 0, 0, 0,
     0, 0, 0, 0, 0, 0, 0, 0, 0, 0, 0, 0, 0, 0, 0, 0]

  /** the u-coordinate OrderEightA, little-endian (keypair.go:157). */
  const EncodedOrderEightA: seq<byte> :=
    [224, 235, 122, 124, 59, 65, 184, 174, 22, 86, 227, 250, 241, 159, 196, 106,
     218, 9, 141, 235, 156, 50, 177, 253, 134, 98, 5, 22, 95, 73, 184, 0]

  /** the u-coordinate OrderEightB, little-endian (keypair.go:158). */
  const EncodedOrderEightB: seq<byte> :=
    [95, 156, 149, 188, 163, 80, 140, 36, 177, 208, 177, 85, 156, 131, 239, 91,
     4, 68, 92, 196, 88, 28, 142, 134, 216, 34, 78, 221, 208, 159, 17, 87]

  /** p - 1, little-endian (keypair.go:159). */
  const EncodedPMinusOne: seq<byte> :=
    [236, 255, 255, 255, 255, 255, 255, 255, 255, 255, 255, 255, 255, 255, 255, 255,
     255, 255, 255, 255, 255, 255, 255, 255, 255, 255, 255, 255, 255, 255, 255, 127]

  /** p, little-endian (keypair.go:160). */
  const EncodedP: seq<byte> :=
    [237, 255, 255, 255, 255, 255, 255, 255, 255, 255, 255, 255, 255, 255, 255, 255,
     255, 255, 255, 255, 255, 255, 255, 255, 255, 255, 255, 255, 255, 255, 255, 127]

  /** p + 1, little-endian (keypair.go:161). */
  const EncodedPPlusOne: seq<byte> :=
    [238, 255, 255, 255, 255, 255, 255, 255, 255, 255, 255, 255, 255, 255, 255, 255,
     255, 255, 255, 255, 255, 255, 255, 255, 255, 255, 255, 255, 255, 255, 255, 127]

  /** p + OrderEightA, little-endian (keypair.go:162). */
  const EncodedPPlusOrderEightA: seq<byte> :=
    [205, 235, 122, 124, 59, 65, 184, 174, 22, 86, 227, 250, 241, 159, 196, 106,
     218, 9, 141, 235, 156, 50, 177, 253, 134, 98, 5, 22, 95, 73, 184, 128]

  /** p + OrderEightB, little-endian (keypair.go:163). */
  const EncodedPPlusOrderEightB: seq<byte> :=
    [76, 156, 149, 188, 163, 80, 140, 36, 177, 208, 177, 85, 156, 131, 239, 91,
     4, 68, 92, 196, 88, 28, 142, 134, 216, 34, 78, 221, 208, 159, 17, 215]

  /** 2p - 1, little-endian (keypair.go:164). */
  const EncodedTwoPMinusOne: seq<byte> :=
    [217, 255, 255, 255, 255, 255, 255, 255, 255, 255, 255, 255, 255, 255, 255, 255,
     255, 255, 255, 255, 255, 255, 255, 255, 255, 255, 255, 255, 255, 255, 255, 255]

  /** 2p, little-endian (keypair.go:165). */
  const EncodedTwoP: seq<byte> :=
    [218, 255, 255, 255, 255, 255, 255, 255, 255, 255, 255, 255, 255, 255, 255, 255,
     255, 255, 255, 255, 255, 255, 255, 255, 255, 255, 255, 255, 255, 255, 255, 255]

  /**
   * The last entry as keypair.go:166 writes it. Its final byte is 25 where the
   * pattern of the table, and 2p + 1, need 255.
   */
  const LastEntryAsWritten: seq<byte> :=
    [219, 255, 255, 255, 255, 255, 255, 255, 255, 255, 255, 255, 255, 255, 255, 255,
     255, 255, 255, 255, 255, 255, 255, 255, 255, 255, 255, 255, 255, 255, 255, 25]

  /** 2p + 1, little-endian: the value the last entry of the table stands for. */
  const EncodedTwoPPlusOne: seq<byte> :=
    [219, 255, 255, 255, 255, 255, 255, 255, 255, 255, 255, 255, 255, 255, 255, 255,
     255, 255, 255, 255, 255, 255, 255, 255, 255, 255, 255, 255, 255, 255, 255, 255]

  /** forbiddenCurveValues exactly as keypair.go:154-167 lists it. */
  const ForbiddenCurveValuesAsWritten: seq<seq<byte>> := [
    EncodedZero,
    EncodedOne,
    EncodedOrderEightA,
    EncodedOrderEightB,
    EncodedPMinusOne,
    EncodedP,
    EncodedPPlusOne,
    EncodedPPlusOrderEightA,
    EncodedPPlusOrderEightB,
    EncodedTwoPMinusOne,
    EncodedTwoP,
    LastEntryAsWritten
  ]

  /** The corrected table: the first eleven entries as written, then 2p + 1. */
  const ForbiddenCurveValues: seq<seq<byte>> := [
    EncodedZero,
    EncodedOne,
    EncodedOrderEightA,
    EncodedOrderEightB,
    EncodedPMinusOne,
    EncodedP,
    EncodedPPlusOne,
    EncodedPPlusOrderEightA,
    EncodedPPlusOrderEightB,
    EncodedTwoPMinusOne,
    EncodedTwoP,
    EncodedTwoPPlusOne
  ]

  /**
   * A key passes validation when it equals no forbidden value. ConstantTimeCompare
   * reports 1 exactly when both slices have the same length and contents, so it is
   * sequence equality here, and a key whose length is not 32 always passes.
   */
  predicate IsValidPublicKey(k: seq<byte>): (ok: bool)
    ensures !ok ==> |k| == 32
  {
    k !in ForbiddenCurveValues
  }

  /** Validation against the table exactly as keypair.go writes it: what validatePublicKey returns. */
  predicate IsValidPublicKeyAsWritten(k: seq<byte>): (ok: bool)
    ensures !ok ==> |k| == 32
  {
    k !in ForbiddenCurveValuesAsWritten
  }

  /**
   * validatePublicKey: scan the table as keypair.go writes it, refusing the
   * key at the first entry equal to it. It refuses exactly the unmasked
   * low-order encodings other than 2p + 1, and the ordinary last entry.
   */
  method ValidatePublicKey(k: seq<byte>) returns (ok: bool)
    ensures ok <==> IsValidPublicKeyAsWritten(k)
    ensures ok <==> (!IsLowOrderEncoding(k) || k == EncodedTwoPPlusOne) && k != LastEntryAsWritten
  {
    AsWrittenValidIff(k);
    var table := ForbiddenCurveValuesAsWritten;
    for i := 0 to |table|
      invariant forall j | 0 <= j < i :: table[j] != k
    {
      if table[i] == k {
        return false;
      }
    }
    return true;
  }

  /** 256^n. */
  function Pow256(n: nat): (r: nat)
    ensures r > 0
  {
    if n == 0 then 1 else 256 * Pow256(n - 1)
  }

  /** The little-endian integer of b[i..]. */
  function LittleEndianFrom(b: seq<byte>, i: nat): (v: nat)
    decreases |b| - i
  {
    if i >= |b| then 0 else b[i] as nat + 256 * LittleEndianFrom(b, i + 1)
  }

  /**
   * decodeLittleEndian of RFC 7748 section 5 over all the bits: the unmasked
   * value. The table is built on this reading (UCoordinate is the masked one).
   */
  function LittleEndian(b: seq<byte>): (v: nat) {
    LittleEndianFrom(b, 0)
  }

  /** n bytes hold at most 256^n - 1. */
  lemma {:induction false} LittleEndianBound(b: seq<byte>, i: nat)
    requires i <= |b|
    ensures LittleEndianFrom(b, i) < Pow256(|b| - i)
    decreases |b| - i
  {
    if i < |b| {
      LittleEndianBound(b, i + 1);
      assert Pow256(|b| - i) == 256 * Pow256(|b| - (i + 1));
    }
  }

  /** Two byte strings of one length with the same little-endian value are equal. */
  lemma {:induction false} LittleEndianInjective(a: seq<byte>, b: seq<byte>, i: nat)
    requires |a| == |b| && i <= |a|
    requires LittleEndianFrom(a, i) == LittleEndianFrom(b, i)
    ensures a[i..] == b[i..]
    decreases |a| - i
  {
    if i < |a| {
      assert a[i] == b[i] && LittleEndianFrom(a, i + 1) == LittleEndianFrom(b, i + 1) by {
        DigitsUnique(a[i] as int, LittleEndianFrom(a, i + 1), b[i] as int, LittleEndianFrom(b, i + 1));
      }
      LittleEndianInjective(a, b, i + 1);
      assert a[i..] == [a[i]] + a[i + 1..];
      assert b[i..] == [b[i]] + b[i + 1..];
    }
  }

  /** A base-256 digit and the rest are determined by the number they make. */
  lemma DigitsUnique(x: int, y: int, x': int, y': int)
    requires 0 <= x < 256 && 0 <= x' < 256
    requires x + 256 * y == x' + 256 * y'
    ensures x == x' && y == y'
  {
  }

  /** Bytes that are all zero decode to 0. */
  lemma {:induction false} LittleEndianOfZeros(n: nat, i: nat)
    ensures LittleEndianFrom(Zeros(n), i) == 0
    decreases n - i
  {
    if i < n {
      LittleEndianOfZeros(n, i + 1);
    }
  }

  /** The value of the eight bytes b[i..i+8], least significant first. */
  function Limb(b: seq<byte>, i: nat): (v: nat)
    requires i + 8 <= |b|
  {
    b[i] as nat +
    256 * b[i + 1] as nat +
    65536 * b[i + 2] as nat +
    16777216 * b[i + 3] as nat +
    4294967296 * b[i + 4] as nat +
    1099511627776 * b[i + 5] as nat +
    281474976710656 * b[i + 6] as nat +
    72057594037927936 * b[i + 7] as nat
  }

  lemma LittleEndianLimb(b: seq<byte>, i: nat)
    requires i + 8 <= |b|
    ensures LittleEndianFrom(b, i) == Limb(b, i) + 18446744073709551616 * LittleEndianFrom(b, i + 8)
  {
    assert LittleEndianFrom(b, i + 7) == b[i + 7] as nat + 256 * LittleEndianFrom(b, i + 8);
    assert LittleEndianFrom(b, i + 6) == b[i + 6] as nat + 256 * LittleEndianFrom(b, i + 7);
    assert LittleEndianFrom(b, i + 5) == b[i + 5] as nat + 256 * LittleEndianFrom(b, i + 6);
    assert LittleEndianFrom(b, i + 4) == b[i + 4] as nat + 256 * LittleEndianFrom(b, i + 5);
    assert LittleEndianFrom(b, i + 3) == b[i + 3] as nat + 256 * LittleEndianFrom(b, i + 4);
    assert LittleEndianFrom(b, i + 2) == b[i + 2] as nat + 256 * LittleEndianFrom(b, i + 3);
    assert LittleEndianFrom(b, i + 1) == b[i + 1] as nat + 256 * LittleEndianFrom(b, i + 2);
    assert LittleEndianFrom(b, i + 0) == b[i + 0] as nat + 256 * LittleEndianFrom(b, i + 1);
  }

  /** A 32-byte string decodes to the value of its four 64-bit limbs. */
  lemma LittleEndian32(b: seq<byte>)
    requires |b| == 32
    ensures LittleEndian(b) == Limb(b, 0) + 18446744073709551616 * Limb(b, 8) + 340282366920938463463374607431768211456 * Limb(b, 16) + 6277101735386680763835789423207666416102355444464034512896 * Limb(b, 24)
  {
    LittleEndianLimb(b, 0);
    LittleEndianLimb(b, 8);
    LittleEndianLimb(b, 16);
    LittleEndianLimb(b, 24);
    assert LittleEndianFrom(b, 32) == 0;
  }

  lemma DecodeByLimbs(b: seq<byte>, l0: nat, l1: nat, l2: nat, l3: nat)
    requires |b| == 32
    requires Limb(b, 0) == l0 && Limb(b, 8) == l1 && Limb(b, 16) == l2 && Limb(b, 24) == l3
    ensures LittleEndian(b) == l0 + 18446744073709551616 * l1 + 340282366920938463463374607431768211456 * l2 + 6277101735386680763835789423207666416102355444464034512896 * l3
  {
    LittleEndian32(b);
  }

  lemma EncodedZeroLimbs()
    ensures Limb(EncodedZero, 0) == 0 && Limb(EncodedZero, 8) == 0 && Limb(EncodedZero, 16) == 0 && Limb(EncodedZero, 24) == 0
  {
  }

  lemma EncodedZeroDecodes()
    ensures LittleEndian(EncodedZero) == 0
  {
    EncodedZeroLimbs();
    DecodeByLimbs(EncodedZero, 0, 0, 0, 0);
  }

  lemma EncodedOneLimbs()
    ensures Limb(EncodedOne, 0) == 1 && Limb(EncodedOne, 8) == 0 && Limb(EncodedOne, 16) == 0 && Limb(EncodedOne, 24) == 0
  {
  }

  lemma EncodedOneDecodes()
    ensures LittleEndian(EncodedOne) == 1
  {
    EncodedOneLimbs();
    DecodeByLimbs(EncodedOne, 1, 0, 0, 0);
  }

  lemma EncodedOrderEightALimbs()
    ensures Limb(EncodedOrderEightA, 0) == 12589884482061528032 && Limb(EncodedOrderEightA, 8) == 7693449925100787222 && Limb(EncodedOrderEightA, 16) == 18280448012021729754 && Limb(EncodedOrderEightA, 24) == 51872068454933126
  {
  }

  lemma EncodedOrderEightADecodes()
    ensures LittleEndian(EncodedOrderEightA) == OrderEightA
  {
    EncodedOrderEightALimbs();
    DecodeByLimbs(EncodedOrderEightA, 12589884482061528032, 7693449925100787222, 18280448012021729754, 51872068454933126);
  }

  lemma EncodedOrderEightBLimbs()
    ensures Limb(EncodedOrderEightB, 0) == 2633568546278710367 && Limb(EncodedOrderEightB, 8) == 6624658284361142449 && Limb(EncodedOrderEightB, 16) == 9695718215352337412 && Limb(EncodedOrderEightB, 24) == 6273971475318711000
  {
  }

  lemma EncodedOrderEightBDecodes()
    ensures LittleEndian(EncodedOrderEightB) == OrderEightB
  {
    EncodedOrderEightBLimbs();
    DecodeByLimbs(EncodedOrderEightB, 2633568546278710367, 6624658284361142449, 9695718215352337412, 6273971475318711000);
  }

  lemma EncodedPMinusOneLimbs()
    ensures Limb(EncodedPMinusOne, 0) == 18446744073709551596 && Limb(EncodedPMinusOne, 8) == 18446744073709551615 && Limb(EncodedPMinusOne, 16) == 18446744073709551615 && Limb(EncodedPMinusOne, 24) == 9223372036854775807
  {
  }

  lemma EncodedPMinusOneDecodes()
    ensures LittleEndian(EncodedPMinusOne) == P - 1
  {
    EncodedPMinusOneLimbs();
    DecodeByLimbs(EncodedPMinusOne, 18446744073709551596, 18446744073709551615, 18446744073709551615, 9223372036854775807);
  }

  lemma EncodedPLimbs()
    ensures Limb(EncodedP, 0) == 18446744073709551597 && Limb(EncodedP, 8) == 18446744073709551615 && Limb(EncodedP, 16) == 18446744073709551615 && Limb(EncodedP, 24) == 9223372036854775807
  {
  }

  lemma EncodedPDecodes()
    ensures LittleEndian(EncodedP) == P
  {
    EncodedPLimbs();
    DecodeByLimbs(EncodedP, 18446744073709551597, 18446744073709551615, 18446744073709551615, 9223372036854775807);
  }

  lemma EncodedPPlusOneLimbs()
    ensures Limb(EncodedPPlusOne, 0) == 18446744073709551598 && Limb(EncodedPPlusOne, 8) == 18446744073709551615 && Limb(EncodedPPlusOne, 16) == 18446744073709551615 && Limb(EncodedPPlusOne, 24) == 9223372036854775807
  {
  }

  lemma EncodedPPlusOneDecodes()
    ensures LittleEndian(EncodedPPlusOne) == P + 1
  {
    EncodedPPlusOneLimbs();
    DecodeByLimbs(EncodedPPlusOne, 18446744073709551598, 18446744073709551615, 18446744073709551615, 9223372036854775807);
  }

  lemma EncodedPPlusOrderEightALimbs()
    ensures Limb(EncodedPPlusOrderEightA, 0) == 12589884482061528013 && Limb(EncodedPPlusOrderEightA, 8) == 7693449925100787222 && Limb(EncodedPPlusOrderEightA, 16) == 18280448012021729754 && Limb(EncodedPPlusOrderEightA, 24) == 9275244105309708934
  {
  }

  lemma EncodedPPlusOrderEightADecodes()
    ensures LittleEndian(EncodedPPlusOrderEightA) == P + OrderEightA
  {
    EncodedPPlusOrderEightALimbs();
    DecodeByLimbs(EncodedPPlusOrderEightA, 12589884482061528013, 7693449925100787222, 18280448012021729754, 9275244105309708934);
  }

  lemma EncodedPPlusOrderEightBLimbs()
    ensures Limb(EncodedPPlusOrderEightB, 0) == 2633568546278710348 && Limb(EncodedPPlusOrderEightB, 8) == 6624658284361142449 && Limb(EncodedPPlusOrderEightB, 16) == 9695718215352337412 && Limb(EncodedPPlusOrderEightB, 24) == 15497343512173486808
  {
  }

  lemma EncodedPPlusOrderEightBDecodes()
    ensures LittleEndian(EncodedPPlusOrderEightB) == P + OrderEightB
  {
    EncodedPPlusOrderEightBLimbs();
    DecodeByLimbs(EncodedPPlusOrderEightB, 2633568546278710348, 6624658284361142449, 9695718215352337412, 15497343512173486808);
  }

  lemma EncodedTwoPMinusOneLimbs()
    ensures Limb(EncodedTwoPMinusOne, 0) == 18446744073709551577 && Limb(EncodedTwoPMinusOne, 8) == 18446744073709551615 && Limb(EncodedTwoPMinusOne, 16) == 18446744073709551615 && Limb(EncodedTwoPMinusOne, 24) == 18446744073709551615
  {
  }

  lemma EncodedTwoPMinusOneDecodes()
    ensures LittleEndian(EncodedTwoPMinusOne) == 2 * P - 1
  {
    EncodedTwoPMinusOneLimbs();
    DecodeByLimbs(EncodedTwoPMinusOne, 18446744073709551577, 18446744073709551615, 18446744073709551615, 18446744073709551615);
  }

  lemma EncodedTwoPLimbs()
    ensures Limb(EncodedTwoP, 0) == 18446744073709551578 && Limb(EncodedTwoP, 8) == 18446744073709551615 && Limb(EncodedTwoP, 16) == 18446744073709551615 && Limb(EncodedTwoP, 24) == 18446744073709551615
  {
  }

  lemma EncodedTwoPDecodes()
    ensures LittleEndian(EncodedTwoP) == 2 * P
  {
    EncodedTwoPLimbs();
    DecodeByLimbs(EncodedTwoP, 18446744073709551578, 18446744073709551615, 18446744073709551615, 18446744073709551615);
  }

  lemma EncodedTwoPPlusOneLimbs()
    ensures Limb(EncodedTwoPPlusOne, 0) == 18446744073709551579 && Limb(EncodedTwoPPlusOne, 8) == 18446744073709551615 && Limb(EncodedTwoPPlusOne, 16) == 18446744073709551615 && Limb(EncodedTwoPPlusOne, 24) == 18446744073709551615
  {
  }

  lemma EncodedTwoPPlusOneDecodes()
    ensures LittleEndian(EncodedTwoPPlusOne) == 2 * P + 1
  {
    EncodedTwoPPlusOneLimbs();
    DecodeByLimbs(EncodedTwoPPlusOne, 18446744073709551579, 18446744073709551615, 18446744073709551615, 18446744073709551615);
  }

  lemma LastEntryAsWrittenLimbs()
    ensures Limb(LastEntryAsWritten, 0) == 18446744073709551579 && Limb(LastEntryAsWritten, 8) == 18446744073709551615 && Limb(LastEntryAsWritten, 16) == 18446744073709551615 && Limb(LastEntryAsWritten, 24) == 1873497444986126335
  {
  }

  lemma LastEntryAsWrittenDecodes()
    ensures LittleEndian(LastEntryAsWritten) == AsWrittenLastValue
  {
    LastEntryAsWrittenLimbs();
    DecodeByLimbs(LastEntryAsWritten, 18446744073709551579, 18446744073709551615, 18446744073709551615, 1873497444986126335);
  }

  /** 256^(m + n) == 256^m * 256^n. */
  lemma {:induction false} Pow256Add(m: nat, n: nat)
    ensures Pow256(m + n) == Pow256(m) * Pow256(n)
  {
    if m > 0 {
      Pow256Add(m - 1, n);
      assert Pow256(m + n) == 256 * Pow256(m - 1 + n);
      assert Pow256(m) == 256 * Pow256(m - 1);
    }
  }

  /** Every 32-byte string decodes below 2^256. */
  lemma LittleEndianBelowTwoTo256(b: seq<byte>)
    requires |b| == 32
    ensures LittleEndian(b) < TwoTo256
  {
    LittleEndianBound(b, 0);
    assert Pow256(4) == 4294967296;
    Pow256Add(4, 4);
    assert Pow256(8) == 18446744073709551616;
    Pow256Add(8, 8);
    assert Pow256(16) == 340282366920938463463374607431768211456;
    Pow256Add(16, 16);
    assert Pow256(32) == TwoTo256;
  }

  /**
   * Below 2^256 = 2p + 38, the forbidden integers are exactly those whose
   * residue modulo p is low-order: r + 2p fits only for r = 0 and r = 1.
   */
  lemma ForbiddenIntegersAreLowOrder(v: nat)
    requires v < TwoTo256
    ensures v in ForbiddenIntegers <==> v % P in LowOrderResidues
  {
    var q, r := v / P, v % P;
    assert v == q * P + r && 0 <= r < P;
    assert TwoTo256 == 2 * P + 38;
    assert q <= 2;
    if q == 0 {
      assert v == r;
    } else if q == 1 {
      assert v == P + r;
    } else {
      assert v == 2 * P + r && r < 38;
    }
  }

  /** Two strings of one length with the same little-endian value are the same string. */
  lemma SameValueSameBytes(k: seq<byte>, e: seq<byte>, v: nat)
    requires |k| == |e| && LittleEndian(k) == v && LittleEndian(e) == v
    ensures k == e
  {
    LittleEndianInjective(k, e, 0);
  }

  /** Every entry of the corrected table is 32 bytes long and encodes a forbidden integer. */
  lemma TableEntriesAreForbidden(k: seq<byte>)
    requires k in ForbiddenCurveValues
    ensures |k| == 32 && LittleEndian(k) in ForbiddenIntegers
  {
    if k == EncodedZero {
      EncodedZeroDecodes();
    } else if k == EncodedOne {
      EncodedOneDecodes();
    } else if k == EncodedOrderEightA {
      EncodedOrderEightADecodes();
    } else if k == EncodedOrderEightB {
      EncodedOrderEightBDecodes();
    } else if k == EncodedPMinusOne {
      EncodedPMinusOneDecodes();
    } else if k == EncodedP {
      EncodedPDecodes();
    } else if k == EncodedPPlusOne {
      EncodedPPlusOneDecodes();
    } else if k == EncodedPPlusOrderEightA {
      EncodedPPlusOrderEightADecodes();
    } else if k == EncodedPPlusOrderEightB {
      EncodedPPlusOrderEightBDecodes();
    } else if k == EncodedTwoPMinusOne {
      EncodedTwoPMinusOneDecodes();
    } else if k == EncodedTwoP {
      EncodedTwoPDecodes();
    } else {
      assert k == EncodedTwoPPlusOne;
      EncodedTwoPPlusOneDecodes();
    }
  }

  /** Every 32-byte encoding of a forbidden integer is an entry of the corrected table. */
  lemma ForbiddenIntegersAreInTable(k: seq<byte>)
    requires |k| == 32 && LittleEndian(k) in ForbiddenIntegers
    ensures k in ForbiddenCurveValues
  {
    var v := LittleEndian(k);
    if v == 0 {
      EncodedZeroDecodes();
      SameValueSameBytes(k, EncodedZero, v);
    } else if v == 1 {
      EncodedOneDecodes();
      SameValueSameBytes(k, EncodedOne, v);
    } else if v == OrderEightA {
      EncodedOrderEightADecodes();
      SameValueSameBytes(k, EncodedOrderEightA, v);
    } else if v == OrderEightB {
      EncodedOrderEightBDecodes();
      SameValueSameBytes(k, EncodedOrderEightB, v);
    } else if v == P - 1 {
      EncodedPMinusOneDecodes();
      SameValueSameBytes(k, EncodedPMinusOne, v);
    } else if v == P {
      EncodedPDecodes();
      SameValueSameBytes(k, EncodedP, v);
    } else if v == P + 1 {
      EncodedPPlusOneDecodes();
      SameValueSameBytes(k, EncodedPPlusOne, v);
    } else if v == P + OrderEightA {
      EncodedPPlusOrderEightADecodes();
      SameValueSameBytes(k, EncodedPPlusOrderEightA, v);
    } else if v == P + OrderEightB {
      EncodedPPlusOrderEightBDecodes();
      SameValueSameBytes(k, EncodedPPlusOrderEightB, v);
    } else if v == 2 * P - 1 {
      EncodedTwoPMinusOneDecodes();
      SameValueSameBytes(k, EncodedTwoPMinusOne, v);
    } else if v == 2 * P {
      EncodedTwoPDecodes();
      SameValueSameBytes(k, EncodedTwoP, v);
    } else {
      assert v == 2 * P + 1;
      EncodedTwoPPlusOneDecodes();
      SameValueSameBytes(k, EncodedTwoPPlusOne, v);
    }
  }

  /**
   * The keys the table is there to refuse: 32 bytes whose unmasked
   * little-endian value is, modulo p, the u-coordinate of a point of small
   * order. A reader that clears bit 255 first, as RFC 7748 does, sees other
   * keys as low-order (see UCoordinate).
   */
  predicate IsLowOrderEncoding(k: seq<byte>) {
    |k| == 32 && LittleEndian(k) % P in LowOrderResidues
  }

  /** A key passes the corrected validation exactly when it is not a low-order encoding. */
  lemma ValidIffNotLowOrder(k: seq<byte>)
    ensures IsValidPublicKey(k) <==> !IsLowOrderEncoding(k)
  {
    if k in ForbiddenCurveValues {
      TableEntriesAreForbidden(k);
      LittleEndianBelowTwoTo256(k);
      ForbiddenIntegersAreLowOrder(LittleEndian(k));
    } else if |k| == 32 {
      LittleEndianBelowTwoTo256(k);
      ForbiddenIntegersAreLowOrder(LittleEndian(k));
      if LittleEndian(k) in ForbiddenIntegers {
        ForbiddenIntegersAreInTable(k);
      }
    }
  }

  /** The integers the table as written encodes: the corrected ones with 2p + 1 replaced. */
  const AsWrittenIntegers: set<nat> := ForbiddenIntegers - {2 * P + 1} + {AsWrittenLastValue}

  /** The value of the last entry as written, an ordinary u-coordinate below p. */
  const AsWrittenLastValue: nat := 11760134063164926097706428164944865641347732817604119785257410875803677229019

  /** Every entry of the table as written is 32 bytes long and encodes one of AsWrittenIntegers. */
  lemma AsWrittenTableValues(k: seq<byte>)
    ensures k in ForbiddenCurveValuesAsWritten ==> |k| == 32 && LittleEndian(k) in AsWrittenIntegers
  {
    if k in ForbiddenCurveValuesAsWritten {
      if k == EncodedZero {
        EncodedZeroDecodes();
      } else if k == EncodedOne {
        EncodedOneDecodes();
      } else if k == EncodedOrderEightA {
        EncodedOrderEightADecodes();
      } else if k == EncodedOrderEightB {
        EncodedOrderEightBDecodes();
      } else if k == EncodedPMinusOne {
        EncodedPMinusOneDecodes();
      } else if k == EncodedP {
        EncodedPDecodes();
      } else if k == EncodedPPlusOne {
        EncodedPPlusOneDecodes();
      } else if k == EncodedPPlusOrderEightA {
        EncodedPPlusOrderEightADecodes();
      } else if k == EncodedPPlusOrderEightB {
        EncodedPPlusOrderEightBDecodes();
      } else if k == EncodedTwoPMinusOne {
        EncodedTwoPMinusOneDecodes();
      } else if k == EncodedTwoP {
        EncodedTwoPDecodes();
      } else {
        assert k == LastEntryAsWritten;
        LastEntryAsWrittenDecodes();
      }
    }
  }

  /**
   * The table as written lets through an unmasked low-order key: 2p + 1,
   * congruent to the identity-like coordinate 1, is absent from it, while the
   * corrected table refuses it.
   */
  lemma AsWrittenAdmitsLowOrderKey()
    ensures IsLowOrderEncoding(EncodedTwoPPlusOne)
    ensures IsValidPublicKeyAsWritten(EncodedTwoPPlusOne)
    ensures !IsValidPublicKey(EncodedTwoPPlusOne)
  {
    EncodedTwoPPlusOneDecodes();
    assert (2 * P + 1) % P == 1;
    AsWrittenTableValues(EncodedTwoPPlusOne);
  }

  /**
   * The table as written refuses an ordinary key: its last entry is below p
   * and not low-order, and the corrected table accepts it.
   */
  lemma AsWrittenRefusesOrdinaryKey()
    ensures !IsLowOrderEncoding(LastEntryAsWritten)
    ensures !IsValidPublicKeyAsWritten(LastEntryAsWritten)
    ensures IsValidPublicKey(LastEntryAsWritten)
  {
    LastEntryAsWrittenDecodes();
    assert AsWrittenLastValue % P == AsWrittenLastValue;
    ValidIffNotLowOrder(LastEntryAsWritten);
  }

  /** The all-zero key, which the tests use as the bad key, is refused. */
  lemma AllZeroKeyRefused()
    ensures IsLowOrderEncoding(Zeros(32))
    ensures !IsValidPublicKeyAsWritten(Zeros(32)) && !IsValidPublicKey(Zeros(32))
  {
    LittleEndianOfZeros(32, 0);
    ValidIffNotLowOrder(Zeros(32));
    EncodedZeroDecodes();
    SameValueSameBytes(Zeros(32), EncodedZero, 0);
  }

  /**
   * The table as written is the corrected one with its last entry, 2p + 1,
   * replaced by an ordinary value.
   */
  lemma AsWrittenTableReplacesLastEntry(k: seq<byte>)
    ensures k in ForbiddenCurveValuesAsWritten <==>
      (k in ForbiddenCurveValues && k != EncodedTwoPPlusOne) || k == LastEntryAsWritten
  {
    EncodedTwoPPlusOneDecodes();
    AsWrittenTableValues(EncodedTwoPPlusOne);
  }

  /**
   * validatePublicKey as written passes a key exactly when it is not an
   * unmasked low-order encoding, or is the encoding of 2p + 1, and is not the
   * table's ordinary last entry.
   */
  lemma AsWrittenValidIff(k: seq<byte>)
    ensures IsValidPublicKeyAsWritten(k) <==>
      (!IsLowOrderEncoding(k) || k == EncodedTwoPPlusOne) && k != LastEntryAsWritten
  {
    AsWrittenTableReplacesLastEntry(k);
    ValidIffNotLowOrder(k);
    AsWrittenRefusesOrdinaryKey();
  }

  /** 2^255, the weight of the bit RFC 7748 clears. */
  const TwoTo255: nat := 57896044618658097711785492504343953926634992332820282019728792003956564819968

  /** decodeUCoordinate of RFC 7748 section 5: the little-endian value with bit 255 cleared. */
  function UCoordinate(k: seq<byte>): (u: nat)
    requires |k| == 32
    ensures u < TwoTo255
  {
    LittleEndian(k) % TwoTo255
  }

  /** u = 0 with bit 255 set: 31 zero bytes, then 128. */
  const EncodedZeroTopBit: seq<byte> :=
    [0, 0, 0, 0, 0, 0, 0, 0, 0, 0, 0, 0, 0, 0, 0, 0,
     0, 0, 0, 0, 0, 0, 0, 0, 0, 0, 0, 0, 0, 0, 0, 128]

  lemma EncodedZeroTopBitLimbs()
    ensures Limb(EncodedZeroTopBit, 0) == 0 && Limb(EncodedZeroTopBit, 8) == 0 && Limb(EncodedZeroTopBit, 16) == 0 && Limb(EncodedZeroTopBit, 24) == 9223372036854775808
  {
  }

  lemma EncodedZeroTopBitDecodes()
    ensures LittleEndian(EncodedZeroTopBit) == TwoTo255
  {
    EncodedZeroTopBitLimbs();
    DecodeByLimbs(EncodedZeroTopBit, 0, 0, 0, 9223372036854775808);
  }

  /**
   * Both tables are written for the unmasked reading: a key that RFC 7748
   * decoding reads as u = 0 passes both, since only its top bit is set.
   */
  lemma MaskedZeroPassesBothTables()
    ensures UCoordinate(EncodedZeroTopBit) == 0
    ensures !IsLowOrderEncoding(EncodedZeroTopBit)
    ensures IsValidPublicKey(EncodedZeroTopBit) && IsValidPublicKeyAsWritten(EncodedZeroTopBit)
  {
    EncodedZeroTopBitDecodes();
    assert TwoTo255 % P == 19;
    AsWrittenValidIff(EncodedZeroTopBit);
  }

  /** Under RFC 7748 decoding the encoding of 2p + 1 is the ordinary coordinate p - 18. */
  lemma TwoPPlusOneMaskedIsOrdinary()
    ensures UCoordinate(EncodedTwoPPlusOne) == P - 18
    ensures (P - 18) % P !in LowOrderResidues
  {
    EncodedTwoPPlusOneDecodes();
    assert 2 * P + 1 == TwoTo255 + (P - 18);
  }
}
