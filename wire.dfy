/**
 * The public-key wire record shared by every keypair kind, the curve type
 * codes and the error values of the Go package dione_crypto (keypair.go).
 */
module Wire {

  /** One octet. An integer newtype keeps byte arithmetic in linear integers. */
  newtype byte = x: int | 0 <= x < 256

  datatype Option<+T> = None | Some(value: T)

  /** The curve type codes that keypair.go numbers with iota: P256 = 0, Curve25519 = 1. */
  const P256: int := 0
  const Curve25519: int := 1

  /**
   * The curveType field of the protobuf PublicKey message. A protobuf enum
   * field can carry a number its schema does not name, hence TagUnknown.
   */
  datatype CurveTag = TagP256 | TagCurve25519 | TagUnknown(code: UnnamedCode)

  /**
   * An enum number other than the two the schema names. The generated
   * protobuf code, which would fix the numbers of PublicKey_P256 and
   * PublicKey_Curve25519, is not part of this model; they are taken to be 0
   * and 1, the same numbers as the iota constants above.
   */
  type UnnamedCode = c: int | c != P256 && c != Curve25519 witness 2

  /** The protobuf PublicKey message: a curve tag and the encoded point. */
  datatype PublicKeyRecord = PublicKeyRecord(curveType: CurveTag, publicKeyData: seq<byte>)

  /** The four sentinel errors of keypair.go; a successful import returns nil, modelled as None. */
  datatype Error =
    | WrongCurveType
    | ErrorUnmarshalCurve
    | PublicKeyVerificationError
    | PublicKeyLengthError

  /** A zero-filled byte slice of length n, as Go's make([]byte, n) returns. */
  function Zeros(n: nat): (z: seq<byte>)
    ensures |z| == n && forall i | 0 <= i < n :: z[i] == 0
  {
    seq(n, _ => 0)
  }
}
