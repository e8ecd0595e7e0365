# dione-crypto key pairs in Dafny

A model of the Go package `dione_crypto` (`go/dione-crypto/keypair.go`). It covers the public-key wire layer of two Diffie-Hellman key-pair kinds and the check that refuses weak Curve25519 keys.

- **Wire** (`wire.dfy`). The protobuf `PublicKey` record is `{curveType, publicKeyData}`.
  - The curve type codes are `P256 = 0` and `Curve25519 = 1`.
  - The four sentinel errors are values of a datatype. A successful import returns `nil`, modelled as `None`.
  - Bytes are an integer newtype `0 <= x < 256`.
- **Validation** (`validation.dfy`). `validatePublicKey` compares a key against twelve forbidden 32-byte values.
  - The model reads every table entry as its unmasked little-endian value: all 256 bits, without the clearing of bit 255 that `decodeUCoordinate` in section 5 of RFC 7748 performs.
  - It proves that the corrected table holds exactly the 32-byte encodings whose unmasked value, modulo p = 2^255 − 19, is one of the five low-order residues `0, 1, p − 1` and the two order-8 coordinates.
  - The table as written misses one of those encodings, 2p + 1, and refuses an ordinary key instead (see Findings). `validatePublicKey` and the import are modelled on the table as written, and the model characterises exactly which keys that table refuses.
- **X25519Keypair** (`x25519_keypair.dfy`). `Curve25519DhKeypair` is a class with a curve code and two 32-byte arrays.
  - `ExportPublicKey` and `GetPublicKey` read the public key.
  - `ImportPublicKey` runs the staged checks in the source's order: curve and tag, then length, then `validatePublicKey`. It then copies the bytes into the receiver's array in a loop.
  - Around it sit the round trip and the proto test's expectations.
- **P256Keypair** (`p256_keypair.dfy`). `P256DhKeypair` is a class with a curve, an optional private key and an optional public point.
  - The compressed point codec (SEC 1 sections 2.3.3 and 2.3.4), `ScalarMult` and SHA-256 come from Go's standard library. They are parameters of the model: `PointCodec` and `Provider` are datatypes of function values.
  - The proofs therefore hold for any codec and curve library. A property that needs a fact about the codec, such as "decoding undoes encoding for this point", states that fact as a precondition.

The two tables differ at one entry. `ValidatePublicKey`, and through it `ImportPublicKey`, scan the table as written (`ForbiddenCurveValuesAsWritten`, `IsValidPublicKeyAsWritten`), as keypair.go does. The corrected table is kept beside it as `ForbiddenCurveValues` / `IsValidPublicKey`, with its characterisation `ValidIffNotLowOrder`.

## Model

| member | source | states |
|---|---|---|
| Validation.ValidatePublicKey | go/dione-crypto/keypair.go:153-175 | the scan over the table as written accepts the key exactly when it equals no entry, which is exactly when the key is not an unmasked low-order encoding (or is the encoding of 2p + 1) and is not the ordinary last entry |
| Validation.ValidIffNotLowOrder | go/dione-crypto/keypair.go:154-167 | with the last entry corrected, a key passes if and only if it is not 32 bytes whose unmasked little-endian value is, modulo p, a low-order residue; every other length passes |
| Validation.TableEntriesAreForbidden | go/dione-crypto/keypair.go:154-167 | every entry of the table is 32 bytes long and encodes one of r, r + p, r + 2p for a low-order residue r |
| Validation.ForbiddenIntegersAreInTable | go/dione-crypto/keypair.go:154-167 | every 32-byte encoding of such an integer is a table entry, so the table misses none |
| Validation.ForbiddenIntegersAreLowOrder | go/dione-crypto/keypair.go:154-167 | below 2^256 the integers the table encodes are exactly those whose residue modulo p is low-order |
| Validation.AllZeroKeyRefused | go/dione-crypto/keypair_test.go:107-110 | the all-zero key is a low-order encoding and both the table as written and the corrected table refuse it |
| Validation.EncodedZeroDecodes | go/dione-crypto/keypair.go:155 | the first entry is the encoding of 0 |
| Validation.EncodedOneDecodes | go/dione-crypto/keypair.go:156 | the entry is the encoding of 1 |
| Validation.EncodedOrderEightADecodes | go/dione-crypto/keypair.go:157 | the entry is the encoding of the first order-8 u-coordinate |
| Validation.EncodedOrderEightBDecodes | go/dione-crypto/keypair.go:158 | the entry is the encoding of the second order-8 u-coordinate |
| Validation.EncodedPMinusOneDecodes | go/dione-crypto/keypair.go:159 | the entry is the encoding of p − 1 |
| Validation.EncodedPDecodes | go/dione-crypto/keypair.go:160 | the entry is the encoding of p, the non-canonical form of 0 |
| Validation.EncodedPPlusOneDecodes | go/dione-crypto/keypair.go:161 | the entry is the encoding of p + 1 |
| Validation.EncodedPPlusOrderEightADecodes | go/dione-crypto/keypair.go:162 | the entry is the encoding of p plus the first order-8 coordinate |
| Validation.EncodedPPlusOrderEightBDecodes | go/dione-crypto/keypair.go:163 | the entry is the encoding of p plus the second order-8 coordinate |
| Validation.EncodedTwoPMinusOneDecodes | go/dione-crypto/keypair.go:164 | the entry is the encoding of 2p − 1 |
| Validation.EncodedTwoPDecodes | go/dione-crypto/keypair.go:165 | the entry is the encoding of 2p |
| Validation.LastEntryAsWrittenDecodes | go/dione-crypto/keypair.go:166 | the last entry as written decodes to an ordinary value below p |
| Validation.EncodedTwoPPlusOneDecodes | go/dione-crypto/keypair.go:166 | the corrected last entry is the encoding of 2p + 1 |
| Validation.AsWrittenTableValues | go/dione-crypto/keypair.go:154-167 | every entry of the table as written is 32 bytes long and encodes a forbidden integer other than 2p + 1, or the last entry's ordinary value |
| Validation.AsWrittenAdmitsLowOrderKey | go/dione-crypto/keypair.go:166 | the encoding of 2p + 1, whose unmasked value is congruent to 1, is an unmasked low-order encoding; the table as written accepts it and the corrected table refuses it |
| Validation.IsValidPublicKeyAsWritten | go/dione-crypto/keypair.go:153-175 | what validatePublicKey returns: the key equals no entry of the table as written; only 32-byte keys can be refused, since ConstantTimeCompare is 0 for slices of different length |
| Validation.IsValidPublicKey | go/dione-crypto/keypair.go:153-175 | the same test against the corrected table; only 32-byte keys can be refused |
| Validation.AsWrittenTableReplacesLastEntry | go/dione-crypto/keypair.go:154-167 | a key is in the table as written exactly when it is in the corrected table and is not the encoding of 2p + 1, or is the as-written last entry |
| Validation.AsWrittenValidIff | go/dione-crypto/keypair.go:153-175 | a key passes the table as written if and only if it is not an unmasked low-order encoding or is the encoding of 2p + 1, and it is not the ordinary last entry |
| Validation.MaskedZeroPassesBothTables | go/dione-crypto/keypair.go:154-167 | the key with only bit 255 set, which RFC 7748 decoding reads as u = 0, is not an unmasked low-order encoding and passes both tables |
| Validation.TwoPPlusOneMaskedIsOrdinary | go/dione-crypto/keypair.go:166 | under RFC 7748 decoding the encoding of 2p + 1 is u = p − 18, which is not low-order |
| Validation.AsWrittenRefusesOrdinaryKey | go/dione-crypto/keypair.go:166 | the last entry as written is not low-order, the table as written refuses it, and the corrected table accepts it |
| X25519Keypair.Curve25519DhKeypair.constructor | go/dione-crypto/keypair_test.go:85-87 | a composite literal copies the curve code and both 32-byte keys into arrays of the pair's own |
| X25519Keypair.Curve25519DhKeypair.GetPublicKey | go/dione-crypto/keypair.go:124-126 | returns the 32 bytes of the stored public key |
| X25519Keypair.Curve25519DhKeypair.ExportPublicKey | go/dione-crypto/keypair.go:128-133 | the record is tagged Curve25519 and carries exactly the 32 stored public-key bytes |
| X25519Keypair.ImportVerdict | go/dione-crypto/keypair.go:136-145 | the error Curve25519 import reports is never ErrorUnmarshalCurve; nil only for a Curve25519 receiver and tag with 32 bytes that pass validatePublicKey over the table as written; PublicKeyVerificationError only for 32 bytes that fail it |
| X25519Keypair.Curve25519DhKeypair.ImportPublicKey | go/dione-crypto/keypair.go:135-150 | reports the first failing check in source order, the validation being validatePublicKey over the table as written; on success the public key equals the record's data byte for byte; on an error it is unchanged; the private key and curve never change |
| X25519Keypair.ImportAcceptsExactly | go/dione-crypto/keypair.go:136-149 | import succeeds if and only if receiver and tag are Curve25519, the data is 32 bytes, it is not an unmasked low-order encoding unless it is the encoding of 2p + 1, and it is not the table's ordinary last entry |
| X25519Keypair.ImportErrorOrder | go/dione-crypto/keypair.go:136-145 | WrongCurveType exactly when curve or tag is wrong; PublicKeyLengthError exactly when both are right and the length is not 32; PublicKeyVerificationError exactly when both are right and the data is an unmasked low-order encoding other than 2p + 1, or the ordinary last entry |
| X25519Keypair.ExportImportRoundTrip | go/dione-crypto/keypair.go:113-149 | for a pair whose key passes validatePublicKey, as every generated key does, its export carries exactly the pair's key and is accepted by a Curve25519 receiver |
| X25519Keypair.ProtoTestRefusals | go/dione-crypto/keypair_test.go:96-110 | for any 32-byte exported key: a P256 receiver gives WrongCurveType, the key cut by five bytes gives PublicKeyLengthError, and 32 zero bytes give PublicKeyVerificationError |
| X25519Keypair.ProtoExchange | go/dione-crypto/keypair_test.go:84-110 | the proto test run on the classes for a pair whose key passes validatePublicKey: the imported key equals the exported one, the three bad imports report the expected errors, and the import pair still holds the exported key afterwards |
| P256Keypair.BigEndianBytesRoundTrip | go/dione-crypto/keypair.go:60-61 | the bytes that `Bytes()` gives for the scalar and the shared coordinate decode back to the number and have no leading zero |
| P256Keypair.P256DhKeypair.constructor | go/dione-crypto/keypair_test.go:34 | a composite literal sets curve, private key and public key as given |
| P256Keypair.P256DhKeypair.GetPublicKey | go/dione-crypto/keypair.go:67-69 | returns the stored public key, nil as None |
| P256Keypair.BigEndianMinimalUnique | go/dione-crypto/keypair.go:60-61 | a big-endian byte string without a leading zero is exactly what `Bytes()` gives for its value, so that encoding is unique |
| P256Keypair.SharedCoordinate | go/dione-crypto/keypair.go:60 | the shared x-coordinate is what ScalarMult gives for the peer's point and any minimal big-endian encoding of the private scalar, `D.Bytes()` being the only one |
| P256Keypair.SharedSecretDigest | go/dione-crypto/keypair.go:60-61 | the digest is SHA-256 of a byte string that is exactly the shared x-coordinate, big-endian and without a leading zero, as `shared.Bytes()` gives it |
| P256Keypair.P256DhKeypair.ComputeSharedSecret | go/dione-crypto/keypair.go:55-65 | needs the peer on the pair's own curve and a private key (else Go panics); the result is 64 bytes: 32 zero bytes, then SHA-256 of the shared x-coordinate |
| P256Keypair.P256DhKeypair.IntendedSharedSecret | go/dione-crypto/keypair.go:60-61 | the 32-byte digest alone, which is what the as-written result carries after its zero half |
| P256Keypair.AsWrittenSecretIsPaddedDigest | go/dione-crypto/keypair.go:62-63 | the as-written secret is twice the length of a digest and its first half is zero for every key |
| P256Keypair.AgreementSymmetric | go/dione-crypto/keypair_test.go:10-26 | two pairs on one curve whose scalar multiplications commute compute the same secret, as written and as intended |
| P256Keypair.P256DhKeypair.ExportPublicKey | go/dione-crypto/keypair.go:75-80 | the record is tagged P256 and carries the codec's encoding of the stored point |
| P256Keypair.ImportOutcome | go/dione-crypto/keypair.go:83-94 | the P-256 import reports only WrongCurveType or ErrorUnmarshalCurve; it yields a key only for a P256 tag on a P-256 receiver, and that key is on P-256 with the coordinates the codec decodes from the data |
| P256Keypair.P256DhKeypair.ImportPublicKey | go/dione-crypto/keypair.go:82-97 | a wrong tag or a receiver not on P-256 gives WrongCurveType; otherwise a decode failure gives ErrorUnmarshalCurve; on either error the public key is unchanged; otherwise it becomes the decoded point on P-256 |
| P256Keypair.ImportOutcomeCases | go/dione-crypto/keypair.go:83-94 | each error exactly under its condition, and exactly which key a successful import yields |
| P256Keypair.ExportImportRoundTrip | go/dione-crypto/keypair_test.go:33-41 | when the codec decodes the encoding of the stored point, importing the export into a P-256 pair yields an equal key |
| P256Keypair.OtherCurveReceiverRefuses | go/dione-crypto/keypair_test.go:42-46 | a receiver on any other curve, P-521 in the test, refuses every record with WrongCurveType |
| P256Keypair.TruncatedRecordRefused | go/dione-crypto/keypair_test.go:47-52 | with the SEC 1 length discipline, the exported encoding cut by five bytes fails to decode and yields ErrorUnmarshalCurve |
| P256Keypair.ProtoExchange | go/dione-crypto/keypair_test.go:28-53 | the proto test run on the classes: the imported key equals the pair's, P-521 import gives WrongCurveType, and the truncated record gives ErrorUnmarshalCurve |
| P256Keypair.CrossCurveRefused | go/dione-crypto/keypair.go:83-85 | a pair of either kind refuses a record exported by the other kind with WrongCurveType |

## Left out

- Curve arithmetic (`ScalarMult`, `curve25519.X25519`, `ScalarBaseMult`), the compressed point codec and SHA-256 are foreign library code. They are function-valued parameters, not definitions.
- `NewP256DhKeypair` and `NewCurve25519DhKeypair` draw from `crypto/rand`, and the Curve25519 one retries until the key validates. Randomness is outside the model, and the retry has no termination bound. What the retry guarantees, that a generated key passes validatePublicKey over the table as written (`IsValidPublicKeyAsWritten`), is a precondition of `X25519Keypair.ExportImportRoundTrip` and `X25519Keypair.ProtoExchange`.
- `Curve25519DhKeypair.ComputeSharedSecret` is a direct call into `curve25519.X25519`, with no logic of its own.
- `P256DhKeypair.Type` only returns the constant `P256`.
- `subtle.ConstantTimeCompare` is plain sequence equality. Its timing behaviour is not expressible.
- X25519Keypair.Curve25519DhKeypair.ExportPublicKey: returns a copy of the bytes. In Go the slice `c.publicKey[:]` shares the pair's array, so a caller that writes through the record changes the pair. The append at keypair_test.go:102 does exactly that. That aliasing is not modelled.
- P256Keypair.P256DhKeypair.ExportPublicKey: always encodes with the P-256 codec, as the source does. Points on other curves are not given a separate meaning.
- The round trip and the truncation refusal in P256Keypair hold under stated facts about the codec (`DecodesEncoding`, `HasCompressedLength`). SEC 1 guarantees both for points on the curve, but the model does not prove them.
- Validation.IsLowOrderEncoding: "low-order" is defined on the unmasked 256-bit little-endian value, the reading the table is built on. RFC 7748 decoding, which `x/crypto/curve25519` applies, clears bit 255 first. Under that decoding, entries 8 to 11 of the table (keypair.go:162-165) are the ordinary coordinates A − 19, B − 19, p − 20 and p − 19, where A and B are the order-8 coordinates. The corrected twelfth entry, 2p + 1, is p − 18. The twelfth entry as written has bit 255 clear, so masking does not change it. Fourteen 32-byte strings decode to a low-order coordinate, and both tables list only seven of them. `Validation.MaskedZeroPassesBothTables` exhibits one that passes: 31 zero bytes followed by 128. The model does not define low-order under the masked reading beyond `UCoordinate` and these two lemmas.
- Validation.AsWrittenAdmitsLowOrderKey: the key it exhibits is low-order only in the unmasked reading. Under RFC 7748 decoding it is u = p − 18 (`Validation.TwoPPlusOneMaskedIsOrdinary`), so for the curve library keypair.go calls, the typo refuses one ordinary key but admits no weak one.
- The generated `key_exchange_proto.PublicKey` type is replaced by a datatype. Its enum field can carry numbers the schema does not name (`TagUnknown`).
- The exact property ECDH gives, that scalar multiplication commutes, is a precondition of `P256Keypair.AgreementSymmetric`, not a theorem.
- The Swift package (`keypair.swift` and its XCTest) is a thin wrapper over CryptoKit with no logic of its own. No hardware-enclave key variant exists in the code.
- The wire record carries the 33-byte SEC 1 compressed point (keypair.go:78, keypair.go:86), not the 65-byte uncompressed one. The model follows the code.

## Findings

| source | as written | input that shows it | evidently intended | confidence | as-written member | corrected member |
|---|---|---|---|---|---|---|
| go/dione-crypto/keypair.go:166 | the last forbidden value ends in byte 25 | the key `219, 255 × 31`, whose unmasked little-endian value is 2p + 1 ≡ 1 (mod p), passes, although the pattern of the table lists it; the as-written entry `219, 255 × 30, 25` is an ordinary coordinate below p (in either reading) and is refused. Under RFC 7748 decoding the missed key is u = p − 18, so the practical effect is the refused ordinary key | final byte 255, making the entry 2p + 1 and completing the pattern r, r + p, r + 2p of the other eleven entries | not executed | Validation.AsWrittenAdmitsLowOrderKey | Validation.ValidIffNotLowOrder |
| go/dione-crypto/keypair.go:62-63 | `make([]byte, 32)` followed by `append` of the digest | any two keys: the secret is 64 bytes, the first 32 all zero | a 32-byte secret equal to the digest (`make([]byte, 0, 32)`, or the digest itself) | not executed | P256Keypair.AsWrittenSecretIsPaddedDigest | P256Keypair.P256DhKeypair.IntendedSharedSecret |
