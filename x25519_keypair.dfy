/**
 * Curve25519DhKeypair of keypair.go: a curve code and two 32-byte arrays, a
 * private scalar and a public u-coordinate. Export hands out the stored public
 * key under the Curve25519 tag; import checks the receiver's curve and the
 * record's tag, then the length, then validatePublicKey, and only then copies
 * the record's bytes into the receiver's public key, one byte at a time.
 */
module X25519Keypair {
  import opened Wire
  import opened Validation

  /** Length of a Curve25519 key, the [32]byte of keypair.go. */
  const KeyLength: nat := 32

  /**
   * The outcome import reports for a receiver whose curve code is curve: the
   * first failing check wins, None is Go's nil.
   */
  function ImportVerdict(curve: int, rec: PublicKeyRecord): (verdict: Option<Error>)
    ensures verdict != Some(ErrorUnmarshalCurve)
    ensures verdict == None ==>
      curve == Curve25519 && rec.curveType == TagCurve25519 &&
      |rec.publicKeyData| == KeyLength && IsValidPublicKeyAsWritten(rec.publicKeyData)
    ensures verdict == Some(PublicKeyVerificationError) ==>
      |rec.publicKeyData| == KeyLength && !IsValidPublicKeyAsWritten(rec.publicKeyData)
  {
    if curve != Curve25519 || rec.curveType != TagCurve25519 then Some(WrongCurveType)
    else if |rec.publicKeyData| != KeyLength then Some(PublicKeyLengthError)
    else if !IsValidPublicKeyAsWritten(rec.publicKeyData) then Some(PublicKeyVerificationError)
    else None
  }

  class Curve25519DhKeypair {
    /** The curve code the pair claims; nothing in keypair.go changes it after construction. */
    const curve: int
    const privateKey: array<byte>
    const publicKey: array<byte>

    /** Both keys are 32-byte arrays of their own, as the struct's value arrays are. */
    ghost predicate Valid()
      reads this
    {
      privateKey.Length == KeyLength && publicKey.Length == KeyLength && privateKey != publicKey
    }

    /** The composite literal Curve25519DhKeypair{curve, privateKey, publicKey}, which copies both arrays. */
    constructor (curve: int, privateKey: seq<byte>, publicKey: seq<byte>)
      requires |privateKey| == KeyLength && |publicKey| == KeyLength
      ensures Valid() && fresh(this.privateKey) && fresh(this.publicKey)
      ensures this.curve == curve && this.privateKey[..] == privateKey && this.publicKey[..] == publicKey
    {
      this.curve := curve;
      this.privateKey := new byte[KeyLength](i requires 0 <= i < KeyLength => privateKey[i]);
      this.publicKey := new byte[KeyLength](i requires 0 <= i < KeyLength => publicKey[i]);
    }

    /** GetPublicKey returns the public key array by value: its current 32 bytes. */
    function GetPublicKey(): (k: seq<byte>)
      reads this, publicKey
      requires Valid()
      ensures |k| == KeyLength
      ensures forall i | 0 <= i < KeyLength :: k[i] == publicKey[i]
    {
      publicKey[..]
    }

    /** ExportPublicKey: a record tagged Curve25519 that carries the stored public key. */
    function ExportPublicKey(): (r: PublicKeyRecord)
      reads this, publicKey
      requires Valid()
      ensures r.curveType == TagCurve25519 && |r.publicKeyData| == KeyLength
      ensures forall i | 0 <= i < KeyLength :: r.publicKeyData[i] == publicKey[i]
    {
      PublicKeyRecord(TagCurve25519, publicKey[..])
    }

    /**
     * ImportPublicKey: the staged checks, then the byte copy. On success the
     * public key is the record's data; on any error nothing changes.
     */
    method ImportPublicKey(rec: PublicKeyRecord) returns (err: Option<Error>)
      requires Valid()
      modifies publicKey
      ensures Valid()
      ensures err == ImportVerdict(curve, rec)
      ensures err == None ==> publicKey[..] == rec.publicKeyData
      ensures err != None ==> publicKey[..] == old(publicKey[..])
      ensures unchanged(privateKey)
    {
      if curve != Curve25519 || rec.curveType != TagCurve25519 {
        return Some(WrongCurveType);
      }
      var data := rec.publicKeyData;
      if |data| != publicKey.Length {
        return Some(PublicKeyLengthError);
      }
      var ok := ValidatePublicKey(data);
      if !ok {
        return Some(PublicKeyVerificationError);
      }
      for i := 0 to KeyLength
        invariant forall j | 0 <= j < i :: publicKey[j] == data[j]
      {
        publicKey[i] := data[i];
      }
      assert publicKey[..] == data;
      return None;
    }
  }

  /**
   * Import accepts a record exactly when the receiver is a Curve25519 pair,
   * the record is tagged Curve25519 and carries 32 bytes that validate: not an
   * unmasked low-order encoding, or the encoding of 2p + 1 the table misses,
   * and not the table's ordinary last entry.
   */
  lemma ImportAcceptsExactly(curve: int, rec: PublicKeyRecord)
    ensures ImportVerdict(curve, rec) == None <==>
      curve == Curve25519 && rec.curveType == TagCurve25519 && |rec.publicKeyData| == KeyLength &&
      (!IsLowOrderEncoding(rec.publicKeyData) || rec.publicKeyData == EncodedTwoPPlusOne) &&
      rec.publicKeyData != LastEntryAsWritten
  {
    AsWrittenValidIff(rec.publicKeyData);
  }

  /** Each error import reports, with the exact condition under which it is the first check to fail. */
  lemma ImportErrorOrder(curve: int, rec: PublicKeyRecord)
    ensures ImportVerdict(curve, rec) == Some(WrongCurveType) <==>
      curve != Curve25519 || rec.curveType != TagCurve25519
    ensures ImportVerdict(curve, rec) == Some(PublicKeyLengthError) <==>
      curve == Curve25519 && rec.curveType == TagCurve25519 && |rec.publicKeyData| != KeyLength
    ensures ImportVerdict(curve, rec) == Some(PublicKeyVerificationError) <==>
      curve == Curve25519 && rec.curveType == TagCurve25519 &&
      ((IsLowOrderEncoding(rec.publicKeyData) && rec.publicKeyData != EncodedTwoPPlusOne) ||
       rec.publicKeyData == LastEntryAsWritten)
  {
    AsWrittenValidIff(rec.publicKeyData);
  }

  /**
   * A pair whose key passes validatePublicKey, as every key
   * NewCurve25519DhKeypair returns does, exports exactly that key, and a
   * Curve25519 receiver accepts the export.
   */
  lemma ExportImportRoundTrip(pair: Curve25519DhKeypair)
    requires pair.Valid() && IsValidPublicKeyAsWritten(pair.GetPublicKey())
    ensures pair.ExportPublicKey().publicKeyData == pair.GetPublicKey()
    ensures ImportVerdict(Curve25519, pair.ExportPublicKey()) == None
  {
  }

  /**
   * The three refusals the proto test expects for any exported key: a P256
   * receiver, the data with five bytes cut out, and 32 zero bytes.
   */
  lemma ProtoTestRefusals(key: seq<byte>)
    requires |key| == KeyLength
    ensures ImportVerdict(P256, PublicKeyRecord(TagCurve25519, key)) == Some(WrongCurveType)
    ensures ImportVerdict(Curve25519, PublicKeyRecord(TagCurve25519, key[..10] + key[15..])) == Some(PublicKeyLengthError)
    ensures ImportVerdict(Curve25519, PublicKeyRecord(TagCurve25519, Zeros(KeyLength))) == Some(PublicKeyVerificationError)
  {
    AllZeroKeyRefused();
  }

  /**
   * The proto test: export a validated pair's key and import it into a fresh
   * Curve25519 pair with zero keys, into a pair whose curve code is P256, then
   * into the first import pair again with five bytes cut out, and as 32 zero
   * bytes. The first import holds the exported key; the others report the
   * errors the test expects and leave that key in place.
   */
  method ProtoExchange(pair: Curve25519DhKeypair)
    returns (importKey: Curve25519DhKeypair, imported: seq<byte>,
             wrongCurveErr: Option<Error>, truncatedErr: Option<Error>, zeroKeyErr: Option<Error>)
    requires pair.Valid() && IsValidPublicKeyAsWritten(pair.GetPublicKey())
    ensures imported == pair.GetPublicKey()
    ensures wrongCurveErr == Some(WrongCurveType)
    ensures truncatedErr == Some(PublicKeyLengthError)
    ensures zeroKeyErr == Some(PublicKeyVerificationError)
    ensures importKey.Valid() && importKey.GetPublicKey() == imported
  {
    var protoKey := pair.ExportPublicKey();
    assert protoKey.publicKeyData == pair.GetPublicKey();
    importKey := new Curve25519DhKeypair(Curve25519, Zeros(KeyLength), Zeros(KeyLength));
    var err := importKey.ImportPublicKey(protoKey);
    imported := importKey.GetPublicKey();
    var wrongImportKey := new Curve25519DhKeypair(P256, Zeros(KeyLength), Zeros(KeyLength));
    wrongCurveErr := wrongImportKey.ImportPublicKey(protoKey);
    ProtoTestRefusals(protoKey.publicKeyData);
    var data := protoKey.publicKeyData;
    protoKey := protoKey.(publicKeyData := data[..10] + data[15..]);
    truncatedErr := importKey.ImportPublicKey(protoKey);
    protoKey := protoKey.(publicKeyData := Zeros(KeyLength));
    zeroKeyErr := importKey.ImportPublicKey(protoKey);
  }
}
