/**
 * P256DhKeypair of keypair.go: a curve, an optional ECDSA private key and an
 * optional public point. The curve arithmetic, the SEC 1 compressed point
 * codec and SHA-256 belong to Go's standard library; they enter the model as
 * function values (PointCodec, Provider) so that every property below holds
 * for whatever those functions compute.
 */
module P256Keypair {
  import opened Wire
  import X25519Keypair

  /** The curves of Go's crypto/elliptic that a pair can be built on. */
  datatype Curve = CurveP224 | CurveP256 | CurveP384 | CurveP521

  /** ecdsa.PublicKey: a curve and the affine coordinates of a point. */
  datatype PublicKey = PublicKey(curve: Curve, x: nat, y: nat)

  /** ecdsa.PrivateKey: the public key it embeds and the secret scalar D. */
  datatype PrivateKey = PrivateKey(publicKey: PublicKey, d: nat)

  /** Length of a SEC 1 compressed P-256 point: the parity octet and 32 octets of x. */
  const CompressedLength: nat := 33

  /**
   * elliptic.MarshalCompressed and elliptic.UnmarshalCompressed on P-256
   * (section 2.3.3 and 2.3.4 of SEC 1); decoding yields no point on bad input.
   */
  datatype PointCodec = PointCodec(marshal: (nat, nat) -> seq<byte>, unmarshal: seq<byte> -> Option<(nat, nat)>)

  /** A SHA-256 digest. */
  type Digest = s: seq<byte> | |s| == 32 witness Zeros(32)

  /** Curve.ScalarMult and sha256.Sum256. */
  datatype Provider = Provider(scalarMult: (Curve, nat, nat, seq<byte>) -> (nat, nat), sha256: seq<byte> -> Digest)

  /** The point codec decodes what it encodes for the point (x, y). */
  ghost predicate DecodesEncoding(codec: PointCodec, x: nat, y: nat) {
    codec.unmarshal(codec.marshal(x, y)) == Some((x, y))
  }

  /** The length discipline of SEC 1 compressed points on P-256: 33 bytes out, nothing else in. */
  ghost predicate HasCompressedLength(codec: PointCodec) {
    (forall x: nat, y: nat :: |codec.marshal(x, y)| == CompressedLength) &&
    (forall s: seq<byte> :: |s| != CompressedLength ==> codec.unmarshal(s) == None)
  }

  /** big.Int.Bytes: the minimal big-endian bytes of n, empty for 0. */
  function BigEndianBytes(n: nat): (bytes: seq<byte>)
    decreases n
  {
    if n == 0 then [] else BigEndianBytes(n / 256) + [(n % 256) as byte]
  }

  /** big.Int.SetBytes: the value of big-endian bytes. */
  function BigEndianValue(s: seq<byte>): (v: nat) {
    if |s| == 0 then 0 else 256 * BigEndianValue(s[..|s| - 1]) + s[|s| - 1] as nat
  }

  /** Bytes() is exact and minimal: SetBytes undoes it, and it has no leading zero byte. */
  lemma {:induction false} BigEndianBytesRoundTrip(n: nat)
    ensures BigEndianValue(BigEndianBytes(n)) == n
    ensures |BigEndianBytes(n)| == 0 <==> n == 0
    ensures |BigEndianBytes(n)| > 0 ==> BigEndianBytes(n)[0] != 0
    decreases n
  {
    if n > 0 {
      var s := BigEndianBytes(n / 256);
      BigEndianBytesRoundTrip(n / 256);
      assert BigEndianBytes(n) == s + [(n % 256) as byte];
      assert (s + [(n % 256) as byte])[..|s|] == s;
      if n / 256 == 0 {
        assert BigEndianBytes(n) == [(n % 256) as byte];
      } else {
        assert BigEndianBytes(n)[0] == s[0];
      }
    }
  }

  /** Bytes() is the only big-endian encoding of n without a leading zero byte. */
  lemma {:induction false} BigEndianMinimalUnique(s: seq<byte>, n: nat)
    requires BigEndianValue(s) == n && (|s| > 0 ==> s[0] != 0)
    ensures s == BigEndianBytes(n)
    decreases |s|
  {
    if |s| > 0 {
      var init := s[..|s| - 1];
      var last := s[|s| - 1];
      assert n / 256 == BigEndianValue(init) && n % 256 == last as nat;
      if |init| == 0 {
        assert s == [last];
        assert BigEndianBytes(n) == BigEndianBytes(0) + [last];
      } else {
        assert init[0] == s[0];
        BigEndianMinimalUnique(init, n / 256);
        BigEndianBytesRoundTrip(n / 256);
        assert s == init + [last];
      }
    }
  }

  /**
   * The x-coordinate of d times the peer's point. The scalar is handed over as
   * D.Bytes(), and any minimal big-endian encoding of d gives the same point.
   */
  function SharedCoordinate(provider: Provider, d: nat, peer: PublicKey): (x: nat)
    ensures forall s: seq<byte> | BigEndianValue(s) == d && (|s| > 0 ==> s[0] != 0) ::
              x == provider.scalarMult(peer.curve, peer.x, peer.y, s).0
  {
    assert forall s: seq<byte> | BigEndianValue(s) == d && (|s| > 0 ==> s[0] != 0) ::
             s == BigEndianBytes(d) by {
      forall s: seq<byte> | BigEndianValue(s) == d && (|s| > 0 ==> s[0] != 0)
        ensures s == BigEndianBytes(d)
      {
        BigEndianMinimalUnique(s, d);
      }
    }
    provider.scalarMult(peer.curve, peer.x, peer.y, BigEndianBytes(d)).0
  }

  /**
   * sha256.Sum256(shared.Bytes()): the digest of bytes that are exactly the
   * shared x-coordinate, big-endian with no leading zero. This is the shared
   * secret the code evidently means to return.
   */
  function SharedSecretDigest(provider: Provider, d: nat, peer: PublicKey): (secret: Digest)
    ensures exists input ::
              && secret == provider.sha256(input)
              && BigEndianValue(input) == SharedCoordinate(provider, d, peer)
              && (|input| > 0 ==> input[0] != 0)
  {
    var shared := SharedCoordinate(provider, d, peer);
    BigEndianBytesRoundTrip(shared);
    provider.sha256(BigEndianBytes(shared))
  }

  /** The outcome of importing a record into a pair on curve. */
  datatype ImportResult = Imported(key: PublicKey) | Refused(error: Error)

  /**
   * The outcome ImportPublicKey reports: the tag and the receiver's curve are
   * checked first, then the point is decoded; a decoded point becomes a P-256 key.
   */
  function ImportOutcome(curve: Curve, codec: PointCodec, rec: PublicKeyRecord): (outcome: ImportResult)
    ensures outcome.Refused? ==> outcome.error == WrongCurveType || outcome.error == ErrorUnmarshalCurve
    ensures outcome.Imported? ==>
      rec.curveType == TagP256 && curve == CurveP256 && outcome.key.curve == CurveP256 &&
      codec.unmarshal(rec.publicKeyData) == Some((outcome.key.x, outcome.key.y))
  {
    if rec.curveType != TagP256 || curve != CurveP256 then Refused(WrongCurveType)
    else match codec.unmarshal(rec.publicKeyData)
      case None => Refused(ErrorUnmarshalCurve)
      case Some(point) => Imported(PublicKey(CurveP256, point.0, point.1))
  }

  class P256DhKeypair {
    const curve: Curve
    const privateKey: Option<PrivateKey>
    var publicKey: Option<PublicKey>

    /** The composite literal P256DhKeypair{curve, privateKey, publicKey}; nil is None. */
    constructor (curve: Curve, privateKey: Option<PrivateKey>, publicKey: Option<PublicKey>)
      ensures this.curve == curve && this.privateKey == privateKey && this.publicKey == publicKey
    {
      this.curve := curve;
      this.privateKey := privateKey;
      this.publicKey := publicKey;
    }

    /** GetPublicKey hands out the public key pointer; nil is None. */
    function GetPublicKey(): (key: Option<PublicKey>)
      reads this
      ensures key == publicKey
    {
      publicKey
    }

    /**
     * ComputeSharedSecret as written: Go's make([]byte, 32) yields 32 zero
     * bytes, and append puts the digest after them. A peer on another curve
     * panics, and so does a pair without a private key.
     */
    function ComputeSharedSecret(provider: Provider, peer: PublicKey): (secret: seq<byte>)
      requires peer.curve == curve
      requires privateKey.Some?
      ensures |secret| == 64
      ensures secret[..32] == Zeros(32)
      ensures secret[32..] == SharedSecretDigest(provider, privateKey.value.d, peer)
    {
      var sharedBytes := SharedSecretDigest(provider, privateKey.value.d, peer);
      var ret := Zeros(32);
      ret + sharedBytes
    }

    /**
     * The secret the code evidently means to return: the 32-byte digest
     * alone, which the as-written result carries behind its 32 zero bytes.
     */
    function IntendedSharedSecret(provider: Provider, peer: PublicKey): (secret: Digest)
      requires peer.curve == curve
      requires privateKey.Some?
      ensures ComputeSharedSecret(provider, peer) == Zeros(32) + secret
    {
      SharedSecretDigest(provider, privateKey.value.d, peer)
    }

    /**
     * ExportPublicKey: a record tagged P256 whose data is the compressed
     * encoding of the stored point, always on P-256; a nil key panics.
     */
    function ExportPublicKey(codec: PointCodec): (r: PublicKeyRecord)
      reads this
      requires publicKey.Some?
      ensures r.curveType == TagP256
      ensures r.publicKeyData == codec.marshal(publicKey.value.x, publicKey.value.y)
    {
      PublicKeyRecord(TagP256, codec.marshal(publicKey.value.x, publicKey.value.y))
    }

    /**
     * ImportPublicKey: on success the public key is replaced by the decoded
     * point; on an error it is left as it was.
     */
    method ImportPublicKey(codec: PointCodec, rec: PublicKeyRecord) returns (err: Option<Error>)
      modifies this`publicKey
      ensures ImportOutcome(curve, codec, rec).Imported? ==>
        err == None && publicKey == Some(ImportOutcome(curve, codec, rec).key)
      ensures ImportOutcome(curve, codec, rec).Refused? ==>
        err == Some(ImportOutcome(curve, codec, rec).error) && publicKey == old(publicKey)
    {
      if rec.curveType != TagP256 || curve != CurveP256 {
        return Some(WrongCurveType);
      }
      var point := codec.unmarshal(rec.publicKeyData);
      if point.None? {
        return Some(ErrorUnmarshalCurve);
      }
      publicKey := Some(PublicKey(CurveP256, point.value.0, point.value.1));
      return None;
    }
  }

  /** The import outcome in full: each error under exactly its condition, and the key imported otherwise. */
  lemma ImportOutcomeCases(curve: Curve, codec: PointCodec, rec: PublicKeyRecord)
    ensures ImportOutcome(curve, codec, rec) == Refused(WrongCurveType) <==>
      rec.curveType != TagP256 || curve != CurveP256
    ensures ImportOutcome(curve, codec, rec) == Refused(ErrorUnmarshalCurve) <==>
      rec.curveType == TagP256 && curve == CurveP256 && codec.unmarshal(rec.publicKeyData) == None
    ensures forall k :: ImportOutcome(curve, codec, rec) == Imported(k) <==>
      rec.curveType == TagP256 && curve == CurveP256 && k.curve == CurveP256 &&
      codec.unmarshal(rec.publicKeyData) == Some((k.x, k.y))
  {
  }

  /** Importing an exported P-256 key into a P-256 pair yields the same key, when the codec decodes its encoding. */
  lemma ExportImportRoundTrip(pair: P256DhKeypair, codec: PointCodec)
    requires pair.publicKey.Some? && pair.publicKey.value.curve == CurveP256
    requires DecodesEncoding(codec, pair.publicKey.value.x, pair.publicKey.value.y)
    ensures ImportOutcome(CurveP256, codec, pair.ExportPublicKey(codec)) == Imported(pair.publicKey.value)
  {
  }

  /** A pair on any curve but P-256 refuses every record with WrongCurveType. */
  lemma OtherCurveReceiverRefuses(curve: Curve, codec: PointCodec, rec: PublicKeyRecord)
    requires curve != CurveP256
    ensures ImportOutcome(curve, codec, rec) == Refused(WrongCurveType)
  {
  }

  /** Cutting five bytes out of an exported key makes it undecodable. */
  lemma TruncatedRecordRefused(codec: PointCodec, x: nat, y: nat)
    requires HasCompressedLength(codec)
    ensures var data := codec.marshal(x, y);
      ImportOutcome(CurveP256, codec, PublicKeyRecord(TagP256, data[..10] + data[15..])) == Refused(ErrorUnmarshalCurve)
  {
    var data := codec.marshal(x, y);
    assert |data| == CompressedLength;
    assert |data[..10] + data[15..]| == CompressedLength - 5;
  }

  /**
   * The shared secret as written is twice as long as a SHA-256 digest, and
   * its first half is zero whatever the keys.
   */
  lemma AsWrittenSecretIsPaddedDigest(pair: P256DhKeypair, provider: Provider, peer: PublicKey)
    requires peer.curve == pair.curve && pair.privateKey.Some?
    ensures |pair.ComputeSharedSecret(provider, peer)| == 2 * |pair.IntendedSharedSecret(provider, peer)|
    ensures pair.ComputeSharedSecret(provider, peer)[..32] == Zeros(32)
  {
  }

  /**
   * Two pairs on one curve agree on the secret, as written and as intended,
   * when scalar multiplication commutes for their keys (the ECDH property the
   * curve library provides).
   */
  lemma AgreementSymmetric(a: P256DhKeypair, b: P256DhKeypair, provider: Provider)
    requires a.curve == b.curve && a.privateKey.Some? && b.privateKey.Some?
    requires a.publicKey.Some? && b.publicKey.Some?
    requires a.publicKey.value.curve == a.curve && b.publicKey.value.curve == b.curve
    requires
      var pa, pb := a.publicKey.value, b.publicKey.value;
      provider.scalarMult(a.curve, pb.x, pb.y, BigEndianBytes(a.privateKey.value.d)).0 ==
      provider.scalarMult(b.curve, pa.x, pa.y, BigEndianBytes(b.privateKey.value.d)).0
    ensures a.IntendedSharedSecret(provider, b.publicKey.value) == b.IntendedSharedSecret(provider, a.publicKey.value)
    ensures a.ComputeSharedSecret(provider, b.publicKey.value) == b.ComputeSharedSecret(provider, a.publicKey.value)
  {
  }

  /**
   * The proto test: export a pair's P-256 key, import it into a fresh P-256
   * pair, into a fresh P-521 pair, and, cut by five bytes, into the first
   * import pair again.
   */
  method ProtoExchange(pair: P256DhKeypair, codec: PointCodec)
    returns (imported: Option<PublicKey>, wrongCurveErr: Option<Error>, truncatedErr: Option<Error>)
    requires pair.publicKey.Some? && pair.publicKey.value.curve == CurveP256
    requires DecodesEncoding(codec, pair.publicKey.value.x, pair.publicKey.value.y)
    requires HasCompressedLength(codec)
    ensures imported == pair.publicKey
    ensures wrongCurveErr == Some(WrongCurveType)
    ensures truncatedErr == Some(ErrorUnmarshalCurve)
  {
    var protoKey := pair.ExportPublicKey(codec);
    var importKey := new P256DhKeypair(CurveP256, None, None);
    var err := importKey.ImportPublicKey(codec, protoKey);
    imported := importKey.GetPublicKey();
    var wrongImportKey := new P256DhKeypair(CurveP521, None, None);
    wrongCurveErr := wrongImportKey.ImportPublicKey(codec, protoKey);
    TruncatedRecordRefused(codec, pair.publicKey.value.x, pair.publicKey.value.y);
    var data := protoKey.publicKeyData;
    protoKey := protoKey.(publicKeyData := data[..10] + data[15..]);
    truncatedErr := importKey.ImportPublicKey(codec, protoKey);
  }

  /** Each pair kind refuses the other kind's exported record with WrongCurveType. */
  lemma CrossCurveRefused(p: P256DhKeypair, c: X25519Keypair.Curve25519DhKeypair, codec: PointCodec)
    requires p.publicKey.Some? && c.Valid()
    ensures ImportOutcome(CurveP256, codec, c.ExportPublicKey()) == Refused(WrongCurveType)
    ensures X25519Keypair.ImportVerdict(Curve25519, p.ExportPublicKey(codec)) == Some(WrongCurveType)
  {
  }
}
