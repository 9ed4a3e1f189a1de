/** Signed connection responses: an eight-byte timestamp and JSON, base64url, and a signature over both. */
module Signing {
  import opened Wrappers
  import opened Keys
  import Base58
  import Base64Url
  import Positional
  import JsonText

  /** The wallet's signing calls; cryptography is foreign code. */
  datatype Wallet = Wallet(sign: (Key, Bytes) -> Option<Bytes>, verify: (Key, Bytes, Bytes) -> Option<bool>)

  datatype ConnectionSignature = ConnectionSignature(signature: string, sigData: string, signer: string)

  datatype SigningError =
    | BadKeyText | WalletError | BadSignatureText | BadSigData | SignatureInvalid | SignerMismatch | BadJson
    | Panic // the timestamp of a payload shorter than eight bytes is sliced off unchecked

  /** `to_be_bytes` cut to `width` bytes. */
  function BigEndian(n: nat, width: nat): (b: Bytes)
    ensures |b| == width
  {
    if width == 0 then [] else BigEndian(n / 256, width - 1) + [n % 256]
  }

  function Bound(width: nat): nat { if width == 0 then 1 else 256 * Bound(width - 1) }

  /** The bytes spell the number, the highest one first. */
  lemma {:induction false} BigEndianValue(n: nat, width: nat)
    ensures n < Bound(width) ==> Positional.Value(256, BigEndian(n, width)) == n
  {
    if width > 0 {
      BigEndianValue(n / 256, width - 1);
      var b := BigEndian(n, width);
      assert b[..|b| - 1] == BigEndian(n / 256, width - 1);
    }
  }

  lemma EightBytes()
    ensures Bound(8) == 0x1_0000_0000_0000_0000
  {}

  function SignConnectionResponse<Data>(w: Wallet, key: string, now: nat, data: Data, json: JsonText.Codec<Data>)
    : Result<ConnectionSignature, SigningError>
  {
    var sigData := BigEndian(now, 8) + json.write(data);
    match FromBase58(key, Ed25519)
    case Err(_) => Err(BadKeyText)
    case Ok(k) =>
      match w.sign(k, sigData)
      case None => Err(WalletError)
      case Some(signature) =>
        Ok(ConnectionSignature(Base64Url.Encode(signature), Base64Url.Encode(sigData), key))
  }

  function DecodeSignedConnectionResponse<Data>(w: Wallet, sig: ConnectionSignature, theirVk: string, json: JsonText.Codec<Data>)
    : Result<Data, SigningError>
  {
    match Base64Url.Decode(sig.signature)
    case None => Err(BadSignatureText)
    case Some(signature) =>
      match Base64Url.Decode(sig.sigData)
      case None => Err(BadSigData)
      case Some(sigData) =>
        match FromBase58(theirVk, Ed25519)
        case Err(_) => Err(BadKeyText)
        case Ok(k) =>
          match w.verify(k, sigData, signature)
          case None => Err(WalletError)
          case Some(accepted) =>
            if !accepted then Err(SignatureInvalid)
            else if sig.signer != theirVk then Err(SignerMismatch)
            else if |sigData| < 8 then Err(Panic)
            else
              match json.read(sigData[8..])
              case None => Err(BadJson)
              case Some(data) => Ok(data)
  }

  /**
    Signing succeeds exactly if the key text is base58 and the wallet signs.  What is
    signed and sent is the time in eight bytes, the highest first, and the JSON text.
   */
  lemma SignsExactly<Data>(w: Wallet, key: string, now: nat, data: Data, json: JsonText.Codec<Data>) returns (stamp: Bytes)
    requires now < 0x1_0000_0000_0000_0000
    ensures |stamp| == 8 && Positional.Value(256, stamp) == now
    ensures var r := SignConnectionResponse(w, key, now, data, json);
            var k := FromBase58(key, Ed25519);
            && (r.Ok? <==> Base58.IsText(key) && w.sign(k.value, stamp + json.write(data)).Some?)
            && (r.Ok? ==>
                && Base64Url.Decode(r.value.sigData) == Some(stamp + json.write(data))
                && Base64Url.Decode(r.value.signature) == w.sign(k.value, stamp + json.write(data))
                && r.value.signer == key)
  {
    hide Base64Url.Encode, Base64Url.Decode, Base58.Decode, BigEndian;
    stamp := BigEndian(now, 8);
    EightBytes();
    BigEndianValue(now, 8);
    Base64Url.DecodeEncode(stamp + json.write(data));
    if Base58.IsText(key) {
      var s := w.sign(FromBase58(key, Ed25519).value, stamp + json.write(data));
      if s.Some? { Base64Url.DecodeEncode(s.value); }
    }
  }

  /** Whatever the wallet accepts under the signer's verkey is decoded. */
  lemma VerifiedIsDecoded<Data>(
    w: Wallet, k: Key, stamp: Bytes, body: Bytes, signature: Bytes, json: JsonText.Codec<Data>)
    requires k.keyType == Ed25519 && |stamp| == 8 && w.verify(k, stamp + body, signature) == Some(true)
    ensures var sig := ConnectionSignature(Base64Url.Encode(signature), Base64Url.Encode(stamp + body), k.Base58Text());
            DecodeSignedConnectionResponse(w, sig, k.Base58Text(), json) ==
              match json.read(body) case Some(data) => Ok(data) case None => Err(BadJson)
  {
    hide Base64Url.Encode, Base64Url.Decode, FromBase58;
    Base64Url.DecodeEncode(signature);
    Base64Url.DecodeEncode(stamp + body);
    FromBase58RoundTrip(k);
    assert (stamp + body)[8..] == body;
  }

  /** What is not accepted is refused; a payload without a whole timestamp, if the wallet accepts it, is a panic. */
  lemma Refusals<Data>(w: Wallet, k: Key, payload: Bytes, signature: Bytes, signer: string, json: JsonText.Codec<Data>)
    requires k.keyType == Ed25519
    ensures var sig := ConnectionSignature(Base64Url.Encode(signature), Base64Url.Encode(payload), signer);
            var r := DecodeSignedConnectionResponse(w, sig, k.Base58Text(), json);
            && (w.verify(k, payload, signature) == None ==> r == Err(WalletError))
            && (w.verify(k, payload, signature) == Some(false) ==> r == Err(SignatureInvalid))
            && (w.verify(k, payload, signature) == Some(true) && signer != k.Base58Text() ==> r == Err(SignerMismatch))
            && (w.verify(k, payload, signature) == Some(true) && signer == k.Base58Text() && |payload| < 8 ==> r == Err(Panic))
  {
    hide Base64Url.Encode, Base64Url.Decode, FromBase58;
    Base64Url.DecodeEncode(signature);
    Base64Url.DecodeEncode(payload);
    FromBase58RoundTrip(k);
  }

  /** A wallet that accepts the signatures it makes. */
  ghost predicate AcceptsOwn(w: Wallet) {
    forall k: Key, m: Bytes :: w.sign(k, m).Some? ==> w.verify(k, m, w.sign(k, m).value) == Some(true)
  }

  /** The same signature as a peer that pads its base64url would send it. */
  function Padded(sig: ConnectionSignature, p: nat, q: nat): ConnectionSignature {
    ConnectionSignature(sig.signature + Base64Url.Pads(p), sig.sigData + Base64Url.Pads(q), sig.signer)
  }

  /**
    What was signed is what is decoded, for every clock reading, with or without
    padding on either text, and only under the verkey text that signed.
   */
  lemma SignThenDecode<Data(!new)>(
    w: Wallet, key: string, now: nat, data: Data, json: JsonText.Codec<Data>, theirVk: string, p: nat, q: nat)
    requires AcceptsOwn(w) && JsonText.Faithful(json)
    requires SignConnectionResponse(w, key, now, data, json).Ok?
    requires p <= Base64Url.MissingPads(|SignConnectionResponse(w, key, now, data, json).value.signature|)
    requires q <= Base64Url.MissingPads(|SignConnectionResponse(w, key, now, data, json).value.sigData|)
    ensures var sig := Padded(SignConnectionResponse(w, key, now, data, json).value, p, q);
            var r := DecodeSignedConnectionResponse(w, sig, theirVk, json);
            && (theirVk == key ==> r == Ok(data))
            && (theirVk != key ==> r.Err?)
  {
    hide Base64Url.Encode, Base64Url.Decode, Base64Url.MissingPads;
    var sigData := BigEndian(now, 8) + json.write(data);
    var signature := w.sign(FromBase58(key, Ed25519).value, sigData).value;
    Base64Url.DecodeEncodePadded(signature, p);
    Base64Url.DecodeEncodePadded(sigData, q);
    assert sigData[8..] == json.write(data);
  }

  /** Nothing is returned that the wallet did not accept under the given verkey. */
  lemma DecodedWasVerified<Data>(w: Wallet, sig: ConnectionSignature, theirVk: string, json: JsonText.Codec<Data>)
    requires DecodeSignedConnectionResponse(w, sig, theirVk, json).Ok?
    ensures exists k: Key, stamp: Bytes, body: Bytes, signature: Bytes ::
              && k.keyType == Ed25519 && k.Base58Text() == theirVk == sig.signer
              && |stamp| == 8 && w.verify(k, stamp + body, signature) == Some(true)
              && json.read(body) == Some(DecodeSignedConnectionResponse(w, sig, theirVk, json).value)
  {
    hide Base64Url.Decode, FromBase58;
    var signature, sigData := Base64Url.Decode(sig.signature).value, Base64Url.Decode(sig.sigData).value;
    var k := FromBase58(theirVk, Ed25519).value;
    assert k.keyType == Ed25519 by { TypeKept(theirVk); }
    FromBase58Unique(theirVk, k);
    assert sigData == sigData[..8] + sigData[8..];
    assert w.verify(k, sigData[..8] + sigData[8..], signature) == Some(true);
  }

  lemma TypeKept(text: string)
    ensures FromBase58(text, Ed25519).Ok? ==> FromBase58(text, Ed25519).value.keyType == Ed25519
  {}
}
