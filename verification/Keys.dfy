/** Public keys and their text forms: base58, multicodec, multibase fingerprint. */
module Keys {
  import opened Wrappers
  import Base58
  import Varint

  datatype KeyType = Ed25519 | Bls12381g1g2 | Bls12381g1 | Bls12381g2 | X25519 | P256 | P384 | P521

  datatype KeyError = BadBase58 | BadMultibase | BadVarint | UnsupportedCode(code: nat) | InvalidKeyType(given: KeyType, expected: KeyType)

  function Code(t: KeyType): (c: nat)
    ensures 128 <= c < 16384
  {
    match t
    case Bls12381g1 => 234
    case Bls12381g2 => 235
    case X25519 => 236
    case Ed25519 => 237
    case Bls12381g1g2 => 238
    case P256 => 4608
    case P384 => 4609
    case P521 => 4610
  }

  /** Accepts the eight multicodec codes and nothing else. */
  function TypeOfCode(c: nat): (r: Result<KeyType, KeyError>)
    ensures r.Ok? ==> Code(r.value) == c
    ensures r.Err? ==> r.error == UnsupportedCode(c) && forall t :: Code(t) != c
    ensures forall t :: Code(t) == c ==> r == Ok(t)
  {
    match c
    case 234 => Ok(Bls12381g1)
    case 235 => Ok(Bls12381g2)
    case 236 => Ok(X25519)
    case 237 => Ok(Ed25519)
    case 238 => Ok(Bls12381g1g2)
    case 4608 => Ok(P256)
    case 4609 => Ok(P384)
    case 4610 => Ok(P521)
    case _ => Err(UnsupportedCode(c))
  }

  /** The prefixes of the multicodec table. */
  lemma MulticodecBytes()
    ensures Varint.Encode(Code(Bls12381g1)) == [0xea, 0x01] && Varint.Encode(Code(Bls12381g2)) == [0xeb, 0x01]
    ensures Varint.Encode(Code(X25519)) == [0xec, 0x01] && Varint.Encode(Code(Ed25519)) == [0xed, 0x01]
    ensures Varint.Encode(Code(Bls12381g1g2)) == [0xee, 0x01]
    ensures Varint.Encode(Code(P256)) == [0x80, 0x24] && Varint.Encode(Code(P384)) == [0x81, 0x24]
    ensures Varint.Encode(Code(P521)) == [0x82, 0x24]
  {}

  /** Decoding of every multibase alphabet but base58btc, whose prefix is 'z'. */
  type OtherBases = string -> Option<Bytes>

  datatype Key = Key(keyType: KeyType, key: Bytes) {

    function Base58Text(): string { Base58.Encode(key) }

    function MulticodecPrefixed(): Bytes { Varint.Encode(Code(keyType)) + key }

    function Fingerprint(): string { "z" + Base58.Encode(MulticodecPrefixed()) }

    function ValidateKeyType(expected: KeyType): Result<Key, KeyError> {
      if keyType != expected then Err(InvalidKeyType(keyType, expected)) else Ok(this)
    }
  }

  function StripMulticodecPrefixIfPresent(key: Bytes, t: KeyType): Bytes {
    match Varint.Decode(key)
    case Ok((value, remaining)) => if value == Code(t) then remaining else key
    case Err(_) => key
  }

  function New(key: Bytes, t: KeyType): Key {
    Key(t, StripMulticodecPrefixIfPresent(key, t))
  }

  function FromBase58(text: string, t: KeyType): Result<Key, KeyError> {
    match Base58.Decode(text)
    case Ok(bytes) => Ok(Key(t, bytes))
    case Err(_) => Err(BadBase58)
  }

  function MultibaseDecode(text: string, others: OtherBases): Option<Bytes> {
    if text == "" then None
    else if text[0] == 'z' then
      match Base58.Decode(text[1..])
      case Ok(bytes) => Some(bytes)
      case Err(_) => None
    else others(text)
  }

  function FromFingerprint(text: string, others: OtherBases): Result<Key, KeyError> {
    match MultibaseDecode(text, others)
    case None => Err(BadMultibase)
    case Some(decoded) =>
      match Varint.Decode(decoded)
      case Err(_) => Err(BadVarint)
      case Ok((code, remaining)) =>
        var t :- TypeOfCode(code);
        Ok(Key(t, remaining))
  }

  lemma FromBase58RoundTrip(k: Key)
    ensures FromBase58(k.Base58Text(), k.keyType) == Ok(k)
  {
    Base58.DecodeEncode(k.key);
  }

  /** A key text names one key: reading it as `t` gives `k` exactly when `k` prints it. */
  lemma FromBase58Unique(text: string, k: Key)
    ensures FromBase58(text, k.keyType) == Ok(k) <==> text == k.Base58Text()
  {
    Base58.DecodeEncode(k.key);
    if Base58.IsText(text) {
      Base58.EncodeDecode(text);
    }
  }

  /** Every key, of every type and length, is recovered from its fingerprint. */
  lemma FingerprintRoundTrip(k: Key, others: OtherBases)
    ensures FromFingerprint(k.Fingerprint(), others) == Ok(k)
  {
    var prefixed := k.MulticodecPrefixed();
    Base58.DecodeEncode(prefixed);
    assert k.Fingerprint()[1..] == Base58.Encode(prefixed);
    Varint.DecodeEncode(Code(k.keyType), k.key);
  }

  /** And from nothing else in base58: a fingerprint of a key is its own, or spells its code in the overlong way. */
  lemma FromFingerprintExactly(bytes: Bytes, k: Key, others: OtherBases)
    ensures FromFingerprint("z" + Base58.Encode(bytes), others) == Ok(k) <==>
            bytes == Varint.Encode(Code(k.keyType)) + k.key ||
            (Varint.Overlong(bytes, Code(k.keyType)) && k.key == bytes[10..])
  {
    hide Varint.Decode, Varint.Encode, Varint.Overlong, Base58.Encode, Base58.Decode;
    var text := "z" + Base58.Encode(bytes);
    var code := Code(k.keyType);
    Base58.DecodeEncode(bytes);
    assert text[1..] == Base58.Encode(bytes);
    Varint.DecodesToCode(bytes, code);
    Varint.DecodeEncode(code, k.key);
    if Varint.Encode(code) <= bytes {
      var prefix := Varint.Encode(code);
      assert bytes == prefix + bytes[2..];
      assert bytes[2..] == k.key <==> bytes == prefix + k.key;
    }
  }

  lemma FingerprintInjective(a: Key, b: Key)
    requires a.Fingerprint() == b.Fingerprint()
    ensures a == b
  {
    FingerprintRoundTrip(a, _ => None);
    FingerprintRoundTrip(b, _ => None);
  }

  /**
    `Key::new` takes off the two canonical prefix bytes of its own type, takes off
    ten bytes of an overlong spelling of it, and changes nothing else.
   */
  lemma NewStripsExactly(bytes: Bytes, t: KeyType)
    ensures New(bytes, t) == Key(t,
              if Varint.Encode(Code(t)) <= bytes then bytes[2..]
              else if Varint.Overlong(bytes, Code(t)) then bytes[10..]
              else bytes)
    ensures New(bytes, t).key == bytes <==> !(Varint.Encode(Code(t)) <= bytes) && !Varint.Overlong(bytes, Code(t))
  {
    Varint.DecodesToCode(bytes, Code(t));
  }

  /** Stripping is undone by prefixing, and happens once: a second prefix stays. */
  lemma NewOfPrefixed(k: Key)
    ensures New(k.MulticodecPrefixed(), k.keyType) == k
  {
    Varint.DecodeEncode(Code(k.keyType), k.key);
  }

  /** The overlong case is real: ten bytes that are not the canonical prefix are removed. */
  lemma NewStripsOverlong()
    ensures !(Varint.Encode(Code(Ed25519)) <= [0xed, 0x81, 0x80, 0x80, 0x80, 0x80, 0x80, 0x80, 0x80, 0x02, 7])
    ensures New([0xed, 0x81, 0x80, 0x80, 0x80, 0x80, 0x80, 0x80, 0x80, 0x02, 7], Ed25519).key == [7]
  {
    var b: Bytes := [0xed, 0x81, 0x80, 0x80, 0x80, 0x80, 0x80, 0x80, 0x80, 0x02, 7];
    assert Varint.Overlong(b, 237) by {
      assert b[2..] == [0x80, 0x80, 0x80, 0x80, 0x80, 0x80, 0x80, 0x02, 7];
    }
    assert Varint.Encode(237) == [0xed, 0x01];
    NewStripsExactly(b, Ed25519);
  }
}
