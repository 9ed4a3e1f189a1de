/** Keys written as DIDs and as bare base58: did:key, did:jwk, naked keys, abbreviated verkeys. */
module DidKeys {
  import opened Wrappers
  import opened Keys
  import opened DidGrammar
  import opened DidUrls
  import JsonText
  import Base58
  import Base64Url
  import UrlGrammar
  import Varint

  // ------------------------------------------------------------------ did:key

  datatype DidKey = DidKey(key: Key, did: Did)

  datatype DidKeyError = BadDid(did: ParseError) | BadKey(key: KeyError)

  function ParseDidKey(text: string, others: OtherBases): Result<DidKey, DidKeyError> {
    match ParseDid(text)
    case Err(e) => Err(BadDid(e))
    case Ok(did) =>
      match FromFingerprint(Slice(did.text, did.id), others)
      case Err(e) => Err(BadKey(e))
      case Ok(key) => Ok(DidKey(key, did))
  }

  /** `TryFrom<Key> for DidKey` */
  function DidKeyOf(key: Key): Result<DidKey, DidKeyError> {
    match ParseDid("did:key:" + key.Fingerprint())
    case Err(e) => Err(BadDid(e))
    case Ok(did) => Ok(DidKey(key, did))
  }

  lemma DidKeyPrefix(b: string)
    requires Base58.IsText(b) && b != ""
    ensures ParsePrefix("did:key:z" + b) == Done(9 + |b|, DidRanges(Some(Range(4, 7)), None, Some(Range(8, 9 + |b|))))
  {
    hide Cheqd, Sov, Qualified, Unqualified;
    var s := "did:key:z" + b;
    assert s[8..] == "z" + b && s[9..] == b && s[4] == 'k';
    assert Span(b, Base58.IsSymbol) == |b|;
    assert Peer4(s).Error? && Web(s).Error?;
  }

  lemma FingerprintIsDid(key: Key)
    ensures var f := key.Fingerprint();
            ParseDid("did:key:" + f) == Ok(Did("did:key:" + f, Some(Range(4, 7)), None, Range(8, 8 + |f|)))
  {
    hide ParsePrefix, Base58.Encode;
    var b := Base58.Encode(key.MulticodecPrefixed());
    Base58.EncodeNonempty(key.MulticodecPrefixed());
    DidKeyPrefix(b);
    assert "did:key:" + key.Fingerprint() == "did:key:z" + b;
  }

  /** Every key has a did:key, and that DID parses back to the same key. */
  lemma DidKeyRoundTrip(key: Key, others: OtherBases)
    ensures DidKeyOf(key).Ok? && DidKeyOf(key).value.key == key
    ensures DidKeyOf(key).value.did.text == "did:key:" + key.Fingerprint()
    ensures ParseDidKey("did:key:" + key.Fingerprint(), others) == DidKeyOf(key)
  {
    hide ParseDid, FromFingerprint;
    var f := key.Fingerprint();
    FingerprintIsDid(key);
    assert ("did:key:" + f)[8..8 + |f|] == f;
    FingerprintRoundTrip(key, others);
  }

  // ------------------------------------------------------------------ did:jwk

  datatype DidJwk<Jwk> = DidJwk(jwk: Jwk, did: Did)

  /** `TryFrom<JsonWebKey> for DidJwk` */
  function DidJwkOf<Jwk>(jwk: Jwk, json: JsonText.Codec<Jwk>): Option<DidJwk<Jwk>> {
    match ParseDid("did:jwk:" + Base64Url.Encode(json.write(jwk)))
    case Err(_) => None
    case Ok(did) => Some(DidJwk(jwk, did))
  }

  /** `TryFrom<Did> for DidJwk` on a parsed text. */
  function ParseDidJwk<Jwk>(text: string, json: JsonText.Codec<Jwk>): Option<DidJwk<Jwk>> {
    match ParseDid(text)
    case Err(_) => None
    case Ok(did) =>
      if did.methodName.None? || Slice(did.text, did.methodName.value) != "jwk" then None
      else
        var bytes :- Base64Url.Decode(Slice(did.text, did.id));
        var jwk :- json.read(bytes);
        Some(DidJwk(jwk, did))
  }

  lemma {:induction false} Base64IsIdChars(t: string)
    requires Base64Url.IsText(t)
    ensures IdChars(t, false) == |t| && ColonTerminated(t) == 0
  {
    if t != "" { Base64IsIdChars(t[1..]); }
  }

  lemma JwkSplit(t: string)
    requires Base64Url.IsText(t) && t != ""
    ensures QualifiedSplit("jwk:" + t) == Some((3, |t|))
  {
    hide ColonTerminated, IdChars, Span;
    var x := "jwk:" + t;
    Base64IsIdChars(t);
    assert t[0..] == t;
    assert x == "jwk" + (":" + t);
    UrlGrammar.SpanOf("jwk", ":" + t, IsMethodChar);
    assert x[3..] == ":" + t && x[4..] == t;
  }

  lemma Base64IsDid(t: string)
    requires Base64Url.IsText(t) && t != ""
    ensures ParseDid("did:jwk:" + t) == Ok(Did("did:jwk:" + t, Some(Range(4, 7)), None, Range(8, 8 + |t|)))
  {
    hide QualifiedSplit, Unqualified, SovSplit, CheqdSplit, GeneralId, Span;
    var s := "did:jwk:" + t;
    JwkSplit(t);
    assert s[4..] == "jwk:" + t && s[4] == 'j';
    assert Peer4(s).Error? && Web(s).Error? && KeyMethod(s).Error? && Cheqd(s).Error? && Sov(s).Error?;
  }

  /** Every web key has a did:jwk, which decodes to the same web key. */
  lemma DidJwkRoundTrip<Jwk(!new)>(jwk: Jwk, json: JsonText.Codec<Jwk>)
    requires JsonText.Faithful(json)
    ensures DidJwkOf(jwk, json).Some? && DidJwkOf(jwk, json).value.jwk == jwk
    ensures ParseDidJwk(DidJwkOf(jwk, json).value.did.text, json) == DidJwkOf(jwk, json)
  {
    hide ParseDid, Base64Url.Decode, Base64Url.Encode;
    var t := Base64Url.Encode(json.write(jwk));
    var s := "did:jwk:" + t;
    Base64IsDid(t);
    Base64Url.DecodeEncode(json.write(jwk));
    assert s[8..8 + |t|] == t && s[4..7] == "jwk";
  }

  /** The DID spells the JSON text; anything but a did:jwk that spells the JSON of some web key is refused. */
  lemma DidJwkText<Jwk(!new)>(jwk: Jwk, json: JsonText.Codec<Jwk>, text: string)
    requires JsonText.Faithful(json)
    ensures DidJwkOf(jwk, json).Some? && DidJwkOf(jwk, json).value.did.text == "did:jwk:" + Base64Url.Encode(json.write(jwk))
    ensures ParseDidJwk(text, json).Some? ==>
      && ParseDid(text).Ok? && "did:jwk:" <= text
      && var id := Base64Url.Decode(text[8..]);
         id.Some? && json.read(id.value) == Some(ParseDidJwk(text, json).value.jwk)
  {
    hide ParseDid, Base64Url.Decode, Base64Url.Encode;
    Base64IsDid(Base64Url.Encode(json.write(jwk)));
    if ParseDidJwk(text, json).Some? {
      JwkMethod(text);
    }
  }

  lemma JwkMethod(text: string)
    requires ParseDid(text).Ok? && ParseDid(text).value.methodName.Some?
    requires Slice(text, ParseDid(text).value.methodName.value) == "jwk"
    ensures "did:jwk:" <= text && ParseDid(text).value.id == Range(8, |text|) && Slice(text, Range(8, |text|)) == text[8..]
  {
    hide ParsePrefix;
    PrefixRanges(text);
    var did := ParseDid(text).value;
    assert did.methodName.value == Range(4, 7);
    assert text[4..7] == "jwk" && text[7] == ':';
    assert text[4] == "jwk"[0] && text[5] == "jwk"[1] && text[6] == "jwk"[2];
    NoJwkNamespace(text);
  }

  /** Only did:cheqd and did:sov have namespaces. */
  lemma NoJwkNamespace(text: string)
    requires ParsePrefix(text).Done? && |text| > 4 && text[4] == 'j'
    ensures ParsePrefix(text).ranges.namespace.None?
  {
    hide GeneralId, Span, CheqdSplit, SovSplit, QualifiedSplit, SovrinId;
  }

  /** A web key of the wallet's, and its further members. */
  datatype WebKey<Base> = WebKey(base: Base, extra: map<string, string>)

  /** `TryFrom<Key> for DidJwk`: the wallet's web key, with its use inserted. */
  method DidJwkOfKey<Base>(key: Key, toJwk: Key -> Option<WebKey<Base>>, json: JsonText.Codec<WebKey<Base>>)
    returns (r: Option<DidJwk<WebKey<Base>>>)
    ensures toJwk(key).None? ==> r == None
    ensures toJwk(key).Some? ==>
      var w := toJwk(key).value;
      r == DidJwkOf(WebKey(w.base, w.extra["use" := if key.keyType == X25519 then "enc" else "sig"]), json)
  {
    var jwk := toJwk(key);
    if jwk.None? { return None; }
    var extra := jwk.value.extra;
    match key.keyType {
      case X25519 => extra := extra["use" := "enc"];
      case _ => extra := extra["use" := "sig"];
    }
    r := DidJwkOf(WebKey(jwk.value.base, extra), json);
  }

  // --------------------------------------------------------- naked key lists

  datatype NakedError = MissingZ(key: string) | NotBase58(key: string) | NotEd25519(key: string)

  /** One key of `normalize_keys_as_naked`. */
  function NakedKey(key: string): Result<string, NakedError> {
    if "did:key:" <= key then
      var stripped := key[8..];
      if !("z" <= stripped) then Err(MissingZ(key))
      else match Base58.Decode(stripped[1..])
        case Err(_) => Err(NotBase58(key))
        case Ok(decoded) =>
          if [0xed, 0x01] <= decoded then Ok(Base58.Encode(decoded[2..])) else Err(NotEd25519(key))
    else Ok(key)
  }

  ghost predicate AllNaked(keys: seq<string>) {
    forall i :: 0 <= i < |keys| ==> NakedKey(keys[i]).Ok?
  }

  /** `normalize_keys_as_naked`: in order, one for one, stopping at the first bad key. */
  method NormalizeKeysAsNaked(keys: seq<string>) returns (r: Result<seq<string>, NakedError>)
    ensures r.Ok? <==> AllNaked(keys)
    ensures r.Ok? ==> |r.value| == |keys| && forall i :: 0 <= i < |keys| ==> NakedKey(keys[i]) == Ok(r.value[i])
    ensures r.Err? ==> exists i :: 0 <= i < |keys| && AllNaked(keys[..i]) && NakedKey(keys[i]) == Err(r.error)
  {
    hide NakedKey;
    var result: seq<string> := [];
    var i := 0;
    while i < |keys|
      invariant i == |result| <= |keys|
      invariant forall j :: 0 <= j < i ==> NakedKey(keys[j]) == Ok(result[j])
    {
      match NakedKey(keys[i]) {
        case Err(e) =>
          assert AllNaked(keys[..i]);
          return Err(e);
        case Ok(verkey) => result := result + [verkey];
      }
      i := i + 1;
    }
    r := Ok(result);
  }

  /** A normalised key is left alone by a second pass. */
  lemma NakedKeyIdempotent(key: string)
    requires NakedKey(key).Ok?
    ensures NakedKey(NakedKey(key).value) == NakedKey(key)
  {
    if "did:key:" <= key { NoColon(NakedKey(key).value); }
  }

  lemma NoColon(t: string)
    requires Base58.IsText(t)
    ensures !("did:key:" <= t)
  {
    if |t| > 3 { assert Base58.IsSymbol(t[3]); }
  }

  /** Hence so is a normalised list. */
  lemma NormalizedStaysNormalized(keys: seq<string>, naked: seq<string>)
    requires |naked| == |keys| && forall i :: 0 <= i < |keys| ==> NakedKey(keys[i]) == Ok(naked[i])
    ensures forall i :: 0 <= i < |naked| ==> NakedKey(naked[i]) == Ok(naked[i])
  {
    hide NakedKey;
    forall i | 0 <= i < |naked| ensures NakedKey(naked[i]) == Ok(naked[i]) {
      NakedKeyIdempotent(keys[i]);
    }
  }

  /** The did:key of an Ed25519 key becomes that key's base58; any other type is rejected. */
  lemma NakedDidKey(key: Key, others: OtherBases)
    ensures NakedKey("did:key:" + key.Fingerprint()).Ok? <==> key.keyType == Ed25519
    ensures key.keyType == Ed25519 ==>
              && NakedKey("did:key:" + key.Fingerprint()) == Ok(key.Base58Text())
              && FromFingerprint(key.Fingerprint(), others).Ok?
              && NakedKey("did:key:" + key.Fingerprint()) == Ok(FromFingerprint(key.Fingerprint(), others).value.Base58Text())
  {
    hide Base58.Decode, Base58.Encode, FromFingerprint;
    var bytes := key.MulticodecPrefixed();
    var s := "did:key:" + key.Fingerprint();
    assert s[8..] == key.Fingerprint() && s[8..][1..] == Base58.Encode(bytes);
    Base58.DecodeEncode(bytes);
    FingerprintRoundTrip(key, others);
    CodeBytes(key.keyType);
    assert bytes[2..] == key.key;
    assert [0xed, 0x01] <= bytes <==> bytes[0] == 0xed && bytes[1] == 0x01;
  }

  /** Keys that are no did:key pass as they are; of the did:keys, exactly those of two Ed25519 prefix bytes and anything after. */
  lemma NakedKeyExactly(key: string, rest: string, bytes: Bytes)
    ensures !("did:key:" <= key) ==> NakedKey(key) == Ok(key)
    ensures !("z" <= rest) ==> NakedKey("did:key:" + rest) == Err(MissingZ("did:key:" + rest))
    ensures !Base58.IsText(rest) ==> NakedKey("did:key:z" + rest) == Err(NotBase58("did:key:z" + rest))
    ensures var text := "did:key:z" + Base58.Encode(bytes);
      NakedKey(text) == if |bytes| >= 2 && bytes[0] == 0xed && bytes[1] == 0x01 then Ok(Base58.Encode(bytes[2..])) else Err(NotEd25519(text))
  {
    hide Base58.Decode, Base58.Encode;
    var a, b, c := "did:key:" + rest, "did:key:z" + rest, "did:key:z" + Base58.Encode(bytes);
    assert a[8..] == rest;
    assert b[8..] == "z" + rest && b[8..][1..] == rest;
    assert c[8..] == "z" + Base58.Encode(bytes) && c[8..][1..] == Base58.Encode(bytes);
    Base58.DecodeEncode(bytes);
    assert [0xed, 0x01] <= bytes <==> |bytes| >= 2 && bytes[0] == 0xed && bytes[1] == 0x01;
  }

  lemma CodeBytes(t: KeyType)
    ensures |Varint.Encode(Code(t))| == 2
    ensures Varint.Encode(Code(t)) == [0xed, 0x01] <==> t == Ed25519
    ensures Varint.Encode(Code(t))[0] == 0xed && Varint.Encode(Code(t))[1] == 0x01 <==> t == Ed25519
  {
    var c := Code(t);
    assert Varint.Encode(c) == [c % 128 + 128, c / 128];
  }

  // ------------------------------------------------------ abbreviated verkeys

  datatype VerkeyError = BadNym | BadVerkey

  function ExpandedVerkey(nym: string, verkey: string): Result<string, VerkeyError> {
    if !("~" <= verkey) then Ok(verkey)
    else if !Base58.IsText(nym) then Err(BadNym)
    else if !Base58.IsText(verkey[1..]) then Err(BadVerkey)
    else Ok(Base58.Encode(Base58.Decode(nym).value + Base58.Decode(verkey[1..]).value))
  }

  /** `expand_abbreviated_verkey`, extending the decoded nym in place. */
  method ExpandAbbreviatedVerkey(nym: string, verkey: string) returns (r: Result<string, VerkeyError>)
    ensures r == ExpandedVerkey(nym, verkey)
  {
    if !("~" <= verkey) { return Ok(verkey); }
    var decodedNym := Base58.Decode(nym);
    if decodedNym.Err? { return Err(BadNym); }
    var decodedVerkey := Base58.Decode(verkey[1..]);
    if decodedVerkey.Err? { return Err(BadVerkey); }
    var full := decodedNym.value;
    full := full + decodedVerkey.value;
    r := Ok(Base58.Encode(full));
  }

  /** Cutting a verkey's bytes anywhere, leading zeros included, abbreviating and expanding gives the verkey back. */
  lemma ExpandSplit(p: Bytes, q: Bytes)
    ensures ExpandedVerkey(Base58.Encode(p), "~" + Base58.Encode(q)) == Ok(Base58.Encode(p + q))
  {
    hide Base58.Decode, Base58.Encode;
    assert ("~" + Base58.Encode(q))[1..] == Base58.Encode(q);
    Base58.DecodeEncode(p);
    Base58.DecodeEncode(q);
  }

  /** A full verkey is returned as it is, and expanding twice changes nothing. */
  lemma ExpandIdempotent(nym: string, verkey: string)
    requires ExpandedVerkey(nym, verkey).Ok?
    ensures ExpandedVerkey(nym, ExpandedVerkey(nym, verkey).value) == ExpandedVerkey(nym, verkey)
  {
    hide Base58.Decode, Base58.Encode;
    if "~" <= verkey {
      var full := ExpandedVerkey(nym, verkey).value;
      if full != "" { assert Base58.IsSymbol(full[0]); }
    }
  }

  /** Only a tilde asks for expansion, and then both texts must be base58. */
  lemma ExpandExactly(nym: string, verkey: string)
    ensures verkey == "" || verkey[0] != '~' ==> ExpandedVerkey(nym, verkey) == Ok(verkey)
    ensures verkey != "" && verkey[0] == '~' ==>
      && (ExpandedVerkey(nym, verkey).Ok? <==> Base58.IsText(nym) && Base58.IsText(verkey[1..]))
      && (ExpandedVerkey(nym, verkey) == Err(BadNym) <==> !Base58.IsText(nym))
  {}
}
