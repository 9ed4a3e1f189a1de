/**
  The language of DIDs, written down method by method without the parser: which
  texts are DIDs, and which part of each text is its method, namespace and id.  The
  parser accepts exactly these texts, with exactly these parts.
 */
module DidLanguage {
  import opened Wrappers
  import opened DidGrammar
  import opened UrlGrammar
  import opened DidUrls
  import Base58

  // ----------------------------------------------------------------- the language

  predicate HexAt(t: string, i: nat) {
    i < |t| && ('0' <= t[i] <= '9' || 'a' <= t[i] <= 'f' || 'A' <= t[i] <= 'F')
  }

  /** `idchar` of DID Core: a letter, a digit, one of ".-_", or the start of a percent-encoded byte. */
  predicate IdCharAt(t: string, i: nat) {
    i < |t| &&
    ('a' <= t[i] <= 'z' || 'A' <= t[i] <= 'Z' || '0' <= t[i] <= '9' || t[i] in ".-_" ||
     (t[i] == '%' && HexAt(t, i + 1) && HexAt(t, i + 2)))
  }

  ghost predicate IdOrColons(t: string) {
    forall i :: 0 <= i < |t| ==> IdCharAt(t, i) || t[i] == ':'
  }

  /** `*( *idchar ":" ) 1*idchar` */
  ghost predicate IdText(t: string) {
    t != "" && IdOrColons(t) && t[|t| - 1] != ':'
  }

  ghost predicate SovrinText(t: string) {
    21 <= |t| <= 22 && Base58.IsText(t)
  }

  ghost predicate UuidText(t: string) {
    |t| == 36 && forall i :: 0 <= i < 36 ==> if i in {8, 13, 18, 23} then t[i] == '-' else HexAt(t, i)
  }

  datatype Parts =
    | PeerFour(id: string)
    | WebDid(id: string)
    | KeyDid(id: string)
    | CheqdParts(ns: string, id: string)
    | SovParts(sovNs: Option<string>, id: string)
    | Generic(methodName: string, id: string)
    | Bare(id: string)

  function TextOf(p: Parts): string {
    match p
    case PeerFour(id) => "did:peer:" + id
    case WebDid(id) => "did:web:" + id
    case KeyDid(id) => "did:key:" + id
    case CheqdParts(ns, id) => "did:cheqd:" + (ns + (":" + id))
    case SovParts(None, id) => "did:sov:" + id
    case SovParts(Some(ns), id) => "did:sov:" + (ns + (":" + id))
    case Generic(name, id) => "did:" + (name + (":" + id))
    case Bare(id) => id
  }

  /** The texts that a method with its own grammar keeps for itself. */
  predicate Reserved(t: string) {
    "did:peer:4" <= t || "did:web:" <= t || "did:key:" <= t || "did:cheqd:" <= t || "did:sov:" <= t
  }

  ghost predicate Good(p: Parts) {
    match p
    case PeerFour(id) => IdText(id) && id[0] == '4'
    case WebDid(id) => id != "" && forall i :: 0 <= i < |id| ==> id[i] !in "/?#"
    case KeyDid(id) => |id| > 1 && id[0] == 'z' && Base58.IsText(id[1..])
    case CheqdParts(ns, id) =>
      && ns != "" && (forall i :: 0 <= i < |ns| ==> 'a' <= ns[i] <= 'z' || 'A' <= ns[i] <= 'Z' || '0' <= ns[i] <= '9')
      && (SovrinText(id) || UuidText(id))
    case SovParts(ns, id) => (ns.Some? ==> ns.value != "" && IdOrColons(ns.value)) && SovrinText(id)
    case Generic(name, id) =>
      && name != "" && (forall i :: 0 <= i < |name| ==> 'a' <= name[i] <= 'z' || '0' <= name[i] <= '9')
      && IdText(id) && !Reserved(TextOf(p))
    case Bare(id) => SovrinText(id)
  }

  /** The DID with its parts located: the method after "did:", then the namespace if any, then the id to the end. */
  function DidOf(p: Parts): Did {
    var t := TextOf(p);
    var id := Range(|t| - |p.id|, |t|);
    match p
    case PeerFour(_) => Did(t, Some(Range(4, 8)), None, id)
    case WebDid(_) => Did(t, Some(Range(4, 7)), None, id)
    case KeyDid(_) => Did(t, Some(Range(4, 7)), None, id)
    case CheqdParts(ns, _) => Did(t, Some(Range(4, 9)), Some(Range(10, 10 + |ns|)), id)
    case SovParts(None, _) => Did(t, Some(Range(4, 7)), None, id)
    case SovParts(Some(ns), _) => Did(t, Some(Range(4, 7)), Some(Range(8, 8 + |ns|)), id)
    case Generic(name, _) => Did(t, Some(Range(4, 4 + |name|)), None, id)
    case Bare(_) => Did(t, None, None, id)
  }

  // ------------------------------------------------------------------ general ids

  lemma IdCharIs(s: string, colons: bool)
    ensures IdChar(s, colons) > 0 <==> IdCharAt(s, 0) || (colons && s != "" && s[0] == ':')
    ensures IdChar(s, colons) <= 1 || (IdChar(s, colons) == 3 && IdCharAt(s, 1) && IdCharAt(s, 2))
  {
    if s != "" && PercentEncoded(s) {
      assert IsHex(s[1]) && IsHex(s[2]);
      assert HexAt(s, 1) && HexAt(s, 2);
      assert IdCharAt(s, 1) && IdCharAt(s, 2);
    }
    if s != "" {
      assert s[0] in ".-_" <==> s[0] == '.' || s[0] == '-' || s[0] == '_';
      assert IdCharAt(s, 0) <==> IsPlainIdChar(s[0]) || PercentEncoded(s);
    }
  }

  lemma IdCharShift(s: string, k: nat, i: nat)
    requires k <= |s|
    ensures IdCharAt(s[k..], i) <==> IdCharAt(s, k + i)
  {}

  ghost predicate AcceptedAt(s: string, i: nat, colons: bool) {
    IdCharAt(s, i) || (colons && i < |s| && s[i] == ':')
  }

  /** A run of id characters goes exactly as far as every position is one. */
  lemma {:induction false} IdCharsIs(s: string, colons: bool)
    ensures var k := IdChars(s, colons);
      && (forall i :: 0 <= i < k ==> AcceptedAt(s, i, colons))
      && !AcceptedAt(s, k, colons)
    decreases |s|
  {
    hide IdChar, IdCharAt;
    var step := IdChar(s, colons);
    IdCharIs(s, colons);
    if step > 0 {
      var t := s[step..];
      IdCharsIs(t, colons);
      forall i: nat ensures AcceptedAt(t, i, colons) <==> AcceptedAt(s, step + i, colons) { IdCharShift(s, step, i); }
      forall i | 0 <= i < IdChars(s, colons) ensures AcceptedAt(s, i, colons) {
        if i >= step { assert AcceptedAt(t, i - step, colons); }
      }
      assert AcceptedAt(t, IdChars(t, colons), colons) <==> AcceptedAt(s, step + IdChars(t, colons), colons);
    }
  }

  lemma NotIdOrColons(s: string, k: nat)
    requires k < |s| && !AcceptedAt(s, k, true)
    ensures !IdOrColons(s)
  {
    hide IdCharAt;
  }

  lemma IdCharsAll(s: string)
    ensures IdChars(s, true) == |s| <==> IdOrColons(s)
  {
    hide IdChars, IdCharAt;
    IdCharsIs(s, true);
    var k := IdChars(s, true);
    if k < |s| {
      NotIdOrColons(s, k);
    } else {
      forall i | 0 <= i < |s| ensures IdCharAt(s, i) || s[i] == ':' { assert AcceptedAt(s, i, true); }
    }
  }

  lemma GeneralIdSplit(s: string, k: nat)
    requires k == IdChars(s, false)
    ensures k < |s| && s[k] == ':' ==>
      GeneralId(s) == if GeneralId(s[k + 1..]) == 0 then 0 else k + 1 + GeneralId(s[k + 1..])
    ensures !(k < |s| && s[k] == ':') ==> GeneralId(s) == k
  {
    hide IdChars, ColonTerminated;
    ColonTerminatedAt(s, k);
    if k < |s| && s[k] == ':' {
      var tail := s[k + 1..];
      assert s[k + 1 + ColonTerminated(tail)..] == tail[ColonTerminated(tail)..];
    } else {
      assert s[0..] == s;
    }
  }

  lemma IdTextSplit(s: string, k: nat)
    requires k < |s| && s[k] == ':' && forall i :: 0 <= i < k ==> IdCharAt(s, i)
    ensures IdText(s) <==> IdText(s[k + 1..])
  {
    hide IdCharAt;
    var tail := s[k + 1..];
    forall i: nat ensures IdCharAt(tail, i) <==> IdCharAt(s, k + 1 + i) { IdCharShift(s, k + 1, i); }
    if IdText(tail) {
      forall i | 0 <= i < |s| ensures IdCharAt(s, i) || s[i] == ':' {
        if i > k { assert IdCharAt(tail, i - k - 1) || tail[i - k - 1] == ':'; }
      }
    }
    if IdText(s) {
      forall i | 0 <= i < |tail| ensures IdCharAt(tail, i) || tail[i] == ':' {
        assert IdCharAt(s, k + 1 + i) || s[k + 1 + i] == ':';
      }
    }
  }

  /** The id parser takes a whole text exactly when it is an id. */
  lemma {:induction false} GeneralIdIs(s: string)
    requires s != ""
    ensures GeneralId(s) == |s| <==> IdText(s)
    decreases |s|
  {
    hide IdChars, GeneralId, IdText;
    var k := IdChars(s, false);
    IdCharsIs(s, false);
    GeneralIdSplit(s, k);
    forall i | 0 <= i < k ensures IdCharAt(s, i) { assert AcceptedAt(s, i, false); }
    if k < |s| && s[k] == ':' {
      IdTextSplit(s, k);
      if s[k + 1..] == "" { EmptyIsNoId(); } else { GeneralIdIs(s[k + 1..]); }
    } else {
      WithoutColon(s, k);
    }
  }

  lemma EmptyIsNoId()
    ensures !IdText("") && GeneralId("") == 0
  {}

  lemma WithoutColon(s: string, k: nat)
    requires s != "" && k <= |s| && (k < |s| ==> s[k] != ':' && !IdCharAt(s, k)) && forall i :: 0 <= i < k ==> IdCharAt(s, i)
    ensures IdText(s) <==> k == |s|
  {
    if k == |s| { assert IdCharAt(s, |s| - 1); }
  }

  // -------------------------------------------------- each alternative takes its own

  lemma StartsLike(t: string)
    ensures "did:web:" <= t ==> !("did:peer:" <= t)
    ensures "did:key:" <= t ==> !("did:peer:" <= t) && !("did:web:" <= t)
    ensures "did:cheqd:" <= t ==> !("did:peer:" <= t) && !("did:web:" <= t) && !("did:key:" <= t)
    ensures "did:sov:" <= t ==> !("did:peer:" <= t) && !("did:web:" <= t) && !("did:key:" <= t) && !("did:cheqd:" <= t)
    ensures "did:peer:4" <= t <==> "did:peer:" <= t && "4" <= t[9..]
  {
    if |t| > 4 { var c := t[4]; }
  }

  lemma PeerFirst(t: string)
    requires "did:peer:4" <= t
    ensures ParsePrefix(t) == Peer4(t)
  {
    hide GeneralId;
    StartsLike(t);
  }

  lemma WebFirst(t: string)
    requires "did:web:" <= t
    ensures ParsePrefix(t) == Web(t)
  {
    hide Span;
    StartsLike(t);
  }

  lemma KeyFirst(t: string)
    requires "did:key:" <= t
    ensures ParsePrefix(t) == KeyMethod(t)
  {
    hide Span;
    StartsLike(t);
  }

  lemma CheqdFirst(t: string)
    requires "did:cheqd:" <= t
    ensures ParsePrefix(t) == Cheqd(t)
  {
    hide CheqdSplit;
    StartsLike(t);
  }

  lemma SovFirst(t: string)
    requires "did:sov:" <= t
    ensures ParsePrefix(t) == Sov(t)
  {
    hide SovSplit;
    StartsLike(t);
  }

  /** Texts without a reserved beginning reach the general alternatives, in order. */
  lemma GeneralLast(t: string)
    requires !Reserved(t)
    ensures ParsePrefix(t) == if Qualified(t).Done? then Qualified(t) else Unqualified(t)
  {
    hide QualifiedSplit, SovrinId;
    StartsLike(t);
  }

  lemma WholeDid(t: string, p: Parts)
    requires TextOf(p) == t && p.id != ""
    requires ParsePrefix(t) == Done(|t|, DidRanges(DidOf(p).methodName, DidOf(p).namespace, Some(DidOf(p).id)))
    ensures ParseDid(t) == Ok(DidOf(p))
  {
    hide ParsePrefix;
  }

  lemma PeerAccepts(id: string)
    requires IdText(id) && id[0] == '4'
    ensures ParseDid(TextOf(PeerFour(id))) == Ok(DidOf(PeerFour(id)))
  {
    hide GeneralId, ParseDid, ParsePrefix, IdCharAt;
    var t := "did:peer:" + id;
    assert t[9..] == id && "4" <= id;
    GeneralIdIs(id);
    StartsLike(t);
    PeerFirst(t);
    WholeDid(t, PeerFour(id));
  }

  lemma WebAccepts(id: string)
    requires Good(WebDid(id))
    ensures ParseDid(TextOf(WebDid(id))) == Ok(DidOf(WebDid(id)))
  {
    hide Span, ParseDid, ParsePrefix;
    var t := "did:web:" + id;
    assert t[8..] == id && id + "" == id;
    SpanAll(id, "", NotDelimiter);
    WebFirst(t);
    WholeDid(t, WebDid(id));
  }

  lemma Drop(t: string, id: string, n: nat)
    requires n <= |t| && t[n..] == id && id != ""
    ensures t[n + 1..] == id[1..]
  {
    assert t[n..][1..] == t[n + 1..];
  }

  lemma KeyAccepts(id: string)
    requires Good(KeyDid(id))
    ensures ParseDid(TextOf(KeyDid(id))) == Ok(DidOf(KeyDid(id)))
  {
    hide Span, ParseDid, ParsePrefix;
    var t := "did:key:" + id;
    assert t[8..] == id && "z" <= id;
    assert t[9..] == id[1..] by { Drop(t, id, 8); }
    assert id[1..] + "" == id[1..];
    SpanAll(id[1..], "", Base58.IsSymbol);
    KeyFirst(t);
    WholeDid(t, KeyDid(id));
  }

  lemma SovrinIdIs(id: string)
    ensures SovrinId(id) == |id| && id != "" <==> SovrinText(id)
    ensures SovrinText(id) ==> ':' !in id && !("did:" <= id)
  {
    hide Span;
    if Base58.IsText(id) {
      SpanAll(id, "", Base58.IsSymbol);
      assert id + "" == id;
      assert |id| > 3 ==> Base58.IsSymbol(id[3]);
    }
    if Span(id, Base58.IsSymbol) == |id| { assert Base58.IsText(id); }
  }

  lemma CheqdIdIs(id: string)
    ensures CheqdId(id) == |id| && id != "" <==> SovrinText(id) || UuidText(id)
  {
    hide Span;
    SovrinIdIs(id);
    if UuidText(id) {
      assert id[8] == '-';
      assert Span(id, Base58.IsSymbol) <= 8;
    }
    if |id| >= 36 && StartsWithUuid(id) {
      forall i | 0 <= i < 36 && i !in {8, 13, 18, 23} ensures HexAt(id, i) { assert IsHex(id[i]); }
    }
  }

  lemma CheqdSplitIs(ns: string, id: string)
    requires Good(CheqdParts(ns, id))
    ensures CheqdSplit(ns + (":" + id)) == Some((|ns|, |id|)) && |id| > 0
  {
    hide Span, CheqdId, SovrinText, UuidText;
    var x := ns + (":" + id);
    SpanAll(ns, ":" + id, IsAlphanumeric);
    assert x[|ns|..] == ":" + id && x[|ns| + 1..] == id;
    CheqdIdIs(id);
  }

  lemma CheqdAccepts(ns: string, id: string)
    requires Good(CheqdParts(ns, id))
    ensures ParseDid(TextOf(CheqdParts(ns, id))) == Ok(DidOf(CheqdParts(ns, id)))
  {
    hide ParseDid, ParsePrefix, CheqdSplit, Good;
    var x := ns + (":" + id);
    var t := "did:cheqd:" + x;
    assert t[10..] == x;
    CheqdSplitIs(ns, id);
    CheqdFirst(t);
    WholeDid(t, CheqdParts(ns, id));
  }

  lemma LastColonUnique(x: string, n: nat)
    requires n < |x| && x[n] == ':' && ':' !in x[n + 1..]
    ensures LastColon(x) == Some(n)
  {
    hide LastColon;
    var c := LastColon(x).value;
    InTail(x, n, c);
    InTail(x, c, n);
  }

  lemma InTail(x: string, i: nat, c: nat)
    ensures c < i < |x| ==> x[i] in x[c + 1..]
  {
    if c < i < |x| { assert x[c + 1..][i - c - 1] == x[i]; }
  }

  lemma LastColonOf(ns: string, id: string)
    requires ':' !in id
    ensures LastColon(ns + (":" + id)) == Some(|ns|)
  {
    var x := ns + (":" + id);
    assert x[|ns|] == ':' && x[|ns| + 1..] == id;
    LastColonUnique(x, |ns|);
  }

  lemma SovSplitIs(ns: Option<string>, id: string)
    requires Good(SovParts(ns, id))
    ensures SovSplit(if ns.Some? then ns.value + (":" + id) else id) ==
      Some((if ns.Some? then Some(|ns.value|) else None, |id|))
    ensures |id| > 0
  {
    hide SovrinId, IdChars, LastColon, IdOrColons;
    SovrinIdIs(id);
    if ns.Some? {
      var x := ns.value + (":" + id);
      LastColonOf(ns.value, id);
      IdCharsAll(ns.value);
      assert x[..|ns.value|] == ns.value && x[|ns.value| + 1..] == id;
    } else {
      NoLastColon(id);
    }
  }

  lemma NoLastColon(id: string)
    requires ':' !in id
    ensures LastColon(id) == None
  {
    hide LastColon;
  }

  lemma SovAccepts(ns: Option<string>, id: string)
    requires Good(SovParts(ns, id))
    ensures ParseDid(TextOf(SovParts(ns, id))) == Ok(DidOf(SovParts(ns, id)))
  {
    hide ParseDid, ParsePrefix, SovSplit, Good;
    var x := if ns.Some? then ns.value + (":" + id) else id;
    var t := "did:sov:" + x;
    assert t[8..] == x;
    SovSplitIs(ns, id);
    SovFirst(t);
    WholeDid(t, SovParts(ns, id));
  }

  lemma QualifiedSplitIs(name: string, id: string)
    requires Good(Generic(name, id))
    ensures QualifiedSplit(name + (":" + id)) == Some((|name|, |id|))
  {
    hide Span, GeneralId, IdText, Reserved;
    var x := name + (":" + id);
    SpanAll(name, ":" + id, IsMethodChar);
    assert x[|name|..] == ":" + id && x[|name| + 1..] == id;
    if id == "" { EmptyIsNoId(); } else { GeneralIdIs(id); }
  }

  lemma GenericAccepts(name: string, id: string)
    requires Good(Generic(name, id))
    ensures ParseDid(TextOf(Generic(name, id))) == Ok(DidOf(Generic(name, id)))
  {
    hide ParseDid, ParsePrefix, QualifiedSplit, IdText, Reserved;
    var x := name + (":" + id);
    var t := "did:" + x;
    assert t[4..] == x;
    QualifiedSplitIs(name, id);
    GeneralLast(t);
    WholeDid(t, Generic(name, id));
  }

  lemma BareAccepts(id: string)
    requires Good(Bare(id))
    ensures ParseDid(id) == Ok(DidOf(Bare(id)))
  {
    hide ParseDid, ParsePrefix, SovrinId;
    SovrinIdIs(id);
    GeneralLast(id);
    WholeDid(id, Bare(id));
  }

  /** Every text of the language is accepted, with its method, namespace and id where they stand. */
  lemma DidAccepted(p: Parts)
    requires Good(p)
    ensures ParseDid(TextOf(p)) == Ok(DidOf(p))
  {
    hide ParseDid, Good, TextOf, DidOf;
    match p
    case PeerFour(id) => assert IdText(id) && id[0] == '4' by { GoodPeer(id); } PeerAccepts(id);
    case WebDid(id) => WebAccepts(id);
    case KeyDid(id) => KeyAccepts(id);
    case CheqdParts(ns, id) => CheqdAccepts(ns, id);
    case SovParts(ns, id) => SovAccepts(ns, id);
    case Generic(name, id) => GenericAccepts(name, id);
    case Bare(id) => BareText(id); BareAccepts(id);
  }

  lemma GoodPeer(id: string)
    requires Good(PeerFour(id))
    ensures IdText(id) && id[0] == '4'
  {}

  lemma BareText(id: string)
    ensures TextOf(Bare(id)) == id
  {}

  // ------------------------------------------------------------ and nothing else

  /** An accepted text in terms of its prefix parse. */
  lemma Whole(t: string)
    requires ParseDid(t).Ok?
    ensures ParsePrefix(t).Done? && ParsePrefix(t).used == |t| && ParsePrefix(t).ranges.id.Some? && t != ""
  {
    hide ParsePrefix;
  }

  lemma PeerOnly(t: string)
    requires Peer4(t).Done? && Peer4(t).used == |t|
    ensures Good(PeerFour(t[9..])) && TextOf(PeerFour(t[9..])) == t
  {
    hide GeneralId, IdCharAt;
    GeneralIdIs(t[9..]);
    assert t == t[..9] + t[9..];
  }

  lemma WebOnly(t: string)
    requires Web(t).Done? && Web(t).used == |t| && Web(t).ranges.id.Some?
    ensures Good(WebDid(t[8..])) && TextOf(WebDid(t[8..])) == t
  {
    hide Span;
    assert forall i :: 0 <= i < |t| - 8 ==> NotDelimiter(t[8..][i]);
    assert t == t[..8] + t[8..];
  }

  lemma KeyOnly(t: string)
    requires KeyMethod(t).Done? && KeyMethod(t).used == |t|
    ensures Good(KeyDid(t[8..])) && TextOf(KeyDid(t[8..])) == t
  {
    hide Span;
    var id := t[8..];
    assert t[9..] == id[1..] by { Drop(t, id, 8); }
    assert Base58.IsText(id[1..]);
    assert t == t[..8] + t[8..];
  }

  lemma CutAtColon(x: string, n: nat)
    requires n < |x| && x[n] == ':'
    ensures x == x[..n] + (":" + x[n + 1..])
  {}

  lemma CheqdOnly(t: string) returns (p: Parts)
    requires Cheqd(t).Done? && Cheqd(t).used == |t|
    ensures Good(p) && TextOf(p) == t
  {
    hide Span, CheqdId, SovrinText, UuidText;
    var x := t[10..];
    var (n, m) := CheqdSplit(x).value;
    var ns, id := x[..n], x[n + 1..];
    CheqdIdIs(id);
    CutAtColon(x, n);
    assert t == t[..10] + x;
    forall i | 0 <= i < n ensures 'a' <= ns[i] <= 'z' || 'A' <= ns[i] <= 'Z' || '0' <= ns[i] <= '9' {
      assert IsAlphanumeric(x[i]);
    }
    p := CheqdParts(ns, id);
  }

  lemma SovOnly(t: string) returns (p: Parts)
    requires Sov(t).Done? && Sov(t).used == |t|
    ensures Good(p) && TextOf(p) == t
  {
    hide SovSplit, Good;
    var x := t[8..];
    assert t == t[..8] + x;
    p := SovSplitOnly(x);
  }

  lemma SovSplitOnly(x: string) returns (p: Parts)
    requires SovSplit(x).Some? && Consumed(SovSplit(x).value) == |x|
    ensures Good(p) && TextOf(p) == "did:sov:" + x
  {
    hide SovrinId, IdChars, LastColon, SovrinText, IdOrColons;
    if LastColon(x).None? {
      SovrinIdIs(x);
      p := SovParts(None, x);
    } else {
      var c := LastColon(x).value;
      SovrinIdIs(x[c + 1..]);
      IdCharsAll(x[..c]);
      CutAtColon(x, c);
      p := SovParts(Some(x[..c]), x[c + 1..]);
    }
  }

  lemma QualifiedOnly(t: string) returns (p: Parts)
    requires Qualified(t).Done? && Qualified(t).used == |t| && !Reserved(t)
    ensures Good(p) && TextOf(p) == t
  {
    hide QualifiedSplit, IdText, Reserved;
    var x := t[4..];
    var name, id := QualifiedSplitOnly(x);
    assert t == t[..4] + x;
    p := Generic(name, id);
    assert TextOf(p) == t;
  }

  lemma QualifiedSplitOnly(x: string) returns (name: string, id: string)
    requires QualifiedSplit(x).Some? && QualifiedSplit(x).value.0 + 1 + QualifiedSplit(x).value.1 == |x|
    ensures x == name + (":" + id) && IdText(id)
    ensures name != "" && forall i :: 0 <= i < |name| ==> 'a' <= name[i] <= 'z' || '0' <= name[i] <= '9'
  {
    hide Span, GeneralId, IdText;
    var m := QualifiedSplit(x).value.0;
    name, id := x[..m], x[m + 1..];
    GeneralIdIs(id);
    CutAtColon(x, m);
    forall i | 0 <= i < m ensures 'a' <= name[i] <= 'z' || '0' <= name[i] <= '9' { assert IsMethodChar(x[i]); }
  }

  /** Whatever is accepted as a DID is a text of the language. */
  lemma DidRecognised(t: string) returns (p: Parts)
    requires ParseDid(t).Ok?
    ensures Good(p) && TextOf(p) == t
  {
    hide ParseDid, ParsePrefix, Peer4, Web, KeyMethod, Cheqd, Sov, Qualified, Good;
    Whole(t);
    if "did:peer:4" <= t {
      PeerFirst(t);
      PeerOnly(t);
      p := PeerFour(t[9..]);
    } else if "did:web:" <= t {
      WebFirst(t);
      WebOnly(t);
      p := WebDid(t[8..]);
    } else if "did:key:" <= t {
      KeyFirst(t);
      KeyOnly(t);
      p := KeyDid(t[8..]);
    } else if "did:cheqd:" <= t {
      CheqdFirst(t);
      p := CheqdOnly(t);
    } else if "did:sov:" <= t {
      SovFirst(t);
      p := SovOnly(t);
    } else {
      GeneralLast(t);
      if Qualified(t).Done? {
        p := QualifiedOnly(t);
      } else {
        BareOnly(t);
        p := Bare(t);
      }
    }
  }

  lemma BareOnly(t: string)
    requires Unqualified(t).Done? && Unqualified(t).used == |t| && t != ""
    ensures Good(Bare(t)) && TextOf(Bare(t)) == t
  {
    hide SovrinId;
    SovrinIdIs(t);
  }

  /** The DIDs are exactly the texts of the language. */
  lemma DidsAreTheLanguage(t: string)
    ensures ParseDid(t).Ok? <==> exists p :: Good(p) && TextOf(p) == t
  {
    hide ParseDid, Good, TextOf, DidOf;
    if ParseDid(t).Ok? {
      var p := DidRecognised(t);
    }
    if p :| Good(p) && TextOf(p) == t {
      DidAccepted(p);
    }
  }

  // -------------------------------------------------------------------- DID URLs

  /** A DID or nothing, then a well-formed URL part; `did:web:` may stand without an id, `did:sov` before no colon. */
  ghost predicate Composed(s: string, d: string, u: Url) {
    && s == d + Print(u) && s != "" && WellFormed(u)
    && (d == "" || d == "did:web:" || ParseDid(d).Ok?)
    && !("did:sov:" <= d && ':' in Print(u))
  }

  lemma ComposedIsAccepted(s: string, d: string, u: Url)
    requires Composed(s, d, u)
    ensures ParseDidUrl(s).Ok?
  {
    hide ParseDid, ParsePrefix, ParseUrlPart, Print, WellFormed;
    if d == "did:web:" {
      PrintStops(u);
      assert s[8..] == Print(u);
      assert WebWithoutId(s);
      WebWithoutIdIsAccepted(s);
      PartComplete(u);
    } else {
      DidUrlRoundTrip(d, u);
    }
  }

  lemma AcceptedIsComposed(s: string) returns (d: string, u: Url)
    requires ParseDidUrl(s).Ok?
    ensures Composed(s, d, u)
  {
    hide ParsePrefix, ParseUrlPart, Print, WellFormed, WebWithoutId, ParseDid;
    var used, ranges, part := ParsedPieces(s);
    u := PartSound(s[used..]);
    d := s[..used];
    var rest := s[used..];
    assert s == d + rest;
    PrintStops(u);
    if ParsePrefix(s).Done? {
      PrefixRanges(s);
      if "did:sov:" <= d && ':' in rest {
        SovRejectsColons(d, rest);
      } else {
        PrefixLocal(d, rest);
        if ParsePrefix(s).ranges.id.Some? { WholePrefix(d); } else { WebText(s, d); }
      }
    } else {
      assert used == 0;
    }
  }

  lemma WholePrefix(d: string)
    requires ParsePrefix(d).Done? && ParsePrefix(d).used == |d| && ParsePrefix(d).ranges.id.Some?
    ensures ParseDid(d).Ok?
  {
    hide ParsePrefix;
    PrefixRanges(d);
  }

  lemma WebText(s: string, d: string)
    requires WebWithoutId(s) && d <= s && |d| == 8
    ensures d == "did:web:"
  {}

  /** The DID URLs are exactly the composed texts. */
  lemma DidUrlsAreTheLanguage(s: string)
    ensures ParseDidUrl(s).Ok? <==> exists d, u :: Composed(s, d, u)
  {
    hide ParseDidUrl, Composed;
    if ParseDidUrl(s).Ok? {
      var d, u := AcceptedIsComposed(s);
    }
    if d, u :| Composed(s, d, u) {
      ComposedIsAccepted(s, d, u);
    }
  }

  // --------------------------------------------------------------------- examples

  const SAMPLE_ID := "TAwT8WVt3dz2DBAifwuSkn"

  lemma SampleIsSovrin()
    ensures SovrinText(SAMPLE_ID)
  {}

  /** A concrete namespace that is lost on the way to a DID URL. */
  lemma NamespaceIsLost()
    ensures var t := "did:cheqd:" + ("testnet" + (":" + SAMPLE_ID));
            && ParseDid(t).Ok? && ParseDid(t).value.namespace == Some(Range(10, 17))
            && ToDid(OfDid(ParseDid(t).value)) != Ok(ParseDid(t).value)
  {
    hide ParseDid, SAMPLE_ID, SovrinText;
    SampleIsSovrin();
    CheqdAccepts("testnet", SAMPLE_ID);
    OfDidRoundTrip("did:cheqd:" + ("testnet" + (":" + SAMPLE_ID)));
  }

  /** A concrete URL that is rejected although its DID and its path are fine. */
  lemma SovColonExample()
    ensures ParseDid("did:sov:" + SAMPLE_ID).Ok?
    ensures WellFormed(Url(["a:b"], [], None)) && Print(Url(["a:b"], [], None)) == "/a:b"
    ensures ParseDidUrl("did:sov:" + SAMPLE_ID + "/a:b").Err?
  {
    hide ParseDid, ParseDidUrl, SAMPLE_ID, SovrinText;
    SampleIsSovrin();
    SovAccepts(None, SAMPLE_ID);
    PathWithColon();
    assert "/a:b"[2] == ':';
    DidUrlRoundTrip("did:sov:" + SAMPLE_ID, Url(["a:b"], [], None));
  }

  lemma PathWithColon()
    ensures WellFormed(Url(["a:b"], [], None)) && Print(Url(["a:b"], [], None)) == "/a:b"
  {}
}
