/**
  The DID prefix parser: one alternative per DID method, tried in order.
  A string stands for its UTF-8 bytes; every delimiter is ASCII.  A parser
  answers as nom does: `Done` with the number of bytes used, `Error` to let the
  next alternative try, `Failure` (after a `cut`) to stop the whole parse.
 */
module DidGrammar {
  import opened Wrappers
  import Base58

  datatype Range = Range(start: nat, end: nat)

  datatype DidRanges = DidRanges(methodName: Option<Range>, namespace: Option<Range>, id: Option<Range>)

  const NO_DID := DidRanges(None, None, None)

  datatype Outcome = Done(used: nat, ranges: DidRanges) | Error | Failure

  predicate IsDelimiter(c: char) { c == '/' || c == '?' || c == '#' }

  predicate IsDigit(c: char) { '0' <= c <= '9' }
  predicate IsLower(c: char) { 'a' <= c <= 'z' }
  predicate IsAlphanumeric(c: char) { IsLower(c) || 'A' <= c <= 'Z' || IsDigit(c) }
  predicate IsHex(c: char) { IsDigit(c) || 'a' <= c <= 'f' || 'A' <= c <= 'F' }
  predicate IsMethodChar(c: char) { IsLower(c) || IsDigit(c) }
  predicate NotDelimiter(c: char) { !IsDelimiter(c) }
  predicate IsPlainIdChar(c: char) { IsAlphanumeric(c) || c == '.' || c == '-' || c == '_' }

  /** Length of the longest prefix of `s` made of characters in `p`. */
  function Span(s: string, p: char -> bool): (n: nat)
    ensures n <= |s|
    ensures forall i :: 0 <= i < n ==> p(s[i])
    ensures n < |s| ==> !p(s[n])
  {
    if s == "" || !p(s[0]) then 0 else 1 + Span(s[1..], p)
  }

  predicate PercentEncoded(s: string) {
    |s| >= 3 && s[0] == '%' && IsHex(s[1]) && IsHex(s[2])
  }

  /** Length of one `idchar` (or colon, when allowed); zero when there is none. */
  function IdChar(s: string, colons: bool): (n: nat)
    ensures n <= |s|
    ensures forall i :: 0 <= i < n ==> !IsDelimiter(s[i]) && (colons || s[i] != ':')
  {
    if s == "" then 0
    else if IsPlainIdChar(s[0]) || (colons && s[0] == ':') then 1
    else if PercentEncoded(s) then 3
    else 0
  }

  /** `*idchar`, or `*(idchar / ":")` when colons are allowed as well. */
  function IdChars(s: string, colons: bool): (n: nat)
    ensures n <= |s|
    ensures forall i :: 0 <= i < n ==> !IsDelimiter(s[i]) && (colons || s[i] != ':')
  {
    var k := IdChar(s, colons);
    if k == 0 then 0
    else
      var more := IdChars(s[k..], colons);
      assert forall i :: k <= i < k + more ==> s[i] == s[k..][i - k];
      k + more
  }

  /** `*( *idchar ":" )` */
  function ColonTerminated(s: string): (n: nat)
    ensures n <= |s|
    ensures forall i :: 0 <= i < n ==> !IsDelimiter(s[i])
  {
    var k := IdChars(s, false);
    if k < |s| && s[k] == ':' then k + 1 + ColonTerminated(s[k + 1..]) else 0
  }

  /** `*( *idchar ":" ) 1*idchar`; zero when the mandatory part is missing. */
  function GeneralId(s: string): (n: nat)
    ensures n <= |s|
    ensures forall i :: 0 <= i < n ==> !IsDelimiter(s[i])
  {
    var r := ColonTerminated(s);
    var k := IdChars(s[r..], false);
    if k == 0 then 0 else r + k
  }

  /** 21 or 22 base58 characters; zero when there are fewer. */
  function SovrinId(s: string): (n: nat)
    ensures n <= |s|
    ensures n == 0 || 21 <= n <= 22
    ensures forall i :: 0 <= i < n ==> !IsDelimiter(s[i])
  {
    var run := Span(s, Base58.IsSymbol);
    if run < 21 then 0 else if run == 21 then 21 else 22
  }

  /** 8-4-4-4-12 hexadecimal digits. */
  predicate StartsWithUuid(s: string) {
    |s| >= 36 && forall i :: 0 <= i < 36 ==>
      if i == 8 || i == 13 || i == 18 || i == 23 then s[i] == '-' else IsHex(s[i])
  }

  function CheqdId(s: string): (n: nat)
    ensures n <= |s|
    ensures forall i :: 0 <= i < n ==> !IsDelimiter(s[i])
  {
    if SovrinId(s) > 0 then SovrinId(s) else if StartsWithUuid(s) then 36 else 0
  }

  /** `to_did_ranges` for a part that starts with "did:" and has a method name. */
  function Locate(methodLength: nat, namespace: Option<nat>, id: nat): (r: DidRanges) {
    var methodEnd := 4 + methodLength;
    var nsRange := match namespace
                   case None => None
                   case Some(n) => Some(Range(methodEnd + 1, methodEnd + 1 + n));
    var idStart := match nsRange case None => methodEnd + 1 case Some(r) => r.end + 1;
    DidRanges(Some(Range(4, methodEnd)), nsRange, if id == 0 then None else Some(Range(idStart, idStart + id)))
  }

  /** `did:web:` with nothing before the first delimiter: accepted, but without an id range. */
  predicate WebWithoutId(s: string) {
    "did:web:" <= s && (|s| == 8 || IsDelimiter(s[8]))
  }

  /** The ranges name consecutive pieces of the used text, separated by colons. */
  ghost predicate Consecutive(s: string, used: nat, r: DidRanges) {
    && used <= |s|
    && (r.methodName.Some? ==>
          && r.methodName.value.start == 4 <= r.methodName.value.end < used
          && "did:" <= s && s[r.methodName.value.end] == ':')
    && (r.methodName.None? ==> r.namespace.None? && r.id == Some(Range(0, used)))
    && (r.namespace.Some? ==>
          && r.methodName.Some? && r.namespace.value.start == r.methodName.value.end + 1
          && r.namespace.value.start <= r.namespace.value.end < used
          && s[r.namespace.value.end] == ':')
    && (r.id.Some? ==>
          && r.id.value.end == used && r.id.value.start < used
          && r.id.value.start == if r.namespace.Some? then r.namespace.value.end + 1
                                 else if r.methodName.Some? then r.methodName.value.end + 1 else 0)
    && (r.id.None? ==> used == 8 && WebWithoutId(s))
  }

  /** What every alternative owes its caller. */
  ghost predicate Sound(s: string, o: Outcome) {
    o.Done? ==>
      && Consecutive(s, o.used, o.ranges)
      && forall i :: 0 <= i < o.used ==> !IsDelimiter(s[i])
  }

  function Peer4(s: string): Outcome {
    if !("did:peer:" <= s) || !("4" <= s[9..]) then Error
    else var n := GeneralId(s[9..]);
      if n == 0 then Failure else Done(9 + n, Locate(4, None, n))
  }

  function Web(s: string): (o: Outcome)
    ensures Sound(s, o)
  {
    if !("did:web:" <= s) then Error
    else var n := Span(s[8..], NotDelimiter); Done(8 + n, Locate(3, None, n))
  }

  function KeyMethod(s: string): (o: Outcome)
    ensures Sound(s, o)
  {
    if !("did:key:" <= s) then Error
    else if !("z" <= s[8..]) then Failure
    else var n := Span(s[9..], Base58.IsSymbol);
      if n == 0 then Failure else Done(9 + n, Locate(3, None, 1 + n))
  }

  /** Namespace and id lengths of a did:cheqd id. */
  function CheqdSplit(x: string): (r: Option<(nat, nat)>)
    ensures r.Some? ==> r.value.1 > 0 && r.value.0 + 1 + r.value.1 <= |x| && x[r.value.0] == ':'
    ensures r.Some? ==> forall i :: 0 <= i < r.value.0 + 1 + r.value.1 ==> !IsDelimiter(x[i])
  {
    var ns := Span(x, IsAlphanumeric);
    if ns == 0 || !(":" <= x[ns..]) then None
    else
      var after := x[ns + 1..];
      var n := CheqdId(after);
      NoDelimiterAcross(x, ns, n);
      if n == 0 then None else Some((ns, n))
  }

  function Cheqd(s: string): Outcome {
    if !("did:cheqd:" <= s) then Error
    else match CheqdSplit(s[10..])
      case None => Failure
      case Some((ns, n)) =>
        Done(11 + ns + n, Locate(5, Some(ns), n))
  }

  function LastColon(s: string): (i: Option<nat>)
    ensures i.None? ==> ':' !in s
    ensures i.Some? ==> i.value < |s| && s[i.value] == ':' && ':' !in s[i.value + 1..]
  {
    if s == "" then None
    else if s[|s| - 1] == ':' then Some(|s| - 1)
    else
      var r := LastColon(s[..|s| - 1]);
      assert r.Some? ==> s[r.value + 1..] == s[..|s| - 1][r.value + 1..] + [s[|s| - 1]];
      assert s == s[..|s| - 1] + [s[|s| - 1]];
      r
  }

  function Consumed(split: (Option<nat>, nat)): nat {
    (match split.0 case None => 0 case Some(c) => c + 1) + split.1
  }

  /** Namespace and id lengths, splitting at the last colon of all that is left. */
  function SovSplit(x: string): (r: Option<(Option<nat>, nat)>)
    ensures r.Some? ==> r.value.1 > 0 && Consumed(r.value) <= |x|
    ensures r.Some? && r.value.0.Some? ==> x[r.value.0.value] == ':'
    ensures r.Some? ==> forall i :: 0 <= i < Consumed(r.value) ==> !IsDelimiter(x[i])
  {
    match LastColon(x)
    case None =>
      var n := SovrinId(x);
      if n == 0 then None else Some((None, n))
    case Some(c) =>
      if c == 0 || IdChars(x[..c], true) != c then None
      else
        var after := x[c + 1..];
        var n := SovrinId(after);
        assert forall i :: c < i < c + 1 + n ==> x[i] == after[i - c - 1];
        assert forall i :: 0 <= i < c ==> x[i] == x[..c][i];
        if n == 0 then None else Some((Some(c), n))
  }

  function Sov(s: string): Outcome {
    if !("did:sov:" <= s) then Error
    else match SovSplit(s[8..])
      case None => Failure
      case Some(split) =>
        Done(8 + Consumed(split), Locate(3, split.0, split.1))
  }

  /** Two stretches without delimiters around a colon make one. */
  lemma NoDelimiterAcross(x: string, m: nat, n: nat)
    requires m + 1 + n <= |x| && x[m] == ':'
    requires forall i :: 0 <= i < m ==> !IsDelimiter(x[i])
    requires var after := x[m + 1..]; forall i :: 0 <= i < n ==> !IsDelimiter(after[i])
    ensures forall i :: 0 <= i < m + 1 + n ==> !IsDelimiter(x[i])
  {
    var after := x[m + 1..];
    assert forall i :: m < i < m + 1 + n ==> x[i] == after[i - m - 1];
  }

  /** Method name and id lengths of a generic DID. */
  function QualifiedSplit(x: string): (r: Option<(nat, nat)>)
    ensures r.Some? ==> r.value.1 > 0 && r.value.0 + 1 + r.value.1 <= |x| && x[r.value.0] == ':'
    ensures r.Some? ==> forall i :: 0 <= i < r.value.0 + 1 + r.value.1 ==> !IsDelimiter(x[i])
  {
    var m := Span(x, IsMethodChar);
    if m == 0 || !(":" <= x[m..]) then None
    else
      var after := x[m + 1..];
      var n := GeneralId(after);
      NoDelimiterAcross(x, m, n);
      if n == 0 then None else Some((m, n))
  }

  function Qualified(s: string): Outcome {
    if !("did:" <= s) then Error
    else match QualifiedSplit(s[4..])
      case None => Error
      case Some((m, n)) =>
        Done(5 + m + n, Locate(m, None, n))
  }

  function Unqualified(s: string): (o: Outcome)
    ensures Sound(s, o)
  {
    var n := SovrinId(s);
    if n == 0 then Error else Done(n, DidRanges(None, None, Some(Range(0, n))))
  }

  /** `parse_did_ranges` */
  function ParsePrefix(s: string): Outcome {
    var r := Peer4(s); if !r.Error? then r else
    var r := Web(s); if !r.Error? then r else
    var r := KeyMethod(s); if !r.Error? then r else
    var r := Cheqd(s); if !r.Error? then r else
    var r := Sov(s); if !r.Error? then r else
    var r := Qualified(s); if !r.Error? then r else
    Unqualified(s)
  }

  lemma Peer4Sound(s: string)
    ensures Sound(s, Peer4(s))
  {
    hide GeneralId;
    if "did:peer:" <= s {
      assert forall i :: 9 <= i < |s| ==> s[i] == s[9..][i - 9];
    }
  }

  lemma SovSound(s: string)
    ensures Sound(s, Sov(s))
  {
    hide SovSplit;
    if "did:sov:" <= s {
      assert forall i :: 8 <= i < |s| ==> s[i] == s[8..][i - 8];
    }
  }

  lemma CheqdSound(s: string)
    ensures Sound(s, Cheqd(s))
  {
    hide CheqdSplit;
    if "did:cheqd:" <= s {
      assert forall i :: 10 <= i < |s| ==> s[i] == s[10..][i - 10];
    }
  }

  lemma QualifiedSound(s: string)
    ensures Sound(s, Qualified(s))
  {
    hide QualifiedSplit;
    if "did:" <= s {
      assert forall i :: 4 <= i < |s| ==> s[i] == s[4..][i - 4];
    }
  }

  /** The id range ends where parsing stopped, except for `did:web:` without an id. */
  lemma PrefixRanges(s: string)
    ensures Sound(s, ParsePrefix(s))
  {
    hide Sound, Peer4, Web, KeyMethod, Cheqd, Sov, Qualified, Unqualified;
    Peer4Sound(s);
    SovSound(s);
    CheqdSound(s);
    QualifiedSound(s);
  }

  lemma WebWithoutIdIsAccepted(s: string)
    requires WebWithoutId(s)
    ensures ParsePrefix(s) == Done(8, DidRanges(Some(Range(4, 7)), None, None))
  {
    assert s[4] == 'w';
    assert Peer4(s).Error?;
    assert Span(s[8..], NotDelimiter) == 0;
  }

  /** The parse ends with the text, or just before a delimiter. */
  predicate Stops(rest: string) {
    rest == "" || IsDelimiter(rest[0])
  }

  lemma {:induction false} SpanLocal(a: string, rest: string, p: char -> bool)
    requires rest == "" || !p(rest[0])
    ensures Span(a + rest, p) == Span(a, p)
  {
    if a == "" {
      assert a + rest == rest;
    } else if p(a[0]) {
      SpanLocal(a[1..], rest, p);
      assert (a + rest)[1..] == a[1..] + rest;
    }
  }

  lemma IdCharLocal(a: string, rest: string, colons: bool)
    requires Stops(rest)
    ensures IdChar(a + rest, colons) == IdChar(a, colons)
  {
    var s := a + rest;
    assert forall i :: 0 <= i < |a| ==> s[i] == a[i];
    if rest != "" { assert s[|a|] == rest[0]; }
    assert PercentEncoded(s) <==> PercentEncoded(a);
  }

  lemma {:induction false} IdCharsLocal(a: string, rest: string, colons: bool)
    requires Stops(rest)
    ensures IdChars(a + rest, colons) == IdChars(a, colons)
    decreases |a|
  {
    hide IdChar;
    IdCharLocal(a, rest, colons);
    var k := IdChar(a, colons);
    if k > 0 {
      IdCharsLocal(a[k..], rest, colons);
      assert (a + rest)[k..] == a[k..] + rest;
    }
  }

  lemma {:induction false} ColonTerminatedLocal(a: string, rest: string)
    requires Stops(rest)
    ensures ColonTerminated(a + rest) == ColonTerminated(a)
    decreases |a|
  {
    hide IdChars, Stops, ColonTerminated;
    IdCharsLocal(a, rest, false);
    var k := IdChars(a, false);
    ColonLocal(a, rest, k);
    ColonTerminatedAt(a, k);
    ColonTerminatedAt(a + rest, k);
    if k < |a| && a[k] == ':' {
      ColonTerminatedLocal(a[k + 1..], rest);
      DropLocal(a, rest, k + 1);
    }
  }

  lemma {:induction false} ColonTerminatedAt(s: string, k: nat)
    requires k == IdChars(s, false)
    ensures ColonTerminated(s) == if k < |s| && s[k] == ':' then k + 1 + ColonTerminated(s[k + 1..]) else 0
  {
    hide IdChars;
  }

  lemma ColonLocal(a: string, rest: string, k: nat)
    requires Stops(rest) && k <= |a|
    ensures (k < |a + rest| && (a + rest)[k] == ':') <==> (k < |a| && a[k] == ':')
  {
    if k == |a| && rest != "" { assert (a + rest)[k] == rest[0]; }
  }

  lemma DropLocal(a: string, rest: string, k: nat)
    requires k <= |a|
    ensures (a + rest)[k..] == a[k..] + rest
  {}

  lemma GeneralIdLocal(a: string, rest: string)
    requires Stops(rest)
    ensures GeneralId(a + rest) == GeneralId(a)
  {
    hide IdChars, ColonTerminated;
    ColonTerminatedLocal(a, rest);
    var r := ColonTerminated(a);
    IdCharsLocal(a[r..], rest, false);
    assert (a + rest)[r..] == a[r..] + rest;
  }

  lemma UuidLocal(a: string, rest: string)
    requires Stops(rest)
    ensures StartsWithUuid(a + rest) <==> StartsWithUuid(a)
  {
    var s := a + rest;
    assert forall i :: 0 <= i < |a| ==> s[i] == a[i];
    if |a| < 36 && rest != "" {
      assert s[|a|] == rest[0];
      assert !StartsWithUuid(s);
    }
  }

  lemma CheqdIdLocal(a: string, rest: string)
    requires Stops(rest)
    ensures CheqdId(a + rest) == CheqdId(a) && SovrinId(a + rest) == SovrinId(a)
  {
    hide StartsWithUuid;
    SpanLocal(a, rest, Base58.IsSymbol);
    UuidLocal(a, rest);
  }

  lemma TagLocal(tag: string, a: string, rest: string)
    requires Stops(rest)
    requires forall i :: 0 <= i < |tag| ==> !IsDelimiter(tag[i])
    ensures tag <= a + rest <==> tag <= a
    ensures tag <= a ==> (a + rest)[|tag|..] == a[|tag|..] + rest
  {
    if |a| < |tag| && rest != "" {
      assert (a + rest)[|a|] == rest[0];
    }
  }

  lemma {:induction false} LastColonLocal(a: string, rest: string)
    requires ':' !in rest
    ensures LastColon(a + rest) == LastColon(a)
  {
    if rest != "" {
      LastColonLocal(a, rest[..|rest| - 1]);
      assert (a + rest)[..|a + rest| - 1] == a + rest[..|rest| - 1];
    } else {
      assert a + rest == a;
    }
  }

  lemma SovLocal(d: string, rest: string)
    requires Stops(rest)
    requires ':' !in rest
    ensures Sov(d + rest) == Sov(d)
  {
    hide SovSplit, Locate, Consumed;
    TagLocal("did:sov:", d, rest);
    if "did:sov:" <= d {
      SovSplitLocal(d[8..], rest);
    }
  }

  lemma SovSplitLocal(x: string, rest: string)
    requires Stops(rest)
    requires ':' !in rest
    ensures SovSplit(x + rest) == SovSplit(x)
  {
    hide SovrinId, IdChars, LastColon, CheqdId, Consumed;
    LastColonLocal(x, rest);
    CheqdIdLocal(x, rest);
    if LastColon(x).Some? {
      var c := LastColon(x).value;
      assert (x + rest)[..c] == x[..c];
      assert (x + rest)[c + 1..] == x[c + 1..] + rest;
      CheqdIdLocal(x[c + 1..], rest);
    }
  }

  lemma LastColonReaches(a: string, rest: string)
    requires ':' in rest
    ensures LastColon(a + rest).Some? && LastColon(a + rest).value >= |a|
  {
    hide LastColon;
    var s := a + rest;
    var i :| 0 <= i < |rest| && rest[i] == ':';
    assert s[|a| + i] == ':';
    var c := LastColon(s).value;
    assert forall j :: c < j < |s| ==> s[j] == s[c + 1..][j - c - 1];
  }

  /** A colon anywhere after a `did:sov:` DID is taken for its namespace separator. */
  lemma SovRejectsColons(d: string, rest: string)
    requires "did:sov:" <= d
    requires rest != "" && IsDelimiter(rest[0])
    requires ':' in rest
    ensures ParsePrefix(d + rest).Failure?
  {
    hide LastColon, IdChars, SovrinId, Consumed, Locate;
    var s := d + rest;
    assert s[4] == 's' && s[5] == 'o';
    assert Sov(s).Failure? by {
      TagLocal("did:sov:", d, rest);
      var x := s[8..];
      assert x == d[8..] + rest;
      LastColonReaches(d[8..], rest);
      var c := LastColon(x).value;
      assert x[|d| - 8] == rest[0] && x[..c + 1][|d| - 8] == rest[0];
      assert c > |d| - 8;
      assert x[..c][|d| - 8] == rest[0];
    }
    assert Peer4(s).Error? && Web(s).Error? && KeyMethod(s).Error? && Cheqd(s).Error?;
  }

  lemma Peer4Local(d: string, rest: string)
    requires Stops(rest)
    ensures Peer4(d + rest) == Peer4(d)
  {
    hide GeneralId, Locate;
    TagLocal("did:peer:", d, rest);
    if "did:peer:" <= d {
      TagLocal("4", d[9..], rest);
      GeneralIdLocal(d[9..], rest);
    }
  }

  lemma WebLocal(d: string, rest: string)
    requires Stops(rest)
    ensures Web(d + rest) == Web(d)
  {
    hide Locate;
    TagLocal("did:web:", d, rest);
    if "did:web:" <= d {
      SpanLocal(d[8..], rest, NotDelimiter);
    }
  }

  lemma KeyMethodLocal(d: string, rest: string)
    requires Stops(rest)
    ensures KeyMethod(d + rest) == KeyMethod(d)
  {
    hide Locate;
    TagLocal("did:key:", d, rest);
    if "did:key:" <= d {
      TagLocal("z", d[8..], rest);
      if "z" <= d[8..] {
        SpanLocal(d[9..], rest, Base58.IsSymbol);
        assert (d + rest)[9..] == d[9..] + rest;
      }
    }
  }

  lemma CheqdSplitLocal(x: string, rest: string)
    requires Stops(rest)
    ensures CheqdSplit(x + rest) == CheqdSplit(x)
  {
    hide CheqdId, Span;
    SpanLocal(x, rest, IsAlphanumeric);
    var ns := Span(x, IsAlphanumeric);
    DropLocal(x, rest, ns);
    TagLocal(":", x[ns..], rest);
    if ":" <= x[ns..] {
      CheqdIdLocal(x[ns + 1..], rest);
      DropLocal(x, rest, ns + 1);
    }
  }

  lemma CheqdLocal(d: string, rest: string)
    requires Stops(rest)
    ensures Cheqd(d + rest) == Cheqd(d)
  {
    hide CheqdSplit, Locate;
    TagLocal("did:cheqd:", d, rest);
    if "did:cheqd:" <= d {
      CheqdSplitLocal(d[10..], rest);
    }
  }

  lemma QualifiedSplitLocal(x: string, rest: string)
    requires Stops(rest)
    ensures QualifiedSplit(x + rest) == QualifiedSplit(x)
  {
    hide GeneralId, Span;
    SpanLocal(x, rest, IsMethodChar);
    var m := Span(x, IsMethodChar);
    DropLocal(x, rest, m);
    TagLocal(":", x[m..], rest);
    if ":" <= x[m..] {
      GeneralIdLocal(x[m + 1..], rest);
      DropLocal(x, rest, m + 1);
    }
  }

  lemma QualifiedLocal(d: string, rest: string)
    requires Stops(rest)
    ensures Qualified(d + rest) == Qualified(d)
  {
    hide QualifiedSplit, Locate;
    TagLocal("did:", d, rest);
    if "did:" <= d {
      QualifiedSplitLocal(d[4..], rest);
    }
  }

  lemma UnqualifiedLocal(d: string, rest: string)
    requires Stops(rest)
    ensures Unqualified(d + rest) == Unqualified(d)
  {
    hide SovrinId, CheqdId;
    CheqdIdLocal(d, rest);
  }

  lemma SovOrNot(d: string, rest: string)
    requires Stops(rest)
    requires "did:sov:" <= d ==> ':' !in rest
    ensures Sov(d + rest) == Sov(d)
  {
    TagLocal("did:sov:", d, rest);
    if "did:sov:" <= d { SovLocal(d, rest); }
  }

  /** What follows a delimiter does not influence how the DID before it is read. */
  lemma PrefixLocal(d: string, rest: string)
    requires Stops(rest)
    requires "did:sov:" <= d ==> ':' !in rest
    ensures ParsePrefix(d + rest) == ParsePrefix(d)
  {
    hide Peer4, Web, KeyMethod, Cheqd, Sov, Qualified, Unqualified;
    Peer4Local(d, rest);
    WebLocal(d, rest);
    KeyMethodLocal(d, rest);
    CheqdLocal(d, rest);
    QualifiedLocal(d, rest);
    UnqualifiedLocal(d, rest);
    SovOrNot(d, rest);
  }

  /** A relative reference has no DID in front of it. */
  lemma RelativeHasNoPrefix(rest: string)
    requires Stops(rest)
    ensures ParsePrefix(rest) == Error
  {
    assert "" + rest == rest;
    PrefixLocal("", rest);
  }
}
