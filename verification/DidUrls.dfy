/** `Did` and `DidUrl`: a text with byte ranges into it, computed apart from the parse. */
module DidUrls {
  import opened Wrappers
  import opened DidGrammar
  import opened UrlGrammar
  import Base58

  datatype ParseError = EmptyInput | Syntax | NothingParsed | InvalidDid | InvalidFragment | RelativeUrl

  datatype DidUrl = DidUrl(
    text: string, did: Option<Range>, methodName: Option<Range>, namespace: Option<Range>, id: Option<Range>,
    path: Option<Range>, fragment: Option<Range>, queries: map<Range, Range>)

  datatype Did = Did(text: string, methodName: Option<Range>, namespace: Option<Range>, id: Range)

  datatype UrlRanges = UrlRanges(path: Option<Range>, queries: map<Range, Range>, fragment: Option<Range>)

  predicate Fits(s: string, r: Range) { r.start <= r.end <= |s| }

  function Slice(s: string, r: Range): string
    requires Fits(s, r)
  {
    s[r.start..r.end]
  }

  ghost predicate OptionFits(s: string, r: Option<Range>) { r.Some? ==> Fits(s, r.value) }

  function OptionSlice(s: string, r: Option<Range>): Option<string>
    requires OptionFits(s, r)
  {
    match r case None => None case Some(range) => Some(Slice(s, range))
  }

  // ------------------------------------------------------- range arithmetic

  function KeyRange(start: nat, pair: (string, string)): Range { Range(start, start + |pair.0|) }

  function ValueRange(start: nat, pair: (string, string)): Range {
    Range(start + |pair.0| + 1, start + |pair.0| + 1 + |pair.1|)
  }

  /** Where pair `i` starts when the first one starts at `start`. */
  function StartOf(start: nat, pairs: seq<(string, string)>, i: nat): nat
    requires i <= |pairs|
  {
    if i == 0 then start else ValueRange(StartOf(start, pairs, i - 1), pairs[i - 1]).end + 1
  }

  function QueryMap(start: nat, pairs: seq<(string, string)>, n: nat): (m: map<Range, Range>)
    requires n <= |pairs|
  {
    if n == 0 then map[] else
    var at := StartOf(start, pairs, n - 1);
    QueryMap(start, pairs, n - 1)[KeyRange(at, pairs[n - 1]) := ValueRange(at, pairs[n - 1])]
  }

  function PairsIn(part: UrlPart): seq<(string, string)> {
    match part.queries case None => [] case Some(pairs) => pairs
  }

  /** The ranges of a URL part that starts at `base`. */
  function RangesOf(base: nat, part: UrlPart): UrlRanges {
    var pathEnd := base + |part.path|;
    var pairs := PairsIn(part);
    var end := StartOf(pathEnd + 1, pairs, |pairs|);
    UrlRanges(
      if part.path == "" then None else Some(Range(base, pathEnd)),
      QueryMap(pathEnd + 1, pairs, |pairs|),
      match part.fragment case None => None case Some(f) => Some(Range(end, end + |f|)))
  }

  /** `to_did_url_ranges`, with its running position and its growing map. */
  method ToDidUrlRanges(idRange: Option<Range>, part: UrlPart) returns (ranges: UrlRanges)
    ensures ranges == RangesOf(if idRange.Some? then idRange.value.end else 0, part)
  {
    var idEnd := if idRange.Some? then idRange.value.end else 0;
    var pathRange := None;
    if part.path != "" { pathRange := Some(Range(idEnd, idEnd + |part.path|)); }
    var position := if pathRange.Some? then pathRange.value.end + 1 else idEnd + 1;
    var queryMap: map<Range, Range> := map[];
    var pairs := PairsIn(part);
    var i := 0;
    while i < |pairs|
      invariant i <= |pairs|
      invariant position == StartOf(idEnd + |part.path| + 1, pairs, i)
      invariant queryMap == QueryMap(idEnd + |part.path| + 1, pairs, i)
    {
      var keyStart := position;
      var keyEnd := keyStart + |pairs[i].0|;
      var valueStart := keyEnd + 1;
      var valueEnd := valueStart + |pairs[i].1|;
      position := valueEnd + 1;
      queryMap := queryMap[Range(keyStart, keyEnd) := Range(valueStart, valueEnd)];
      i := i + 1;
    }
    var fragmentRange := None;
    if part.fragment.Some? { fragmentRange := Some(Range(position, |part.fragment.value| + position)); }
    ranges := UrlRanges(pathRange, queryMap, fragmentRange);
  }

  // ---------------------------------------------------------------- parsing

  /** `parse_did_ranges_with_empty_allowed` */
  function PrefixOf(s: string): (r: Option<(nat, DidRanges)>)
    ensures r.Some? ==> r.value.0 <= |s|
  {
    PrefixRanges(s);
    match ParsePrefix(s)
    case Done(used, ranges) => Some((used, ranges))
    case Error => Some((0, NO_DID))
    case Failure => None
  }

  function IdEnd(ranges: DidRanges): nat {
    match ranges.id case None => 0 case Some(r) => r.end
  }

  function Assemble(s: string, ranges: DidRanges, r: UrlRanges): DidUrl {
    DidUrl(s, match ranges.id case None => None case Some(id) => Some(Range(0, id.end)),
           ranges.methodName, ranges.namespace, ranges.id, r.path, r.fragment, r.queries)
  }

  function ParseDidUrl(s: string): Result<DidUrl, ParseError> {
    if s == "" then Err(EmptyInput) else
    match PrefixOf(s)
    case None => Err(Syntax)
    case Some((used, ranges)) =>
      match ParseUrlPart(s[used..])
      case None => Err(Syntax)
      case Some(part) =>
        if part == UrlPart("", None, None) && ranges == NO_DID then Err(NothingParsed)
        else Ok(Assemble(s, ranges, RangesOf(IdEnd(ranges), part)))
  }

  method Parse(s: string) returns (r: Result<DidUrl, ParseError>)
    ensures r == ParseDidUrl(s)
  {
    if s == "" { return Err(EmptyInput); }
    var prefix := PrefixOf(s);
    if prefix.None? { return Err(Syntax); }
    var (used, ranges) := prefix.value;
    var part := ParseUrlPart(s[used..]);
    if part.None? { return Err(Syntax); }
    if part.value == UrlPart("", None, None) && ranges == NO_DID { return Err(NothingParsed); }
    var r' := ToDidUrlRanges(ranges.id, part.value);
    r := Ok(Assemble(s, ranges, r'));
  }

  function ParseDid(s: string): (r: Result<Did, ParseError>)
    ensures r.Ok? ==> r.value.text == s && Fits(s, r.value.id)
    ensures r.Ok? && r.value.methodName.Some? ==> Fits(s, r.value.methodName.value)
  {
    PrefixRanges(s);
    if s == "" then Err(EmptyInput) else
    match ParsePrefix(s)
    case Done(used, ranges) =>
      if used != |s| then Err(Syntax)
      else if ranges.id.None? || ranges.id.value.end > |s| then Err(InvalidDid)
      else Ok(Did(s, ranges.methodName, ranges.namespace, ranges.id.value))
    case _ => Err(Syntax)
  }

  function FromFragment(f: string): Result<DidUrl, ParseError> {
    if f == "" || Elements(f, true) != |f| then Err(InvalidFragment)
    else Ok(DidUrl("#" + f, None, None, None, None, None, Some(Range(1, |f| + 1)), map[]))
  }

  /** `TryFrom<&DidUrl> for Did` */
  function ToDid(u: DidUrl): Result<Did, ParseError>
    requires OptionFits(u.text, u.did)
  {
    if u.did.None? || u.id.None? then Err(RelativeUrl)
    else Ok(Did(Slice(u.text, u.did.value), u.methodName, u.namespace, u.id.value))
  }

  /** `From<Did> for DidUrl` */
  function OfDid(d: Did): DidUrl {
    DidUrl(d.text, Some(Range(0, |d.text|)), d.methodName, None, Some(d.id), None, None, map[])
  }

  // ------------------------------------------- the ranges name the parsed text

  lemma {:induction false} StartShift(start: nat, pairs: seq<(string, string)>, i: nat)
    requires 0 < i <= |pairs|
    ensures StartOf(start, pairs, i) == StartOf(ValueRange(start, pairs[0]).end + 1, pairs[1..], i - 1)
  {
    if i > 1 { StartShift(start, pairs, i - 1); }
  }

  ghost predicate PairAt(s: string, at: nat, pair: (string, string)) {
    && Fits(s, ValueRange(at, pair))
    && Slice(s, KeyRange(at, pair)) == pair.0
    && Slice(s, ValueRange(at, pair)) == pair.1
  }

  /** Every printed pair lies where the arithmetic says. */
  lemma {:induction false} ItemsLocated(s: string, base: nat, items: seq<Item>, i: nat)
    requires base <= |s| && PrintItems(items) <= s[base..]
    requires i < |items|
    ensures PairAt(s, StartOf(base + 1, PairsOf(items), i), PairsOf(items)[i])
    decreases i
  {
    hide PrintItems, PrintPair, PairAt, StartOf;
    var pairs := PairsOf(items);
    PrintItemsSplit(items);
    var p, t := PrintPair(items[0]), PrintItems(items[1..]);
    var next := base + 1 + |p|;
    LaidOut(s, base, [items[0].separator], p, t);
    if i == 0 {
      PairLocated(s, base + 1, items[0]);
      StartOfFirst(base + 1, pairs);
    } else {
      StartShift(base + 1, pairs, i);
      ItemsLocated(s, next, items[1..], i - 1);
    }
  }

  lemma PairLocated(s: string, at: nat, item: Item)
    requires at + |PrintPair(item)| <= |s| && s[at..at + |PrintPair(item)|] == PrintPair(item)
    ensures PairAt(s, at, (item.key, item.value))
  {
    hide PrintPair;
    var p := PrintPair(item);
    assert s[at..at + |item.key|] == p[..|item.key|];
    assert s[at + |item.key| + 1..at + |p|] == p[|item.key| + 1..];
  }

  lemma StartOfFirst(start: nat, pairs: seq<(string, string)>)
    ensures StartOf(start, pairs, 0) == start
  {}

  lemma LaidOut(s: string, base: nat, a: string, b: string, c: string)
    requires base <= |s| && a + (b + c) <= s[base..]
    ensures base + |a| + |b| + |c| <= |s|
    ensures s[base + |a|..base + |a| + |b|] == b && c <= s[base + |a| + |b|..]
  {
    var t := s[base..];
    assert t[..|a| + |b| + |c|] == a + (b + c);
    assert s[base + |a|..base + |a| + |b|] == t[|a|..|a| + |b|];
    assert s[base + |a| + |b|..] == t[|a| + |b|..];
  }

  lemma {:induction false} PrintItemsSplit(items: seq<Item>)
    requires items != []
    ensures PrintItems(items) == [items[0].separator] + (PrintPair(items[0]) + PrintItems(items[1..]))
  {}

  lemma {:induction false} ItemsEnd(base: nat, items: seq<Item>)
    ensures StartOf(base + 1, PairsOf(items), |items|) == base + |PrintItems(items)| + 1
    decreases |items|
  {
    if items == [] {
      StartOfFirst(base + 1, PairsOf(items));
    } else {
      hide PrintItems, StartOf, PrintPair;
      PrintItemsSplit(items);
      StartShift(base + 1, PairsOf(items), |items|);
      ItemsEnd(base + 1 + |PrintPair(items[0])|, items[1..]);
    }
  }

  lemma {:induction false} StartsIncrease(start: nat, pairs: seq<(string, string)>, i: nat, j: nat)
    requires i < j <= |pairs|
    ensures ValueRange(StartOf(start, pairs, i), pairs[i]).end < StartOf(start, pairs, j)
  {
    if i + 1 < j { StartsIncrease(start, pairs, i, j - 1); }
  }

  lemma {:induction false} QueryMapKeys(start: nat, pairs: seq<(string, string)>, n: nat)
    requires n <= |pairs|
    ensures forall k :: k in QueryMap(start, pairs, n) ==> start <= k.start < StartOf(start, pairs, n)
    ensures start <= StartOf(start, pairs, n)
  {
    if n > 0 { QueryMapKeys(start, pairs, n - 1); }
  }

  /** No pair is lost: the map has as many entries as there are pairs. */
  lemma {:induction false} QueryMapSize(start: nat, pairs: seq<(string, string)>, n: nat)
    requires n <= |pairs|
    ensures |QueryMap(start, pairs, n)| == n
  {
    if n > 0 {
      hide StartOf;
      QueryMapSize(start, pairs, n - 1);
      QueryMapKeys(start, pairs, n - 1);
      var m, key := QueryMap(start, pairs, n - 1), KeyRange(StartOf(start, pairs, n - 1), pairs[n - 1]);
      assert key !in m;
      assert QueryMap(start, pairs, n).Keys == m.Keys + {key};
    }
  }

  ghost predicate Holds(m: map<Range, Range>, at: nat, pair: (string, string)) {
    KeyRange(at, pair) in m && m[KeyRange(at, pair)] == ValueRange(at, pair)
  }

  lemma {:induction false} QueryMapHolds(start: nat, pairs: seq<(string, string)>, n: nat, i: nat)
    requires i < n <= |pairs|
    ensures Holds(QueryMap(start, pairs, n), StartOf(start, pairs, i), pairs[i])
  {
    if i < n - 1 {
      QueryMapHolds(start, pairs, n - 1, i);
      StartsIncrease(start, pairs, i, n - 1);
    }
  }

  ghost predicate PathIs(s: string, base: nat, path: string, r: Option<Range>) {
    && OptionFits(s, r) && OptionSlice(s, r) == (if path == "" then None else Some(path))
    && (r.Some? ==> r.value.start == base)
  }

  ghost predicate FragmentIs(s: string, at: nat, fragment: Option<string>, r: Option<Range>) {
    && OptionFits(s, r) && OptionSlice(s, r) == fragment
    && (r.Some? ==> r.value.start == at && r.value.end == |s|)
  }

  ghost predicate QueriesAre(s: string, start: nat, pairs: seq<(string, string)>, m: map<Range, Range>) {
    && |m| == |pairs|
    && (forall i :: 0 <= i < |pairs| ==> Holds(m, StartOf(start, pairs, i), pairs[i]))
    && (forall i :: 0 <= i < |pairs| ==> PairAt(s, StartOf(start, pairs, i), pairs[i]))
    && (forall i, j :: 0 <= i < j <= |pairs| ==>
          ValueRange(StartOf(start, pairs, i), pairs[i]).end < StartOf(start, pairs, j))
  }

  /**
    The text at the ranges is the text that was parsed, the ranges follow one
    another from `base` without overlap, and the map holds one entry per pair.
   */
  ghost predicate Faithful(s: string, base: nat, part: UrlPart, r: UrlRanges) {
    var pairs, start := PairsIn(part), base + |part.path| + 1;
    && PathIs(s, base, part.path, r.path)
    && QueriesAre(s, start, pairs, r.queries)
    && FragmentIs(s, StartOf(start, pairs, |pairs|), part.fragment, r.fragment)
  }

  lemma QueriesFaithful(s: string, pathEnd: nat, items: seq<Item>)
    requires pathEnd <= |s| && PrintItems(items) <= s[pathEnd..]
    ensures QueriesAre(s, pathEnd + 1, PairsOf(items), QueryMap(pathEnd + 1, PairsOf(items), |PairsOf(items)|))
  {
    hide PrintItems, PairsOf, QueryMap, StartOf, PairAt, Holds;
    var pairs, start := PairsOf(items), pathEnd + 1;
    QueryMapSize(start, pairs, |pairs|);
    forall i | 0 <= i < |pairs| ensures Holds(QueryMap(start, pairs, |pairs|), StartOf(start, pairs, i), pairs[i]) {
      QueryMapHolds(start, pairs, |pairs|, i);
    }
    forall i | 0 <= i < |pairs| ensures PairAt(s, StartOf(start, pairs, i), pairs[i]) {
      ItemsLocated(s, pathEnd, items, i);
    }
    forall i, j | 0 <= i < j <= |pairs|
      ensures ValueRange(StartOf(start, pairs, i), pairs[i]).end < StartOf(start, pairs, j)
    {
      StartsIncrease(start, pairs, i, j);
    }
  }

  /** Ranges computed from the place where the URL part really starts are faithful. */
  lemma RangesOfFaithful(s: string, base: nat, part: UrlPart)
    requires base <= |s| && ParseUrlPart(s[base..]) == Some(part)
    ensures Faithful(s, base, part, RangesOf(base, part))
  {
    hide ParseUrlPart, Print, PrintItems, PrintSegments, PrintFragment, WellFormed, QueryMap, StartOf, PairsOf, QueriesAre, PathIs, FragmentIs;
    var u := PartSound(s[base..]);
    var path, query, tail := PrintSegments(u.segments), PrintItems(u.items), PrintFragment(u.fragment);
    PrintSplit(s[base..], u);
    PiecesAt(s, base, path, query, tail);
    NoItems(u.items);
    QueriesFaithful(s, base + |path|, u.items);
    ItemsEnd(base + |path|, u.items);
    PathLocated(s, base, path);
    FragmentLocated(s, base + |path| + |query|, u.fragment);
  }

  lemma PathLocated(s: string, base: nat, path: string)
    requires base + |path| <= |s| && s[base..base + |path|] == path
    ensures PathIs(s, base, path, if path == "" then None else Some(Range(base, base + |path|)))
  {}

  lemma FragmentLocated(s: string, at: nat, fragment: Option<string>)
    requires at + |PrintFragment(fragment)| == |s|
    requires PrintFragment(fragment) != "" ==> s[at + 1..|s|] == PrintFragment(fragment)[1..]
    ensures FragmentIs(s, at + 1, fragment, match fragment case None => None case Some(f) => Some(Range(at + 1, at + 1 + |f|)))
  {
    if fragment.Some? { assert PrintFragment(fragment)[1..] == fragment.value; }
  }

  lemma PiecesAt(s: string, base: nat, path: string, query: string, tail: string)
    requires base <= |s| && s[base..] == path + (query + tail)
    ensures base + |path| + |query| + |tail| == |s|
    ensures s[base..base + |path|] == path
    ensures query <= s[base + |path|..]
    ensures tail != "" ==> s[base + |path| + |query| + 1..|s|] == tail[1..]
  {
    var t := s[base..];
    assert s[base..base + |path|] == t[..|path|];
    assert s[base + |path|..] == t[|path|..] == query + tail;
    assert s[base + |path| + |query|..] == (query + tail)[|query|..] == tail;
  }

  lemma NoItems(items: seq<Item>)
    ensures items == [] ==> PairsOf(items) == []
  {}

  lemma PrintSplit(t: string, u: Url)
    requires Print(u) == t
    ensures t == PrintSegments(u.segments) + (PrintItems(u.items) + PrintFragment(u.fragment))
  {
    hide PrintSegments, PrintItems, PrintFragment;
  }

  // ------------------------------------------------------------ main results

  /** The parsed pieces of a text: where the URL part starts, the DID ranges, the URL part. */
  ghost predicate Parsed(s: string, used: nat, ranges: DidRanges, part: UrlPart) {
    PrefixOf(s) == Some((used, ranges)) && ParseUrlPart(s[used..]) == Some(part)
  }

  ghost function RangesIn(u: DidUrl): UrlRanges { UrlRanges(u.path, u.queries, u.fragment) }

  lemma ParsedPieces(s: string) returns (used: nat, ranges: DidRanges, part: UrlPart)
    requires ParseDidUrl(s).Ok?
    ensures Parsed(s, used, ranges, part)
    ensures ParseDidUrl(s).value == Assemble(s, ranges, RangesOf(IdEnd(ranges), part))
    ensures used == IdEnd(ranges) || (used == 8 && WebWithoutId(s) && ranges.id.None?)
    ensures WebWithoutId(s) ==> used == 8 && ranges.id.None?
  {
    hide ParsePrefix, ParseUrlPart, RangesOf, WebWithoutId, Assemble;
    used, ranges := PrefixOf(s).value.0, PrefixOf(s).value.1;
    part := ParseUrlPart(s[used..]).value;
    if ParsePrefix(s).Done? { PrefixIdEnd(s); }
    if WebWithoutId(s) { WebWithoutIdIsAccepted(s); }
  }

  lemma PrefixIdEnd(s: string)
    requires ParsePrefix(s).Done?
    ensures var r := ParsePrefix(s).ranges;
            (r.id.Some? ==> r.id.value.end == ParsePrefix(s).used <= |s|) &&
            (r.id.None? ==> ParsePrefix(s).used == 8 && WebWithoutId(s))
  {
    hide ParsePrefix, WebWithoutId;
    PrefixRanges(s);
  }

  lemma {:induction false} QueryMapWithin(start: nat, pairs: seq<(string, string)>, n: nat, m: map<Range, Range>)
    requires n <= |pairs| && forall i :: 0 <= i < n ==> Holds(m, StartOf(start, pairs, i), pairs[i])
    ensures forall k :: k in QueryMap(start, pairs, n) ==> k in m && m[k] == QueryMap(start, pairs, n)[k]
  {
    hide StartOf;
    if n > 0 {
      QueryMapWithin(start, pairs, n - 1, m);
      assert Holds(m, StartOf(start, pairs, n - 1), pairs[n - 1]);
    }
  }

  lemma SameSizeSameMap(a: map<Range, Range>, b: map<Range, Range>)
    requires |a| == |b| && forall k :: k in a ==> k in b && b[k] == a[k]
    ensures a == b
  {
    assert a.Keys <= b.Keys && |b.Keys - a.Keys| == |b.Keys| - |a.Keys|;
    assert b.Keys == a.Keys + (b.Keys - a.Keys);
  }

  /** There is only one faithful set of ranges: faithfulness fixes every position. */
  lemma FaithfulFixes(s: string, base: nat, part: UrlPart, r: UrlRanges)
    requires Faithful(s, base, part, r)
    ensures r == RangesOf(base, part)
  {
    hide StartOf, QueryMap, Holds, PairAt;
    var pairs, start := PairsIn(part), base + |part.path| + 1;
    QueryMapSize(start, pairs, |pairs|);
    QueryMapWithin(start, pairs, |pairs|, r.queries);
    SameSizeSameMap(QueryMap(start, pairs, |pairs|), r.queries);
  }

  /**
    For every accepted DID URL the reported ranges lie where the parsed parts lie,
    exactly when the text is not a `did:web:` without an id followed by something.
   */
  lemma RangesAreTrue(s: string)
    requires ParseDidUrl(s).Ok?
    ensures exists used, ranges, part ::
              && Parsed(s, used, ranges, part)
              && (Faithful(s, used, part, RangesIn(ParseDidUrl(s).value)) <==> !(WebWithoutId(s) && |s| > 8))
  {
    hide ParseDidUrl, ParseUrlPart, WebWithoutId, Faithful, PrefixOf, RangesOf;
    var used, ranges, part := ParsedPieces(s);
    RangesOfFaithful(s, used, part);
    var reported := RangesIn(ParseDidUrl(s).value);
    if Faithful(s, used, part, reported) { FaithfulFixes(s, used, part, reported); }
    if used != IdEnd(ranges) {
      if |s| == 8 {
        assert s[8..] == "";
        EmptyPart();
        NothingToLocate(0, 8);
      } else {
        SomethingParsed(s[8..]);
        RangesDiffer(0, 8, part);
      }
    }
    assert Parsed(s, used, ranges, part);
  }

  lemma NothingToLocate(a: nat, b: nat)
    ensures RangesOf(a, UrlPart("", None, None)) == RangesOf(b, UrlPart("", None, None))
  {}

  predicate Something(part: UrlPart) { part.path != "" || PairsIn(part) != [] || part.fragment.Some? }

  lemma EmptyPart()
    ensures ParseUrlPart("") == Some(UrlPart("", None, None))
  {}

  lemma SomethingParsed(t: string)
    requires ParseUrlPart(t).Some? && t != ""
    ensures Something(ParseUrlPart(t).value)
  {
    hide ParseUrlPart, PrintSegments, WellFormed;
    var u := PartSound(t);
  }

  /** A wrong starting point shows in the ranges as soon as there is anything to locate. */
  lemma RangesDiffer(a: nat, b: nat, part: UrlPart)
    requires a < b && Something(part)
    ensures RangesOf(a, part) != RangesOf(b, part)
  {
    var pairs := PairsIn(part);
    if part.path == "" {
      if pairs != [] {
        QueryMapHolds(a + 1, pairs, |pairs|, 0);
        QueryMapKeys(b + 1, pairs, |pairs|);
        assert KeyRange(a + 1, pairs[0]) in RangesOf(a, part).queries;
      }
    }
  }

  /** After `did:web:` without an id, no path is reported as it was written. */
  lemma WebWithoutIdMisreports(u: Url)
    requires WellFormed(u) && u.segments != []
    ensures var s := "did:web:" + Print(u);
            && ParseDidUrl(s).Ok?
            && ParseDidUrl(s).value.path == Some(Range(0, |PrintSegments(u.segments)|))
            && |PrintSegments(u.segments)| > 0
            && Slice(s, Range(0, |PrintSegments(u.segments)|)) != PrintSegments(u.segments)
  {
    hide ParsePrefix, ParseUrlPart, PrintItems, WellFormed;
    var s := "did:web:" + Print(u);
    assert PrintSegments(u.segments)[0] == '/' && Print(u)[0] == '/';
    assert s[8..] == Print(u);
    WebWithoutIdIsAccepted(s);
    PartComplete(u);
    assert Slice(s, Range(0, |PrintSegments(u.segments)|))[0] == 'd';
  }

  /** A concrete member of that family: the path of `did:web:/p` is reported as `di`. */
  lemma WebWithoutIdExample()
    ensures ParseDidUrl("did:web:/p").Ok? && ParseDidUrl("did:web:/p").value.path == Some(Range(0, 2))
    ensures Slice("did:web:/p", Range(0, 2)) == "di"
  {
    hide ParseDidUrl, Slice;
    var u := Url(["p"], [], None);
    assert Print(u) == "/p" && PrintSegments(u.segments) == "/p";
    assert "did:web:" + Print(u) == "did:web:/p";
    WebWithoutIdMisreports(u);
    TakeTwo();
  }

  lemma TakeTwo()
    ensures Slice("did:web:/p", Range(0, 2)) == "di"
  {}

  /** `from_fragment` is the parse of the same text after a '#', failures included. */
  lemma FromFragmentIsParse(f: string)
    ensures FromFragment(f).Ok? <==> ParseDidUrl("#" + f).Ok?
    ensures FromFragment(f).Ok? ==> FromFragment(f) == ParseDidUrl("#" + f)
  {
    hide ParsePrefix, Elements;
    var s := "#" + f;
    RelativeHasNoPrefix(s);
    assert s[0..] == s && s[1..] == f;
    assert Path(s) == 0;
  }

  /** The DID ranges of an accepted DID URL, read in the DID it is converted to, give the same text. */
  lemma ToDidKeepsText(s: string)
    requires ParseDidUrl(s).Ok?
    ensures var u := ParseDidUrl(s).value;
            && OptionFits(u.text, u.did)
            && (ToDid(u).Ok? <==> u.id.Some?)
            && (u.id.Some? ==>
                  var d := ToDid(u).value;
                  && OptionFits(s, u.methodName) && OptionFits(d.text, d.methodName)
                  && OptionSlice(d.text, d.methodName) == OptionSlice(s, u.methodName)
                  && OptionFits(s, u.namespace) && OptionFits(d.text, d.namespace)
                  && OptionSlice(d.text, d.namespace) == OptionSlice(s, u.namespace)
                  && OptionFits(s, u.id) && Fits(d.text, d.id)
                  && Slice(d.text, d.id) == Slice(s, u.id.value)
                  && d.text <= s && |d.text| == d.id.end)
  {
    hide ParsePrefix, ParseUrlPart, RangesOf, WebWithoutId;
    if ParsePrefix(s).Done? {
      PrefixRanges(s);
      var used, r := ParsePrefix(s).used, ParsePrefix(s).ranges;
      if r.id.Some? {
        assert s[0..used] == s[..used];
        SliceOfPrefix(s, used, r.methodName);
        SliceOfPrefix(s, used, r.namespace);
        SliceOfPrefix(s, used, r.id);
      }
    }
  }

  lemma SliceOfPrefix(s: string, n: nat, r: Option<Range>)
    requires n <= |s| && (r.Some? ==> r.value.start <= r.value.end <= n)
    ensures OptionFits(s, r) && OptionFits(s[..n], r) && OptionSlice(s[..n], r) == OptionSlice(s, r)
  {
    if r.Some? { assert s[..n][r.value.start..r.value.end] == s[r.value.start..r.value.end]; }
  }

  /** Converting a DID to a DID URL and back is the identity unless it has a namespace, which is dropped. */
  lemma OfDidRoundTrip(t: string)
    requires ParseDid(t).Ok?
    ensures var d := ParseDid(t).value;
            && OptionFits(OfDid(d).text, OfDid(d).did)
            && (ToDid(OfDid(d)) == Ok(d) <==> d.namespace.None?)
            && ToDid(OfDid(d)) == Ok(d.(namespace := None))
            && OfDid(d).text == t && RangesIn(OfDid(d)) == UrlRanges(None, map[], None)
  {
    hide ParsePrefix;
    assert t[0..|t|] == t;
  }

  lemma SpanAll(a: string, rest: string, p: char -> bool)
    requires (forall i :: 0 <= i < |a| ==> p(a[i])) && (rest == "" || !p(rest[0]))
    ensures Span(a + rest, p) == |a|
  {
    hide Span;
    SpanLocal(a, rest, p);
  }

  /**
    A DID that parses, followed by any well-formed URL part, parses to that DID
    and exactly those parts, unless the DID is a `did:sov` and the URL part has a
    colon; then it is rejected.
   */
  lemma DidUrlRoundTrip(d: string, u: Url)
    requires d == "" || ParseDid(d).Ok?
    requires WellFormed(u) && d + Print(u) != ""
    ensures ParseDidUrl(d + Print(u)).Ok? <==> !("did:sov:" <= d && ':' in Print(u))
    ensures ParseDidUrl(d + Print(u)).Ok? ==>
              var r := ParseDidUrl(d + Print(u)).value;
              && Faithful(d + Print(u), |d|, PartOf(u), RangesIn(r))
              && r.did == (if d == "" then None else Some(Range(0, |d|)))
              && (d != "" ==> OptionFits(r.text, r.did) && ToDid(r) == ParseDid(d))
  {
    hide ParsePrefix, ParseUrlPart, Print, PrintItems, PrintSegments, Faithful, WellFormed;
    var rest := Print(u);
    var s := d + rest;
    PrintStops(u);
    if "did:sov:" <= d && ':' in rest {
      SovRejectsColons(d, rest);
    } else {
      PrefixLocal(d, rest);
      if d == "" {
        RelativeHasNoPrefix(rest);
        assert s == rest;
      } else {
        PrefixRanges(d);
      }
      assert s[|d|..] == rest && s[..|d|] == d;
      PartComplete(u);
      RangesOfFaithful(s, |d|, PartOf(u));
      if d == "" { PartNonempty(u); }
    }
  }

  lemma PrintStops(u: Url)
    requires WellFormed(u)
    ensures Stops(Print(u))
  {
    hide Clean, PrintPair;
    if u.segments != [] {
      assert PrintSegments(u.segments)[0] == '/';
    }
  }

  lemma PartNonempty(u: Url)
    requires Print(u) != ""
    ensures PartOf(u) != UrlPart("", None, None)
  {}
}
