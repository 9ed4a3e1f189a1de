/**
  The part of a DID URL after the DID: path, query and fragment, as the nom
  combinators read it, against a printable grammar (section 3.2 of W3C DID Core
  1.0 over sections 3.3 to 3.5 of RFC 3986).  Where the code is stricter than
  the ABNF, the grammar here is the code's: segments, query and fragment are
  never empty when present, and a query is a list of `key=value`.
 */
module UrlGrammar {
  import opened Wrappers
  import opened DidGrammar

  datatype UrlPart = UrlPart(path: string, queries: Option<seq<(string, string)>>, fragment: Option<string>)

  predicate IsUnreserved(c: char) { IsAlphanumeric(c) || c == '-' || c == '.' || c == '_' || c == '~' }

  predicate IsSubDelim(c: char) {
    c == '!' || c == '$' || c == '&' || c == '\'' || c == '(' || c == ')' || c == '*' || c == '+' ||
    c == ',' || c == ';' || c == '='
  }

  /** A one-byte `pchar`; with `slashes` also the '/' and '?' of queries and fragments. */
  predicate IsPlain(c: char, slashes: bool) {
    IsUnreserved(c) || IsSubDelim(c) || c == ':' || c == '@' || (slashes && (c == '/' || c == '?'))
  }

  /** Length of the next element; zero when there is none. */
  function Element(s: string, slashes: bool): (n: nat)
    ensures n <= |s|
  {
    if s == "" then 0
    else if IsPlain(s[0], slashes) then 1
    else if PercentEncoded(s) then 3
    else 0
  }

  /** `many0(element)` */
  function Elements(s: string, slashes: bool): (n: nat)
    ensures n <= |s|
  {
    var k := Element(s, slashes);
    if k == 0 then 0 else k + Elements(s[k..], slashes)
  }

  /** What a run of elements is, position by position. */
  ghost predicate Clean(s: string, slashes: bool) {
    forall i :: 0 <= i < |s| ==> CleanAt(s, i, slashes)
  }

  predicate CleanAt(s: string, i: nat, slashes: bool)
    requires i < |s|
  {
    IsPlain(s[i], slashes) || (s[i] == '%' && PercentEncoded(s[i..]))
  }

  /** `many0(preceded("/", many1(pchar)))` */
  function Path(s: string): (n: nat)
    ensures n <= |s|
  {
    if !("/" <= s) then 0
    else
      var k := Elements(s[1..], false);
      if k == 0 then 0 else 1 + k + Path(s[1 + k..])
  }

  predicate IsKeyChar(c: char) { c != '=' && c != '&' && c != '#' }
  predicate IsValueChar(c: char) { c != '&' && c != '#' && c != '?' }
  predicate IsSeparator(c: char) { c == '&' || c == '?' }

  /** `query_key_value_pair`: the lengths of key and value. */
  function Pair(s: string): (r: Option<(nat, nat)>)
    ensures r.Some? ==> r.value.0 + 1 + r.value.1 <= |s|
  {
    var k := Span(s, IsKeyChar);
    if k == 0 || !("=" <= s[k..]) || Elements(s[..k], true) != k then None
    else
      var value := s[k + 1..];
      var v := Span(value, IsValueChar);
      if Elements(value[..v], true) != v then None else Some((k, v))
  }

  /** `separated_list0(one_of("&?"), pair)`, where a bad pair is a failure. */
  function Pairs(s: string): (r: Option<(seq<(string, string)>, nat)>)
    ensures r.Some? ==> r.value.1 <= |s|
  {
    var (k, v) :- Pair(s);
    var used := k + 1 + v;
    var first := (s[..k], s[k + 1..used]);
    if used < |s| && IsSeparator(s[used]) then
      var (more, n) :- Pairs(s[used + 1..]);
      Some(([first] + more, used + 1 + n))
    else Some(([first], used))
  }

  function Query(s: string): (r: Option<(Option<seq<(string, string)>>, nat)>)
    ensures r.Some? ==> r.value.1 <= |s|
  {
    if "?" <= s then
      var (pairs, n) :- Pairs(s[1..]);
      Some((Some(pairs), 1 + n))
    else Some((None, 0))
  }

  function Fragment(s: string): (r: Option<Option<string>>) {
    if "#" <= s then
      if |s| > 1 && Elements(s[1..], true) == |s| - 1 then Some(Some(s[1..])) else None
    else if s == "" then Some(None) else None
  }

  /** `all_consuming(parse_url_part)` */
  function ParseUrlPart(s: string): (r: Option<UrlPart>) {
    var p := Path(s);
    var (queries, q) :- Query(s[p..]);
    var fragment :- Fragment(s[p + q..]);
    Some(UrlPart(s[..p], queries, fragment))
  }

  // ---------------------------------------------------------------- grammar

  datatype Item = Item(separator: char, key: string, value: string)

  datatype Url = Url(segments: seq<string>, items: seq<Item>, fragment: Option<string>)

  function PrintSegments(segments: seq<string>): string {
    if segments == [] then "" else "/" + segments[0] + PrintSegments(segments[1..])
  }

  function PrintPair(item: Item): (s: string)
    ensures |s| == |item.key| + 1 + |item.value|
    ensures s[..|item.key|] == item.key && s[|item.key| + 1..] == item.value && s[|item.key|] == '='
  {
    item.key + "=" + item.value
  }

  function PrintItems(items: seq<Item>): (s: string)
    ensures items != [] ==> |s| > 0 && s[0] == items[0].separator
    ensures items == [] ==> s == ""
  {
    if items == [] then ""
    else [items[0].separator] + (PrintPair(items[0]) + PrintItems(items[1..]))
  }

  function PrintFragment(fragment: Option<string>): string {
    match fragment case None => "" case Some(f) => "#" + f
  }

  function Print(u: Url): string {
    PrintSegments(u.segments) + PrintItems(u.items) + PrintFragment(u.fragment)
  }

  ghost predicate WellFormedItem(item: Item) {
    && IsSeparator(item.separator)
    && item.key != "" && Clean(item.key, true) && (forall i :: 0 <= i < |item.key| ==> IsKeyChar(item.key[i]))
    && Clean(item.value, true) && (forall i :: 0 <= i < |item.value| ==> IsValueChar(item.value[i]))
  }

  ghost predicate WellFormedSegments(segments: seq<string>) {
    forall i :: 0 <= i < |segments| ==> segments[i] != "" && Clean(segments[i], false)
  }

  ghost predicate WellFormedItems(items: seq<Item>) {
    forall i :: 0 <= i < |items| ==> WellFormedItem(items[i])
  }

  ghost predicate WellFormed(u: Url) {
    && WellFormedSegments(u.segments)
    && WellFormedItems(u.items)
    && (u.items != [] ==> u.items[0].separator == '?')
    && (u.fragment.Some? ==> u.fragment.value != "" && Clean(u.fragment.value, true))
  }

  function PairsOf(items: seq<Item>): (ps: seq<(string, string)>)
    ensures |ps| == |items|
  {
    if items == [] then [] else [(items[0].key, items[0].value)] + PairsOf(items[1..])
  }

  function PartOf(u: Url): UrlPart {
    UrlPart(PrintSegments(u.segments), if u.items == [] then None else Some(PairsOf(u.items)), u.fragment)
  }

  /** The character classes, written out. */
  lemma CharacterSets(c: char)
    ensures IsPlain(c, false) <==>
      'a' <= c <= 'z' || 'A' <= c <= 'Z' || '0' <= c <= '9' || c in "-._~" || c in "!$&'()*+,;=" || c == ':' || c == '@'
    ensures IsPlain(c, true) <==> IsPlain(c, false) || c == '/' || c == '?'
    ensures IsKeyChar(c) <==> c !in "=&#"
    ensures IsValueChar(c) <==> c !in "&#?"
    ensures IsSeparator(c) <==> c in "&?"
    ensures PercentEncoded(['%', c, c]) <==> '0' <= c <= '9' || 'a' <= c <= 'f' || 'A' <= c <= 'F'
  {}

  // ---------------------------------------------------------------- elements

  lemma {:induction false} ElementsClean(s: string, slashes: bool)
    ensures Elements(s, slashes) == |s| <==> Clean(s, slashes)
    decreases |s|
  {
    var k := Element(s, slashes);
    if s == "" {
    } else if k == 0 {
      assert s[0..] == s;
      assert !CleanAt(s, 0, slashes);
    } else {
      ElementsClean(s[k..], slashes);
      CleanTail(s, k, slashes);
    }
  }

  /** The next element is clean by itself. */
  lemma HeadIsClean(s: string, i: nat, slashes: bool)
    requires i < Element(s, slashes)
    ensures CleanAt(s, i, slashes)
  {
    if i == 0 { assert s[0..] == s; }
  }

  lemma CleanAtShift(s: string, k: nat, i: nat, slashes: bool)
    requires k + i < |s|
    ensures CleanAt(s[k..], i, slashes) <==> CleanAt(s, k + i, slashes)
  {
    assert s[k..][i..] == s[k + i..];
  }

  lemma CleanTail(s: string, k: nat, slashes: bool)
    requires k == Element(s, slashes) > 0
    ensures Clean(s, slashes) <==> Clean(s[k..], slashes)
  {
    hide CleanAt, Element;
    forall i | 0 <= i < |s[k..]| ensures CleanAt(s[k..], i, slashes) <==> CleanAt(s, k + i, slashes) {
      CleanAtShift(s, k, i, slashes);
    }
    if Clean(s[k..], slashes) {
      forall i | 0 <= i < |s| ensures CleanAt(s, i, slashes) {
        if i < k { HeadIsClean(s, i, slashes); } else { assert CleanAt(s[k..], i - k, slashes); }
      }
    }
  }

  lemma ElementLocal(a: string, rest: string)
    requires Stops(rest)
    ensures Element(a + rest, false) == Element(a, false)
    ensures Clean(a, false) && a != "" ==> Element(a, false) > 0
  {
    var s := a + rest;
    assert forall i :: 0 <= i < |a| ==> s[i] == a[i];
    if rest != "" { assert s[|a|] == rest[0]; }
    assert PercentEncoded(s) <==> PercentEncoded(a);
    if a != "" {
      assert a[0..] == a;
      assert Clean(a, false) ==> CleanAt(a, 0, false);
    }
  }

  /** A clean text followed by a delimiter is read up to the delimiter. */
  lemma {:induction false} SegmentStops(a: string, rest: string)
    requires Clean(a, false) && Stops(rest)
    ensures Elements(a + rest, false) == |a|
    decreases |a|
  {
    hide Element, Clean;
    ElementLocal(a, rest);
    if a != "" {
      var k := Element(a, false);
      CleanTail(a, k, false);
      SegmentStops(a[k..], rest);
      assert (a + rest)[k..] == a[k..] + rest;
    }
  }

  /** Path elements never swallow a delimiter. */
  lemma {:induction false} ElementsPrefixClean(s: string, slashes: bool)
    ensures Clean(s[..Elements(s, slashes)], slashes)
    decreases |s|
  {
    var k := Element(s, slashes);
    if k > 0 {
      var t := s[..Elements(s, slashes)];
      ElementsPrefixClean(s[k..], slashes);
      assert t[k..] == s[k..][..Elements(s[k..], slashes)];
      assert Element(t, slashes) == k;
      CleanTail(t, k, slashes);
    }
  }

  // ------------------------------------------------- everything printed is read

  lemma {:induction false} PathComplete(segments: seq<string>, rest: string)
    requires WellFormedSegments(segments)
    requires rest == "" || (IsDelimiter(rest[0]) && rest[0] != '/')
    ensures Path(PrintSegments(segments) + rest) == |PrintSegments(segments)|
    decreases |segments|
  {
    hide Elements, Clean;
    var s := PrintSegments(segments) + rest;
    if segments == [] {
      assert s == rest;
    } else {
      var more := PrintSegments(segments[1..]) + rest;
      assert s == "/" + segments[0] + more;
      assert s[1..] == segments[0] + more;
      SegmentStops(segments[0], more);
      PathComplete(segments[1..], rest);
      assert s[1 + |segments[0]|..] == more;
    }
  }

  lemma SpanOf(a: string, rest: string, p: char -> bool)
    requires forall i :: 0 <= i < |a| ==> p(a[i])
    requires rest == "" || !p(rest[0])
    ensures Span(a + rest, p) == |a|
  {
    SpanLocal(a, rest, p);
  }

  lemma PairComplete(item: Item, rest: string)
    requires WellFormedItem(item)
    requires rest == "" || !IsValueChar(rest[0])
    ensures Pair(PrintPair(item) + rest) == Some((|item.key|, |item.value|))
  {
    hide Elements, Clean, Span;
    PairPieces(item, rest);
    SpanOf(item.key, "=" + (item.value + rest), IsKeyChar);
    SpanOf(item.value, rest, IsValueChar);
    ElementsClean(item.key, true);
    ElementsClean(item.value, true);
  }

  lemma PairPieces(item: Item, rest: string)
    ensures var s, k := PrintPair(item) + rest, |item.key|;
            && s == item.key + ("=" + (item.value + rest)) && s[..k] == item.key
            && s[k..] == "=" + (item.value + rest) && s[k + 1..] == item.value + rest
            && (item.value + rest)[..|item.value|] == item.value
  {}

  /** One pair is read and the reader stands at `after`. */
  lemma PairsRead(item: Item, after: string)
    requires WellFormedItem(item)
    requires after == "" || after[0] == '#' || IsSeparator(after[0])
    ensures Pairs(PrintPair(item) + after) ==
            if after != "" && IsSeparator(after[0]) then
              match Pairs(after[1..])
              case None => None
              case Some((more, n)) => Some(([(item.key, item.value)] + more, |PrintPair(item)| + 1 + n))
            else Some(([(item.key, item.value)], |PrintPair(item)|))
  {
    hide Pair, WellFormedItem, PrintPair;
    var s := PrintPair(item) + after;
    PairComplete(item, after);
    var k, used := |item.key|, |PrintPair(item)|;
    assert s[..k] == PrintPair(item)[..k] && s[k + 1..used] == PrintPair(item)[k + 1..];
    if after != "" {
      assert s[used] == after[0] && s[used + 1..] == after[1..];
    }
  }

  lemma {:induction false} PrintItemsTail(items: seq<Item>, rest: string)
    requires items != []
    ensures PrintItems(items)[1..] + rest == PrintPair(items[0]) + (PrintItems(items[1..]) + rest)
    ensures |PrintItems(items)| == 1 + |PrintPair(items[0])| + |PrintItems(items[1..])|
  {
    hide PrintPair;
    Regroup([items[0].separator], PrintPair(items[0]), PrintItems(items[1..]), rest);
  }

  lemma Regroup(a: string, b: string, c: string, rest: string)
    ensures (a + (b + c))[|a|..] + rest == b + (c + rest)
  {
    assert (a + (b + c))[|a|..] == b + c;
  }

  lemma {:induction false} PairsComplete(items: seq<Item>, rest: string)
    requires items != [] && WellFormedItems(items)
    requires rest == "" || rest[0] == '#'
    ensures Pairs(PrintItems(items)[1..] + rest) == Some((PairsOf(items), |PrintItems(items)| - 1))
    decreases |items|
  {
    hide Pairs, Clean, PrintPair, PrintItems;
    var more := items[1..];
    var after := PrintItems(more) + rest;
    PrintItemsTail(items, rest);
    if more != [] {
      PairsComplete(more, rest);
      assert after[1..] == PrintItems(more)[1..] + rest;
      assert WellFormedItem(more[0]);
    } else {
      assert after == rest;
      assert PairsOf(items) == [(items[0].key, items[0].value)];
    }
    PairsRead(items[0], after);
  }

  lemma QueryComplete(items: seq<Item>, rest: string)
    requires WellFormedItems(items)
    requires items != [] ==> items[0].separator == '?'
    requires rest == "" || rest[0] == '#'
    ensures Query(PrintItems(items) + rest) == Some((if items == [] then None else Some(PairsOf(items)), |PrintItems(items)|))
    ensures items != [] ==> |PrintItems(items)| > 0 && PrintItems(items)[0] == '?'
  {
    hide Pairs, WellFormedItem;
    if items == [] {
      assert PrintItems(items) + rest == rest;
    } else {
      PairsComplete(items, rest);
      assert (PrintItems(items) + rest)[1..] == PrintItems(items)[1..] + rest;
    }
  }

  lemma FragmentComplete(fragment: Option<string>)
    requires fragment.Some? ==> fragment.value != "" && Clean(fragment.value, true)
    ensures Fragment(PrintFragment(fragment)) == Some(fragment)
  {
    hide Elements, Clean;
    if fragment.Some? {
      ElementsClean(fragment.value, true);
      assert PrintFragment(fragment)[1..] == fragment.value;
    }
  }

  /** Printing a well-formed URL part and reading it returns exactly its parts. */
  lemma PartComplete(u: Url)
    requires WellFormed(u)
    ensures ParseUrlPart(Print(u)) == Some(PartOf(u))
  {
    hide Query, Fragment, Path, PrintItems, PrintSegments, WellFormedItems, WellFormedSegments, Clean;
    var path, query, fragment := PrintSegments(u.segments), PrintItems(u.items), PrintFragment(u.fragment);
    var s := Print(u);
    FragmentComplete(u.fragment);
    QueryComplete(u.items, fragment);
    PathComplete(u.segments, query + fragment);
    assert s == path + (query + fragment);
    assert s[|path|..] == query + fragment;
    assert s[..|path|] == path;
    assert s[|path| + |query|..] == fragment;
  }

  // ------------------------------------------------- everything read was printed

  lemma {:induction false} PathSound(s: string) returns (segments: seq<string>)
    ensures WellFormedSegments(segments)
    ensures PrintSegments(segments) == s[..Path(s)]
    decreases |s|
  {
    hide Elements, Clean;
    if Path(s) == 0 {
      segments := [];
    } else {
      var k := Elements(s[1..], false);
      ElementsPrefixClean(s[1..], false);
      var more := PathSound(s[1 + k..]);
      var first := s[1..][..k];
      segments := [first] + more;
      assert segments[1..] == more;
      assert s[..Path(s)] == "/" + first + s[1 + k..][..Path(s[1 + k..])];
    }
  }

  lemma PairSound(s: string, separator: char) returns (item: Item)
    requires Pair(s).Some? && IsSeparator(separator)
    ensures WellFormedItem(item) && item.separator == separator
    ensures item.key == s[..Pair(s).value.0]
    ensures item.value == s[Pair(s).value.0 + 1..Pair(s).value.0 + 1 + Pair(s).value.1]
    ensures PrintPair(item) == s[..Pair(s).value.0 + 1 + Pair(s).value.1]
  {
    hide Elements, Clean;
    var (k, v) := Pair(s).value;
    item := Item(separator, s[..k], s[k + 1..][..v]);
    ElementsClean(item.key, true);
    ElementsClean(item.value, true);
  }

  lemma {:induction false} PairsSound(s: string, separator: char) returns (items: seq<Item>)
    requires Pairs(s).Some? && IsSeparator(separator)
    ensures items != [] && WellFormedItems(items) && items[0].separator == separator
    ensures PairsOf(items) == Pairs(s).value.0
    ensures PrintItems(items) == [separator] + s[..Pairs(s).value.1]
    decreases |s|
  {
    hide Pair, WellFormedItem, PrintPair, PrintItems, PairsOf;
    var item := PairSound(s, separator);
    var (k, v) := Pair(s).value;
    var used := k + 1 + v;
    if used < |s| && IsSeparator(s[used]) {
      var more := PairsSound(s[used + 1..], s[used]);
      items := [item] + more;
      ItemsCons(item, more);
      CutAround(s, used, Pairs(s[used + 1..]).value.1);
    } else {
      items := [item];
      ItemsCons(item, []);
    }
  }

  lemma {:induction false} ItemsCons(item: Item, more: seq<Item>)
    ensures PairsOf([item] + more) == [(item.key, item.value)] + PairsOf(more)
    ensures PrintItems([item] + more) == [item.separator] + (PrintPair(item) + PrintItems(more))
    ensures more == [] ==> [item] + more == [item] && PrintPair(item) + PrintItems(more) == PrintPair(item)
  {
    assert ([item] + more)[1..] == more;
  }

  lemma CutAround(s: string, used: nat, n: nat)
    requires used + 1 + n <= |s|
    ensures s[..used + 1 + n] == s[..used] + ([s[used]] + s[used + 1..][..n])
  {}

  lemma QuerySound(s: string) returns (items: seq<Item>)
    requires Query(s).Some?
    ensures WellFormedItems(items) && (items != [] ==> items[0].separator == '?')
    ensures PrintItems(items) == s[..Query(s).value.1]
    ensures Query(s).value.0 == if items == [] then None else Some(PairsOf(items))
  {
    hide Pairs, WellFormedItem, PairsOf;
    if "?" <= s {
      items := PairsSound(s[1..], '?');
      assert s[..Query(s).value.1] == "?" + s[1..][..Query(s).value.1 - 1];
    } else {
      items := [];
    }
  }

  /** Whatever is accepted is the print of a well-formed URL part with those parts. */
  lemma PartSound(s: string) returns (u: Url)
    requires ParseUrlPart(s).Some?
    ensures WellFormed(u) && Print(u) == s && PartOf(u) == ParseUrlPart(s).value
  {
    hide Path, Query, WellFormedSegments, WellFormedItems, Elements, Clean, PairsOf, PrintSegments, PrintItems, Fragment;
    var p := Path(s);
    var segments := PathSound(s);
    var items := QuerySound(s[p..]);
    var q := Query(s[p..]).value.1;
    var tail := s[p..][q..];
    var fragment := FragmentSound(tail);
    u := Url(segments, items, fragment);
    assert s[p..] == s[p..][..q] + tail && s == s[..p] + s[p..];
    Associate(s[..p], s[p..][..q], tail);
  }

  lemma FragmentSound(t: string) returns (fragment: Option<string>)
    requires Fragment(t).Some?
    ensures fragment == Fragment(t).value && PrintFragment(fragment) == t
    ensures fragment.Some? ==> fragment.value != "" && Clean(fragment.value, true)
  {
    hide Elements, Clean;
    fragment := Fragment(t).value;
    if fragment.Some? { ElementsClean(fragment.value, true); }
  }

  lemma Associate(a: string, b: string, c: string)
    ensures a + b + c == a + (b + c)
  {}
}
