/**
  Credential values arrive as JSON: an object of strings, an object of
  one-element arrays, or a list of name/value objects.  They are encoded into one
  dictionary, and offered beforehand as a preview.
 */
module CredentialValues {
  import opened Wrappers

  datatype Json =
    | Null
    | Bool(b: bool)
    | Number(text: string)
    | Str(s: string)
    | Arr(items: seq<Json>)
    | Obj(fields: map<string, Json>)
  {
    function Get(key: string): Option<Json> {
      if Obj? && key in fields then Some(fields[key]) else None
    }
  }

  datatype Error = InvalidJson | InvalidAttributesStructure | InvalidOption

  /** SHA-256 read as a big-endian number: foreign code. */
  type Digest = string -> nat

  datatype Entry = Entry(raw: string, encoded: string)
  datatype Attr = Attr(name: string, value: string)

  // ----------------------------------------------------------- encoding a value

  predicate IsDigit(c: char) { '0' <= c <= '9' }

  predicate AllDigits(s: string) { forall i :: 0 <= i < |s| ==> IsDigit(s[i]) }

  function Decimal(n: nat): (s: string)
    ensures s != [] && forall i :: 0 <= i < |s| ==> IsDigit(s[i])
    ensures NumberOf(s) == n
    ensures n == 0 ==> s == "0"
    ensures n > 0 ==> s[0] != '0'
  {
    var last := [('0' as int + n % 10) as char];
    if n < 10 then assert last[..0] == []; last
    else
      var s := Decimal(n / 10);
      assert (s + last)[..|s|] == s;
      s + last
  }

  function NumberOf(s: string): nat
    requires forall i :: 0 <= i < |s| ==> IsDigit(s[i])
  {
    if s == [] then 0 else assert IsDigit(s[|s| - 1]); 10 * NumberOf(s[..|s| - 1]) + (s[|s| - 1] as int - '0' as int)
  }

  const U32: nat := 0x1_0000_0000

  /** `str::parse::<u32>`: an optional plus sign and at least one digit, below 2^32. */
  function ParseU32(s: string): (r: Option<nat>)
    ensures r.Some? ==> r.value < U32
  {
    var digits := if s != [] && s[0] == '+' then s[1..] else s;
    if digits != [] && AllDigits(digits) && NumberOf(digits) < U32
    then Some(NumberOf(digits)) else None
  }

  function Encode(digest: Digest, s: string): string {
    match ParseU32(s)
    case Some(n) => Decimal(n)
    case None => Decimal(digest(s))
  }

  lemma ParseDecimal(n: nat)
    ensures ParseU32(Decimal(n)) == if n < U32 then Some(n) else None
  {
    assert IsDigit(Decimal(n)[0]);
  }

  /** Texts of 32-bit numbers keep their number, so encoding them again changes nothing. */
  lemma EncodeNumber(digest: Digest, s: string, t: string)
    requires ParseU32(s).Some?
    ensures ParseU32(Encode(digest, s)) == ParseU32(s)
    ensures Encode(digest, Encode(digest, s)) == Encode(digest, s)
    ensures ParseU32(t).Some? ==> (Encode(digest, s) == Encode(digest, t) <==> ParseU32(s) == ParseU32(t))
  {
    ParseDecimal(ParseU32(s).value);
    if ParseU32(t).Some? { ParseDecimal(ParseU32(t).value); }
  }

  /** Any other text becomes the decimal text of its digest. */
  lemma EncodeOther(digest: Digest, s: string)
    requires ParseU32(s).None?
    ensures Encode(digest, s) == Decimal(digest(s))
    ensures ParseU32(Encode(digest, s)) == if digest(s) < U32 then Some(digest(s)) else None
  {
    ParseDecimal(digest(s));
  }

  /** The plain decimal text of a number stays as it is below 2^32, and is digested from there on. */
  lemma EncodeDecimal(digest: Digest, n: nat)
    ensures n < 0x1_0000_0000 ==> Encode(digest, Decimal(n)) == Decimal(n)
    ensures n >= 0x1_0000_0000 ==> Encode(digest, Decimal(n)) == Decimal(digest(Decimal(n)))
  {
    ParseDecimal(n);
  }

  function Zeros(z: nat): string { seq(z, _ => '0') }

  /** `s` is a number below 2^32 in digits, with any number of zeros and perhaps a plus sign before it. */
  ghost predicate SpellsU32(s: string, n: nat) {
    n < 0x1_0000_0000 && exists z: nat :: s == Zeros(z) + Decimal(n) || s == "+" + (Zeros(z) + Decimal(n))
  }

  lemma {:induction false} ZerosCountNothing(z: nat, t: string)
    requires forall i :: 0 <= i < |t| ==> IsDigit(t[i])
    ensures NumberOf(Zeros(z) + t) == NumberOf(t)
    decreases z + |t|
  {
    var whole := Zeros(z) + t;
    if t != [] {
      ZerosCountNothing(z, t[..|t| - 1]);
      assert whole[..|whole| - 1] == Zeros(z) + t[..|t| - 1];
    } else if z > 0 {
      ZerosCountNothing(z - 1, []);
      assert whole[..z - 1] == Zeros(z - 1) + [];
    } else {
      assert whole == t;
    }
  }

  /** A digit text is the decimal text of its number after some zeros. */
  lemma {:induction false} DigitsAre(t: string) returns (z: nat)
    requires t != [] && forall i :: 0 <= i < |t| ==> IsDigit(t[i])
    ensures t == Zeros(z) + Decimal(NumberOf(t))
  {
    hide Decimal, NumberOf, Zeros;
    var front, last := t[..|t| - 1], t[|t| - 1];
    assert t == front + [last] && IsDigit(last);
    NumberOfLast(t);
    if front == [] {
      z := 0;
      DecimalDigit(last);
      ZerosNext(0, t);
    } else {
      z := DigitsAre(front);
      var n := NumberOf(front);
      DecimalNext(n, last);
      if n == 0 {
        ZerosNext(z, [last]);
        z := z + 1;
      } else {
        assert Zeros(z) + Decimal(n) + [last] == Zeros(z) + (Decimal(n) + [last]);
      }
    }
  }

  lemma NumberOfLast(t: string)
    requires t != [] && forall i :: 0 <= i < |t| ==> IsDigit(t[i])
    ensures NumberOf(t) == 10 * NumberOf(t[..|t| - 1]) + (t[|t| - 1] as int - '0' as int)
    ensures NumberOf([]) == 0
  {
    assert IsDigit(t[|t| - 1]);
  }

  lemma {:induction false} DecimalDigit(c: char)
    requires IsDigit(c)
    ensures Decimal(c as int - '0' as int) == [c]
  {
    hide NumberOf;
    var d: nat := c as int - '0' as int;
    assert d < 10 && d % 10 == d;
  }

  lemma {:induction false} DecimalNext(n: nat, c: char)
    requires IsDigit(c)
    ensures Decimal(10 * n + (c as int - '0' as int)) == if n == 0 then [c] else Decimal(n) + [c]
    ensures Decimal(0) == "0"
  {
    if n > 0 { assert (10 * n + (c as int - '0' as int)) / 10 == n; }
  }

  lemma ZerosNext(z: nat, t: string)
    ensures Zeros(0) + t == t && Zeros(z) + "0" + t == Zeros(z + 1) + t
  {}

  /** The text after a plus sign, if there is one. */
  function Unsigned(s: string): string { if s != [] && s[0] == '+' then s[1..] else s }

  lemma ParseUnsigned(s: string)
    ensures ParseU32(s) ==
      if Unsigned(s) != [] && AllDigits(Unsigned(s)) && NumberOf(Unsigned(s)) < 0x1_0000_0000
      then Some(NumberOf(Unsigned(s))) else None
  {
    hide NumberOf;
  }

  lemma ZerosAreDigits(z: nat, t: string)
    requires AllDigits(t) && t != []
    ensures AllDigits(Zeros(z) + t) && Zeros(z) + t != [] && (Zeros(z) + t)[0] != '+'
  {
    var whole := Zeros(z) + t;
    forall i | 0 <= i < |whole| ensures IsDigit(whole[i]) {
      assert whole[i] == if i < z then '0' else t[i - z];
    }
    assert IsDigit(whole[0]);
  }

  lemma ParsesSpelled(s: string, n: nat)
    requires SpellsU32(s, n)
    ensures ParseU32(s) == Some(n)
  {
    hide Decimal, NumberOf, Zeros, ParseU32;
    var z: nat :| s == Zeros(z) + Decimal(n) || s == "+" + (Zeros(z) + Decimal(n));
    ZerosAreDigits(z, Decimal(n));
    ZerosCountNothing(z, Decimal(n));
    assert Unsigned(s) == Zeros(z) + Decimal(n);
    ParseUnsigned(s);
  }

  lemma ParsedIsSpelled(s: string)
    ensures ParseU32(s).Some? ==> SpellsU32(s, ParseU32(s).value)
  {
    hide Decimal, NumberOf, Zeros, ParseU32;
    ParseUnsigned(s);
    if ParseU32(s).Some? {
      var digits := Unsigned(s);
      var z := DigitsAre(digits);
      assert s == digits || s == "+" + digits;
    }
  }

  /** Exactly the texts of 32-bit numbers become their plain decimal text; every other text is digested. */
  lemma EncodeExactly(digest: Digest, s: string, n: nat)
    ensures SpellsU32(s, n) ==> Encode(digest, s) == Decimal(n)
    ensures (forall k: nat :: !SpellsU32(s, k)) ==> Encode(digest, s) == Decimal(digest(s))
  {
    if SpellsU32(s, n) { ParsesSpelled(s, n); }
    ParsedIsSpelled(s);
  }

  // ------------------------------------------------------------- what is asked

  predicate IsAttr(item: Json) {
    item.Get("name").Some? && item.Get("name").value.Str? && item.Get("value").Some? && item.Get("value").value.Str?
  }

  function AttrOf(item: Json): Attr
    requires IsAttr(item)
  {
    Attr(item.Get("name").value.s, item.Get("value").value.s)
  }

  predicate AllAttrs(items: seq<Json>) { forall i :: 0 <= i < |items| ==> IsAttr(items[i]) }

  function Attrs(items: seq<Json>): (attrs: seq<Attr>)
    requires AllAttrs(items)
    ensures |attrs| == |items| && forall i :: 0 <= i < |items| ==> attrs[i] == AttrOf(items[i])
  {
    seq(|items|, i requires 0 <= i < |items| => AttrOf(items[i]))
  }

  /** A field is a string, or an array whose first element is one. */
  function FieldText(v: Json): Result<string, Error> {
    match v
    case Str(s) => Ok(s)
    case Arr(items) => if items != [] && items[0].Str? then Ok(items[0].s) else Err(InvalidAttributesStructure)
    case _ => Err(InvalidJson)
  }

  /** Later attributes of a name replace earlier ones. */
  function Dictionary(digest: Digest, attrs: seq<Attr>): map<string, Entry> {
    if attrs == [] then map[]
    else
      var n := |attrs| - 1;
      Dictionary(digest, attrs[..n])[attrs[n].name := Entry(attrs[n].value, Encode(digest, attrs[n].value))]
  }

  /** The results `encode_attributes` may give; a hash map's order decides which of several errors is met. */
  ghost predicate Encoded(digest: Digest, text: Option<Json>, r: Result<map<string, Entry>, Error>) {
    match text
    case Some(Obj(fields)) =>
      if forall k :: k in fields ==> FieldText(fields[k]).Ok? then
        r.Ok? && r.value.Keys == fields.Keys &&
        forall k :: k in fields ==>
          var raw := FieldText(fields[k]).value;
          r.value[k] == Entry(raw, Encode(digest, raw))
      else
        r.Err? && exists k :: k in fields && FieldText(fields[k]) == Err(r.error)
    case Some(Arr(items)) =>
      r == if AllAttrs(items) then Ok(Dictionary(digest, Attrs(items))) else Err(InvalidAttributesStructure)
    case _ => r == Err(InvalidAttributesStructure)
  }

  /** `attrs` lists the fields named in `done` once each, in whatever order. */
  ghost predicate Lists(attrs: seq<Attr>, fields: map<string, Json>, done: set<string>) {
    && done <= fields.Keys
    && DistinctNames(attrs)
    && (forall i :: 0 <= i < |attrs| ==> attrs[i].name in done && fields[attrs[i].name] == Str(attrs[i].value))
    && (forall k :: k in done ==> Named(attrs, k))
  }

  ghost predicate Named(attrs: seq<Attr>, name: string) {
    exists i :: 0 <= i < |attrs| && attrs[i].name == name
  }

  ghost predicate DistinctNames(attrs: seq<Attr>) {
    forall i, j :: 0 <= i < j < |attrs| ==> attrs[i].name != attrs[j].name
  }

  function PreviewItemError(item: Json): Error {
    if item.Get("name").None? || item.Get("value").None? then InvalidAttributesStructure else InvalidOption
  }

  /** The results `_build_credential_preview` may give. */
  ghost predicate Previewed(text: Option<Json>, r: Result<seq<Attr>, Error>) {
    match text
    case None => r == Err(InvalidJson)
    case Some(Arr(items)) =>
      if AllAttrs(items) then r == Ok(Attrs(items))
      else exists i :: 0 <= i < |items| && AllAttrs(items[..i]) && !IsAttr(items[i]) && r == Err(PreviewItemError(items[i]))
    case Some(Obj(fields)) =>
      if forall k :: k in fields ==> fields[k].Str? then r.Ok? && Lists(r.value, fields, fields.Keys)
      else r == Err(InvalidOption)
    case Some(_) => r == Ok([])
  }

  // ------------------------------------------------------------- implementation

  method EncodeFields(digest: Digest, fields: map<string, Json>) returns (r: Result<map<string, Entry>, Error>)
    ensures Encoded(digest, Some(Obj(fields)), r)
  {
    var dictionary: map<string, Entry> := map[];
    var left := fields.Keys;
    while left != {}
      invariant left <= fields.Keys && dictionary.Keys == fields.Keys - left
      invariant forall k :: k in dictionary ==> FieldText(fields[k]).Ok?
      invariant forall k :: k in dictionary ==>
        var raw := FieldText(fields[k]).value; dictionary[k] == Entry(raw, Encode(digest, raw))
      decreases |left|
    {
      var k :| k in left;
      var raw := FieldText(fields[k]);
      if raw.Err? { return Err(raw.error); }
      dictionary := dictionary[k := Entry(raw.value, Encode(digest, raw.value))];
      left := left - {k};
    }
    assert forall k :: k in fields ==> k in dictionary;
    r := Ok(dictionary);
  }

  method EncodeItems(digest: Digest, items: seq<Json>) returns (r: Result<map<string, Entry>, Error>)
    ensures Encoded(digest, Some(Arr(items)), r)
  {
    hide Encode, Dictionary;
    var dictionary: map<string, Entry> := map[];
    DictionaryNone(digest, Attrs([]));
    var i := 0;
    while i < |items|
      invariant 0 <= i <= |items| && AllAttrs(items[..i])
      invariant dictionary == Dictionary(digest, Attrs(items[..i]))
    {
      var name, value := items[i].Get("name"), items[i].Get("value");
      if name.None? || value.None? || !value.value.Str? || !name.value.Str? {
        assert !IsAttr(items[i]);
        return Err(InvalidAttributesStructure);
      }
      DictionaryNext(digest, items, i);
      dictionary := dictionary[name.value.s := Entry(value.value.s, Encode(digest, value.value.s))];
      i := i + 1;
    }
    assert items[..i] == items;
    r := Ok(dictionary);
  }

  lemma DictionaryNone(digest: Digest, attrs: seq<Attr>)
    requires attrs == []
    ensures Dictionary(digest, attrs) == map[]
  {}

  lemma {:induction false} DictionaryNext(digest: Digest, items: seq<Json>, i: nat)
    requires i < |items| && AllAttrs(items[..i]) && IsAttr(items[i])
    ensures AllAttrs(items[..i + 1])
    ensures var a := AttrOf(items[i]);
      Dictionary(digest, Attrs(items[..i + 1])) == Dictionary(digest, Attrs(items[..i]))[a.name := Entry(a.value, Encode(digest, a.value))]
  {
    hide Encode, IsAttr, AttrOf, Dictionary;
    AttrsNext(items, i);
    DictionaryLast(digest, Attrs(items[..i]), AttrOf(items[i]));
  }

  lemma AttrsNext(items: seq<Json>, i: nat)
    requires i < |items| && AllAttrs(items[..i]) && IsAttr(items[i])
    ensures AllAttrs(items[..i + 1]) && Attrs(items[..i + 1]) == Attrs(items[..i]) + [AttrOf(items[i])]
  {
    hide IsAttr, AttrOf;
    assert items[..i + 1] == items[..i] + [items[i]];
  }

  lemma {:induction false} DictionaryLast(digest: Digest, attrs: seq<Attr>, a: Attr)
    ensures Dictionary(digest, attrs + [a]) == Dictionary(digest, attrs)[a.name := Entry(a.value, Encode(digest, a.value))]
  {
    hide Encode;
    assert (attrs + [a])[..|attrs|] == attrs;
  }

  method EncodeAttributes(digest: Digest, text: Option<Json>) returns (r: Result<map<string, Entry>, Error>)
    ensures Encoded(digest, text, r)
  {
    match text
    case Some(Obj(fields)) => r := EncodeFields(digest, fields);
    case Some(Arr(items)) => r := EncodeItems(digest, items);
    case _ => r := Err(InvalidAttributesStructure);
  }

  method PreviewItems(items: seq<Json>) returns (r: Result<seq<Attr>, Error>)
    ensures Previewed(Some(Arr(items)), r)
  {
    var attributes: seq<Attr> := [];
    var i := 0;
    while i < |items|
      invariant 0 <= i <= |items| && AllAttrs(items[..i])
      invariant attributes == Attrs(items[..i])
    {
      var key, value := items[i].Get("name"), items[i].Get("value");
      if key.None? || value.None? { return Err(InvalidAttributesStructure); }
      if !key.value.Str? || !value.value.Str? { return Err(InvalidOption); }
      attributes := attributes + [Attr(key.value.s, value.value.s)];
      i := i + 1;
      assert attributes == Attrs(items[..i]);
    }
    assert items[..i] == items;
    r := Ok(attributes);
  }

  method PreviewFields(fields: map<string, Json>) returns (r: Result<seq<Attr>, Error>)
    ensures Previewed(Some(Obj(fields)), r)
  {
    var attributes: seq<Attr> := [];
    var left := fields.Keys;
    while left != {}
      invariant left <= fields.Keys && Lists(attributes, fields, fields.Keys - left)
      decreases |left|
    {
      var k :| k in left;
      if !fields[k].Str? { return Err(InvalidOption); }
      assert Lists(attributes + [Attr(k, fields[k].s)], fields, fields.Keys - (left - {k})) by {
        assert fields.Keys - (left - {k}) == (fields.Keys - left) + {k};
        ListsNext(attributes, fields, fields.Keys - left, k);
      }
      attributes := attributes + [Attr(k, fields[k].s)];
      left := left - {k};
    }
    assert fields.Keys - left == fields.Keys;
    assert forall k :: k in fields ==> fields[k].Str? by { ListedAreStrings(attributes, fields); }
    r := Ok(attributes);
  }

  lemma ListsNext(attrs: seq<Attr>, fields: map<string, Json>, done: set<string>, k: string)
    requires Lists(attrs, fields, done) && k in fields && k !in done && fields[k].Str?
    ensures Lists(attrs + [Attr(k, fields[k].s)], fields, done + {k})
  {
    var after := attrs + [Attr(k, fields[k].s)];
    forall q | q in done + {k} ensures Named(after, q) {
      if q == k {
        assert after[|attrs|].name == k;
      } else {
        var i :| 0 <= i < |attrs| && attrs[i].name == q;
        assert after[i].name == q;
      }
    }
  }

  lemma ListedAreStrings(attrs: seq<Attr>, fields: map<string, Json>)
    requires Lists(attrs, fields, fields.Keys)
    ensures forall k :: k in fields ==> fields[k].Str?
  {
    forall k | k in fields ensures fields[k].Str? {
      var i :| 0 <= i < |attrs| && attrs[i].name == k;
      assert fields[attrs[i].name] == Str(attrs[i].value);
    }
  }

  method BuildCredentialPreview(text: Option<Json>) returns (r: Result<seq<Attr>, Error>)
    ensures Previewed(text, r)
  {
    match text
    case None => r := Err(InvalidJson);
    case Some(Arr(items)) => r := PreviewItems(items);
    case Some(Obj(fields)) => r := PreviewFields(fields);
    case Some(_) => r := Ok([]);
  }

  // ------------------------------------------------------- preview and encoding

  /** The value that stands for `name`: that of its last attribute. */
  ghost predicate IsLast(attrs: seq<Attr>, name: string, value: string) {
    exists i :: 0 <= i < |attrs| && attrs[i] == Attr(name, value)
      && forall j :: i < j < |attrs| ==> attrs[j].name != name
  }

  /** What a dictionary made from a list of attributes must hold. */
  ghost predicate Agrees(digest: Digest, attrs: seq<Attr>, d: map<string, Entry>) {
    && (forall k :: k in d <==> Named(attrs, k))
    && (forall k :: k in d ==> IsLast(attrs, k, d[k].raw) && d[k].encoded == Encode(digest, d[k].raw))
  }

  lemma IsLastUnique(attrs: seq<Attr>, name: string, v: string, w: string)
    requires IsLast(attrs, name, v) && IsLast(attrs, name, w)
    ensures v == w
  {}

  lemma {:induction false} DictionaryAgrees(digest: Digest, attrs: seq<Attr>)
    ensures Agrees(digest, attrs, Dictionary(digest, attrs))
  {
    hide Encode, IsLast, Named;
    if attrs == [] {
      assert forall k :: !Named(attrs, k) by { NamedNone(attrs); }
    } else {
      var n := |attrs| - 1;
      var front, a := attrs[..n], attrs[n];
      DictionaryAgrees(digest, front);
      forall k ensures Named(attrs, k) <==> Named(front, k) || k == a.name { NamedFront(attrs, k); }
      LastIsLast(attrs);
      forall k, v | k != a.name && IsLast(front, k, v) ensures IsLast(attrs, k, v) { LastOfFront(attrs, k, v); }
    }
  }

  lemma NamedNone(attrs: seq<Attr>)
    requires attrs == []
    ensures forall k :: !Named(attrs, k)
  {}

  lemma NamedFront(attrs: seq<Attr>, k: string)
    requires attrs != []
    ensures Named(attrs, k) <==> Named(attrs[..|attrs| - 1], k) || k == attrs[|attrs| - 1].name
  {
    var front := attrs[..|attrs| - 1];
    if Named(front, k) {
      var i :| 0 <= i < |front| && front[i].name == k;
      assert attrs[i].name == k;
    }
    if i :| 0 <= i < |front| && attrs[i].name == k {
      assert front[i].name == k;
    }
  }

  lemma LastIsLast(attrs: seq<Attr>)
    requires attrs != []
    ensures IsLast(attrs, attrs[|attrs| - 1].name, attrs[|attrs| - 1].value)
  {
    var a := attrs[|attrs| - 1];
    assert attrs[|attrs| - 1] == Attr(a.name, a.value);
  }

  lemma LastOfFront(attrs: seq<Attr>, name: string, value: string)
    requires attrs != [] && attrs[|attrs| - 1].name != name && IsLast(attrs[..|attrs| - 1], name, value)
    ensures IsLast(attrs, name, value)
  {
    var front := attrs[..|attrs| - 1];
    var i :| 0 <= i < |front| && front[i] == Attr(name, value)
      && forall j :: i < j < |front| ==> front[j].name != name;
    assert attrs[i] == Attr(name, value);
    forall j | i < j < |attrs| ensures attrs[j].name != name {
      if j < |front| { assert front[j].name != name; }
    }
  }

  /** Two dictionaries that agree with the same attributes are the same. */
  lemma AgreesUnique(digest: Digest, attrs: seq<Attr>, d: map<string, Entry>, e: map<string, Entry>)
    requires Agrees(digest, attrs, d) && Agrees(digest, attrs, e)
    ensures d == e
  {
    hide Encode;
    assert forall k :: k in d <==> k in e;
    forall k | k in d ensures d[k] == e[k] {
      IsLastUnique(attrs, k, d[k].raw, e[k].raw);
    }
  }

  /**
    Whatever array or object the preview accepts, the encoder accepts too, and its
    dictionary has the preview's names, each with its last previewed value.
   */
  lemma PreviewIsEncoded(
    digest: Digest, v: Json, preview: Result<seq<Attr>, Error>, encoded: Result<map<string, Entry>, Error>)
    requires Previewed(Some(v), preview) && Encoded(digest, Some(v), encoded)
    requires preview.Ok? && (v.Arr? || v.Obj?)
    ensures encoded.Ok? && Agrees(digest, preview.value, encoded.value)
  {
    hide Encode;
    match v
    case Arr(items) => DictionaryAgrees(digest, Attrs(items));
    case Obj(fields) =>
      assert forall k :: k in fields ==> fields[k].Str?;
      FieldsAgree(digest, fields, preview.value, encoded.value);
  }

  lemma FieldsAgree(digest: Digest, fields: map<string, Json>, attrs: seq<Attr>, d: map<string, Entry>)
    requires Lists(attrs, fields, fields.Keys) && d.Keys == fields.Keys
    requires forall k :: k in fields ==> fields[k].Str? && d[k] == Entry(fields[k].s, Encode(digest, fields[k].s))
    ensures Agrees(digest, attrs, d)
  {
    hide Encode;
    forall k ensures k in d <==> Named(attrs, k) {
      if Named(attrs, k) { var i :| 0 <= i < |attrs| && attrs[i].name == k; }
    }
    forall k | k in d ensures IsLast(attrs, k, d[k].raw) {
      var i :| 0 <= i < |attrs| && attrs[i].name == k;
      assert attrs[i] == Attr(k, d[k].raw);
    }
  }

  /** Exactly when the two sides differ: on scalars, and on objects with a value in an array. */
  lemma AcceptanceGap(
    digest: Digest, v: Json, preview: Result<seq<Attr>, Error>, encoded: Result<map<string, Entry>, Error>)
    requires Previewed(Some(v), preview) && Encoded(digest, Some(v), encoded)
    ensures preview.Ok? && encoded.Err? <==> !v.Arr? && !v.Obj?
    ensures encoded.Ok? ==> (preview.Err? <==> v.Obj? && exists k :: k in v.fields && v.fields[k].Arr?)
  {
    hide Encode, Dictionary;
    if v.Obj? {
      if forall k :: k in v.fields ==> v.fields[k].Str? {
      } else {
        var k :| k in v.fields && !v.fields[k].Str?;
        assert FieldText(v.fields[k]).Ok? ==> v.fields[k].Arr?;
      }
    }
  }

  /** An object that says `name` and `value`, whatever else it says. */
  ghost predicate Says(item: Json, name: string, value: string) {
    item.Obj? && "name" in item.fields && item.fields["name"] == Str(name)
    && "value" in item.fields && item.fields["value"] == Str(value)
  }

  ghost predicate SaysSomething(item: Json) { exists name, value :: Says(item, name, value) }

  ghost predicate Encodable(v: Json) {
    match v
    case Obj(fields) => forall k :: k in fields ==>
      fields[k].Str? || (fields[k].Arr? && fields[k].items != [] && fields[k].items[0].Str?)
    case Arr(items) => forall i :: 0 <= i < |items| ==> SaysSomething(items[i])
    case _ => false
  }

  lemma SaysIsAttr(item: Json)
    ensures IsAttr(item) <==> SaysSomething(item)
    ensures IsAttr(item) ==> Says(item, AttrOf(item).name, AttrOf(item).value)
  {
    if IsAttr(item) { assert Says(item, item.fields["name"].s, item.fields["value"].s); }
  }

  /** The encoder accepts exactly the objects of strings and of string-led arrays, and the lists of name/value objects. */
  lemma EncodesExactly(digest: Digest, v: Json, r: Result<map<string, Entry>, Error>)
    requires Encoded(digest, Some(v), r)
    ensures r.Ok? <==> Encodable(v)
  {
    hide Encode, Dictionary, IsAttr;
    if v.Arr? {
      forall i | 0 <= i < |v.items| ensures IsAttr(v.items[i]) <==> SaysSomething(v.items[i]) { SaysIsAttr(v.items[i]); }
    }
  }

  /** The preview of a list shows what each item says, in order; the preview of an object lists its fields once each. */
  lemma PreviewShows(v: Json, r: Result<seq<Attr>, Error>)
    requires Previewed(Some(v), r)
    ensures v.Arr? ==> (r.Ok? <==> Encodable(v))
    ensures v.Arr? && r.Ok? ==>
      |r.value| == |v.items| && forall i :: 0 <= i < |v.items| ==> Says(v.items[i], r.value[i].name, r.value[i].value)
    ensures v.Obj? ==> (r.Ok? <==> forall k :: k in v.fields ==> v.fields[k].Str?)
    ensures v.Obj? && r.Ok? ==>
      && DistinctNames(r.value)
      && forall k, s :: (k in v.fields && v.fields[k] == Str(s)) <==> Attr(k, s) in r.value
  {
    hide IsAttr, AttrOf;
    if v.Arr? {
      forall i | 0 <= i < |v.items|
        ensures IsAttr(v.items[i]) <==> SaysSomething(v.items[i])
        ensures IsAttr(v.items[i]) ==> Says(v.items[i], AttrOf(v.items[i]).name, AttrOf(v.items[i]).value)
      {
        SaysIsAttr(v.items[i]);
      }
    }
    if v.Obj? && r.Ok? {
      forall k, s ensures (k in v.fields && v.fields[k] == Str(s)) <==> Attr(k, s) in r.value {
        if k in v.fields && v.fields[k] == Str(s) {
          var i :| 0 <= i < |r.value| && r.value[i].name == k;
          assert r.value[i] == Attr(k, s);
        }
      }
    }
  }

  /** The error for each kind of bad input; of several bad fields, the one that is met decides. */
  lemma ErrorKinds(
    digest: Digest, text: Option<Json>, e: Result<map<string, Entry>, Error>, p: Result<seq<Attr>, Error>)
    requires Encoded(digest, text, e) && Previewed(text, p)
    ensures text.None? ==> e == Err(InvalidAttributesStructure) && p == Err(InvalidJson)
    ensures text.Some? && !text.value.Obj? && e.Err? ==> e == Err(InvalidAttributesStructure)
    ensures text.Some? && text.value.Obj? && e.Err? ==>
      var fields := text.value.fields;
      && (e.error == InvalidJson ==> exists k :: k in fields && !fields[k].Str? && !fields[k].Arr?)
      && (e.error == InvalidAttributesStructure ==> exists k :: k in fields && fields[k].Arr?)
      && e.error != InvalidOption
    ensures text.Some? && text.value.Obj? && p.Err? ==> p == Err(InvalidOption)
    ensures text.Some? && text.value.Arr? && p.Err? ==>
      exists i :: 0 <= i < |text.value.items| && !IsAttr(text.value.items[i]) &&
        p == Err(if text.value.items[i].Get("name").None? || text.value.items[i].Get("value").None?
                 then InvalidAttributesStructure else InvalidOption)
  {
    hide Encode, Dictionary, IsAttr;
  }

  /** A concrete scalar: offered as an empty preview, never encoded. */
  lemma ScalarExample(digest: Digest)
    ensures Previewed(Some(Str("hello")), Ok([])) && Encoded(digest, Some(Str("hello")), Err(InvalidAttributesStructure))
    ensures forall r :: Encoded(digest, Some(Str("hello")), r) ==> r.Err?
  {}

  // --------------------------------------------------------- the three formats

  /** `v` is one of the accepted spellings of the values `d`, fields in any order. */
  ghost predicate Spells(v: Json, d: map<string, string>) {
    match v
    case Obj(fields) =>
      fields.Keys == d.Keys && forall k :: k in d ==>
        (fields[k] == Str(d[k]) || (fields[k].Arr? && fields[k].items != [] && fields[k].items[0] == Str(d[k])))
    case Arr(items) => exists names :: SpellsList(items, names, d)
    case _ => false
  }

  ghost predicate SpellsList(items: seq<Json>, names: seq<string>, d: map<string, string>) {
    && |names| == |items|
    && (forall i, j :: 0 <= i < j < |names| ==> names[i] != names[j])
    && (forall i :: 0 <= i < |names| ==> names[i] in d && Says(items[i], names[i], d[names[i]]))
    && (forall k :: k in d ==> k in names)
  }

  /** Strings, one-element arrays, mixtures of both, and name/value lists in any order give one dictionary. */
  lemma FormatsAgree(digest: Digest, v: Json, d: map<string, string>, r: Result<map<string, Entry>, Error>)
    requires Spells(v, d) && Encoded(digest, Some(v), r)
    ensures r == Ok(map k | k in d :: Entry(d[k], Encode(digest, d[k])))
  {
    hide Encode, Dictionary;
    match v
    case Obj(fields) => FieldsGive(digest, fields, d, r);
    case Arr(items) =>
      var names :| SpellsList(items, names, d);
      var attrs := SpelledAttrs(items, names, d);
      DictionaryAgrees(digest, attrs);
      ListGives(digest, attrs, d, r.value);
  }

  lemma FieldsGive(digest: Digest, fields: map<string, Json>, d: map<string, string>, r: Result<map<string, Entry>, Error>)
    requires Spells(Obj(fields), d) && Encoded(digest, Some(Obj(fields)), r)
    ensures r == Ok(map k | k in d :: Entry(d[k], Encode(digest, d[k])))
  {
    hide Encode, Dictionary;
    assert forall k :: k in fields ==> FieldText(fields[k]) == Ok(d[k]);
    assert r.Ok? && r.value == map k | k in d :: Entry(d[k], Encode(digest, d[k]));
  }

  lemma SpelledAttrs(items: seq<Json>, names: seq<string>, d: map<string, string>) returns (attrs: seq<Attr>)
    requires SpellsList(items, names, d)
    ensures AllAttrs(items) && attrs == Attrs(items)
    ensures forall k :: k in d ==> Named(attrs, k)
    ensures forall i :: 0 <= i < |attrs| ==> attrs[i].name in d && d[attrs[i].name] == attrs[i].value
  {
    forall i | 0 <= i < |items| ensures IsAttr(items[i]) && AttrOf(items[i]) == Attr(names[i], d[names[i]]) {
      assert Says(items[i], names[i], d[names[i]]);
    }
    attrs := Attrs(items);
    forall k | k in d ensures Named(attrs, k) {
      var i :| 0 <= i < |names| && names[i] == k;
      assert attrs[i].name == k;
    }
  }

  lemma ListGives(digest: Digest, attrs: seq<Attr>, d: map<string, string>, e: map<string, Entry>)
    requires forall k :: k in d ==> Named(attrs, k)
    requires forall i :: 0 <= i < |attrs| ==> attrs[i].name in d && d[attrs[i].name] == attrs[i].value
    requires Agrees(digest, attrs, e)
    ensures e == map k | k in d :: Entry(d[k], Encode(digest, d[k]))
  {
    hide Encode;
    forall k ensures k in e <==> k in d {
      if k in e { var i :| 0 <= i < |attrs| && attrs[i].name == k; }
    }
    forall k | k in e ensures e[k] == Entry(d[k], Encode(digest, d[k])) {
      var i :| 0 <= i < |attrs| && attrs[i] == Attr(k, e[k].raw);
    }
  }
}
