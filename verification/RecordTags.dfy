/** Wallet record tags, kept as a sorted list of key/value pairs. */
module RecordTags {

  datatype Tag = Tag(key: string, value: string)

  // ------------------------------------------------------------------ the order

  /** The derived order on strings: bytewise, a prefix first. */
  predicate TextLe(a: string, b: string) {
    a == [] || (b != [] && (a[0] < b[0] || (a[0] == b[0] && TextLe(a[1..], b[1..]))))
  }

  /** The derived order on tags: by key, then by value. */
  predicate TagLe(a: Tag, b: Tag) {
    if a.key == b.key then TextLe(a.value, b.value) else TextLe(a.key, b.key)
  }

  lemma {:induction false} TextOrder(a: string, b: string, c: string)
    ensures TextLe(a, b) || TextLe(b, a)
    ensures TextLe(a, b) && TextLe(b, a) ==> a == b
    ensures TextLe(a, b) && TextLe(b, c) ==> TextLe(a, c)
  {
    if a != [] && b != [] {
      TextOrder(a[1..], b[1..], if c == [] then [] else c[1..]);
      assert a == [a[0]] + a[1..] && b == [b[0]] + b[1..];
    }
  }

  lemma TagOrder(a: Tag, b: Tag, c: Tag)
    ensures TagLe(a, b) || TagLe(b, a)
    ensures TagLe(a, b) && TagLe(b, a) ==> a == b
    ensures TagLe(a, b) && TagLe(b, c) ==> TagLe(a, c)
  {
    hide TextLe;
    TextOrder(a.key, b.key, c.key);
    TextOrder(a.value, b.value, c.value);
    if a.key == c.key { TextOrder(b.key, a.key, b.key); }
  }

  /** Texts are ordered by the first character in which they differ; a prefix comes first. */
  lemma {:induction false} TextOrderIs(a: string, b: string)
    ensures TextLe(a, b) <==> a <= b || exists k :: 0 <= k < |a| && k < |b| && a[..k] == b[..k] && a[k] < b[k]
  {
    if a != [] && b != [] {
      TextOrderIs(a[1..], b[1..]);
      assert a == [a[0]] + a[1..] && b == [b[0]] + b[1..];
      if a[0] == b[0] {
        if k :| 0 <= k < |a| && k < |b| && a[..k] == b[..k] && a[k] < b[k] {
          assert k > 0;
          assert a[1..][..k - 1] == a[..k][1..] && b[1..][..k - 1] == b[..k][1..];
          assert a[1..][k - 1] < b[1..][k - 1];
        }
        if j :| 0 <= j < |a[1..]| && j < |b[1..]| && a[1..][..j] == b[1..][..j] && a[1..][j] < b[1..][j] {
          assert a[..j + 1] == [a[0]] + a[1..][..j] && b[..j + 1] == [b[0]] + b[1..][..j];
          assert a[j + 1] < b[j + 1];
        }
      } else {
        assert a[..0] == b[..0];
        forall k | 0 < k < |a| && k < |b| ensures a[..k] != b[..k] {
          assert a[..k][0] == a[0] && b[..k][0] == b[0];
        }
      }
    }
  }

  // ----------------------------------------------------------- sorted sequences

  ghost predicate Sorted(s: seq<Tag>) {
    forall i, j :: 0 <= i < j < |s| ==> TagLe(s[i], s[j])
  }

  function Insert(s: seq<Tag>, t: Tag): (r: seq<Tag>)
    requires Sorted(s)
    ensures Sorted(r) && multiset(r) == multiset(s) + multiset{t}
  {
    if s == [] || TagLe(t, s[0]) then
      InsertFront(s, t);
      [t] + s
    else
      var rest := Insert(s[1..], t);
      InsertLater(s, t, rest);
      [s[0]] + rest
  }

  lemma InsertFront(s: seq<Tag>, t: Tag)
    requires Sorted(s) && (s == [] || TagLe(t, s[0]))
    ensures Sorted([t] + s)
  {
    hide TagLe;
    forall j | 0 <= j < |s| ensures TagLe(t, s[j]) { TagOrder(t, s[0], s[j]); }
  }

  lemma InsertLater(s: seq<Tag>, t: Tag, rest: seq<Tag>)
    requires s != [] && Sorted(s) && !TagLe(t, s[0])
    requires Sorted(rest) && multiset(rest) == multiset(s[1..]) + multiset{t}
    ensures Sorted([s[0]] + rest) && multiset([s[0]] + rest) == multiset(s) + multiset{t}
  {
    hide TagLe;
    assert s == [s[0]] + s[1..];
    forall j | 0 <= j < |rest| ensures TagLe(s[0], rest[j]) {
      assert rest[j] in multiset(rest);
      if rest[j] == t {
        TagOrder(s[0], t, t);
      } else {
        assert rest[j] in s[1..];
      }
    }
  }

  /** What `sort` leaves in the vector. */
  function Sort(s: seq<Tag>): (r: seq<Tag>)
    ensures Sorted(r) && multiset(r) == multiset(s)
  {
    if s == [] then []
    else
      var n := |s| - 1;
      assert s == s[..n] + [s[n]];
      Insert(Sort(s[..n]), s[n])
  }

  /** A sorted list is determined by what it contains and how often. */
  lemma {:induction false} SortedUnique(a: seq<Tag>, b: seq<Tag>)
    requires Sorted(a) && Sorted(b) && multiset(a) == multiset(b)
    ensures a == b
  {
    hide Sorted;
    assert |a| == |b| by { assert |multiset(a)| == |a| && |multiset(b)| == |b|; }
    if a != [] {
      assert a[0] in multiset(a) && b[0] in multiset(b);
      HeadIsLeast(a, b[0]);
      HeadIsLeast(b, a[0]);
      TagOrder(a[0], b[0], b[0]);
      TailIsSorted(a);
      TailIsSorted(b);
      SortedUnique(a[1..], b[1..]);
      assert a == [a[0]] + a[1..] && b == [b[0]] + b[1..];
    }
  }

  lemma SortPermutation(a: seq<Tag>, b: seq<Tag>)
    requires multiset(a) == multiset(b)
    ensures Sort(a) == Sort(b)
  {
    SortedUnique(Sort(a), Sort(b));
  }

  lemma SortInside(x: seq<Tag>, y: seq<Tag>, z: seq<Tag>)
    ensures Sort(Sort(x + y) + z) == Sort(x + Sort(y + z))
  {
    hide Sort, Sorted;
    var left, right := Sort(x + y), Sort(y + z);
    assert multiset(left) == multiset(x) + multiset(y) && multiset(right) == multiset(y) + multiset(z);
    assert multiset(left + z) == multiset(x + right);
    SortPermutation(left + z, x + right);
  }

  lemma TailIsSorted(s: seq<Tag>)
    requires s != [] && Sorted(s)
    ensures Sorted(s[1..]) && multiset(s[1..]) == multiset(s) - multiset{s[0]}
  {
    hide TagLe;
    assert s == [s[0]] + s[1..];
  }

  lemma HeadIsLeast(s: seq<Tag>, t: Tag)
    requires Sorted(s) && t in multiset(s)
    ensures s != [] && TagLe(s[0], t)
  {
    hide TagLe;
    var i :| 0 <= i < |s| && s[i] == t;
    if i == 0 { TagOrder(t, t, t); }
  }

  // ------------------------------------------------------------- implementation

  function Without(s: seq<Tag>, key: string): (r: seq<Tag>)
    ensures forall t :: multiset(r)[t] == if t.key == key then 0 else multiset(s)[t]
  {
    if s == [] then []
    else
      var n := |s| - 1;
      assert s == s[..n] + [s[n]];
      Without(s[..n], key) + if s[n].key == key then [] else [s[n]]
  }

  class RecordTags {
    var inner: seq<Tag>

    ghost predicate Valid()
      reads this
    {
      Sorted(inner)
    }

    constructor (items: seq<Tag>)
      ensures Valid() && multiset(inner) == multiset(items)
    {
      inner := Sort(items);
    }

    method Add(tag: Tag)
      modifies this
      ensures Valid() && multiset(inner) == multiset(old(inner)) + multiset{tag}
    {
      inner := inner + [tag];
      inner := Sort(inner);
    }

    method Merge(other: RecordTags)
      modifies this
      ensures Valid() && multiset(inner) == multiset(old(inner)) + multiset(old(other.inner))
    {
      inner := inner + other.inner;
      inner := Sort(inner);
    }

    method Remove(tag: Tag)
      modifies this
      ensures Valid()
      ensures forall t :: multiset(inner)[t] == if t.key == tag.key then 0 else multiset(old(inner))[t]
    {
      inner := Without(inner, tag.key);
      inner := Sort(inner);
    }
  }

  /** Collecting one tag at a time ends where sorting them all at once does. */
  method Collect(items: seq<Tag>) returns (tags: RecordTags)
    ensures fresh(tags) && tags.Valid() && tags.inner == Sort(items)
  {
    tags := new RecordTags([]);
    var i := 0;
    while i < |items|
      invariant 0 <= i <= |items| && fresh(tags)
      invariant tags.Valid() && multiset(tags.inner) == multiset(items[..i])
    {
      assert items[..i + 1] == items[..i] + [items[i]];
      tags.Add(items[i]);
      i := i + 1;
    }
    assert items[..i] == items;
    SortedUnique(tags.inner, Sort(items));
  }

  // ----------------------------------------------------------------------- runs

  /** One operation on the list of tags. */
  datatype Op = New(items: seq<Tag>) | Add(tag: Tag) | Merge(other: seq<Tag>) | Remove(key: string)

  function Apply(s: seq<Tag>, op: Op): seq<Tag> {
    match op
    case New(items) => Sort(items)
    case Add(tag) => Sort(s + [tag])
    case Merge(other) => Sort(s + other)
    case Remove(key) => Sort(Without(s, key))
  }

  function Run(ops: seq<Op>): seq<Tag> {
    if ops == [] then [] else Apply(Run(ops[..|ops| - 1]), ops[|ops| - 1])
  }

  /** The multiset a run of operations describes, with no order anywhere. */
  ghost function Content(ops: seq<Op>): multiset<Tag> {
    if ops == [] then multiset{}
    else
      var before := Content(ops[..|ops| - 1]);
      match ops[|ops| - 1]
      case New(items) => multiset(items)
      case Add(tag) => before + multiset{tag}
      case Merge(other) => before + multiset(other)
      case Remove(key) => Kept(before, key)
  }

  ghost function Kept(m: multiset<Tag>, key: string): (r: multiset<Tag>)
    ensures forall t :: r[t] == if t.key == key then 0 else m[t]
  {
    if t :| t in m && t.key == key then Kept(m[t := 0], key) else m
  }

  lemma {:induction false} RunContent(ops: seq<Op>)
    ensures Sorted(Run(ops)) && multiset(Run(ops)) == Content(ops)
  {
    hide Sort, Without, Sorted;
    if ops == [] {
      NothingIsSorted();
    } else {
      var n := |ops| - 1;
      RunContent(ops[..n]);
      var s, s' := Run(ops[..n]), Run(ops);
      match ops[n]
      case New(items) =>
      case Add(tag) => assert multiset(s + [tag]) == multiset(s) + multiset{tag};
      case Merge(other) => assert multiset(s + other) == multiset(s) + multiset(other);
      case Remove(key) =>
        assert forall t :: multiset(s')[t] == Kept(multiset(s), key)[t];
        assert multiset(s') == Kept(multiset(s), key);
    }
  }

  /** In every reachable value the keys ascend, and under one key the values do. */
  lemma KeysThenValues(ops: seq<Op>, i: nat, j: nat)
    requires i < j < |Run(ops)|
    ensures var s := Run(ops);
      && TextLe(s[i].key, s[j].key)
      && (s[i].key == s[j].key ==> TextLe(s[i].value, s[j].value))
  {
    hide Run, TextLe;
    RunContent(ops);
    TextOrder(Run(ops)[i].key, Run(ops)[j].key, Run(ops)[j].key);
  }

  lemma NothingIsSorted()
    ensures Sorted([])
  {}

  /** Two values built by any two runs are equal exactly when they hold the same tags equally often. */
  lemma EqualIffSameContent(a: seq<Op>, b: seq<Op>)
    ensures Run(a) == Run(b) <==> Content(a) == Content(b)
  {
    RunContent(a);
    RunContent(b);
    if Content(a) == Content(b) { SortedUnique(Run(a), Run(b)); }
  }

  /** Merging is commutative and associative, and does not care how either side was built. */
  lemma MergeCommutes(a: seq<Op>, b: seq<Op>, c: seq<Op>)
    ensures Apply(Run(a), Merge(Run(b))) == Apply(Run(b), Merge(Run(a)))
    ensures Apply(Apply(Run(a), Merge(Run(b))), Merge(Run(c))) == Apply(Run(a), Merge(Apply(Run(b), Merge(Run(c)))))
  {
    hide Sort, Run, Sorted;
    var x, y, z := Run(a), Run(b), Run(c);
    SortPermutation(x + y, y + x);
    SortInside(x, y, z);
  }

  /** Collecting the tags of a reachable value again gives the same value. */
  lemma CollectedAgain(ops: seq<Op>)
    ensures Sort(Run(ops)) == Run(ops)
  {
    RunContent(ops);
    SortedUnique(Sort(Run(ops)), Run(ops));
  }

  /** Removing a key undoes every addition under that key, wherever it was made. */
  lemma RemoveUndoesAdds(ops: seq<Op>, tag: Tag)
    ensures Run(ops + [Add(tag), Remove(tag.key)]) == Run(ops + [Remove(tag.key)])
  {
    hide Sort, Without, Run;
    var longer, short := ops + [Add(tag), Remove(tag.key)], ops + [Remove(tag.key)];
    assert longer[..|ops| + 1] == ops + [Add(tag)];
    assert (ops + [Add(tag)])[..|ops|] == ops && short[..|ops|] == ops;
    assert Content(longer) == Kept(Content(ops) + multiset{tag}, tag.key);
    assert Content(short) == Kept(Content(ops), tag.key);
    assert Content(longer) == Content(short);
    EqualIffSameContent(longer, short);
  }
}
