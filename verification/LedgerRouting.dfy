/**
  Aggregating several ledger readers into one.  A read goes to the first registered
  reader that supports its identifier; aggregates may be registered in aggregates.
  Each reader is wrapped in an adaptor that turns its own revocation registry
  metadata into JSON and back.
 */
module LedgerRouting {
  import opened Wrappers
  import opened JsonText

  datatype Subject = SchemaId(id: string) | CredDefId(id: string) | RevRegId(id: string)

  /** The six reads; `M` is the form in which metadata is passed. */
  datatype Query<+M> =
    | GetSchema(id: string, submitter: Option<string>)
    | GetCredDef(id: string, submitter: Option<string>)
    | GetRevRegDef(id: string)
    | GetRevRegDelta(id: string, since: Option<nat>, until: Option<nat>)
    | GetRevStatusList(id: string, timestamp: nat, meta: Option<M>)
    | GetRevReg(id: string, timestamp: nat)

  datatype Answer<+M> = Plain(body: Bytes) | WithMetadata(body: Bytes, meta: M)

  datatype Error = UnsupportedLedgerIdentifier(id: string) | InvalidMetadata | LedgerFailure(reason: string)

  function SubjectOf<M>(q: Query<M>): Subject {
    match q
    case GetSchema(id, _) => SchemaId(id)
    case GetCredDef(id, _) => CredDefId(id)
    case _ => RevRegId(q.id)
  }

  /** One ledger: what it supports, how it answers, and its metadata's JSON form. */
  datatype Source<!M> = Source(
    supports: Subject -> bool,
    read: Query<M> -> Result<Answer<M>, Error>,
    codec: Codec<M>)

  /** A ledger behind its adaptor: every reader's own metadata type is hidden behind JSON. */
  datatype Adaptor = Adaptor(supports: Subject -> bool, read: Query<Bytes> -> Result<Answer<Bytes>, Error>)

  datatype Reader = Leaf(adaptor: Adaptor) | Multi(readers: seq<Reader>)

  /** A query with no metadata, or with its metadata read back by `codec`. */
  function Decoded<M>(codec: Codec<M>, q: Query<Bytes>): Result<Query<M>, Error> {
    match q
    case GetSchema(id, submitter) => Ok(GetSchema(id, submitter))
    case GetCredDef(id, submitter) => Ok(GetCredDef(id, submitter))
    case GetRevRegDef(id) => Ok(GetRevRegDef(id))
    case GetRevRegDelta(id, since, until) => Ok(GetRevRegDelta(id, since, until))
    case GetRevReg(id, timestamp) => Ok(GetRevReg(id, timestamp))
    case GetRevStatusList(id, timestamp, None) => Ok(GetRevStatusList(id, timestamp, None))
    case GetRevStatusList(id, timestamp, Some(text)) =>
      match codec.read(text)
      case Some(m) => Ok(GetRevStatusList(id, timestamp, Some(m)))
      case None => Err(InvalidMetadata)
  }

  function EncodedAnswer<M>(codec: Codec<M>, a: Answer<M>): Answer<Bytes> {
    match a
    case Plain(body) => Plain(body)
    case WithMetadata(body, m) => WithMetadata(body, codec.write(m))
  }

  /** `AnoncredsLedgerReadAdaptor` */
  function Adapted<M>(source: Source<M>, q: Query<Bytes>): Result<Answer<Bytes>, Error> {
    match Decoded(source.codec, q)
    case Err(e) => Err(e)
    case Ok(native) =>
      match source.read(native)
      case Err(e) => Err(e)
      case Ok(a) => Ok(EncodedAnswer(source.codec, a))
  }

  function Adapt<M>(source: Source<M>): Adaptor {
    Adaptor(source.supports, q => Adapted(source, q))
  }

  predicate Supports(r: Reader, s: Subject) {
    match r
    case Leaf(adaptor) => adaptor.supports(s)
    case Multi(readers) => exists i :: 0 <= i < |readers| && Supports(readers[i], s)
  }

  /** `readers.iter().find(...)` */
  function Find(readers: seq<Reader>, s: Subject): (at: Option<nat>)
    ensures at.None? <==> forall i :: 0 <= i < |readers| ==> !Supports(readers[i], s)
    ensures at.Some? ==> at.value < |readers| && Supports(readers[at.value], s)
    ensures at.Some? ==> forall i :: 0 <= i < at.value ==> !Supports(readers[i], s)
  {
    if readers == [] then None
    else if Supports(readers[0], s) then Some(0)
    else
      var rest := Find(readers[1..], s);
      assert forall i :: 1 <= i < |readers| ==> readers[i] == readers[1..][i - 1];
      if rest.Some? then Some(rest.value + 1) else None
  }

  /** A read through a tree of readers; nested aggregates pass metadata on as it is. */
  function Route(r: Reader, q: Query<Bytes>): Result<Answer<Bytes>, Error> {
    match r
    case Leaf(adaptor) => adaptor.read(q)
    case Multi(readers) =>
      match Find(readers, SubjectOf(q))
      case None => Err(UnsupportedLedgerIdentifier(q.id))
      case Some(i) => Route(readers[i], q)
  }

  class MultiLedger {
    var readers: seq<Reader>

    constructor ()
      ensures readers == []
    {
      readers := [];
    }

    method RegisterReader(reader: Reader)
      modifies this
      ensures readers == old(readers) + [reader]
      ensures forall q: Query<Bytes> :: Supports(Multi(old(readers)), SubjectOf(q)) ==> Read(q) == Route(Multi(old(readers)), q)
    {
      forall q: Query<Bytes> | Supports(Multi(readers), SubjectOf(q))
        ensures Route(Multi(readers + [reader]), q) == Route(Multi(readers), q)
      {
        RegisteringNeverRedirects(readers, [reader], q);
      }
      readers := readers + [reader];
    }

    function Read(q: Query<Bytes>): Result<Answer<Bytes>, Error>
      reads this
    {
      Route(Multi(readers), q)
    }
  }

  // ----------------------------------------------------- what is asked of which reader

  /** Reader `i` is the first that supports the subject. */
  ghost predicate IsFirst(readers: seq<Reader>, i: nat, s: Subject) {
    i < |readers| && Supports(readers[i], s) && forall j :: 0 <= j < i ==> !Supports(readers[j], s)
  }

  /**
    Schemas are asked of the first reader that supports the schema id, credential
    definitions of the first that supports theirs, and all four registry reads of the
    first that supports the registry id; without such a reader the read is refused.
   */
  lemma AsksTheFirst(
    readers: seq<Reader>, i: nat, id: string, submitter: Option<string>, since: Option<nat>, until: Option<nat>,
    timestamp: nat, meta: Option<Bytes>)
    ensures IsFirst(readers, i, SchemaId(id)) ==>
      Route(Multi(readers), GetSchema(id, submitter)) == Route(readers[i], GetSchema(id, submitter))
    ensures IsFirst(readers, i, CredDefId(id)) ==>
      Route(Multi(readers), GetCredDef(id, submitter)) == Route(readers[i], GetCredDef(id, submitter))
    ensures IsFirst(readers, i, RevRegId(id)) ==>
      && Route(Multi(readers), GetRevRegDef(id)) == Route(readers[i], GetRevRegDef(id))
      && Route(Multi(readers), GetRevRegDelta(id, since, until)) == Route(readers[i], GetRevRegDelta(id, since, until))
      && Route(Multi(readers), GetRevStatusList(id, timestamp, meta)) == Route(readers[i], GetRevStatusList(id, timestamp, meta))
      && Route(Multi(readers), GetRevReg(id, timestamp)) == Route(readers[i], GetRevReg(id, timestamp))
    ensures (forall j :: 0 <= j < |readers| ==> !Supports(readers[j], SchemaId(id))) ==>
      Route(Multi(readers), GetSchema(id, submitter)) == Err(UnsupportedLedgerIdentifier(id))
    ensures (forall j :: 0 <= j < |readers| ==> !Supports(readers[j], CredDefId(id))) ==>
      Route(Multi(readers), GetCredDef(id, submitter)) == Err(UnsupportedLedgerIdentifier(id))
    ensures (forall j :: 0 <= j < |readers| ==> !Supports(readers[j], RevRegId(id))) ==>
      && Route(Multi(readers), GetRevRegDef(id)) == Err(UnsupportedLedgerIdentifier(id))
      && Route(Multi(readers), GetRevRegDelta(id, since, until)) == Err(UnsupportedLedgerIdentifier(id))
      && Route(Multi(readers), GetRevStatusList(id, timestamp, meta)) == Err(UnsupportedLedgerIdentifier(id))
      && Route(Multi(readers), GetRevReg(id, timestamp)) == Err(UnsupportedLedgerIdentifier(id))
  {
    hide Find, Supports;
    FirstIsFound(readers, i, SchemaId(id));
    FirstIsFound(readers, i, CredDefId(id));
    FirstIsFound(readers, i, RevRegId(id));
  }

  lemma FirstIsFound(readers: seq<Reader>, i: nat, s: Subject)
    ensures IsFirst(readers, i, s) ==> Find(readers, s) == Some(i)
  {
    hide Find, Supports;
    var at := Find(readers, s);
    if IsFirst(readers, i, s) {
      assert at.Some?;
      assert !(i < at.value) && !(at.value < i);
    }
  }

  /** An adaptor asks its ledger for just what it was asked, and hands on just what it answers. */
  lemma AdaptorAsksTheSame<M>(
    source: Source<M>, id: string, submitter: Option<string>, since: Option<nat>, until: Option<nat>, timestamp: nat, body: Bytes)
    ensures source.read(GetSchema(id, submitter)) == Ok(Plain(body)) ==> Adapted(source, GetSchema(id, submitter)) == Ok(Plain(body))
    ensures source.read(GetCredDef(id, submitter)) == Ok(Plain(body)) ==> Adapted(source, GetCredDef(id, submitter)) == Ok(Plain(body))
    ensures source.read(GetRevRegDelta(id, since, until)) == Ok(Plain(body)) ==>
      Adapted(source, GetRevRegDelta(id, since, until)) == Ok(Plain(body))
    ensures source.read(GetRevStatusList(id, timestamp, None)) == Ok(Plain(body)) ==>
      Adapted(source, GetRevStatusList(id, timestamp, None)) == Ok(Plain(body))
    ensures source.read(GetRevReg(id, timestamp)) == Ok(Plain(body)) ==> Adapted(source, GetRevReg(id, timestamp)) == Ok(Plain(body))
    ensures source.codec.read(body).None? ==> Adapted(source, GetRevStatusList(id, timestamp, Some(body))) == Err(InvalidMetadata)
  {}

  /** The ledger's own errors pass the adaptor. */
  lemma AdaptorPassesErrors<M>(source: Source<M>, q: Query<Bytes>)
    ensures Decoded(source.codec, q).Ok? && source.read(Decoded(source.codec, q).value).Err? ==>
      Adapted(source, q) == Err(source.read(Decoded(source.codec, q).value).error)
  {}

  // ------------------------------------------------------ more readers, same routes

  lemma {:induction false} FindAppend(a: seq<Reader>, b: seq<Reader>, s: Subject)
    ensures Find(a + b, s)
         == if Find(a, s).Some? then Find(a, s)
            else if Find(b, s).Some? then Some(|a| + Find(b, s).value)
            else None
  {
    hide Supports, Find;
    if a == [] {
      assert a + b == b;
    } else {
      assert (a + b)[1..] == a[1..] + b && (a + b)[0] == a[0];
      FindAppend(a[1..], b, s);
      FindFirst(a, s);
      FindFirst(a + b, s);
    }
  }

  lemma {:induction false} FindFirst(readers: seq<Reader>, s: Subject)
    requires readers != []
    ensures Find(readers, s) ==
      if Supports(readers[0], s) then Some(0)
      else if Find(readers[1..], s).Some? then Some(Find(readers[1..], s).value + 1) else None
  {
    hide Supports;
  }

  /** Readers registered later answer only what nothing supported before. */
  lemma RegisteringNeverRedirects(readers: seq<Reader>, more: seq<Reader>, q: Query<Bytes>)
    ensures Route(Multi(readers + more), q)
         == Route(Multi(if Supports(Multi(readers), SubjectOf(q)) then readers else more), q)
  {
    hide Find;
    var s := SubjectOf(q);
    FindAppend(readers, more, s);
    var at := Find(readers + more, s);
    if at.Some? {
      assert (readers + more)[at.value] == if at.value < |readers| then readers[at.value] else more[at.value - |readers|];
    }
  }

  // ------------------------------------------------------------------ flattening

  function Concat<T>(parts: seq<seq<T>>): seq<T> {
    if parts == [] then [] else Concat(parts[..|parts| - 1]) + parts[|parts| - 1]
  }

  /** The ledgers at the leaves, from first to last. */
  function Flatten(r: Reader): seq<Adaptor> {
    match r
    case Leaf(adaptor) => [adaptor]
    case Multi(readers) => Concat(seq(|readers|, i requires 0 <= i < |readers| => Flatten(readers[i])))
  }

  function FirstAdaptor(adaptors: seq<Adaptor>, s: Subject): (r: Option<Adaptor>)
    ensures r.Some? <==> exists i :: 0 <= i < |adaptors| && adaptors[i].supports(s)
  {
    if adaptors == [] then None
    else if adaptors[0].supports(s) then Some(adaptors[0])
    else
      assert forall i :: 1 <= i < |adaptors| ==> adaptors[i] == adaptors[1..][i - 1];
      FirstAdaptor(adaptors[1..], s)
  }

  /** Reading through a plain list of ledgers. */
  function RouteList(adaptors: seq<Adaptor>, q: Query<Bytes>): Result<Answer<Bytes>, Error> {
    match FirstAdaptor(adaptors, SubjectOf(q))
    case None => Err(UnsupportedLedgerIdentifier(q.id))
    case Some(adaptor) => adaptor.read(q)
  }

  lemma {:induction false} FirstAdaptorAppend(a: seq<Adaptor>, b: seq<Adaptor>, s: Subject)
    ensures FirstAdaptor(a + b, s) == if FirstAdaptor(a, s).Some? then FirstAdaptor(a, s) else FirstAdaptor(b, s)
  {
    if a == [] {
      assert a + b == b;
    } else {
      FirstAdaptorAppend(a[1..], b, s);
      assert (a + b)[1..] == a[1..] + b;
    }
  }

  function FlattenAll(readers: seq<Reader>): seq<Adaptor> {
    Flatten(Multi(readers))
  }

  lemma {:induction false} FlattenAppend(readers: seq<Reader>, r: Reader)
    ensures FlattenAll(readers + [r]) == FlattenAll(readers) + Flatten(r)
  {
    var all := readers + [r];
    var parts := seq(|all|, i requires 0 <= i < |all| => Flatten(all[i]));
    var front := seq(|readers|, i requires 0 <= i < |readers| => Flatten(readers[i]));
    assert parts[..|readers|] == front;
    assert parts[|readers|] == Flatten(r);
  }

  /** What a reader supports, and where it sends a read, is decided by its first supporting leaf. */
  lemma {:induction false} FirstLeafDecides(r: Reader, q: Query<Bytes>)
    ensures Supports(r, SubjectOf(q)) <==> FirstAdaptor(Flatten(r), SubjectOf(q)).Some?
    ensures Supports(r, SubjectOf(q)) ==> Route(r, q) == FirstAdaptor(Flatten(r), SubjectOf(q)).value.read(q)
    decreases r, 1, 0
  {
    match r
    case Leaf(adaptor) => FirstOfOne(adaptor, SubjectOf(q));
    case Multi(readers) =>
      FirstLeafDecidesUpTo(r, q, |readers|);
      assert readers[..|readers|] == readers;
  }

  lemma FirstOfOne(adaptor: Adaptor, s: Subject)
    ensures FirstAdaptor([adaptor], s) == if adaptor.supports(s) then Some(adaptor) else None
  {
    assert [adaptor][1..] == [];
  }

  lemma {:induction false} FirstLeafDecidesUpTo(r: Reader, q: Query<Bytes>, n: nat)
    requires r.Multi? && n <= |r.readers|
    ensures var s := SubjectOf(q); var found := FirstAdaptor(FlattenAll(r.readers[..n]), s);
      match Find(r.readers[..n], s)
      case None => found.None?
      case Some(i) => found.Some? && Route(r.readers[i], q) == found.value.read(q)
    decreases r, 0, n
  {
    hide Flatten, FirstAdaptor, Supports, Find, Route;
    var s := SubjectOf(q);
    if n == 0 {
      assert FlattenAll(r.readers[..0]) == [] by { FlattenNone(r.readers[..0]); }
    } else {
      var front, last := r.readers[..n - 1], r.readers[n - 1];
      FirstLeafDecidesUpTo(r, q, n - 1);
      FirstLeafDecides(last, q);
      assert r.readers[..n] == front + [last];
      FlattenAppend(front, last);
      FirstAdaptorAppend(FlattenAll(front), Flatten(last), s);
      FindAppend(front, [last], s);
    }
  }

  lemma {:induction false} FlattenNone(readers: seq<Reader>)
    requires readers == []
    ensures FlattenAll(readers) == []
  {}

  /** An aggregate of aggregates routes every read as the plain list of its ledgers would. */
  lemma NestingIsFlat(readers: seq<Reader>, q: Query<Bytes>)
    ensures Route(Multi(readers), q) == RouteList(Flatten(Multi(readers)), q)
  {
    hide Flatten, FirstAdaptor;
    FirstLeafDecides(Multi(readers), q);
  }

  /** Around a reader whose metadata already is JSON, such as an aggregate, the adaptor changes nothing. */
  lemma AdaptorIsTransparent(source: Source<Bytes>, q: Query<Bytes>)
    requires forall text :: source.codec.write(text) == text && source.codec.read(text) == Some(text)
    ensures Adapted(source, q) == source.read(q)
  {
    assert Decoded(source.codec, q) == Ok(q) by {
      if q.GetRevStatusList? && q.meta.Some? { assert source.codec.read(q.meta.value) == Some(q.meta.value); }
    }
    if source.read(q).Ok? && source.read(q).value.WithMetadata? {
      assert source.codec.write(source.read(q).value.meta) == source.read(q).value.meta;
    }
  }

  // -------------------------------------------------- metadata returns to its maker

  /**
    Metadata obtained with a definition, handed back after any further
    registrations, reaches the very ledger that produced it, as the value it produced.
   */
  lemma MetadataReturns<M(!new)>(
    readers: seq<Reader>, more: seq<Reader>, source: Source<M>, id: string, timestamp: nat, body: Bytes, text: Bytes)
    requires FirstAdaptor(Flatten(Multi(readers)), RevRegId(id)) == Some(Adapt(source)) && Faithful(source.codec)
    requires Route(Multi(readers), GetRevRegDef(id)) == Ok(WithMetadata(body, text))
    ensures exists m ::
      && source.read(GetRevRegDef(id)) == Ok(WithMetadata(body, m))
      && text == source.codec.write(m)
      && Route(Multi(readers + more), GetRevStatusList(id, timestamp, Some(text)))
         == match source.read(GetRevStatusList(id, timestamp, Some(m)))
            case Ok(a) => Ok(EncodedAnswer(source.codec, a))
            case Err(e) => Err(e)
  {
    hide Flatten, Route, Supports, FirstAdaptor;
    var q1: Query<Bytes>, q2 := GetRevRegDef(id), GetRevStatusList(id, timestamp, Some(text));
    NestingIsFlat(readers, q1);
    var m := source.read(GetRevRegDef(id)).value.meta;
    assert source.codec.read(text) == Some(m);
    RegisteringNeverRedirects(readers, more, q2);
    FirstLeafDecides(Multi(readers), q2);
  }
}
