/**
  Reading revocation registries from an Indy ledger through a response cache.
  Definitions are cached under the registry id; deltas never are.
 */
module LedgerCache {
  import opened Wrappers
  import opened StatusList

  /** How one `put` ends: stored and confirmed, stored but reported as failed, or failed. */
  datatype PutOutcome = Stored | StoredButFailed | Failed

  /** What one fetch meets: the ledger's reply if it is asked, and what the cacher does. */
  datatype Fetch = Fetch(reply: Option<Bytes>, getFails: bool, forgets: bool, put: PutOutcome)

  datatype Error = CacheFailure | LedgerFailure | InvalidLedgerResponse

  datatype RevRegDef = RevRegDef(maxCredNum: nat, issuer: string, rest: Bytes)
  datatype Metadata = Metadata(maxCredNum: nat, issuer: string)

  datatype StatusListRecord = StatusListRecord(id: string, issuer: string, bits: seq<bool>, timestamp: nat)

  /** The response parser is foreign code. */
  datatype Parser = Parser(definition: Bytes -> Option<RevRegDef>, delta: Bytes -> Option<(Delta, nat)>)

  type Cache = map<string, Bytes>

  // -------------------------------------------------------------- specification

  function Submit(cache: Cache, key: Option<string>, f: Fetch): (Cache, Result<Bytes, Error>) {
    if key.None? then
      (cache, if f.reply.Some? then Ok(f.reply.value) else Err(LedgerFailure))
    else if f.getFails then (cache, Err(CacheFailure))
    else if key.value in cache && !f.forgets then (cache, Ok(cache[key.value]))
    else if f.reply.None? then (cache, Err(LedgerFailure))
    else
      (if f.put.Failed? then cache else cache[key.value := f.reply.value],
       if f.put.Stored? then Ok(f.reply.value) else Err(CacheFailure))
  }

  function MetadataOf(def: RevRegDef): Metadata { Metadata(def.maxCredNum, def.issuer) }

  function ParsedDefinition(parser: Parser, response: Result<Bytes, Error>): Result<(RevRegDef, Metadata), Error> {
    match response
    case Err(e) => Err(e)
    case Ok(text) =>
      match parser.definition(text)
      case None => Err(InvalidLedgerResponse)
      case Some(def) => Ok((def, MetadataOf(def)))
  }

  function Definition(cache: Cache, parser: Parser, id: string, f: Fetch): (Cache, Result<(RevRegDef, Metadata), Error>) {
    var (cache', response) := Submit(cache, Some(id), f);
    (cache', ParsedDefinition(parser, response))
  }

  function ParsedDelta(parser: Parser, reply: Option<Bytes>): Result<(Delta, nat), Error> {
    if reply.None? then Err(LedgerFailure)
    else if parser.delta(reply.value).None? then Err(InvalidLedgerResponse)
    else Ok(parser.delta(reply.value).value)
  }

  function ListFrom(id: string, delta: Delta, time: nat, meta: Metadata): Result<StatusListRecord, Error> {
    if Below(delta.issued, meta.maxCredNum) && Below(delta.revoked, meta.maxCredNum)
    then Ok(StatusListRecord(id, meta.issuer, Bits(delta, meta.maxCredNum), time))
    else Err(InvalidLedgerResponse)
  }

  /** `get_rev_status_list`: the delta first, then the metadata unless it is supplied. */
  function Status(cache: Cache, parser: Parser, id: string, delta: Option<Bytes>, meta: Option<Metadata>, f: Fetch)
    : (Cache, Result<StatusListRecord, Error>)
  {
    match ParsedDelta(parser, delta)
    case Err(e) => (cache, Err(e))
    case Ok((d, time)) =>
      if meta.Some? then (cache, ListFrom(id, d, time, meta.value))
      else
        var (cache', def) := Definition(cache, parser, id, f);
        (cache', if def.Err? then Err(def.error) else ListFrom(id, d, time, def.value.1))
  }

  // ------------------------------------------------------------- implementation

  /** Any cacher: `get` may fail or forget, but returns nothing other than the last value put. */
  class Cacher {
    var stored: Cache

    constructor ()
      ensures stored == map[]
    {
      stored := map[];
    }

    method Put(id: string, response: Bytes, o: PutOutcome) returns (ok: bool)
      modifies this
      ensures stored == if o.Failed? then old(stored) else old(stored)[id := response]
      ensures ok == o.Stored?
    {
      if !o.Failed? { stored := stored[id := response]; }
      ok := o.Stored?;
    }

    method Get(id: string, fails: bool, forgets: bool) returns (r: Result<Option<Bytes>, Error>)
      ensures r == if fails then Err(CacheFailure) else Ok(if id in stored && !forgets then Some(stored[id]) else None)
    {
      if fails { return Err(CacheFailure); }
      r := Ok(if id in stored && !forgets then Some(stored[id]) else None);
    }
  }

  class IndyReader {
    const parser: Parser
    const cacher: Cacher

    constructor (parser: Parser)
      ensures this.parser == parser && fresh(cacher) && cacher.stored == map[]
    {
      this.parser := parser;
      cacher := new Cacher();
    }

    method SubmitRequest(key: Option<string>, f: Fetch) returns (r: Result<Bytes, Error>)
      modifies cacher
      ensures (cacher.stored, r) == Submit(old(cacher.stored), key, f)
    {
      if key.Some? {
        var cached := cacher.Get(key.value, f.getFails, f.forgets);
        if cached.Err? { return Err(cached.error); }
        if cached.value.Some? { return Ok(cached.value.value); }
        if f.reply.None? { return Err(LedgerFailure); }
        var ok := cacher.Put(key.value, f.reply.value, f.put);
        if !ok { return Err(CacheFailure); }
        return Ok(f.reply.value);
      }
      r := if f.reply.Some? then Ok(f.reply.value) else Err(LedgerFailure);
    }

    method GetRevRegDef(id: string, f: Fetch) returns (r: Result<(RevRegDef, Metadata), Error>)
      modifies cacher
      ensures (cacher.stored, r) == Definition(old(cacher.stored), parser, id, f)
    {
      var response := SubmitRequest(Some(id), f);
      if response.Err? { return Err(response.error); }
      var def := parser.definition(response.value);
      if def.None? { return Err(InvalidLedgerResponse); }
      r := Ok((def.value, Metadata(def.value.maxCredNum, def.value.issuer)));
    }

    method GetRevStatusList(id: string, delta: Option<Bytes>, meta: Option<Metadata>, f: Fetch)
      returns (r: Result<StatusListRecord, Error>)
      modifies cacher
      ensures (cacher.stored, r) == Status(old(cacher.stored), parser, id, delta, meta, f)
    {
      var response := SubmitRequest(None, Fetch(delta, false, false, Stored));
      if response.Err? { return Err(response.error); }
      var info := parser.delta(response.value);
      if info.None? { return Err(InvalidLedgerResponse); }
      var m;
      if meta.Some? {
        m := meta.value;
      } else {
        var def := GetRevRegDef(id, f);
        if def.Err? { return Err(def.error); }
        m := def.value.1;
      }
      var list := StatusListOf(info.value.0, m.maxCredNum);
      if list.None? { return Err(InvalidLedgerResponse); }
      r := Ok(StatusListRecord(id, m.issuer, list.value, info.value.1));
    }
  }

  // ----------------------------------------------------------------------- runs

  datatype Read =
    | ReadDefinition(id: string, fetch: Fetch)
    | ReadStatus(id: string, delta: Option<Bytes>, meta: Option<Metadata>, fetch: Fetch)

  function Step(cache: Cache, parser: Parser, r: Read): Cache {
    match r
    case ReadDefinition(id, f) => Definition(cache, parser, id, f).0
    case ReadStatus(id, delta, meta, f) => Status(cache, parser, id, delta, meta, f).0
  }

  function CacheAfter(parser: Parser, run: seq<Read>): Cache {
    if run == [] then map[] else Step(CacheAfter(parser, run[..|run| - 1]), parser, run[|run| - 1])
  }

  /** The ledger replied `text` for `id` to one of the reads of the run. */
  ghost predicate Replied(run: seq<Read>, id: string, text: Bytes) {
    exists i :: 0 <= i < |run| && run[i].id == id && run[i].fetch.reply == Some(text)
  }

  lemma RepliedEarlier(run: seq<Read>, id: string, text: Bytes)
    requires run != [] && Replied(run[..|run| - 1], id, text)
    ensures Replied(run, id, text)
  {
    var front := run[..|run| - 1];
    var i :| 0 <= i < |front| && front[i].id == id && front[i].fetch.reply == Some(text);
    assert run[i] == front[i];
  }

  /** Whatever the ledger does over time, the cache holds only what it replied for that very id. */
  lemma {:induction false} CacheIsGenuine(parser: Parser, run: seq<Read>)
    ensures forall id :: id in CacheAfter(parser, run) ==> Replied(run, id, CacheAfter(parser, run)[id])
  {
    if run != [] {
      hide Replied;
      var front, last := run[..|run| - 1], run[|run| - 1];
      CacheIsGenuine(parser, front);
      var before, after := CacheAfter(parser, front), CacheAfter(parser, run);
      forall id | id in after ensures Replied(run, id, after[id]) {
        if id in before && after[id] == before[id] {
          RepliedEarlier(run, id, after[id]);
        } else {
          assert id == last.id && last.fetch.reply == Some(after[id]);
          RepliedNow(run);
        }
      }
    }
  }

  lemma RepliedNow(run: seq<Read>)
    requires run != [] && run[|run| - 1].fetch.reply.Some?
    ensures Replied(run, run[|run| - 1].id, run[|run| - 1].fetch.reply.value)
  {
    assert run[|run| - 1].id == run[|run| - 1].id;
  }

  /**
    What one cached read does.  A reply that is stored answers the next read, even when
    the ledger does not; without anything cached the ledger is asked; a read without a
    cache key asks the ledger and leaves the cache alone.
   */
  lemma ReadsThroughTheCache(cache: Cache, id: string, first: Fetch, second: Fetch, text: Bytes)
    requires !first.getFails && (id !in cache || first.forgets) && first.reply == Some(text)
    ensures var (cache', r) := Submit(cache, Some(id), first);
      && (r == Ok(text) <==> first.put.Stored?)
      && (first.put != Failed ==>
            && id in cache' && cache'[id] == text
            && (!second.getFails && !second.forgets ==> Submit(cache', Some(id), second) == (cache', Ok(text))))
      && (forall other :: other != id ==> (other in cache' <==> other in cache) && (other in cache ==> cache'[other] == cache[other]))
    ensures Submit(cache, None, first) == (cache, Ok(text))
  {}

  /** A definition read gives the parsed response with its own size and issuer as metadata; what cannot be parsed is refused. */
  lemma DefinitionIsParsed(cache: Cache, parser: Parser, id: string, f: Fetch, text: Bytes)
    requires Submit(cache, Some(id), f).1 == Ok(text)
    ensures Definition(cache, parser, id, f).0 == Submit(cache, Some(id), f).0
    ensures match parser.definition(text)
      case Some(def) => Definition(cache, parser, id, f).1 == Ok((def, Metadata(def.maxCredNum, def.issuer)))
      case None => Definition(cache, parser, id, f).1 == Err(InvalidLedgerResponse)
  {
    hide Submit;
  }

  /** The ledger's response for each id never changes. */
  ghost predicate Constant(run: seq<Read>, truth: string -> Bytes) {
    forall i :: 0 <= i < |run| && run[i].fetch.reply.Some? ==> run[i].fetch.reply.value == truth(run[i].id)
  }

  function UncachedDefinition(parser: Parser, truth: string -> Bytes, id: string): Result<(RevRegDef, Metadata), Error> {
    ParsedDefinition(parser, Ok(truth(id)))
  }

  /**
    After any reads, a definition read either meets a failure of the cacher or of
    the ledger, or gives exactly what an uncached read would.
   */
  lemma CachedDefinition(parser: Parser, run: seq<Read>, truth: string -> Bytes, id: string, f: Fetch)
    requires Constant(run + [ReadDefinition(id, f)], truth)
    ensures var r := Definition(CacheAfter(parser, run), parser, id, f).1;
      || r == UncachedDefinition(parser, truth, id)
      || (r == Err(CacheFailure) && (f.getFails || !f.put.Stored?))
      || (r == Err(LedgerFailure) && f.reply.None?)
  {
    var all := run + [ReadDefinition(id, f)];
    assert all[|run|] == ReadDefinition(id, f);
    CachedIsTrue(parser, run, truth, id, all);
  }

  lemma CachedIsTrue(parser: Parser, run: seq<Read>, truth: string -> Bytes, id: string, all: seq<Read>)
    requires run <= all && Constant(all, truth)
    ensures id in CacheAfter(parser, run) ==> CacheAfter(parser, run)[id] == truth(id)
  {
    CacheIsGenuine(parser, run);
    var cache := CacheAfter(parser, run);
    if id in cache {
      var i :| 0 <= i < |run| && run[i].id == id && run[i].fetch.reply == Some(cache[id]);
      assert all[i] == run[i];
    }
  }

  /**
    Metadata obtained from any successful definition read, at any point of the run,
    gives the same status list as reading without it, at any later point.
   */
  lemma SuppliedMetadata(
    parser: Parser, early: seq<Read>, late: seq<Read>, truth: string -> Bytes,
    id: string, f: Fetch, delta: Option<Bytes>, g: Fetch)
    requires early <= late
    requires Constant(late + [ReadDefinition(id, f), ReadDefinition(id, g)], truth)
    requires Definition(CacheAfter(parser, early), parser, id, f).1.Ok?
    ensures var meta := Definition(CacheAfter(parser, early), parser, id, f).1.value.1;
      var with := Status(CacheAfter(parser, late), parser, id, delta, Some(meta), g).1;
      var without := Status(CacheAfter(parser, late), parser, id, delta, None, g).1;
      || without == with
      || (without == Err(CacheFailure) && (g.getFails || !g.put.Stored?))
      || (without == Err(LedgerFailure) && g.reply.None?)
  {
    hide Submit, ParsedDefinition, ListFrom, CacheAfter;
    var all := late + [ReadDefinition(id, f), ReadDefinition(id, g)];
    assert Constant(early + [ReadDefinition(id, f)], truth) by {
      ConstantPart(all, early, ReadDefinition(id, f), truth);
    }
    assert Constant(late + [ReadDefinition(id, g)], truth) by {
      ConstantPart(all, late, ReadDefinition(id, g), truth);
    }
    CachedDefinition(parser, early, truth, id, f);
    CachedDefinition(parser, late, truth, id, g);
  }

  lemma ConstantPart(all: seq<Read>, part: seq<Read>, r: Read, truth: string -> Bytes)
    requires part <= all && r in all && Constant(all, truth)
    ensures Constant(part + [r], truth)
  {
    var i :| 0 <= i < |all| && all[i] == r;
    var some := part + [r];
    forall k | 0 <= k < |some| && some[k].fetch.reply.Some? ensures some[k].fetch.reply.value == truth(some[k].id) {
      assert k < |part| ==> some[k] == all[k];
    }
  }

  /**
    A status list that is returned carries the ledger's own time and issuer, has room
    for every credential, and marks exactly the ids the ledger reported as revoked if
    and only if the reported ids land so; for distinct ids, if and only if the ledger
    reported them in ascending order.
   */
  lemma StatusMarksRevoked(
    cache: Cache, parser: Parser, id: string, reply: Bytes, meta: Metadata, f: Fetch, delta: Delta, time: nat)
    requires parser.delta(reply) == Some((delta, time))
    ensures var r := Status(cache, parser, id, Some(reply), Some(meta), f).1;
      && (r.Ok? <==> Below(delta.issued, meta.maxCredNum) && Below(delta.revoked, meta.maxCredNum))
      && (r.Ok? ==>
          && r.value.id == id && r.value.issuer == meta.issuer && r.value.timestamp == time
          && |r.value.bits| >= meta.maxCredNum
          && (Exact(r.value.bits, delta.revoked, meta.maxCredNum)
              <==> forall x :: 0 <= x < meta.maxCredNum ==> (Lands(delta.revoked, x) <==> x in delta.revoked))
          && (Distinct(delta.revoked) ==>
                (Exact(r.value.bits, delta.revoked, meta.maxCredNum) <==> Ascending(delta.revoked))))
  {
    hide Bits, Exact, Lands;
    if Below(delta.issued, meta.maxCredNum) && Below(delta.revoked, meta.maxCredNum) {
      StatusListIsExact(delta, meta.maxCredNum);
    }
  }

  /**
    Without a constant ledger the law fails: as long as the cacher does not forget,
    the first reply stored for an id answers every later read, whatever the ledger
    says by then.
   */
  lemma {:induction false} FirstReplySticks(parser: Parser, run: seq<Read>, more: seq<Read>, id: string, f: Fetch)
    requires id in CacheAfter(parser, run)
    requires forall i :: 0 <= i < |more| ==> !more[i].fetch.forgets
    requires !f.getFails && !f.forgets
    ensures id in CacheAfter(parser, run + more) && CacheAfter(parser, run + more)[id] == CacheAfter(parser, run)[id]
    ensures Definition(CacheAfter(parser, run + more), parser, id, f).1
         == ParsedDefinition(parser, Ok(CacheAfter(parser, run)[id]))
  {
    if more == [] {
      assert run + more == run;
    } else {
      hide Step;
      var n := |more| - 1;
      FirstReplySticks(parser, run, more[..n], id, f);
      var all := run + more;
      assert all[..|all| - 1] == run + more[..n] && all[|all| - 1] == more[n];
      StepKeepsStored(CacheAfter(parser, run + more[..n]), parser, more[n], id);
    }
  }

  lemma StepKeepsStored(cache: Cache, parser: Parser, r: Read, id: string)
    requires id in cache && !r.fetch.forgets
    ensures id in Step(cache, parser, r) && Step(cache, parser, r)[id] == cache[id]
  {}
}
