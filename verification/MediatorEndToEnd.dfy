/**
  From a sender's envelope through the mediator's queue to the recipient, as requests
  going in and replies coming out of the mediator.
 */
module MediatorEndToEnd {
  import opened Wrappers
  import opened Keys
  import opened Envelope
  import opened MediatorStore
  import opened Mediator
  import opened MediatorRuns
  import opened MediatorReplies
  import Base64Url
  import JsonText

  // ------------------------------------------------------------ into the queue

  lemma {:induction false} ReadKeysLast(texts: seq<string>, text: string)
    ensures ReadKeys(texts + [text]) ==
      if ReadKeys(texts).Some? && FromBase58(text, Ed25519).Ok?
      then Some(ReadKeys(texts).value + [FromBase58(text, Ed25519).value]) else None
  {
    hide FromBase58;
    if texts == [] {
      assert texts + [text] == [text] && [text][1..] == [];
      assert ReadKeys([]) == Some([]);
      if FromBase58(text, Ed25519).Ok? {
        var k := FromBase58(text, Ed25519).value;
        assert [k] + [] == [] + [k] == [k];
      }
    } else {
      ReadKeysLast(texts[1..], text);
      assert (texts + [text])[1..] == texts[1..] + [text];
      if FromBase58(texts[0], Ed25519).Ok? && ReadKeys(texts[1..]).Some? && FromBase58(text, Ed25519).Ok? {
        var a, b, c := [FromBase58(texts[0], Ed25519).value], ReadKeys(texts[1..]).value, [FromBase58(text, Ed25519).value];
        assert a + (b + c) == a + b + c;
      }
    }
  }

  /** A mediator with its own key in its wallet, behind the upstream routing keys of its service. */
  ghost predicate Serves(world: World, m: Key, upstream: seq<Key>) {
    && m.keyType == Ed25519 && m in world.wallet.held
    && world.service.Some? && world.service.value.recipientKeys == [m.Base58Text()]
    && ReadKeys(world.service.value.routingKeys) == Some(upstream)
  }

  /**
    A grant is answered with keys that read as the upstream routing keys followed by
    the mediator's own; whatever the account reads in the reply is that grant.
   */
  lemma GrantRoute(
    json: JsonText.Codec<Wire>, world: World, input: Input, account: Key, m: Key, upstream: seq<Key>,
    endpoint: string, keys: seq<string>, hops: seq<Wallet>, mine: Wallet)
    requires Serves(world, m, upstream)
    requires Asks(world, input, account, m, Coordinate(MediateRequest)) && Ready(world, account.Base58Text(), hops, mine)
    ensures var (after, reply) := Step(json, world, input);
            && after == world
            && (ReplySays(reply, world.db.accounts[account.Base58Text()], hops, mine, Coordinate(MediateGrant(endpoint, keys))) <==>
                  endpoint == world.service.value.endpoint && keys == world.service.value.routingKeys + [m.Base58Text()])
    ensures ReadKeys(world.service.value.routingKeys + [m.Base58Text()]) == Some(upstream + [m])
  {
    hide FromBase58, ReadKeys, Step, CanRead, ReplySays;
    var service := world.service.value;
    MediateRequestIsGranted(json, world, input, account, m, service, m.Base58Text(), hops, mine);
    SaysOneThing(Step(json, world, input).1, world.db.accounts[account.Base58Text()], hops, mine,
                 Coordinate(MediateGrant(service.endpoint, service.routingKeys + [m.Base58Text()])),
                 Coordinate(MediateGrant(endpoint, keys)));
    FromBase58RoundTrip(m);
    ReadKeysLast(service.routingKeys, m.Base58Text());
  }

  lemma SaysOneThing(reply: Outcome, details: Account, hops: seq<Wallet>, mine: Wallet, a: AriesMessage, b: AriesMessage)
    requires ReplySays(reply, details, hops, mine, a)
    ensures ReplySays(reply, details, hops, mine, b) ==> a == b
  {
    hide Peel, Unpack, FromBase58;
  }

  /** How many Forward layers lie around a message. */
  function Depth(wire: Wire): nat {
    if wire.payload.Aries? && wire.payload.message.Forward? then 1 + Depth(wire.payload.message.msg) else 0
  }

  lemma {:induction false} WrapDepth(inner: Wire, to: Key, route: seq<Key>)
    ensures Depth(Wrap(inner, to, route)) == Depth(inner) + |route|
    decreases |route|
  {
    if route != [] {
      WrapDepth(Packed(None, route[0], Aries(Forward(to.Base58Text(), inner))), route[0], route[1..]);
    }
  }

  /**
    What happens to an envelope made with the routing keys of a grant.  The mediator
    queues what is inside its own layer for the owner of the hop that layer names, if
    it has one.  That is the message itself, for the account that registered its
    recipient key, if and only if the mediator has no upstream routing keys.
   */
  lemma ForwardIsQueued(
    json: JsonText.Codec<Wire>, world: World, m: Key, upstream: seq<Key>, account: string, r: Key,
    w: Wallet, payload: Payload, sender: Option<Key>, input: Input)
    requires JsonText.Faithful(json)
    requires Inv(world.db) && Serves(world, m, upstream)
    requires Recipient(account, r.Base58Text()) in world.db.recipients
    requires Created(w, payload, sender, r, upstream + [m]) == Ok(input.wire)
    requires !input.fault(0)
    ensures Step(json, world, input).1 == EmptyReply
    ensures var hop := LastHop(r, upstream).Base58Text(); var owner := Owner(world.db.recipients, hop);
            && (Stores(world, input) <==> owner.Some?)
            && (owner.Some? ==>
                  StoredRow(json, world, input) == Queued(|world.db.messages|, owner.value, Some(hop),
                                                          json.write(Wrap(Packed(sender, r, payload), r, upstream))))
    ensures Stores(world, input) && StoredRow(json, world, input) == RowFor(json, world, account, Packed(sender, r, payload))
            <==> upstream == []
  {
    hide Inv, Owner, Wrap, Step, Stores, StoredRow, JsonText.Faithful, Created;
    var inner := Packed(sender, r, payload);
    EnvelopeShape(world, m, upstream, r, w, payload, sender, input);
    ForwardStored(json, world, input, m, LastHop(r, upstream).Base58Text(), Wrap(inner, r, upstream));
    OwnerUnique(world.db, account, r.Base58Text());
    LayersShow(json, inner, r, upstream);
  }

  /** The outermost layer is the mediator's, and names the hop before it. */
  lemma EnvelopeShape(
    world: World, m: Key, upstream: seq<Key>, r: Key, w: Wallet, payload: Payload, sender: Option<Key>, input: Input)
    requires Serves(world, m, upstream)
    requires Created(w, payload, sender, r, upstream + [m]) == Ok(input.wire)
    ensures input.wire == Packed(None, m,
              Aries(Forward(LastHop(r, upstream).Base58Text(), Wrap(Packed(sender, r, payload), r, upstream))))
  {
    hide ReadKeys, Wrap;
    WrapLast(Packed(sender, r, payload), r, upstream, m);
  }

  lemma ForwardStored(json: JsonText.Codec<Wire>, world: World, input: Input, m: Key, to: string, msg: Wire)
    requires input.wire == Packed(None, m, Aries(Forward(to, msg))) && m in world.wallet.held && !input.fault(0)
    ensures Step(json, world, input).1 == EmptyReply
    ensures Stores(world, input) <==> Owner(world.db.recipients, to).Some?
    ensures Stores(world, input) ==>
      StoredRow(json, world, input) == Queued(|world.db.messages|, Owner(world.db.recipients, to).value, Some(to), json.write(msg))
  {
    hide Owner;
  }

  /** Wrapped messages are written differently from the message itself. */
  lemma LayersShow(json: JsonText.Codec<Wire>, inner: Wire, to: Key, route: seq<Key>)
    requires JsonText.Faithful(json)
    ensures json.write(Wrap(inner, to, route)) == json.write(inner) <==> route == []
    ensures route == [] ==> Wrap(inner, to, route) == inner
  {
    hide Wrap;
    WrapNone(inner, to);
    WrapDepth(inner, to, route);
    var wrapped := Wrap(inner, to, route);
    assert json.read(json.write(inner)) == Some(inner) && json.read(json.write(wrapped)) == Some(wrapped);
  }

  /** The row of a message queued for the account under its recipient's key. */
  function RowFor(json: JsonText.Codec<Wire>, world: World, account: string, message: Wire): Queued {
    Queued(|world.db.messages|, account, Some(message.to.Base58Text()), json.write(message))
  }

  // ---------------------------------------------------- what becomes of the key

  /** The request takes `key` off the account's list. */
  predicate Removes(world: World, input: Input, account: string, key: string) {
    && input.wire.to in world.wallet.held
    && input.wire.sender.Some? && input.wire.sender.value.Base58Text() == account
    && input.wire.payload.Aries? && input.wire.payload.message.Coordinate?
    && input.wire.payload.message.coordinate.KeylistUpdate?
    && !input.fault(0) && account in world.db.accounts
    && TakesOff(input.wire.payload.message.coordinate.updates, key, input.fault)
  }

  predicate TakesOff(items: seq<KeylistUpdateItem>, key: string, fault: nat -> bool) {
    exists i :: 0 <= i < |items| && items[i] == KeylistUpdateItem(key, Remove) && !fault(i + 1)
  }

  predicate RemovedDuring(json: JsonText.Codec<Wire>, world: World, inputs: seq<Input>, account: string, key: string) {
    if inputs == [] then false
    else
      var n := |inputs| - 1;
      RemovedDuring(json, world, inputs[..n], account, key) || Removes(Run(json, world, inputs[..n]), inputs[n], account, key)
  }

  /** Message `i` is the account's, queued under `key` and still carrying it. */
  ghost predicate Carries(db: Db, i: nat, account: string, key: string) {
    i < |db.messages| && db.messages[i].account == account && db.messages[i].recipientKey == Some(key)
  }

  /** An update takes the key off a message exactly if its account removes that key. */
  lemma UpdateFate(db: Db, who: string, item: KeylistUpdateItem, fault: bool, i: nat, account: string, key: string)
    requires Inv(db) && Carries(db, i, account, key)
    ensures Carries(Update(db, who, item, fault).0, i, account, key) <==>
            !(who == account && item == KeylistUpdateItem(key, Remove) && !fault)
  {
    hide Without;
    assert Recipient(account, key) in db.recipients && account in db.accounts;
    if Recipient(who, key) in db.recipients {
      OwnerUnique(db, account, key);
      OwnerUnique(db, who, key);
    }
  }

  lemma {:induction false} UpdatedFate(
    db: Db, who: string, items: seq<KeylistUpdateItem>, n: nat, fault: nat -> bool, i: nat, account: string, key: string)
    requires n <= |items| && Inv(db) && Carries(db, i, account, key)
    ensures Carries(UpdatedDb(db, who, items, n, fault), i, account, key) <==>
            !(who == account && TakesOff(items[..n], key, fault))
  {
    hide Inv, Update, Carries;
    if n > 0 {
      var before := UpdatedDb(db, who, items, n - 1, fault);
      UpdatedFate(db, who, items, n - 1, fault, i, account, key);
      UpdatedKeeps(db, who, items, n - 1, fault);
      TakesOffLast(items, n, key, fault);
      if Carries(before, i, account, key) {
        UpdateFate(before, who, items[n - 1], fault(n), i, account, key);
      } else {
        UpdateExtends(before, who, items[n - 1], fault(n));
        KeepsNotCarrying(db, before, i, account, key);
        StaysCleared(before, Update(before, who, items[n - 1], fault(n)).0, i, account, key);
      }
    }
  }

  lemma TakesOffLast(items: seq<KeylistUpdateItem>, n: nat, key: string, fault: nat -> bool)
    requires 0 < n <= |items|
    ensures TakesOff(items[..n], key, fault) <==>
            TakesOff(items[..n - 1], key, fault) || (items[n - 1] == KeylistUpdateItem(key, Remove) && !fault(n))
  {
    var longer, shorter := items[..n], items[..n - 1];
    if i :| 0 <= i < n - 1 && shorter[i] == KeylistUpdateItem(key, Remove) && !fault(i + 1) {
      assert longer[i] == shorter[i];
    }
    if i :| 0 <= i < n && longer[i] == KeylistUpdateItem(key, Remove) && !fault(i + 1) {
      if i < n - 1 { assert shorter[i] == longer[i]; }
    }
    assert longer[n - 1] == items[n - 1];
  }

  /** A message of the account that does not carry the key any more never will again. */
  lemma StaysCleared(db: Db, db': Db, i: nat, account: string, key: string)
    requires Extends(db, db') && i < |db.messages| && !Carries(db, i, account, key)
    ensures !Carries(db', i, account, key)
  {
    assert SameMessage(db.messages[i], db'.messages[i]);
  }

  lemma KeepsNotCarrying(db: Db, db': Db, i: nat, account: string, key: string)
    requires Extends(db, db') && Carries(db, i, account, key)
    ensures i < |db'.messages|
  {}

  lemma StepFate(json: JsonText.Codec<Wire>, world: World, input: Input, i: nat, account: string, key: string)
    requires Inv(world.db) && Carries(world.db, i, account, key)
    ensures Carries(Step(json, world, input).0.db, i, account, key) <==> !Removes(world, input, account, key)
  {
    hide Inv, UpdatedDb, PickupAnswer, PackAnswer, CreatedFromLegacy, TakesOff;
    if input.wire.to in world.wallet.held && input.wire.payload.Aries? {
      var message := input.wire.payload.message;
      if message.Coordinate? && message.coordinate.KeylistUpdate? && input.wire.sender.Some? {
        var items := message.coordinate.updates;
        UpdatedFate(world.db, input.wire.sender.value.Base58Text(), items, |items|, input.fault, i, account, key);
        assert items[..|items|] == items;
        CarrierHasAccount(world.db, i, account, key);
      }
    }
  }

  lemma CarrierHasAccount(db: Db, i: nat, account: string, key: string)
    requires Inv(db) && Carries(db, i, account, key)
    ensures account in db.accounts
  {}

  /** Over any run, a queued message carries its key exactly as long as its account has not removed that key. */
  lemma {:induction false} KeyFate(json: JsonText.Codec<Wire>, world: World, inputs: seq<Input>, i: nat, account: string, key: string)
    requires Inv(world.db) && Carries(world.db, i, account, key)
    ensures Carries(Run(json, world, inputs).db, i, account, key) <==> !RemovedDuring(json, world, inputs, account, key)
  {
    hide Inv, Step, Removes, Carries;
    if inputs != [] {
      var n := |inputs| - 1;
      var before := Run(json, world, inputs[..n]);
      KeyFate(json, world, inputs[..n], i, account, key);
      RunKeeps(json, world, inputs[..n]);
      StepKeeps(json, before, inputs[n]);
      if Carries(before.db, i, account, key) {
        StepFate(json, before, inputs[n], i, account, key);
      } else {
        KeepsNotCarrying(world.db, before.db, i, account, key);
        StaysCleared(before.db, Run(json, world, inputs).db, i, account, key);
      }
    }
  }

  // --------------------------------------------------------------- out of the queue

  /** The position of a message among the pending ones is the number of them queued before it. */
  lemma {:induction false} PendingPosition(messages: seq<Queued>, n: nat, account: string, key: Option<string>)
    requires n < |messages| && Matches(messages[n], account, key)
    requires forall i :: 0 <= i < |messages| ==> messages[i].id == i
    ensures var k, rows := |Pending(messages[..n], account, key)|, Pending(messages, account, key);
            k < |rows| && rows[k] == messages[n] && forall i :: 0 <= i < |rows| && rows[i].id == n ==> i == k
  {
    hide Pending, Matches;
    var last := |messages| - 1;
    var front := messages[..last];
    assert messages == front + [messages[last]];
    PendingLast(front, messages[last], account, key);
    if n < last {
      assert front[..n] == messages[..n];
      PendingPosition(front, n, account, key);
    } else {
      var before := Pending(front, account, key);
      forall i | 0 <= i < |before| ensures before[i].id < n {
        assert before[i] in before;
        PendingMembers(front, account, key, before[i]);
      }
    }
  }

  /** A message that does not match is not among the pending ones. */
  lemma NotPending(messages: seq<Queued>, n: nat, account: string, key: Option<string>, i: nat)
    requires n < |messages| && !Matches(messages[n], account, key)
    requires forall i :: 0 <= i < |messages| ==> messages[i].id == i
    requires i < |Pending(messages, account, key)|
    ensures Pending(messages, account, key)[i].id != n
  {
    hide Pending, Matches;
    var row := Pending(messages, account, key)[i];
    PendingMembers(messages, account, key, row);
    var j :| 0 <= j < |messages| && messages[j] == row;
  }

  lemma {:induction false} PendingSameCount(a: seq<Queued>, b: seq<Queued>, account: string, key: Option<string>)
    requires |a| == |b| && forall i :: 0 <= i < |a| ==> (Matches(a[i], account, key) <==> Matches(b[i], account, key))
    ensures |Pending(a, account, key)| == |Pending(b, account, key)|
  {
    hide Matches;
    if a != [] { PendingSameCount(a[1..], b[1..], account, key); }
  }

  function AtLeastOne(limit: nat): nat { if limit == 0 then 1 else limit }

  /** Attachment `id` is in what was said exactly when `due`, and then opens as it should. */
  ghost predicate HoldsExactly(
    json: JsonText.Codec<Wire>, said: PickupMessage, id: nat, due: bool,
    mine: Wallet, expected: Option<Key>, payload: Payload, sender: Option<Key>, r: Key)
  {
    var attach := if said.Delivery? then said.attach else [];
    && ((exists i :: 0 <= i < |attach| && attach[i].id == id) <==> due)
    && (forall i :: 0 <= i < |attach| && attach[i].id == id ==> Opens(json, mine, expected, attach[i], payload, sender, r))
  }

  lemma RowOpens(
    json: JsonText.Codec<Wire>, mine: Wallet, expected: Option<Key>, row: Queued, payload: Payload, sender: Option<Key>, r: Key)
    requires JsonText.Faithful(json) && row.data == json.write(Packed(sender, r, payload))
    requires r.keyType == Ed25519 && (sender.Some? ==> sender.value.keyType == Ed25519) && r in mine.held
    ensures Opens(json, mine, expected, Attachment(row.id, Base64Url.Encode(row.data)), payload, sender, r)
  {
    hide Unpack, Base64Url.Decode, Base64Url.Encode;
    Base64Url.DecodeEncode(row.data);
    UnpackOpens(mine, payload, sender, r, expected);
    UnpackOpens(mine, payload, sender, r, None);
  }

  lemma MessageAccount(db: Db, i: nat)
    requires Inv(db) && i < |db.messages|
    ensures db.messages[i].account in db.accounts
    ensures forall j :: 0 <= j < |db.messages| ==> db.messages[j].id == j
  {}

  /** The attachment decodes and unpacks to the payload, and authenticates exactly the real sender. */
  ghost predicate Opens(
    json: JsonText.Codec<Wire>, mine: Wallet, expected: Option<Key>, a: Attachment, payload: Payload, sender: Option<Key>, r: Key)
  {
    var bytes := Base64Url.Decode(a.base64);
    bytes.Some? &&
    var wire := json.read(bytes.value);
    && wire.Some?
    && Unpack(mine, wire.value, None) == Ok((payload, sender, r))
    && (Unpack(mine, wire.value, expected).Ok? <==> expected.None? || expected == sender)
  }

  /** A queued pack of the account's is delivered in its turn, if it matches the request, and opens there. */
  lemma DeliveredOpens(
    json: JsonText.Codec<Wire>, world: World, n: nat, account: string, limit: nat, filter: Option<string>, fault: nat -> bool,
    payload: Payload, sender: Option<Key>, r: Key, mine: Wallet, expected: Option<Key>) returns (said: PickupMessage)
    requires JsonText.Faithful(json)
    requires Inv(world.db) && n < |world.db.messages|
    requires world.db.messages[n].account == account && world.db.messages[n].data == json.write(Packed(sender, r, payload))
    requires r.keyType == Ed25519 && (sender.Some? ==> sender.value.keyType == Ed25519) && r in mine.held
    requires !fault(0) && !fault(1) && !fault(2)
    ensures Authenticated(world, Some(account), Pickup(DeliveryRequest(limit, filter)), fault) == (world.db, Say(Pickup(said)))
    ensures var due := Matches(world.db.messages[n], account, filter)
                       && |Pending(world.db.messages[..n], account, filter)| < AtLeastOne(limit);
            HoldsExactly(json, said, n, due, mine, expected, payload, sender, r)
  {
    hide Inv, Pending, Opens, Authenticated, Matches, JsonText.Faithful, HoldsExactly;
    var row := world.db.messages[n];
    MessageAccount(world.db, n);
    var rows := Pending(world.db.messages, account, filter);
    var attach := Attachments(Delivered(world.db, account, limit, filter));
    said := DeliverySaid(world, account, limit, filter, fault);
    assert forall i :: 0 <= i < |attach| ==> attach[i] == Attachment(rows[i].id, Base64Url.Encode(rows[i].data));
    if Matches(row, account, filter) {
      PendingPosition(world.db.messages, n, account, filter);
      var k := |Pending(world.db.messages[..n], account, filter)|;
      assert |attach| > 0 && (k < |attach| <==> k < AtLeastOne(limit));
      RowOpens(json, mine, expected, row, payload, sender, r);
      forall i | 0 <= i < |attach| ensures attach[i].id == n <==> i == k { assert rows[i].id == n ==> i == k; }
      HoldsAt(json, said, n, k, mine, expected, payload, sender, r);
    } else {
      forall i | 0 <= i < |attach| ensures attach[i].id != n { NotPending(world.db.messages, n, account, filter, i); }
      HoldsNothing(json, said, n, mine, expected, payload, sender, r);
    }
  }

  lemma DeliverySaid(world: World, account: string, limit: nat, filter: Option<string>, fault: nat -> bool) returns (said: PickupMessage)
    requires account in world.db.accounts && !fault(0) && !fault(1) && !fault(2)
    ensures Authenticated(world, Some(account), Pickup(DeliveryRequest(limit, filter)), fault) == (world.db, Say(Pickup(said)))
    ensures var attach := Attachments(Delivered(world.db, account, limit, filter));
            if attach != [] then said == Delivery(filter, attach) else said.Status?
  {
    hide Pending, CoordinateAnswer, Delivered;
    var attach := Attachments(Delivered(world.db, account, limit, filter));
    said := if attach != [] then Delivery(filter, attach) else Status(|Pending(world.db.messages, account, None)|, None);
  }

  lemma HoldsNothing(
    json: JsonText.Codec<Wire>, said: PickupMessage, id: nat,
    mine: Wallet, expected: Option<Key>, payload: Payload, sender: Option<Key>, r: Key)
    requires said.Delivery? ==> forall i :: 0 <= i < |said.attach| ==> said.attach[i].id != id
    ensures HoldsExactly(json, said, id, false, mine, expected, payload, sender, r)
  {
    hide Opens;
  }

  lemma HoldsAt(
    json: JsonText.Codec<Wire>, said: PickupMessage, id: nat, k: nat,
    mine: Wallet, expected: Option<Key>, payload: Payload, sender: Option<Key>, r: Key)
    requires said.Delivery? && forall i :: 0 <= i < |said.attach| ==> (said.attach[i].id == id <==> i == k)
    requires k < |said.attach| ==> Opens(json, mine, expected, said.attach[k], payload, sender, r)
    ensures HoldsExactly(json, said, id, k < |said.attach|, mine, expected, payload, sender, r)
  {
    var attach := said.attach;
    forall i | 0 <= i < |attach| && attach[i].id == id ensures Opens(json, mine, expected, attach[i], payload, sender, r) {
      assert i == k;
    }
    assert k < |attach| ==> attach[k].id == id;
  }

  /**
    When a delivery is due to hold the message that was queued next after `messages`:
    its turn has come, and, if only messages for its key are asked for, the account has
    not taken the key off its list meanwhile.
   */
  predicate Due(messages: seq<Queued>, account: string, filter: Option<string>, limit: nat, key: string, removed: bool) {
    && (filter.None? || (filter == Some(key) && !removed))
    && |Pending(messages, account, filter)| < AtLeastOne(limit)
  }

  /** The queue before the message counts the same now as when the message came, unless its key is gone. */
  lemma TurnIsKept(
    json: JsonText.Codec<Wire>, world: World, row: Queued, between: seq<Input>, account: string, filter: Option<string>, key: string)
    requires Inv(world.db) && world.db.messages != []
    requires world.db.messages[|world.db.messages| - 1] == row && row.account == account && row.recipientKey == Some(key)
    requires filter.None? || filter == Some(key)
    ensures var n, later := |world.db.messages| - 1, Run(json, world, between).db.messages;
            && n < |later| && SameMessage(row, later[n])
            && (Matches(later[n], account, filter) <==> filter.None? || !RemovedDuring(json, world, between, account, key))
            && (Matches(later[n], account, filter) ==>
                  |Pending(later[..n], account, filter)| == |Pending(world.db.messages[..n], account, filter)|)
  {
    hide Inv, Run, Pending, RemovedDuring;
    var n, later := |world.db.messages| - 1, Run(json, world, between).db;
    RunKeeps(json, world, between);
    assert SameMessage(world.db.messages[n], later.messages[n]);
    KeyFate(json, world, between, n, account, key);
    if Matches(later.messages[n], account, filter) {
      forall i | 0 <= i < n
        ensures Matches(world.db.messages[..n][i], account, filter) <==> Matches(later.messages[..n][i], account, filter)
      {
        assert SameMessage(world.db.messages[i], later.messages[i]);
        if filter.Some? && Carries(world.db, i, account, key) { KeyFate(json, world, between, i, account, key); }
      }
      PendingSameCount(world.db.messages[..n], later.messages[..n], account, filter);
    }
  }

  /**
    End to end, as requests and replies of the mediator, which has no upstream routing
    keys.  An account asks for mediation and reads routing keys in the reply; some run
    later it has registered key R.  Then anyone packs a message for R with those
    routing keys, anonymously or not, and sends it to the mediator; any run of other
    requests follows; and the account sends a packed delivery request, for everything
    or for R alone.  The packed reply passes the account's own routing hops and opens
    in its wallet.  It holds the message exactly when it is due; the message then
    unpacks with R to the same data and sender, and the expected-sender check passes
    exactly for the real sender.
   */
  lemma EndToEnd(
    json: JsonText.Codec<Wire>, start: World, m: Key, account: Key, r: Key,
    asking: Input, endpoint: string, keys: seq<string>, meanwhile: seq<Input>,
    w: Wallet, payload: Payload, sender: Option<Key>, input: Input, between: seq<Input>,
    request: Input, limit: nat, filter: Option<string>, hops: seq<Wallet>, mine: Wallet, expected: Option<Key>)
    returns (said: PickupMessage)
    requires JsonText.Faithful(json)
    requires Inv(start.db) && Serves(start, m, []) && Ready(start, account.Base58Text(), hops, mine)
    requires Asks(start, asking, account, m, Coordinate(MediateRequest))
    requires ReplySays(Step(json, start, asking).1, start.db.accounts[account.Base58Text()], hops, mine,
                       Coordinate(MediateGrant(endpoint, keys)))
    requires Recipient(account.Base58Text(), r.Base58Text()) in Run(json, start, meanwhile).db.recipients
    requires ReadKeys(keys).Some? ==>
      && RightKeys(sender, r, ReadKeys(keys).value) && WillPack(w, sender, r, ReadKeys(keys).value)
      && input.wire == Created(w, payload, sender, r, ReadKeys(keys).value).value
    requires !input.fault(0) && !request.fault(0) && !request.fault(1) && !request.fault(2)
    requires request.wire == Packed(Some(account), m, Aries(Pickup(DeliveryRequest(limit, filter))))
    requires filter.None? || filter == Some(r.Base58Text())
    requires r in mine.held
    ensures ReadKeys(keys).Some?
    ensures var name, world := account.Base58Text(), Run(json, start, meanwhile);
            var first := Step(json, world, input).0;
            var later := Run(json, first, between);
            var (after, reply) := Step(json, later, request);
            var due := Due(world.db.messages, name, filter, limit, r.Base58Text(),
                           RemovedDuring(json, first, between, name, r.Base58Text()));
            && after == later
            && ReplySays(reply, start.db.accounts[name], hops, mine, Pickup(said))
            && HoldsExactly(json, said, |world.db.messages|, due, mine, expected, payload, sender, r)
  {
    hide Inv, Run, Step, Created, ReadKeys, HoldsExactly, RemovedDuring, JsonText.Faithful, CanAnswer, CanRead, ReplySays, Due,
      RightKeys, WillPack;
    var name, world := account.Base58Text(), Run(json, start, meanwhile);
    GrantRoute(json, start, asking, account, m, [], endpoint, keys, hops, mine);
    assert [] + [m] == [m];
    CreatedTypes(w, payload, sender, r, [m]);
    RunKeeps(json, start, meanwhile);
    StillAnswers(start, world, name);
    said := QueuedAndDelivered(json, world, m, account, r, w, payload, sender, input, between, request, limit, filter, hops, mine, expected);
  }

  /** The second half, from the world in which R is registered. */
  lemma QueuedAndDelivered(
    json: JsonText.Codec<Wire>, world: World, m: Key, account: Key, r: Key,
    w: Wallet, payload: Payload, sender: Option<Key>, input: Input, between: seq<Input>,
    request: Input, limit: nat, filter: Option<string>, hops: seq<Wallet>, mine: Wallet, expected: Option<Key>)
    returns (said: PickupMessage)
    requires JsonText.Faithful(json)
    requires Inv(world.db) && Serves(world, m, []) && Ready(world, account.Base58Text(), hops, mine)
    requires Recipient(account.Base58Text(), r.Base58Text()) in world.db.recipients
    requires Created(w, payload, sender, r, [m]) == Ok(input.wire)
    requires !input.fault(0) && !request.fault(0) && !request.fault(1) && !request.fault(2)
    requires request.wire == Packed(Some(account), m, Aries(Pickup(DeliveryRequest(limit, filter))))
    requires filter.None? || filter == Some(r.Base58Text())
    requires r in mine.held
    ensures var name, first := account.Base58Text(), Step(json, world, input).0;
            var later := Run(json, first, between);
            var (after, reply) := Step(json, later, request);
            var due := Due(world.db.messages, name, filter, limit, r.Base58Text(),
                           RemovedDuring(json, first, between, name, r.Base58Text()));
            && after == later
            && ReplySays(reply, world.db.accounts[name], hops, mine, Pickup(said))
            && HoldsExactly(json, said, |world.db.messages|, due, mine, expected, payload, sender, r)
  {
    hide Inv, Run, Stores, StoredRow, Pending, Created, ReadKeys, HoldsExactly, RemovedDuring, JsonText.Faithful,
      Connect, PackAnswer, Authenticated, CanAnswer, CanRead, ReplySays, Matches;
    var name, key := account.Base58Text(), r.Base58Text();
    var first := Step(json, world, input).0;
    var later := Run(json, first, between);
    var n := |world.db.messages|;
    assert [] + [m] == [m];
    ForwardIsQueued(json, world, m, [], name, r, w, payload, sender, input);
    StepKeeps(json, world, input);
    RunKeeps(json, first, between);
    CreatedTypes(w, payload, sender, r, [m]);
    var row := RowFor(json, world, name, Packed(sender, r, payload));
    assert first.db.messages[..n] == world.db.messages;
    TurnIsKept(json, first, row, between, name, filter, key);
    said := DeliveredOpens(json, later, n, name, limit, filter, request.fault, payload, sender, r, mine, expected);
    StillAnswers(world, later, name);
    AnswerSays(later, name, Pickup(said), hops, mine);
  }
}
