/**
  What the mediator replies to each kind of request, as packed requests going in and
  packed replies coming out.
 */
module MediatorReplies {
  import opened Wrappers
  import opened Keys
  import opened Envelope
  import opened MediatorStore
  import opened Mediator
  import opened MediatorRuns
  import JsonText

  // ------------------------------------------------- answers and who reads them

  /** A packed answer reaches the account: its routing hops peel it and its own key opens exactly the answer. */
  lemma AnswerReaches(world: World, account: string, message: AriesMessage, hops: seq<Wallet>, mine: Wallet)
    requires PackAnswer(world, Some(account), Say(message)).Reply?
    requires var doc := world.db.accounts[account].didDoc;
             && ReadKeys(doc.routingKeys).Some? && Hold(hops, ReadKeys(doc.routingKeys).value)
             && FromBase58(doc.recipientKeys.value[0], Ed25519).Ok? && FromBase58(doc.recipientKeys.value[0], Ed25519).value in mine.held
    ensures var details := world.db.accounts[account];
            var peeled := Peel(PackAnswer(world, Some(account), Say(message)).wire, hops);
            var ours := FromBase58(details.ourSigningKey, Ed25519);
            && peeled.Some? && ours.Ok?
            && Unpack(mine, peeled.value.1, Some(ours.value)).Ok?
            && Unpack(mine, peeled.value.1, Some(ours.value)).value.0 == Aries(message)
  {
    hide Peel, Unpack, Created;
    var details := world.db.accounts[account];
    var ours := FromBase58(details.ourSigningKey, Ed25519).value;
    var recipient := FromBase58(details.didDoc.recipientKeys.value[0], Ed25519).value;
    var route := ReadKeys(details.didDoc.routingKeys).value;
    CreatedTypes(world.wallet, Aries(message), Some(ours), recipient, route);
    EnvelopeReachesRecipient(world.wallet, Aries(message), Some(ours), recipient, route, hops, mine, Some(ours));
    var inner := Peel(PackAnswer(world, Some(account), Say(message)).wire, hops).value.1;
    assert Unpack(mine, inner, Some(ours)).value.0 == Unpack(mine, inner, None).value.0 by { ExpectedKeepsPayload(mine, inner, ours); }
  }

  lemma ExpectedKeepsPayload(w: Wallet, wire: Wire, expected: Key)
    requires Unpack(w, wire, Some(expected)).Ok?
    ensures Unpack(w, wire, None).Ok? && Unpack(w, wire, Some(expected)).value == Unpack(w, wire, None).value
  {}

  /** Everything the mediator needs to answer an account: readable keys, and a wallet that packs for them. */
  predicate CanAnswer(world: World, account: string) {
    account in world.db.accounts &&
    var details := world.db.accounts[account];
    details.didDoc.recipientKeys.Some? && details.didDoc.recipientKeys.value != [] &&
    var ours, theirs := FromBase58(details.ourSigningKey, Ed25519), FromBase58(details.didDoc.recipientKeys.value[0], Ed25519);
    var route := ReadKeys(details.didDoc.routingKeys);
    && ours.Ok? && theirs.Ok? && route.Some?
    && world.wallet.packs(Some(ours.value), theirs.value) && PacksAnonymously(world.wallet, route.value)
  }

  lemma AnsweredIffCan(world: World, account: string, message: AriesMessage)
    ensures PackAnswer(world, Some(account), Say(message)).Reply? <==> CanAnswer(world, account)
  {
    hide ReadKeys, FromBase58, PacksAnonymously;
    if account in world.db.accounts {
      var details := world.db.accounts[account];
      if details.didDoc.recipientKeys.Some? && details.didDoc.recipientKeys.value != [] {
        TypeRead(details.ourSigningKey);
        TypeRead(details.didDoc.recipientKeys.value[0]);
      }
    }
  }

  lemma TypeRead(text: string)
    ensures FromBase58(text, Ed25519).Ok? ==> FromBase58(text, Ed25519).value.keyType == Ed25519
  {}

  /** The wallets on the way to the account and the account's own one hold the keys of its document. */
  ghost predicate CanRead(details: Account, hops: seq<Wallet>, mine: Wallet) {
    && details.didDoc.recipientKeys.Some? && details.didDoc.recipientKeys.value != []
    && ReadKeys(details.didDoc.routingKeys).Some? && Hold(hops, ReadKeys(details.didDoc.routingKeys).value)
    && var theirs := FromBase58(details.didDoc.recipientKeys.value[0], Ed25519); theirs.Ok? && theirs.value in mine.held
  }

  /** The reply, peeled by the hops, opens in the account's wallet to `message`, from the key made for the account. */
  ghost predicate ReplySays(reply: Outcome, details: Account, hops: seq<Wallet>, mine: Wallet, message: AriesMessage) {
    reply.Reply? &&
    var peeled, ours := Peel(reply.wire, hops), FromBase58(details.ourSigningKey, Ed25519);
    peeled.Some? && ours.Ok? &&
    var content := Unpack(mine, peeled.value.1, Some(ours.value));
    content.Ok? && content.value.0 == Aries(message)
  }

  lemma CreatedTypes(w: Wallet, payload: Payload, sender: Option<Key>, recipient: Key, route: seq<Key>)
    ensures Created(w, payload, sender, recipient, route).Ok? <==>
            RightKeys(sender, recipient, route) && WillPack(w, sender, recipient, route)
  {}

  /** An account that could be answered still can be, with the same details. */
  lemma StillAnswers(world: World, later: World, account: string)
    requires CanAnswer(world, account) && Extends(world.db, later.db) && OnlyMoreKeys(world, later)
    ensures CanAnswer(later, account) && later.db.accounts[account] == world.db.accounts[account]
  {
    hide ReadKeys, FromBase58;
  }

  lemma AnswerSays(world: World, account: string, message: AriesMessage, hops: seq<Wallet>, mine: Wallet)
    requires CanAnswer(world, account) && CanRead(world.db.accounts[account], hops, mine)
    ensures ReplySays(PackAnswer(world, Some(account), Say(message)), world.db.accounts[account], hops, mine, message)
  {
    hide Peel, Unpack, Created, ReadKeys, FromBase58;
    AnsweredIffCan(world, account, message);
    AnswerReaches(world, account, message, hops, mine);
  }

  // -------------------------------------------------- requests of known accounts

  /** The request is packed for a key the mediator holds, by the account, and the account is looked up without fault. */
  ghost predicate Asks(world: World, input: Input, account: Key, m: Key, message: AriesMessage) {
    input.wire == Packed(Some(account), m, Aries(message)) && m in world.wallet.held && !input.fault(0)
  }

  /** The account can be answered, and its hops and its wallet can read the answer. */
  ghost predicate Ready(world: World, account: string, hops: seq<Wallet>, mine: Wallet) {
    CanAnswer(world, account) && CanRead(world.db.accounts[account], hops, mine)
  }

  /** What the handlers say is what the account reads. */
  lemma Answered(
    json: JsonText.Codec<Wire>, world: World, input: Input, account: Key, m: Key, message: AriesMessage,
    said: AriesMessage, hops: seq<Wallet>, mine: Wallet)
    requires Asks(world, input, account, m, message) && Ready(world, account.Base58Text(), hops, mine)
    requires message.Pickup? || message.Coordinate?
    requires Authenticated(world, Some(account.Base58Text()), message, input.fault).1 == Say(said)
    ensures var (after, reply) := Step(json, world, input);
            && after == world.(db := Authenticated(world, Some(account.Base58Text()), message, input.fault).0)
            && ReplySays(reply, world.db.accounts[account.Base58Text()], hops, mine, said)
  {
    hide Authenticated, PackAnswer, CanAnswer, CanRead, ReplySays, Connect;
    AnswerSays(world, account.Base58Text(), said, hops, mine);
  }

  /** A mediate request is granted with the service's endpoint, its routing keys and its own key after them. */
  lemma MediateRequestIsGranted(
    json: JsonText.Codec<Wire>, world: World, input: Input, account: Key, m: Key, service: Service, own: string,
    hops: seq<Wallet>, mine: Wallet)
    requires Asks(world, input, account, m, Coordinate(MediateRequest)) && Ready(world, account.Base58Text(), hops, mine)
    requires world.service == Some(service) && service.recipientKeys == [own]
    ensures var (after, reply) := Step(json, world, input);
            && after == world
            && ReplySays(reply, world.db.accounts[account.Base58Text()], hops, mine,
                         Coordinate(MediateGrant(service.endpoint, service.routingKeys + [own])))
  {
    hide CanRead, ReplySays;
    Answered(json, world, input, account, m, Coordinate(MediateRequest),
             Coordinate(MediateGrant(service.endpoint, service.routingKeys + [own])), hops, mine);
  }

  /** When one update of a batch succeeds: its store call has no fault and, to be added, the key has no owner yet. */
  lemma SuccessMeans(db: Db, account: string, items: seq<KeylistUpdateItem>, i: nat, fault: nat -> bool)
    requires i < |items| && Inv(db) && account in db.accounts
    ensures Succeeds(db, account, items, i, fault) <==>
            !fault(i + 1) && (items[i].action == Add ==>
              forall a :: items[i].recipientKey !in KeysOf(UpdatedDb(db, account, items, i, fault).recipients, a))
  {
    hide Inv, UpdatedDb, KeysOf, Owner;
    UpdatedKeeps(db, account, items, i, fault);
    OwnerIsListed(UpdatedDb(db, account, items, i, fault), items[i].recipientKey);
  }

  /**
    A batch of key updates is answered item by item.  The account's list becomes the
    fold of the successful updates; nobody else's list and no account changes.
   */
  lemma KeylistUpdateIsAnswered(
    json: JsonText.Codec<Wire>, world: World, input: Input, account: Key, m: Key, items: seq<KeylistUpdateItem>,
    hops: seq<Wallet>, mine: Wallet) returns (updated: seq<KeylistUpdated>)
    requires Asks(world, input, account, m, Coordinate(KeylistUpdate(items))) && Ready(world, account.Base58Text(), hops, mine)
    requires Inv(world.db)
    ensures var (after, reply) := Step(json, world, input);
            var name, before := account.Base58Text(), world.db;
            && ReplySays(reply, before.accounts[name], hops, mine, Coordinate(KeylistUpdateResponse(updated)))
            && |updated| == |items|
            && (forall i :: 0 <= i < |items| ==>
                  && updated[i].recipientKey == items[i].recipientKey && updated[i].action == items[i].action
                  && (updated[i].result == Success <==> Succeeds(before, name, items, i, input.fault)))
            && KeysOf(after.db.recipients, name) == Folded(KeysOf(before.recipients, name), items, updated)
            && (forall other :: other != name ==> KeysOf(after.db.recipients, other) == KeysOf(before.recipients, other))
            && after.db.accounts == before.accounts && after.service == world.service && after.wallet == world.wallet
  {
    hide CanRead, ReplySays, KeysOf, UpdatedDb, UpdateReplies, Folded, Inv, Succeeds;
    var name := account.Base58Text();
    updated := UpdateReplies(world.db, name, items, input.fault);
    Answered(json, world, input, account, m, Coordinate(KeylistUpdate(items)),
             Coordinate(KeylistUpdateResponse(updated)), hops, mine);
    forall i | 0 <= i < |items|
      ensures && updated[i].recipientKey == items[i].recipientKey && updated[i].action == items[i].action
              && (updated[i].result == Success <==> Succeeds(world.db, name, items, i, input.fault))
    {
      ReplyAt(world.db, name, items, i, input.fault);
    }
    UpdatedKeeps(world.db, name, items, |items|, input.fault);
    assert items[..|items|] == items && updated[..|items|] == updated;
    forall other ensures KeysOf(UpdatedDb(world.db, name, items, |items|, input.fault).recipients, other) ==
        if other == name then Folded(KeysOf(world.db.recipients, name), items, updated) else KeysOf(world.db.recipients, other)
    {
      KeylistUpdateFolds(world.db, name, items, |items|, input.fault, other);
    }
  }

  /** A keylist query is answered with exactly the account's keys, once each. */
  lemma KeylistQueryIsAnswered(
    json: JsonText.Codec<Wire>, world: World, input: Input, account: Key, m: Key, hops: seq<Wallet>, mine: Wallet)
    returns (keys: seq<string>)
    requires Asks(world, input, account, m, Coordinate(KeylistQuery)) && Ready(world, account.Base58Text(), hops, mine)
    requires Inv(world.db) && !input.fault(1)
    ensures var (after, reply) := Step(json, world, input);
            && after == world
            && ReplySays(reply, world.db.accounts[account.Base58Text()], hops, mine, Coordinate(Keylist(keys)))
            && (forall key :: key in keys <==> Recipient(account.Base58Text(), key) in world.db.recipients)
            && NoRepeats(keys)
  {
    hide CanRead, ReplySays, KeysOf;
    var name := account.Base58Text();
    keys := KeysOf(world.db.recipients, name);
    Answered(json, world, input, account, m, Coordinate(KeylistQuery), Coordinate(Keylist(keys)), hops, mine);
    forall key ensures key in keys <==> Recipient(name, key) in world.db.recipients {
      KeysOfMembers(world.db.recipients, name, key);
    }
    KeysOfDistinct(world.db.recipients, name);
  }

  /** The key whose messages a pickup message is answered about when there is nothing to deliver. */
  function StatusKey(message: PickupMessage): Option<string> {
    if message.StatusRequest? then message.requestKey else None
  }

  /**
    A status request is answered with the number of messages it is about.  Every other
    pickup message that delivers nothing is answered with the number of all the
    account's messages, also a delivery request that names a key.
   */
  lemma StatusIsAnswered(
    json: JsonText.Codec<Wire>, world: World, input: Input, account: Key, m: Key, message: PickupMessage,
    hops: seq<Wallet>, mine: Wallet)
    requires Asks(world, input, account, m, Pickup(message)) && Ready(world, account.Base58Text(), hops, mine)
    requires !input.fault(1) && !input.fault(2)
    requires message.DeliveryRequest? ==> Matching(world.db.messages, account.Base58Text(), message.deliveryKey) == {}
    ensures var (after, reply) := Step(json, world, input);
            && after == world
            && ReplySays(reply, world.db.accounts[account.Base58Text()], hops, mine,
                         Pickup(Status(|Matching(world.db.messages, account.Base58Text(), StatusKey(message))|, StatusKey(message))))
  {
    hide CanRead, ReplySays, Matching, Pending;
    var name := account.Base58Text();
    var key := StatusKey(message);
    PendingCount(world.db.messages, name, key);
    if message.DeliveryRequest? { PendingCount(world.db.messages, name, message.deliveryKey); }
    Answered(json, world, input, account, m, Pickup(message),
             Pickup(Status(|Matching(world.db.messages, name, key)|, key)), hops, mine);
  }

  /** A delivery request is answered with messages, as many as the limit allows, when any match it. */
  lemma DeliveryIsAnswered(
    json: JsonText.Codec<Wire>, world: World, input: Input, account: Key, m: Key, limit: nat, key: Option<string>,
    hops: seq<Wallet>, mine: Wallet) returns (attach: seq<Attachment>)
    requires Asks(world, input, account, m, Pickup(DeliveryRequest(limit, key))) && Ready(world, account.Base58Text(), hops, mine)
    requires !input.fault(1) && Matching(world.db.messages, account.Base58Text(), key) != {}
    ensures var (after, reply) := Step(json, world, input);
            var waiting := |Matching(world.db.messages, account.Base58Text(), key)|;
            && after == world
            && ReplySays(reply, world.db.accounts[account.Base58Text()], hops, mine, Pickup(Delivery(key, attach)))
            && |attach| == (if limit == 0 then 1 else if limit < waiting then limit else waiting)
            && (forall i :: 0 <= i < |attach| ==> Genuine(attach[i], world.db, account.Base58Text(), key))
  {
    hide CanRead, ReplySays, Matching, Pending, Genuine;
    var name := account.Base58Text();
    PendingCount(world.db.messages, name, key);
    DeliveryIsGenuine(world, name, limit, key, input.fault);
    var said := Authenticated(world, Some(name), Pickup(DeliveryRequest(limit, key)), input.fault).1.message;
    attach := said.pickup.attach;
    Answered(json, world, input, account, m, Pickup(DeliveryRequest(limit, key)), said, hops, mine);
  }

  // -------------------------------------------------------------------- refusals

  /** Nothing changes, and nobody is answered, in each of these cases. */
  lemma Refused(json: JsonText.Codec<Wire>, world: World, input: Input)
    ensures input.wire.to !in world.wallet.held ==> Step(json, world, input) == (world, Panicked)
    ensures input.wire.to in world.wallet.held && input.wire.payload.Text? ==> Step(json, world, input) == (world, Failed)
    ensures input.wire.to in world.wallet.held && input.wire.payload.Aries? ==>
      var message := input.wire.payload.message;
      && (message.ConnectionResponse? || message.OtherConnection? ==> Step(json, world, input) == (world, Failed))
      && (message.Pickup? || message.Coordinate? || message.OtherMessage? ==>
            input.wire.sender.None? || input.fault(0) || input.wire.sender.value.Base58Text() !in world.db.accounts ==>
              Step(json, world, input) == (world, Failed))
      && (message.OtherMessage? ==> Step(json, world, input) == (world, Failed))
  {
    hide CreatedFromLegacy, PickupAnswer, CoordinateAnswer;
  }

  /** A known account's request ends in a panic when the store fails or the message is not implemented. */
  lemma StoreFaultPanics(json: JsonText.Codec<Wire>, world: World, input: Input, account: Key, m: Key, message: AriesMessage)
    requires Asks(world, input, account, m, message) && account.Base58Text() in world.db.accounts
    ensures message.Pickup? && input.fault(1) ==> Step(json, world, input) == (world, Panicked)
    ensures message == Coordinate(KeylistQuery) && input.fault(1) ==> Step(json, world, input) == (world, Panicked)
    ensures message == Coordinate(MediateRequest) && world.service.None? ==> Step(json, world, input) == (world, Failed)
    ensures (message.Coordinate? && !message.coordinate.MediateRequest? && !message.coordinate.KeylistUpdate?
             && !message.coordinate.KeylistQuery?) ==> Step(json, world, input) == (world, Panicked)
  {
    hide CreatedFromLegacy;
  }

  // ------------------------------------------------------------------ connections

  /** What it takes to be connected: readable keys on both sides, a wallet that packs, a new account, no fault. */
  predicate CanConnect(world: World, doc: DidDoc, input: Input) {
    doc.wellFormed && input.newKey.Some? && !input.fault(0) && !input.fault(1) && !input.fault(2) &&
    world.service.Some? && world.service.value.recipientKeys != [] &&
    doc.recipientKeys.Some? && doc.recipientKeys.value != [] && doc.recipientKeys.value[0] !in world.db.accounts &&
    var ours := FromBase58(world.service.value.recipientKeys[0], Ed25519);
    var theirs, route := FromBase58(doc.recipientKeys.value[0], Ed25519), ReadKeys(doc.routingKeys);
    && ours.Ok? && theirs.Ok? && route.Some?
    && world.wallet.packs(Some(ours.value), theirs.value)
    && forall i :: 0 <= i < |route.value| ==> world.wallet.packs(None, route.value[i])
  }

  ghost predicate Connects(world: World, input: Input, doc: DidDoc) {
    input.wire.to in world.wallet.held && input.wire.payload == Aries(ConnectionRequest(doc))
  }

  /** A connection request, from anyone, is answered exactly when it can be; it never touches keys, queues or other accounts. */
  lemma ConnectedIffCan(json: JsonText.Codec<Wire>, world: World, doc: DidDoc, input: Input)
    requires Connects(world, input, doc)
    ensures Step(json, world, input).1.Reply? <==> CanConnect(world, doc, input)
    ensures var db := Step(json, world, input).0.db;
            && db.recipients == world.db.recipients && db.messages == world.db.messages
            && (forall a :: a in world.db.accounts ==> a in db.accounts && db.accounts[a] == world.db.accounts[a])
  {
    hide ReadKeys, FromBase58;
    if world.service.Some? && world.service.value.recipientKeys != [] && doc.recipientKeys.Some? && doc.recipientKeys.value != [] {
      TypeRead(world.service.value.recipientKeys[0]);
      TypeRead(doc.recipientKeys.value[0]);
    }
  }

  /**
    A connection request that can be answered opens exactly one account, under the
    first key of the sender's document, with the key made for it.  The reply passes the
    document's routing hops and opens to the connection response, from the service's
    key, naming the new key; and whatever requests follow, the account keeps that key
    and that document.
   */
  lemma ConnectOpensAccount(
    json: JsonText.Codec<Wire>, world: World, doc: DidDoc, input: Input, between: seq<Input>, hops: seq<Wallet>, mine: Wallet)
    requires Inv(world.db) && Connects(world, input, doc) && CanConnect(world, doc, input)
    requires Hold(hops, ReadKeys(doc.routingKeys).value) && FromBase58(doc.recipientKeys.value[0], Ed25519).value in mine.held
    ensures var (world', reply) := Step(json, world, input);
            var account, key, own := doc.recipientKeys.value[0], input.newKey.value, world.service.value.recipientKeys[0];
            && world' == World(world.wallet.(held := world.wallet.held + {key}), world.service,
                               world.db.(accounts := world.db.accounts[account := Account(key.Base58Text(), doc)]))
            && (var later := Run(json, world', between).db.accounts;
                account in later && later[account] == Account(key.Base58Text(), doc))
            && reply.Reply?
            && (var peeled := Peel(reply.wire, hops);
                && peeled.Some?
                && Unpack(mine, peeled.value.1, Some(FromBase58(own, Ed25519).value)).Ok?
                && Unpack(mine, peeled.value.1, None).value.0 == Aries(ConnectionResponse(own, key.Base58Text())))
  {
    hide Peel, Unpack, Created, Run, Inv, FromBase58, ReadKeys;
    var (world', reply) := Step(json, world, input);
    var key, own := input.newKey.value, world.service.value.recipientKeys[0];
    var response := Aries(ConnectionResponse(own, key.Base58Text()));
    var sender := FromBase58(own, Ed25519).value;
    var recipient := FromBase58(doc.recipientKeys.value[0], Ed25519).value;
    var route := ReadKeys(doc.routingKeys).value;
    TypeRead(own);
    TypeRead(doc.recipientKeys.value[0]);
    EnvelopeReachesRecipient(world'.wallet, response, Some(sender), recipient, route, hops, mine, Some(sender));
    ConnectedIffCan(json, world, doc, input);
    StepKeeps(json, world, input);
    RunKeeps(json, world', between);
  }
}
