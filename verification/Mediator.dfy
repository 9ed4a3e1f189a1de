/**
  The mediator: it opens each incoming message, queues forwards by recipient key,
  answers pickup and coordination requests of authenticated accounts, and opens
  accounts.  `Step` says what one incoming message does; the agent does it.
 */
module Mediator {
  import opened Wrappers
  import opened Keys
  import opened Envelope
  import opened MediatorStore
  import Base64Url
  import JsonText

  datatype Service = Service(endpoint: string, recipientKeys: seq<string>, routingKeys: seq<string>)

  datatype World = World(wallet: Wallet, service: Option<Service>, db: Db)

  /**
    One HTTP request.  `newKey` is what the wallet makes when asked for a new DID,
    `fault(n)` whether backend call number n of this request fails.
   */
  datatype Input = Input(wire: Wire, newKey: Option<Key>, fault: nat -> bool)

  datatype Outcome = Reply(wire: Wire) | EmptyReply | Failed | Panicked

  datatype AckStatus = AckOk | AckFail | AckPending

  /** What a handler has to say before its answer is packed. */
  datatype Answer = Say(message: AriesMessage) | Refuse | Crash

  // ------------------------------------------------------------------- pickup

  /** `handle_pickup_status_req`; a failing store is unwrapped and panics. */
  function StatusAnswer(db: Db, account: string, key: Option<string>, fault: bool): Answer {
    if fault || account !in db.accounts then Crash
    else Say(Pickup(Status(|Pending(db.messages, account, key)|, key)))
  }

  function Attachments(rows: seq<Queued>): (attach: seq<Attachment>)
    ensures |attach| == |rows|
    ensures forall i :: 0 <= i < |rows| ==> attach[i] == Attachment(rows[i].id, Base64Url.Encode(rows[i].data))
  {
    seq(|rows|, i requires 0 <= i < |rows| => Attachment(rows[i].id, Base64Url.Encode(rows[i].data)))
  }

  /** The rows a delivery request is served. */
  function Delivered(db: Db, account: string, limit: nat, key: Option<string>): seq<Queued> {
    var rows := Pending(db.messages, account, key);
    rows[..Taken(|rows|, limit)]
  }

  function PickupAnswer(db: Db, account: string, message: PickupMessage, fault: nat -> bool): Answer {
    match message
    case StatusRequest(key) => StatusAnswer(db, account, key, fault(1))
    case DeliveryRequest(limit, key) =>
      if fault(1) || account !in db.accounts then Crash
      else
        var rows := Delivered(db, account, limit, key);
        if rows != [] then Say(Pickup(Delivery(key, Attachments(rows))))
        else StatusAnswer(db, account, None, fault(2))
    case _ => StatusAnswer(db, account, None, fault(1))
  }

  // ------------------------------------------------------------- coordination

  /** The store after the first `n` updates of a batch. */
  function UpdatedDb(db: Db, account: string, items: seq<KeylistUpdateItem>, n: nat, fault: nat -> bool): Db
    requires n <= |items|
  {
    if n == 0 then db
    else Update(UpdatedDb(db, account, items, n - 1, fault), account, items[n - 1], fault(n)).0
  }

  predicate Succeeds(db: Db, account: string, items: seq<KeylistUpdateItem>, i: nat, fault: nat -> bool)
    requires i < |items|
  {
    Update(UpdatedDb(db, account, items, i, fault), account, items[i], fault(i + 1)).1
  }

  function UpdateReplies(db: Db, account: string, items: seq<KeylistUpdateItem>, fault: nat -> bool)
    : (r: seq<KeylistUpdated>)
    ensures |r| == |items|
  {
    seq(|items|, i requires 0 <= i < |items| =>
      KeylistUpdated(items[i].recipientKey, items[i].action,
                     if Succeeds(db, account, items, i, fault) then Success else ServerError))
  }

  lemma UpdatedNone(db: Db, account: string, items: seq<KeylistUpdateItem>, fault: nat -> bool)
    ensures UpdatedDb(db, account, items, 0, fault) == db
  {}

  lemma UpdatedNext(db: Db, account: string, items: seq<KeylistUpdateItem>, i: nat, fault: nat -> bool)
    requires i < |items|
    ensures var (db', ok) := Update(UpdatedDb(db, account, items, i, fault), account, items[i], fault(i + 1));
      && UpdatedDb(db, account, items, i + 1, fault) == db'
      && UpdateReplies(db, account, items, fault)[..i + 1] == UpdateReplies(db, account, items, fault)[..i]
         + [KeylistUpdated(items[i].recipientKey, items[i].action, if ok then Success else ServerError)]
  {
    hide Update;
  }

  /** The routing keys of a grant: the service's own, then its recipient key. */
  function GrantKeys(service: Service): seq<string>
    requires service.recipientKeys != []
  {
    service.routingKeys + [service.recipientKeys[0]]
  }

  function CoordinateAnswer(world: World, account: string, message: CoordinateMediation, fault: nat -> bool): (Db, Answer) {
    match message
    case MediateRequest =>
      (world.db,
       if world.service.None? then Refuse
       else if world.service.value.recipientKeys == [] then Crash
       else Say(Coordinate(MediateGrant(world.service.value.endpoint, GrantKeys(world.service.value)))))
    case KeylistUpdate(items) =>
      (UpdatedDb(world.db, account, items, |items|, fault),
       Say(Coordinate(KeylistUpdateResponse(UpdateReplies(world.db, account, items, fault)))))
    case KeylistQuery =>
      (world.db,
       if fault(1) || account !in world.db.accounts then Crash
       else Say(Coordinate(Keylist(KeysOf(world.db.recipients, account)))))
    case _ => (world.db, Crash)
  }

  // ------------------------------------------------------------------ dispatch

  /** The authenticated branch of `handle_aries`, up to the unpacked answer. */
  function Authenticated(world: World, sender: Option<string>, message: AriesMessage, fault: nat -> bool): (Db, Answer) {
    if sender.None? || fault(0) || sender.value !in world.db.accounts then (world.db, Refuse)
    else match message
      case Pickup(p) => (world.db, PickupAnswer(world.db, sender.value, p, fault))
      case Coordinate(c) => CoordinateAnswer(world, sender.value, c, fault)
      case _ => (world.db, Refuse)
  }

  /** The answer is packed for the account's DID document, from the key made for it. */
  function PackAnswer(world: World, account: Option<string>, answer: Answer): Outcome {
    match answer
    case Refuse => Failed
    case Crash => Panicked
    case Say(message) =>
      if account.None? || account.value !in world.db.accounts then Failed
      else
        var details := world.db.accounts[account.value];
        match CreatedFromLegacy(world.wallet, Aries(message), details.ourSigningKey, details.didDoc)
        case Ok(wire) => Reply(wire)
        case Err(_) => Failed
  }

  /** `handle_connection_req`: the account is opened last, after the response is packed. */
  function Connect(world: World, doc: DidDoc, input: Input): (World, Outcome) {
    if !doc.wellFormed || input.newKey.None? then (world, Failed)
    else
      var key := input.newKey.value;
      var wallet := world.wallet.(held := world.wallet.held + {key});
      var world' := world.(wallet := wallet);
      if world.service.None? || world.service.value.recipientKeys == [] then (world', Panicked)
      else if input.fault(2) then (world', Failed)
      else
        var ours := world.service.value.recipientKeys[0];
        match CreatedFromLegacy(wallet, Aries(ConnectionResponse(ours, key.Base58Text())), ours, doc)
        case Err(_) => (world', Failed)
        case Ok(wire) =>
          if doc.recipientKeys.None? || doc.recipientKeys.value == [] then (world', Failed)
          else
            var (db, inserted) := CreateAccount(world.db, doc.recipientKeys.value[0], Account(key.Base58Text(), doc), input.fault(0));
            (world'.(db := db), if inserted && !input.fault(1) then Reply(wire) else Failed)
  }

  /** `handle_aries` */
  function Step(json: JsonText.Codec<Wire>, world: World, input: Input): (World, Outcome) {
    match UnpackMessage(world.wallet, input.wire)
    case None => (world, Panicked)
    case Some(Unpacked(Text(_), _, _)) => (world, Failed)
    case Some(Unpacked(Aries(message), sender, _)) =>
      match message
      case ConnectionRequest(doc) => Connect(world, doc, input)
      case ConnectionResponse(_, _) => (world, Failed)
      case OtherConnection => (world, Failed)
      case Forward(to, msg) =>
        (world.(db := PersistForward(world.db, to, json.write(msg), input.fault(0)).0), EmptyReply)
      case _ =>
        var (db, answer) := Authenticated(world, sender, message, input.fault);
        (world.(db := db), PackAnswer(world, sender, answer))
  }

  // ---------------------------------------------------------------- the agent

  class Agent {
    const store: Store
    const json: JsonText.Codec<Wire>
    var wallet: Wallet
    var service: Option<Service>

    constructor (store: Store, json: JsonText.Codec<Wire>, wallet: Wallet)
      ensures this.store == store && this.json == json
      ensures View() == World(wallet, None, store.db)
    {
      this.store := store;
      this.json := json;
      this.wallet := wallet;
      this.service := None;
    }

    ghost function View(): World
      reads this, store
    {
      World(wallet, service, store.db)
    }

    /** `reset_service`: a new DID becomes the service's only recipient key. */
    method ResetService(routingKeys: seq<string>, endpoint: string, newKey: Option<Key>) returns (ok: bool)
      modifies this
      ensures ok == newKey.Some?
      ensures View() == if newKey.None? then old(View())
                        else World(old(wallet).(held := old(wallet).held + {newKey.value}),
                                   Some(Service(endpoint, [newKey.value.Base58Text()], routingKeys)), store.db)
    {
      if newKey.None? { return false; }
      wallet := wallet.(held := wallet.held + {newKey.value});
      service := Some(Service(endpoint, [newKey.value.Base58Text()], routingKeys));
      ok := true;
    }

    /** `handle_forward`: acknowledged whether or not the message could be stored. */
    method HandleForward(to: string, msg: Wire, fault: bool) returns (ack: AckStatus)
      modifies store
      ensures store.db == PersistForward(old(store.db), to, json.write(msg), fault).0
      ensures ack == AckOk
    {
      var _ := store.PersistForwardMessage(to, json.write(msg), fault);
      ack := AckOk;
    }

    /** `handle_keylist_update`: one store call and one reply item per update. */
    method HandleKeylistUpdate(account: string, items: seq<KeylistUpdateItem>, fault: nat -> bool)
      returns (updated: seq<KeylistUpdated>)
      modifies store
      ensures store.db == UpdatedDb(old(store.db), account, items, |items|, fault)
      ensures updated == UpdateReplies(old(store.db), account, items, fault)
    {
      hide AddRecipient, RemoveRecipient, KeysOf, KeyAdded, KeyRemoved, UpdateReplies, UpdatedDb;
      updated := [];
      UpdatedNone(store.db, account, items, fault);
      var i := 0;
      while i < |items|
        invariant 0 <= i == |updated| <= |items|
        invariant store.db == UpdatedDb(old(store.db), account, items, i, fault)
        invariant updated == UpdateReplies(old(store.db), account, items, fault)[..i]
      {
        var item := items[i];
        var ok;
        match item.action {
          case Add => ok := store.AddRecipientRow(account, item.recipientKey, fault(i + 1));
          case Remove => ok := store.RemoveRecipientRow(account, item.recipientKey, fault(i + 1));
        }
        UpdatedNext(old(store.db), account, items, i, fault);
        updated := updated + [KeylistUpdated(item.recipientKey, item.action, if ok then Success else ServerError)];
        i := i + 1;
      }
    }

    method HandlePickupStatus(account: string, key: Option<string>, fault: bool) returns (answer: Answer)
      ensures answer == StatusAnswer(store.db, account, key, fault)
    {
      var count := store.RetrievePendingMessageCount(account, key, fault);
      if count.None? { return Crash; }
      answer := Say(Pickup(Status(count.value, key)));
    }

    method HandlePickup(account: string, message: PickupMessage, fault: nat -> bool) returns (answer: Answer)
      ensures answer == PickupAnswer(store.db, account, message, fault)
    {
      match message {
        case StatusRequest(key) => answer := HandlePickupStatus(account, key, fault(1));
        case DeliveryRequest(limit, key) =>
          var rows := store.RetrievePendingMessages(account, limit, key, fault(1));
          if rows.None? { return Crash; }
          var attach := Attachments(rows.value);
          if attach != [] {
            answer := Say(Pickup(Delivery(key, attach)));
          } else {
            answer := HandlePickupStatus(account, None, fault(2));
          }
        case _ => answer := HandlePickupStatus(account, None, fault(1));
      }
    }

    method HandleCoordinate(account: string, message: CoordinateMediation, fault: nat -> bool) returns (answer: Answer)
      modifies store
      ensures (store.db, answer) == CoordinateAnswer(old(View()), account, message, fault)
    {
      match message {
        case MediateRequest =>
          if service.None? { return Refuse; }
          if service.value.recipientKeys == [] { return Crash; }
          var routingKeys: seq<string> := [];
          routingKeys := routingKeys + service.value.routingKeys;
          routingKeys := routingKeys + [service.value.recipientKeys[0]];
          assert routingKeys == GrantKeys(service.value);
          answer := Say(Coordinate(MediateGrant(service.value.endpoint, routingKeys)));
        case KeylistUpdate(items) =>
          var updated := HandleKeylistUpdate(account, items, fault);
          answer := Say(Coordinate(KeylistUpdateResponse(updated)));
        case KeylistQuery =>
          var keys := store.ListRecipientKeys(account, fault(1));
          if keys.None? { return Crash; }
          answer := Say(Coordinate(Keylist(keys.value)));
        case _ => answer := Crash;
      }
    }

    method HandleConnectionRequest(doc: DidDoc, input: Input) returns (out: Outcome)
      modifies this`wallet, store
      ensures (View(), out) == Connect(old(View()), doc, input)
    {
      if !doc.wellFormed || input.newKey.None? { return Failed; }
      var key := input.newKey.value;
      wallet := wallet.(held := wallet.held + {key});
      if service.None? || service.value.recipientKeys == [] { return Panicked; }
      if input.fault(2) { return Failed; }
      var ours := service.value.recipientKeys[0];
      var envelope := CreatedFromLegacy(wallet, Aries(ConnectionResponse(ours, key.Base58Text())), ours, doc);
      if envelope.Err? { return Failed; }
      if doc.recipientKeys.None? || doc.recipientKeys.value == [] { return Failed; }
      var ok := store.CreateAccountRow(doc.recipientKeys.value[0], Account(key.Base58Text(), doc), input.fault(0), input.fault(1));
      out := if ok then Reply(envelope.value) else Failed;
    }

    /** The authenticated flow of `handle_aries`: known account, then pickup or coordination. */
    method HandleAuthenticated(sender: Option<string>, message: AriesMessage, fault: nat -> bool) returns (answer: Answer)
      modifies store
      ensures (store.db, answer) == Authenticated(old(View()), sender, message, fault)
    {
      if sender.None? || fault(0) || sender.value !in store.db.accounts { return Refuse; }
      if message.Pickup? {
        answer := HandlePickup(sender.value, message.pickup, fault);
      } else if message.Coordinate? {
        answer := HandleCoordinate(sender.value, message.coordinate, fault);
      } else {
        answer := Refuse;
      }
    }

    /** `handle_aries` */
    method HandleAries(input: Input) returns (out: Outcome)
      modifies this`wallet, store
      ensures (View(), out) == Step(json, old(View()), input)
    {
      hide CreatedFromLegacy, PersistForward, Authenticated, Connect;
      var unpacked := UnpackMessage(wallet, input.wire);
      if unpacked.None? { return Panicked; }
      if unpacked.value.payload.Text? { return Failed; }
      var message, sender := unpacked.value.payload.message, unpacked.value.senderVerkey;
      if message.ConnectionRequest? {
        out := HandleConnectionRequest(message.didDoc, input);
      } else if message.ConnectionResponse? || message.OtherConnection? {
        out := Failed;
      } else if message.Forward? {
        var _ := HandleForward(message.to, message.msg, input.fault(0));
        out := EmptyReply;
      } else {
        var before := World(wallet, service, store.db);
        var answer := HandleAuthenticated(sender, message, input.fault);
        out := PackAnswer(before, sender, answer);
      }
    }
  }
}
