/** What holds of the mediator over every step and every run, under arbitrary backend failures. */
module MediatorRuns {
  import opened Wrappers
  import opened Keys
  import opened Envelope
  import opened MediatorStore
  import opened Mediator
  import Base64Url
  import JsonText

  // --------------------------------------------------- a batch of key updates

  lemma {:induction false} UpdatedKeeps(db: Db, account: string, items: seq<KeylistUpdateItem>, n: nat, fault: nat -> bool)
    requires n <= |items| && Inv(db)
    ensures var db' := UpdatedDb(db, account, items, n, fault);
            Inv(db') && Extends(db, db') && |db'.messages| == |db.messages| && db'.accounts == db.accounts
  {
    hide Inv, Extends;
    if n == 0 {
      ExtendsSelf(db);
    } else {
      var before := UpdatedDb(db, account, items, n - 1, fault);
      UpdatedKeeps(db, account, items, n - 1, fault);
      UpdateInv(before, account, items[n - 1], fault(n));
      UpdateExtends(before, account, items[n - 1], fault(n));
      ExtendsTransitive(db, before, UpdatedDb(db, account, items, n, fault));
    }
  }

  lemma ExtendsSelf(db: Db)
    ensures Extends(db, db)
  {}

  /** What one update means for a list of keys. */
  function Applied(keys: seq<string>, item: KeylistUpdateItem): seq<string> {
    match item.action
    case Add => keys + [item.recipientKey]
    case Remove => Drop(keys, item.recipientKey)
  }

  /** The updates marked successful in the reply, applied in order. */
  function Folded(keys: seq<string>, items: seq<KeylistUpdateItem>, replies: seq<KeylistUpdated>): seq<string>
    requires |items| == |replies|
  {
    if items == [] then keys
    else
      var n := |items| - 1;
      var before := Folded(keys, items[..n], replies[..n]);
      if replies[n].result == Success then Applied(before, items[n]) else before
  }

  lemma UpdateKeys(db: Db, account: string, item: KeylistUpdateItem, fault: bool, other: string)
    ensures var r := Update(db, account, item, fault);
            KeysOf(r.0.recipients, other) ==
              if r.1 && other == account then Applied(KeysOf(db.recipients, other), item) else KeysOf(db.recipients, other)
  {
    hide KeysOf, Without;
    var row := Recipient(account, item.recipientKey);
    KeysOfAdded(db.recipients, row, other);
    KeysOfWithout(db.recipients, row, other);
    assert KeysOf(db.recipients, other) + [] == KeysOf(db.recipients, other);
  }

  /** Reply item `i` repeats update `i` and is marked Success exactly when its store call succeeded. */
  lemma ReplyAt(db: Db, account: string, items: seq<KeylistUpdateItem>, i: nat, fault: nat -> bool)
    requires i < |items|
    ensures var reply := UpdateReplies(db, account, items, fault)[i];
            && reply.recipientKey == items[i].recipientKey && reply.action == items[i].action
            && (reply.result == Success <==> Succeeds(db, account, items, i, fault))
  {
    hide UpdatedDb, Update;
  }

  /**
    After a batch of key updates the account's list is the fold of the updates
    marked successful in the reply, and no other account's list has changed.
   */
  lemma {:induction false} KeylistUpdateFolds(db: Db, account: string, items: seq<KeylistUpdateItem>, n: nat, fault: nat -> bool, other: string)
    requires n <= |items|
    ensures KeysOf(UpdatedDb(db, account, items, n, fault).recipients, other) ==
              if other == account then Folded(KeysOf(db.recipients, account), items[..n], UpdateReplies(db, account, items, fault)[..n])
              else KeysOf(db.recipients, other)
  {
    hide KeysOf, Update, Applied, UpdateReplies;
    if n > 0 {
      KeylistUpdateFolds(db, account, items, n - 1, fault, other);
      UpdateKeys(UpdatedDb(db, account, items, n - 1, fault), account, items[n - 1], fault(n), other);
      ReplyAt(db, account, items, n - 1, fault);
      var replies := UpdateReplies(db, account, items, fault);
      assert items[..n][..n - 1] == items[..n - 1] && replies[..n][..n - 1] == replies[..n - 1];
    }
  }

  /** A query right after the batch returns exactly that list. */
  lemma QueryAfterUpdate(world: World, account: string, items: seq<KeylistUpdateItem>, fault: nat -> bool, later: nat -> bool)
    requires account in world.db.accounts && Inv(world.db) && !later(1)
    ensures var (db, reply) := CoordinateAnswer(world, account, KeylistUpdate(items), fault);
            && reply.Say? && reply.message.Coordinate? && reply.message.coordinate.KeylistUpdateResponse?
            && |reply.message.coordinate.updated| == |items|
            && CoordinateAnswer(world.(db := db), account, KeylistQuery, later) ==
                 (db, Say(Coordinate(Keylist(Folded(KeysOf(world.db.recipients, account), items, reply.message.coordinate.updated)))))
  {
    hide UpdatedDb, UpdateReplies, Folded, KeysOf;
    var replies := UpdateReplies(world.db, account, items, fault);
    KeylistUpdateFolds(world.db, account, items, |items|, fault, account);
    UpdatedKeeps(world.db, account, items, |items|, fault);
    assert items[..|items|] == items && replies[..|items|] == replies;
  }

  // ------------------------------------------------------------ other accounts

  lemma {:induction false} PendingUnaffected(messages: seq<Queued>, key: string, account: string, other: string, filter: Option<string>)
    requires other != account
    requires forall i :: 0 <= i < |messages| ==> messages[i].recipientKey == Some(key) ==> messages[i].account == account
    ensures Pending(ClearKey(messages, key), other, filter) == Pending(messages, other, filter)
  {
    if messages != [] {
      assert ClearKey(messages, key)[1..] == ClearKey(messages[1..], key);
      PendingUnaffected(messages[1..], key, account, other, filter);
    }
  }

  /** Removing a key never hides messages of an account that does not own it. */
  lemma UpdateIsolated(db: Db, account: string, item: KeylistUpdateItem, fault: bool, other: string, filter: Option<string>)
    requires Inv(db) && other != account
    ensures Pending(Update(db, account, item, fault).0.messages, other, filter) == Pending(db.messages, other, filter)
  {
    hide Pending;
    var row := Recipient(account, item.recipientKey);
    if item.action == Remove && row in db.recipients {
      forall i | 0 <= i < |db.messages| && db.messages[i].recipientKey == Some(item.recipientKey)
        ensures db.messages[i].account == account
      {
        OwnerUnique(db, account, item.recipientKey);
        OwnerUnique(db, db.messages[i].account, item.recipientKey);
      }
      PendingUnaffected(db.messages, item.recipientKey, account, other, filter);
    }
  }

  lemma {:induction false} UpdatesIsolated(
    db: Db, account: string, items: seq<KeylistUpdateItem>, n: nat, fault: nat -> bool, other: string, filter: Option<string>)
    requires n <= |items| && Inv(db) && other != account
    ensures Pending(UpdatedDb(db, account, items, n, fault).messages, other, filter) == Pending(db.messages, other, filter)
  {
    hide Pending, Inv, Update;
    if n > 0 {
      UpdatesIsolated(db, account, items, n - 1, fault, other, filter);
      UpdatedKeeps(db, account, items, n - 1, fault);
      UpdateIsolated(UpdatedDb(db, account, items, n - 1, fault), account, items[n - 1], fault(n), other, filter);
    }
  }

  /** No request of one account changes the keys or the queue of another. */
  lemma AccountsIsolated(world: World, sender: string, message: AriesMessage, fault: nat -> bool, other: string, filter: Option<string>)
    requires Inv(world.db) && other != sender
    ensures var db := Authenticated(world, Some(sender), message, fault).0;
            && KeysOf(db.recipients, other) == KeysOf(world.db.recipients, other)
            && Pending(db.messages, other, filter) == Pending(world.db.messages, other, filter)
  {
    hide Inv, Pending, KeysOf, UpdatedDb, PickupAnswer;
    if message.Coordinate? && message.coordinate.KeylistUpdate? {
      var items := message.coordinate.updates;
      UpdatesIsolated(world.db, sender, items, |items|, fault, other, filter);
      KeylistUpdateFolds(world.db, sender, items, |items|, fault, other);
    }
  }

  // -------------------------------------------------------- what is delivered

  /** A status answer counts exactly the queued messages it is about. */
  lemma StatusCounts(world: World, account: string, key: Option<string>, fault: nat -> bool)
    requires account in world.db.accounts && !fault(0) && !fault(1)
    ensures Authenticated(world, Some(account), Pickup(StatusRequest(key)), fault) ==
            (world.db, Say(Pickup(Status(
              |Matching(world.db.messages, account, key)|, key))))
  {
    PendingCount(world.db.messages, account, key);
  }

  /** A delivery holds only queued messages of the asking account, unchanged under base64url. */
  ghost predicate Genuine(a: Attachment, db: Db, account: string, key: Option<string>) {
    exists m :: m in db.messages && Matches(m, account, key) && a.id == m.id && Base64Url.Decode(a.base64) == Some(m.data)
  }

  /**
    Every delivery is genuine and as long as the limit allows, with one exception:
    a limit of zero still delivers one message when any is pending.
   */
  lemma DeliveryIsGenuine(world: World, account: string, limit: nat, key: Option<string>, fault: nat -> bool)
    requires account in world.db.accounts && !fault(0) && !fault(1)
    requires Pending(world.db.messages, account, key) != []
    ensures var (db, answer) := Authenticated(world, Some(account), Pickup(DeliveryRequest(limit, key)), fault);
            && db == world.db
            && answer.Say? && answer.message.Pickup? && answer.message.pickup.Delivery?
            && answer.message.pickup.recipientKey == key
            && var attach, waiting := answer.message.pickup.attach, |Matching(world.db.messages, account, key)|;
               && |attach| == (if limit == 0 then 1 else if limit < waiting then limit else waiting)
               && (|attach| <= limit <==> limit > 0)
               && (forall i :: 0 <= i < |attach| ==> Genuine(attach[i], world.db, account, key))
  {
    hide Pending, Matching, Base64Url.Decode, Base64Url.Encode;
    PendingCount(world.db.messages, account, key);
    var rows := Delivered(world.db, account, limit, key);
    var attach := Attachments(rows);
    forall i | 0 <= i < |attach| ensures Genuine(attach[i], world.db, account, key) {
      Base64Url.DecodeEncode(rows[i].data);
      assert rows[i] in Pending(world.db.messages, account, key);
      PendingMembers(world.db.messages, account, key, rows[i]);
    }
  }

  /** The exception is real: asking for nothing delivers a message. */
  lemma ZeroLimitDeliversOne(world: World, account: string, fault: nat -> bool)
    requires account in world.db.accounts && !fault(0) && !fault(1)
    requires Pending(world.db.messages, account, None) != []
    ensures var answer := Authenticated(world, Some(account), Pickup(DeliveryRequest(0, None)), fault).1;
            answer.Say? && answer.message.Pickup? && answer.message.pickup.Delivery? && |answer.message.pickup.attach| == 1
  {
    hide Pending;
    DeliveryIsGenuine(world, account, 0, None, fault);
  }

  // --------------------------------------------------------------------- runs

  /** The request is a forward for a registered key and the backend takes it. */
  predicate Stores(world: World, input: Input) {
    && input.wire.to in world.wallet.held
    && input.wire.payload.Aries? && input.wire.payload.message.Forward?
    && !input.fault(0)
    && Owner(world.db.recipients, input.wire.payload.message.to).Some?
  }

  /** The row such a request adds. */
  function StoredRow(json: JsonText.Codec<Wire>, world: World, input: Input): Queued
    requires Stores(world, input)
  {
    var forward := input.wire.payload.message;
    Queued(|world.db.messages|, Owner(world.db.recipients, forward.to).value, Some(forward.to), json.write(forward.msg))
  }

  /** The service is the same, and the wallet has at most gained keys. */
  ghost predicate OnlyMoreKeys(world: World, world': World) {
    && world'.service == world.service
    && world.wallet.held <= world'.wallet.held && world'.wallet == world.wallet.(held := world'.wallet.held)
  }

  /** One request keeps the table rules and every queued message; a stored forward adds exactly its row. */
  lemma StepKeeps(json: JsonText.Codec<Wire>, world: World, input: Input)
    requires Inv(world.db)
    ensures var world' := Step(json, world, input).0;
            && Inv(world'.db)
            && Extends(world.db, world'.db)
            && OnlyMoreKeys(world, world')
            && |world'.db.messages| == |world.db.messages| + (if Stores(world, input) then 1 else 0)
            && (Stores(world, input) ==> world'.db == world.db.(messages := world.db.messages + [StoredRow(json, world, input)]))
  {
    hide Inv, Extends, Connect, Authenticated, PackAnswer, PersistForward;
    ExtendsSelf(world.db);
    if input.wire.to in world.wallet.held && input.wire.payload.Aries? {
      var message := input.wire.payload.message;
      var sender := if input.wire.sender.Some? then Some(input.wire.sender.value.Base58Text()) else None;
      match message {
        case ConnectionRequest(doc) => ConnectKeeps(world, doc, input);
        case Forward(to, msg) => ForwardKeeps(world.db, to, json.write(msg), input.fault(0));
        case _ => AuthenticatedKeeps(world, sender, message, input.fault);
      }
    }
  }

  lemma ForwardKeeps(db: Db, to: string, data: Bytes, fault: bool)
    requires Inv(db)
    ensures var db' := PersistForward(db, to, data, fault).0;
            && Inv(db') && Extends(db, db')
            && db' == if fault || Owner(db.recipients, to).None? then db
                      else db.(messages := db.messages + [Queued(|db.messages|, Owner(db.recipients, to).value, Some(to), data)])
  {
    hide Inv, Owner;
    PersistInv(db, to, data, fault);
  }

  lemma AuthenticatedKeeps(world: World, sender: Option<string>, message: AriesMessage, fault: nat -> bool)
    requires Inv(world.db)
    ensures var db := Authenticated(world, sender, message, fault).0;
            Inv(db) && Extends(world.db, db) && |db.messages| == |world.db.messages|
  {
    hide Inv, Extends, UpdatedDb, PickupAnswer;
    ExtendsSelf(world.db);
    if sender.Some? && message.Coordinate? && message.coordinate.KeylistUpdate? {
      var items := message.coordinate.updates;
      UpdatedKeeps(world.db, sender.value, items, |items|, fault);
    }
  }

  lemma ConnectKeeps(world: World, doc: DidDoc, input: Input)
    requires Inv(world.db)
    ensures var world' := Connect(world, doc, input).0;
            && Inv(world'.db) && Extends(world.db, world'.db)
            && OnlyMoreKeys(world, world')
            && |world'.db.messages| == |world.db.messages|
  {
    hide Inv, CreatedFromLegacy;
    if doc.recipientKeys.Some? && doc.recipientKeys.value != [] && input.newKey.Some? {
      CreateAccountInv(world.db, doc.recipientKeys.value[0], Account(input.newKey.value.Base58Text(), doc), input.fault(0));
    }
  }

  function Run(json: JsonText.Codec<Wire>, world: World, inputs: seq<Input>): World {
    if inputs == [] then world else Step(json, Run(json, world, inputs[..|inputs| - 1]), inputs[|inputs| - 1]).0
  }

  /** How many requests of a run stored a forward. */
  function StoredCount(json: JsonText.Codec<Wire>, world: World, inputs: seq<Input>): nat {
    if inputs == [] then 0
    else
      var n := |inputs| - 1;
      StoredCount(json, world, inputs[..n]) + if Stores(Run(json, world, inputs[..n]), inputs[n]) then 1 else 0
  }

  /** In every run no message is lost or altered, and the queue grows by one per stored forward. */
  lemma {:induction false} RunKeeps(json: JsonText.Codec<Wire>, world: World, inputs: seq<Input>)
    requires Inv(world.db)
    ensures var world' := Run(json, world, inputs);
            && Inv(world'.db) && Extends(world.db, world'.db)
            && OnlyMoreKeys(world, world')
            && |world'.db.messages| == |world.db.messages| + StoredCount(json, world, inputs)
  {
    hide Inv, Extends, Step, Stores;
    if inputs == [] {
      ExtendsSelf(world.db);
    } else {
      var n := |inputs| - 1;
      var before := Run(json, world, inputs[..n]);
      RunKeeps(json, world, inputs[..n]);
      StepKeeps(json, before, inputs[n]);
      ExtendsTransitive(world.db, before.db, Run(json, world, inputs).db);
    }
  }

  /** The queued message was put there by request `n` of the run, for the account that owned the key then. */
  ghost predicate CameFrom(json: JsonText.Codec<Wire>, world: World, inputs: seq<Input>, n: nat, m: Queued)
    requires n < |inputs|
  {
    var before := Run(json, world, inputs[..n]);
    Stores(before, inputs[n]) && SameMessage(StoredRow(json, before, inputs[n]), m)
  }

  /** Every message in a queue after a run was there before or is one forward's message, stored for the key's owner. */
  lemma {:induction false} RunProvenance(json: JsonText.Codec<Wire>, world: World, inputs: seq<Input>, i: nat)
    requires Inv(world.db) && i < |Run(json, world, inputs).db.messages|
    ensures || (i < |world.db.messages| && SameMessage(world.db.messages[i], Run(json, world, inputs).db.messages[i]))
            || exists n :: 0 <= n < |inputs| && CameFrom(json, world, inputs, n, Run(json, world, inputs).db.messages[i])
    decreases |inputs|
  {
    hide Inv, Step, Stores, StoredRow;
    if inputs != [] {
      var n := |inputs| - 1;
      var before, after := Run(json, world, inputs[..n]), Run(json, world, inputs);
      RunKeeps(json, world, inputs[..n]);
      StepKeeps(json, before, inputs[n]);
      if i < |before.db.messages| {
        RunProvenance(json, world, inputs[..n], i);
        assert SameMessage(before.db.messages[i], after.db.messages[i]);
        if k :| 0 <= k < n && CameFrom(json, world, inputs[..n], k, before.db.messages[i]) {
          assert inputs[..n][..k] == inputs[..k];
          assert CameFrom(json, world, inputs, k, after.db.messages[i]);
        }
      } else {
        assert CameFrom(json, world, inputs, n, after.db.messages[i]);
      }
    }
  }
}
