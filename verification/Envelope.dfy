/**
  Encryption envelopes.  Packing is symbolic: a packed message names its sender
  (if authenticated) and its recipient, and only a wallet holding the recipient
  key opens it.  Routing keys wrap it in anonymous `Forward` layers.
 */
module Envelope {
  import opened Wrappers
  import opened Keys

  // ---------------------------------------------------------------- messages

  datatype DidDoc = DidDoc(wellFormed: bool, recipientKeys: Option<seq<string>>, routingKeys: seq<string>)

  datatype Attachment = Attachment(id: nat, base64: string)

  datatype PickupMessage =
    | StatusRequest(requestKey: Option<string>)
    | Status(messageCount: nat, statusKey: Option<string>)
    | DeliveryRequest(limit: nat, deliveryKey: Option<string>)
    | Delivery(recipientKey: Option<string>, attach: seq<Attachment>)
    | OtherPickup

  datatype KeylistAction = Add | Remove

  datatype KeylistUpdateItem = KeylistUpdateItem(recipientKey: string, action: KeylistAction)

  datatype KeylistUpdateResult = Success | ServerError

  datatype KeylistUpdated = KeylistUpdated(recipientKey: string, action: KeylistAction, result: KeylistUpdateResult)

  datatype CoordinateMediation =
    | MediateRequest
    | MediateGrant(endpoint: string, routingKeys: seq<string>)
    | KeylistUpdate(updates: seq<KeylistUpdateItem>)
    | KeylistUpdateResponse(updated: seq<KeylistUpdated>)
    | KeylistQuery
    | Keylist(keys: seq<string>)
    | OtherCoordination

  datatype AriesMessage =
    | Forward(to: string, msg: Wire)
    | ConnectionRequest(didDoc: DidDoc)
    | ConnectionResponse(signedBy: string, newKey: string)
    | OtherConnection
    | Pickup(pickup: PickupMessage)
    | Coordinate(coordinate: CoordinateMediation)
    | OtherMessage

  /** The text inside a packed message: JSON of an Aries message, or anything else. */
  datatype Payload = Text(data: Bytes) | Aries(message: AriesMessage)

  datatype Wire = Packed(sender: Option<Key>, to: Key, payload: Payload)

  // ------------------------------------------------------------------ wallet

  /** `packs` says for which sender and recipient the wallet's pack call succeeds. */
  datatype Wallet = Wallet(held: set<Key>, packs: (Option<Key>, Key) -> bool)

  datatype Unpacked = Unpacked(payload: Payload, senderVerkey: Option<string>, recipientVerkey: string)

  function PackMessage(w: Wallet, sender: Option<Key>, to: Key, payload: Payload): Option<Wire> {
    if w.packs(sender, to) then Some(Packed(sender, to, payload)) else None
  }

  function UnpackMessage(w: Wallet, wire: Wire): Option<Unpacked> {
    if wire.to in w.held then
      Some(Unpacked(wire.payload,
                    match wire.sender case None => None case Some(k) => Some(k.Base58Text()),
                    wire.to.Base58Text()))
    else None
  }

  datatype EnvelopeError = WrongKeyType | WalletError | BadKeyText | NoRecipientKey | NotAuthenticated

  // ------------------------------------------------------------------- create

  /** Wrapping from the inside out: each routing key gets a layer naming the hop before it. */
  function Wrap(inner: Wire, to: Key, route: seq<Key>): Wire
    decreases |route|
  {
    if route == [] then inner
    else Wrap(Packed(None, route[0], Aries(Forward(to.Base58Text(), inner))), route[0], route[1..])
  }

  lemma {:induction false} WrapFirst(inner: Wire, to: Key, route: seq<Key>, i: nat)
    requires i < |route|
    ensures Wrap(inner, to, route[i..]) == Wrap(Packed(None, route[i], Aries(Forward(to.Base58Text(), inner))), route[i], route[i + 1..])
  {
    assert route[i..][1..] == route[i + 1..];
  }

  predicate AllEd25519(keys: seq<Key>) {
    forall i :: 0 <= i < |keys| ==> keys[i].keyType == Ed25519
  }

  predicate PacksAnonymously(w: Wallet, keys: seq<Key>) {
    forall i :: 0 <= i < |keys| ==> w.packs(None, keys[i])
  }

  /** Every key an envelope is made with is an Ed25519 key. */
  predicate RightKeys(sender: Option<Key>, recipient: Key, route: seq<Key>) {
    && (sender.Some? ==> sender.value.keyType == Ed25519)
    && recipient.keyType == Ed25519
    && forall i :: 0 <= i < |route| ==> route[i].keyType == Ed25519
  }

  /** The wallet packs for the recipient, from the sender or from nobody, and for every hop from nobody. */
  predicate WillPack(w: Wallet, sender: Option<Key>, recipient: Key, route: seq<Key>) {
    w.packs(sender, recipient) && forall i :: 0 <= i < |route| ==> w.packs(None, route[i])
  }

  function Created(w: Wallet, payload: Payload, sender: Option<Key>, recipient: Key, route: seq<Key>)
    : Result<Wire, EnvelopeError>
  {
    if (sender.Some? && sender.value.keyType != Ed25519) || !AllEd25519(route) || recipient.keyType != Ed25519
    then Err(WrongKeyType)
    else if !w.packs(sender, recipient) || !PacksAnonymously(w, route) then Err(WalletError)
    else Ok(Wrap(Packed(sender, recipient, payload), recipient, route))
  }

  /** `wrap_into_forward_messages`; `packed` lists what the wallet packed on the way. */
  method WrapIntoForwardMessages(w: Wallet, message: Wire, recipient: Key, route: seq<Key>)
    returns (r: Result<Wire, EnvelopeError>, ghost packed: seq<Wire>)
    ensures r == if PacksAnonymously(w, route) then Ok(Wrap(message, recipient, route)) else Err(WalletError)
    ensures r.Ok? ==> |packed| == |route| && forall i :: 0 <= i < |packed| ==> packed[i].sender == None && packed[i].to == route[i]
  {
    hide Wrap;
    var data, forwardTo := message, recipient;
    packed := [];
    assert route[0..] == route;
    var i := 0;
    while i < |route|
      invariant 0 <= i == |packed| <= |route|
      invariant PacksAnonymously(w, route[..i])
      invariant Wrap(data, forwardTo, route[i..]) == Wrap(message, recipient, route)
      invariant forall j :: 0 <= j < i ==> packed[j].sender == None && packed[j].to == route[j]
    {
      var layer := PackMessage(w, None, route[i], Aries(Forward(forwardTo.Base58Text(), data)));
      if layer.None? { return Err(WalletError), packed; }
      WrapFirst(data, forwardTo, route, i);
      data := layer.value;
      packed := packed + [data];
      forwardTo := route[i];
      i := i + 1;
    }
    assert route[i..] == [] && route[..i] == route;
    assert Wrap(data, forwardTo, []) == data by { WrapNone(data, forwardTo); }
    r := Ok(data);
  }

  lemma WrapNone(inner: Wire, to: Key)
    ensures Wrap(inner, to, []) == inner
  {}

  /** `create_from_keys`: all key types are checked before anything is packed. */
  method CreateFromKeys(w: Wallet, payload: Payload, sender: Option<Key>, recipient: Key, route: seq<Key>)
    returns (r: Result<Wire, EnvelopeError>, ghost packed: seq<Wire>)
    ensures r == Created(w, payload, sender, recipient, route)
    ensures r.Ok? <==> RightKeys(sender, recipient, route) && WillPack(w, sender, recipient, route)
    ensures r == Err(WrongKeyType) <==> !RightKeys(sender, recipient, route)
    ensures r.Err? ==> r.error == WrongKeyType || r.error == WalletError
    ensures r == Err(WrongKeyType) ==> packed == []
    ensures r.Ok? ==> |packed| == 1 + |route| && packed[0] == Packed(sender, recipient, payload)
  {
    packed := [];
    if sender.Some? && sender.value.ValidateKeyType(Ed25519).Err? { return Err(WrongKeyType), []; }
    var i := 0;
    while i < |route|
      invariant 0 <= i <= |route|
      invariant AllEd25519(route[..i])
    {
      if route[i].ValidateKeyType(Ed25519).Err? { return Err(WrongKeyType), []; }
      i := i + 1;
    }
    if recipient.ValidateKeyType(Ed25519).Err? { return Err(WrongKeyType), []; }
    var message := PackMessage(w, sender, recipient, payload);
    if message.None? { return Err(WalletError), []; }
    ghost var layers;
    r, layers := WrapIntoForwardMessages(w, message.value, recipient, route);
    packed := [message.value] + layers;
  }

  /** Base58 texts to Ed25519 keys, all or nothing. */
  function ReadKeys(texts: seq<string>): (r: Option<seq<Key>>)
    ensures r.Some? ==> |r.value| == |texts| && AllEd25519(r.value)
  {
    if texts == [] then Some([]) else
    match FromBase58(texts[0], Ed25519)
    case Err(_) => None
    case Ok(k) =>
      var rest :- ReadKeys(texts[1..]);
      Some([k] + rest)
  }

  /** `create_from_legacy` with a sender verkey. */
  function CreatedFromLegacy(w: Wallet, payload: Payload, senderVk: string, doc: DidDoc): Result<Wire, EnvelopeError> {
    if doc.recipientKeys.None? || doc.recipientKeys.value == [] then Err(NoRecipientKey)
    else match FromBase58(doc.recipientKeys.value[0], Ed25519)
      case Err(_) => Err(BadKeyText)
      case Ok(recipient) =>
        match ReadKeys(doc.routingKeys)
        case None => Err(BadKeyText)
        case Some(route) =>
          match FromBase58(senderVk, Ed25519)
          case Err(_) => Err(BadKeyText)
          case Ok(sender) => Created(w, payload, Some(sender), recipient, route)
  }

  // ------------------------------------------------------------------- unpack

  /** `unpack`: sender and recipient are read back as Ed25519 keys, then the expected sender is compared. */
  function Unpack(w: Wallet, wire: Wire, expected: Option<Key>): Result<(Payload, Option<Key>, Key), EnvelopeError> {
    match UnpackMessage(w, wire)
    case None => Err(WalletError)
    case Some(u) =>
      match FromBase58(u.recipientVerkey, Ed25519)
      case Err(_) => Err(BadKeyText)
      case Ok(recipient) =>
        match u.senderVerkey
        case None => if expected.Some? then Err(NotAuthenticated) else Ok((u.payload, None, recipient))
        case Some(text) =>
          match FromBase58(text, Ed25519)
          case Err(_) => Err(BadKeyText)
          case Ok(sender) =>
            if expected.Some? && sender != expected.value then Err(NotAuthenticated)
            else Ok((u.payload, Some(sender), recipient))
  }

  /** Opening a pack returns its data and sender, and the sender check passes exactly for the real sender. */
  lemma UnpackOpens(w: Wallet, payload: Payload, sender: Option<Key>, recipient: Key, expected: Option<Key>)
    requires recipient.keyType == Ed25519 && (sender.Some? ==> sender.value.keyType == Ed25519)
    ensures var r := Unpack(w, Packed(sender, recipient, payload), expected);
            && (r.Ok? <==> recipient in w.held && (expected.None? || expected == sender))
            && (r.Ok? ==> r.value == (payload, sender, recipient))
            && (recipient in w.held && r.Err? ==> r.error == NotAuthenticated)
  {
    hide FromBase58;
    FromBase58RoundTrip(recipient);
    if sender.Some? { FromBase58RoundTrip(sender.value); }
  }

  // --------------------------------------------------------------------- peel

  /** Each wallet in turn opens one anonymous Forward layer and passes on what is inside. */
  function Peel(wire: Wire, wallets: seq<Wallet>): Option<(seq<string>, Wire)> {
    if wallets == [] then Some(([], wire))
    else match UnpackMessage(wallets[0], wire)
      case Some(Unpacked(Aries(Forward(to, msg)), None, _)) =>
        var (tos, inner) :- Peel(msg, wallets[1..]);
        Some(([to] + tos, inner))
      case _ => None
  }

  function LastHop(to: Key, route: seq<Key>): Key {
    if route == [] then to else route[|route| - 1]
  }

  lemma {:induction false} WrapLast(inner: Wire, to: Key, route: seq<Key>, k: Key)
    ensures Wrap(inner, to, route + [k]) == Packed(None, k, Aries(Forward(LastHop(to, route).Base58Text(), Wrap(inner, to, route))))
    decreases |route|
  {
    if route == [] {
      assert (route + [k])[1..] == [];
    } else {
      var layer := Packed(None, route[0], Aries(Forward(to.Base58Text(), inner)));
      assert (route + [k])[1..] == route[1..] + [k];
      WrapLast(layer, route[0], route[1..], k);
    }
  }

  /** The wallets hold the routing keys, outermost first. */
  predicate Hold(wallets: seq<Wallet>, route: seq<Key>) {
    |wallets| == |route| && forall i :: 0 <= i < |route| ==> route[|route| - 1 - i] in wallets[i].held
  }

  /** The `to` fields from the outside in: the hop before each routing key, down to the recipient. */
  function NextHops(to: Key, route: seq<Key>): seq<string> {
    if route == [] then []
    else var rest := route[..|route| - 1]; [LastHop(to, rest).Base58Text()] + NextHops(to, rest)
  }

  /**
    An envelope with n routing keys has exactly n anonymous Forward layers.  The
    holders of the keys, in reverse order, and nobody else, peel them; each learns
    only the next hop, and what is left is the original pack.
   */
  lemma {:induction false} PeelWrap(inner: Wire, to: Key, route: seq<Key>, wallets: seq<Wallet>)
    requires |wallets| == |route|
    ensures Peel(Wrap(inner, to, route), wallets).Some? <==> Hold(wallets, route)
    ensures Hold(wallets, route) ==> Peel(Wrap(inner, to, route), wallets) == Some((NextHops(to, route), inner))
    decreases |route|
  {
    if route != [] {
      var rest, k := route[..|route| - 1], route[|route| - 1];
      assert route == rest + [k];
      WrapLast(inner, to, rest, k);
      PeelWrap(inner, to, rest, wallets[1..]);
      HoldStep(wallets, route);
    }
  }

  lemma HoldStep(wallets: seq<Wallet>, route: seq<Key>)
    requires |wallets| == |route| > 0
    ensures Hold(wallets, route) <==>
            route[|route| - 1] in wallets[0].held && Hold(wallets[1..], route[..|route| - 1])
  {
    var rest, more := route[..|route| - 1], wallets[1..];
    assert forall i :: 0 <= i < |more| ==> more[i] == wallets[i + 1];
    if Hold(more, rest) && route[|route| - 1] in wallets[0].held {
      forall i | 0 <= i < |route| ensures route[|route| - 1 - i] in wallets[i].held {
        if i > 0 { assert rest[|rest| - 1 - (i - 1)] in more[i - 1].held; }
      }
    }
    if Hold(wallets, route) {
      forall i | 0 <= i < |rest| ensures rest[|rest| - 1 - i] in more[i].held {
        assert route[|route| - 1 - (i + 1)] in wallets[i + 1].held;
      }
    }
  }

  /**
    The whole trip, with or without a sender: if all keys are Ed25519 and the wallet
    packs for them, an envelope is made; the hops peel it and the recipient opens it.
   */
  lemma EnvelopeReachesRecipient(
    w: Wallet, payload: Payload, sender: Option<Key>, recipient: Key, route: seq<Key>,
    hops: seq<Wallet>, last: Wallet, expected: Option<Key>)
    requires RightKeys(sender, recipient, route) && WillPack(w, sender, recipient, route)
    requires Hold(hops, route) && recipient in last.held
    ensures Created(w, payload, sender, recipient, route).Ok?
    ensures var peeled := Peel(Created(w, payload, sender, recipient, route).value, hops);
            && peeled.Some?
            && |peeled.value.0| == |route|
            && (route != [] ==> peeled.value.0[|route| - 1] == recipient.Base58Text())
            && (Unpack(last, peeled.value.1, expected).Ok? <==> expected.None? || expected == sender)
            && Unpack(last, peeled.value.1, None) == Ok((payload, sender, recipient))
  {
    hide Unpack, Wrap, Peel;
    var inner := Packed(sender, recipient, payload);
    PeelWrap(inner, recipient, route, hops);
    NextHopsEnd(recipient, route);
    UnpackOpens(last, payload, sender, recipient, expected);
    UnpackOpens(last, payload, sender, recipient, None);
  }

  lemma {:induction false} NextHopsEnd(to: Key, route: seq<Key>)
    ensures |NextHops(to, route)| == |route|
    ensures route != [] ==> NextHops(to, route)[|route| - 1] == to.Base58Text()
    decreases |route|
  {
    if route != [] { NextHopsEnd(to, route[..|route| - 1]); }
  }
}
