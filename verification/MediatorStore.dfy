/**
  The mediator's persistence: accounts, recipient keys and queued messages, as
  the MySQL implementation and its schema keep them.  Each call may fail in the
  backend; `fault` says so.  A failed statement changes nothing.
 */
module MediatorStore {
  import opened Wrappers
  import opened Envelope

  datatype Account = Account(ourSigningKey: string, didDoc: DidDoc)

  datatype Recipient = Recipient(account: string, key: string)

  /** `recipientKey` is cleared when its recipient row is deleted. */
  datatype Queued = Queued(id: nat, account: string, recipientKey: Option<string>, data: Bytes)

  /** Accounts are identified by their unique authentication key. */
  datatype Db = Db(accounts: map<string, Account>, recipients: seq<Recipient>, messages: seq<Queued>)

  const EMPTY := Db(map[], [], [])

  // ------------------------------------------------------- what the tables say

  /** The row of a recipient key, if it is registered. */
  function Owner(rows: seq<Recipient>, key: string): (a: Option<string>)
    ensures a.None? ==> forall i :: 0 <= i < |rows| ==> rows[i].key != key
    ensures a.Some? ==> Recipient(a.value, key) in rows
  {
    if rows == [] then None
    else if rows[0].key == key then Some(rows[0].account)
    else Owner(rows[1..], key)
  }

  function KeysOf(rows: seq<Recipient>, account: string): seq<string> {
    if rows == [] then []
    else (if rows[0].account == account then [rows[0].key] else []) + KeysOf(rows[1..], account)
  }

  predicate Matches(m: Queued, account: string, key: Option<string>) {
    m.account == account && (key.None? || m.recipientKey == key)
  }

  /** The queued messages of an account, all of them or those for one recipient key. */
  function Pending(messages: seq<Queued>, account: string, key: Option<string>): seq<Queued> {
    if messages == [] then []
    else (if Matches(messages[0], account, key) then [messages[0]] else []) + Pending(messages[1..], account, key)
  }

  lemma {:induction false} PendingMembers(messages: seq<Queued>, account: string, key: Option<string>, m: Queued)
    ensures m in Pending(messages, account, key) <==> m in messages && Matches(m, account, key)
  {
    if messages != [] {
      PendingMembers(messages[1..], account, key, m);
      assert m in messages <==> m == messages[0] || m in messages[1..];
    }
  }

  function Without(rows: seq<Recipient>, row: Recipient): (rest: seq<Recipient>)
    ensures forall r :: r in rest <==> r in rows && r != row
  {
    if rows == [] then []
    else (if rows[0] == row then [] else [rows[0]]) + Without(rows[1..], row)
  }

  /** `ON DELETE SET NULL` on the messages of a deleted recipient key. */
  function Cleared(m: Queued, key: string): Queued {
    if m.recipientKey == Some(key) then m.(recipientKey := None) else m
  }

  function ClearKey(messages: seq<Queued>, key: string): (ms: seq<Queued>)
    ensures |ms| == |messages|
    ensures forall i :: 0 <= i < |ms| ==> ms[i] == Cleared(messages[i], key)
  {
    seq(|messages|, i requires 0 <= i < |messages| => Cleared(messages[i], key))
  }

  // ------------------------------------------------------------ rows and lists

  function Drop(keys: seq<string>, key: string): seq<string> {
    if keys == [] then [] else (if keys[0] == key then [] else [keys[0]]) + Drop(keys[1..], key)
  }

  lemma {:induction false} KeysOfAdded(rows: seq<Recipient>, row: Recipient, account: string)
    ensures KeysOf(rows + [row], account) == KeysOf(rows, account) + (if row.account == account then [row.key] else [])
  {
    if rows == [] {
      assert rows + [row] == [row];
    } else {
      KeysOfAdded(rows[1..], row, account);
      assert (rows + [row])[1..] == rows[1..] + [row];
    }
  }

  lemma {:induction false} KeysOfWithout(rows: seq<Recipient>, row: Recipient, account: string)
    ensures KeysOf(Without(rows, row), account)
         == if row.account == account then Drop(KeysOf(rows, account), row.key) else KeysOf(rows, account)
  {
    if rows != [] {
      KeysOfWithout(rows[1..], row, account);
      assert Without(rows, row)[if rows[0] == row then 0 else 1..] == Without(rows[1..], row);
      var head := if rows[0].account == account then [rows[0].key] else [];
      assert KeysOf(rows, account)[|head|..] == KeysOf(rows[1..], account);
    }
  }

  lemma {:induction false} KeysOfMembers(rows: seq<Recipient>, account: string, key: string)
    ensures key in KeysOf(rows, account) <==> Recipient(account, key) in rows
  {
    if rows != [] {
      KeysOfMembers(rows[1..], account, key);
      assert Recipient(account, key) in rows <==> Recipient(account, key) == rows[0] || Recipient(account, key) in rows[1..];
    }
  }

  lemma {:induction false} PendingCount(messages: seq<Queued>, account: string, key: Option<string>)
    ensures |Pending(messages, account, key)| == |Matching(messages, account, key)|
  {
    hide Matches;
    if messages != [] {
      var n := |messages| - 1;
      PendingCount(messages[..n], account, key);
      PendingLast(messages[..n], messages[n], account, key);
      assert messages == messages[..n] + [messages[n]];
      MatchingLast(messages, account, key);
    }
  }

  ghost function Matching(messages: seq<Queued>, account: string, key: Option<string>): set<int> {
    set i | 0 <= i < |messages| && Matches(messages[i], account, key)
  }

  lemma MatchingLast(messages: seq<Queued>, account: string, key: Option<string>)
    requires messages != []
    ensures var n := |messages| - 1;
            |Matching(messages, account, key)| ==
              |Matching(messages[..n], account, key)| + if Matches(messages[n], account, key) then 1 else 0
  {
    hide Matches;
    var n := |messages| - 1;
    var before := Matching(messages[..n], account, key);
    assert forall i :: 0 <= i < n ==> messages[..n][i] == messages[i];
    assert Matching(messages, account, key) == if Matches(messages[n], account, key) then before + {n} else before;
  }

  lemma {:induction false} PendingCons(m: Queued, rest: seq<Queued>, account: string, key: Option<string>)
    ensures Pending([m] + rest, account, key) == (if Matches(m, account, key) then [m] else []) + Pending(rest, account, key)
  {
    hide Matches;
    assert ([m] + rest)[1..] == rest;
  }

  lemma {:induction false} PendingLast(messages: seq<Queued>, m: Queued, account: string, key: Option<string>)
    ensures Pending(messages + [m], account, key) == Pending(messages, account, key) + (if Matches(m, account, key) then [m] else [])
  {
    hide Matches;
    if messages == [] {
      assert messages + [m] == [m] && [m][1..] == [];
    } else {
      PendingLast(messages[1..], m, account, key);
      PendingCons(messages[0], messages[1..], account, key);
      PendingCons(messages[0], messages[1..] + [m], account, key);
      assert messages + [m] == [messages[0]] + (messages[1..] + [m]) && messages == [messages[0]] + messages[1..];
    }
  }

  // --------------------------------------------------------------- statements

  function CreateAccount(db: Db, account: string, details: Account, fault: bool): (r: (Db, bool)) {
    if fault || account in db.accounts then (db, false)
    else (db.(accounts := db.accounts[account := details]), true)
  }

  function AddRecipient(db: Db, account: string, key: string, fault: bool): (r: (Db, bool)) {
    if fault || account !in db.accounts || Owner(db.recipients, key).Some? then (db, false)
    else (db.(recipients := db.recipients + [Recipient(account, key)]), true)
  }

  function RemoveRecipient(db: Db, account: string, key: string, fault: bool): (r: (Db, bool)) {
    if fault || account !in db.accounts then (db, false)
    else
      var row := Recipient(account, key);
      (db.(recipients := Without(db.recipients, row),
           messages := if row in db.recipients then ClearKey(db.messages, key) else db.messages), true)
  }

  function PersistForward(db: Db, key: string, data: Bytes, fault: bool): (r: (Db, bool)) {
    if fault then (db, false) else
    match Owner(db.recipients, key)
    case None => (db, false)
    case Some(account) => (db.(messages := db.messages + [Queued(|db.messages|, account, Some(key), data)]), true)
  }

  function Update(db: Db, account: string, item: KeylistUpdateItem, fault: bool): (r: (Db, bool)) {
    match item.action
    case Add => AddRecipient(db, account, item.recipientKey, fault)
    case Remove => RemoveRecipient(db, account, item.recipientKey, fault)
  }

  /** How many rows a retrieval returns: the limit is tested after a row is taken. */
  function Taken(pending: nat, limit: nat): (n: nat)
    ensures n <= pending
    ensures n <= limit <==> limit > 0 || pending == 0
    ensures limit >= pending ==> n == pending
  {
    if pending == 0 then 0 else if limit == 0 then 1 else if limit < pending then limit else pending
  }

  // -------------------------------------------------------------- table rules

  /** The schema's unique and foreign keys, and message ids numbered by insertion. */
  ghost predicate Inv(db: Db) {
    && (forall i, j :: 0 <= i < j < |db.recipients| ==> db.recipients[i].key != db.recipients[j].key)
    && (forall r :: r in db.recipients ==> r.account in db.accounts)
    && (forall i :: 0 <= i < |db.messages| ==>
          && db.messages[i].id == i
          && db.messages[i].account in db.accounts
          && (db.messages[i].recipientKey.Some? ==>
                Recipient(db.messages[i].account, db.messages[i].recipientKey.value) in db.recipients))
  }

  lemma OwnerUnique(db: Db, account: string, key: string)
    requires Inv(db) && Recipient(account, key) in db.recipients
    ensures Owner(db.recipients, key) == Some(account)
  {
    var other := Owner(db.recipients, key).value;
    var i :| 0 <= i < |db.recipients| && db.recipients[i] == Recipient(account, key);
    var j :| 0 <= j < |db.recipients| && db.recipients[j] == Recipient(other, key);
    assert i == j;
  }

  lemma {:induction false} WithoutKeepsUnique(rows: seq<Recipient>, row: Recipient)
    requires forall i, j :: 0 <= i < j < |rows| ==> rows[i].key != rows[j].key
    ensures forall i, j :: 0 <= i < j < |Without(rows, row)| ==> Without(rows, row)[i].key != Without(rows, row)[j].key
  {
    if rows != [] {
      WithoutKeepsUnique(rows[1..], row);
      var rest := Without(rows[1..], row);
      forall j | 0 <= j < |rest| ensures rest[j].key != rows[0].key {
        assert rest[j] in rows[1..];
      }
    }
  }

  lemma CreateAccountInv(db: Db, account: string, details: Account, fault: bool)
    requires Inv(db)
    ensures Inv(CreateAccount(db, account, details, fault).0)
  {}

  lemma AddInv(db: Db, account: string, key: string, fault: bool)
    requires Inv(db)
    ensures Inv(AddRecipient(db, account, key, fault).0)
  {}

  lemma RemoveInv(db: Db, account: string, key: string, fault: bool)
    requires Inv(db)
    ensures Inv(RemoveRecipient(db, account, key, fault).0)
  {
    WithoutKeepsUnique(db.recipients, Recipient(account, key));
    var db' := RemoveRecipient(db, account, key, fault).0;
    forall i | 0 <= i < |db'.messages|
      ensures && db'.messages[i].id == i && db'.messages[i].account in db'.accounts
              && (db'.messages[i].recipientKey.Some? ==>
                    Recipient(db'.messages[i].account, db'.messages[i].recipientKey.value) in db'.recipients)
    {
      assert db.messages[i].account in db.accounts;
    }
  }

  lemma PersistInv(db: Db, key: string, data: Bytes, fault: bool)
    requires Inv(db)
    ensures Inv(PersistForward(db, key, data, fault).0)
  {}

  lemma UpdateInv(db: Db, account: string, item: KeylistUpdateItem, fault: bool)
    requires Inv(db)
    ensures Inv(Update(db, account, item, fault).0)
  {
    hide Inv, AddRecipient, RemoveRecipient;
    AddInv(db, account, item.recipientKey, fault);
    RemoveInv(db, account, item.recipientKey, fault);
  }

  // ------------------------------------------------------------- nothing is lost

  /** The same message, with its recipient key or without it. */
  predicate SameMessage(m: Queued, m': Queued) {
    m'.id == m.id && m'.account == m.account && m'.data == m.data &&
    (m'.recipientKey == m.recipientKey || m'.recipientKey == None)
  }

  /** Accounts and messages only ever grow; messages stay where they are. */
  ghost predicate Extends(db: Db, db': Db) {
    && (forall a :: a in db.accounts ==> a in db'.accounts && db'.accounts[a] == db.accounts[a])
    && |db.messages| <= |db'.messages|
    && forall i :: 0 <= i < |db.messages| ==> SameMessage(db.messages[i], db'.messages[i])
  }

  lemma ExtendsTransitive(a: Db, b: Db, c: Db)
    requires Extends(a, b) && Extends(b, c)
    ensures Extends(a, c)
  {
    forall i | 0 <= i < |a.messages| ensures SameMessage(a.messages[i], c.messages[i]) {
      assert SameMessage(a.messages[i], b.messages[i]);
    }
  }

  lemma UpdateExtends(db: Db, account: string, item: KeylistUpdateItem, fault: bool)
    ensures Extends(db, Update(db, account, item, fault).0)
    ensures |Update(db, account, item, fault).0.messages| == |db.messages|
  {}

  // -------------------------------------------------- what a caller can observe

  /** A new account with these details, and nothing else. */
  ghost predicate Opened(db: Db, db': Db, account: string, details: Account) {
    && account !in db.accounts
    && db'.accounts.Keys == db.accounts.Keys + {account} && db'.accounts[account] == details
    && (forall a :: a in db.accounts ==> db'.accounts[a] == db.accounts[a])
    && db'.recipients == db.recipients && db'.messages == db.messages
  }

  /** The account has one more key, at the end of its list; no other list and no message has changed. */
  ghost predicate KeyAdded(db: Db, db': Db, account: string, key: string) {
    && KeysOf(db'.recipients, account) == KeysOf(db.recipients, account) + [key]
    && (forall other :: other != account ==> KeysOf(db'.recipients, other) == KeysOf(db.recipients, other))
    && db'.accounts == db.accounts && db'.messages == db.messages
  }

  /** The account has lost the key, if it had it; its messages for that key stay and lose only the key. */
  ghost predicate KeyRemoved(db: Db, db': Db, account: string, key: string) {
    && KeysOf(db'.recipients, account) == Drop(KeysOf(db.recipients, account), key)
    && (forall other :: other != account ==> KeysOf(db'.recipients, other) == KeysOf(db.recipients, other))
    && db'.accounts == db.accounts && |db'.messages| == |db.messages|
    && forall i :: 0 <= i < |db.messages| ==>
         && SameMessage(db.messages[i], db'.messages[i])
         && (db'.messages[i].recipientKey != db.messages[i].recipientKey <==>
               key in KeysOf(db.recipients, account) && db.messages[i].recipientKey == Some(key))
  }

  /** One message more, last in the queue of the account that owns the key and in no other. */
  ghost predicate Enqueued(db: Db, db': Db, account: string, key: string, data: Bytes) {
    && key in KeysOf(db.recipients, account)
    && db'.accounts == db.accounts && db'.recipients == db.recipients
    && forall other, filter :: Pending(db'.messages, other, filter) == Pending(db.messages, other, filter) +
         if other == account && (filter == None || filter == Some(key)) then [Queued(|db.messages|, account, Some(key), data)] else []
  }

  lemma AddMeans(db: Db, account: string, key: string)
    requires account in db.accounts && Owner(db.recipients, key).None?
    ensures KeyAdded(db, AddRecipient(db, account, key, false).0, account, key)
  {
    hide KeysOf;
    var row := Recipient(account, key);
    KeysOfAdded(db.recipients, row, account);
    forall other | other != account ensures KeysOf(db.recipients + [row], other) == KeysOf(db.recipients, other) {
      KeysOfAdded(db.recipients, row, other);
    }
  }

  lemma RemoveMeans(db: Db, account: string, key: string)
    requires account in db.accounts
    ensures KeyRemoved(db, RemoveRecipient(db, account, key, false).0, account, key)
  {
    hide KeysOf, Without;
    var row := Recipient(account, key);
    KeysOfWithout(db.recipients, row, account);
    KeysOfMembers(db.recipients, account, key);
    forall other | other != account ensures KeysOf(Without(db.recipients, row), other) == KeysOf(db.recipients, other) {
      KeysOfWithout(db.recipients, row, other);
    }
  }

  lemma PersistMeans(db: Db, account: string, key: string, data: Bytes)
    requires Owner(db.recipients, key) == Some(account)
    ensures Enqueued(db, PersistForward(db, key, data, false).0, account, key, data)
  {
    hide Pending, KeysOf, Owner;
    var m := Queued(|db.messages|, account, Some(key), data);
    KeysOfMembers(db.recipients, account, key);
    assert Recipient(account, key) in db.recipients;
    forall other, filter ensures Pending(db.messages + [m], other, filter) == Pending(db.messages, other, filter) +
        if other == account && (filter == None || filter == Some(key)) then [m] else []
    {
      PendingLast(db.messages, m, other, filter);
    }
  }

  lemma OwnerIsListed(db: Db, key: string)
    ensures Owner(db.recipients, key).None? <==> forall a :: key !in KeysOf(db.recipients, a)
  {
    hide KeysOf, Owner;
    var owner := Owner(db.recipients, key);
    if owner.Some? {
      KeysOfMembers(db.recipients, owner.value, key);
    } else {
      forall a ensures key !in KeysOf(db.recipients, a) { KeysOfMembers(db.recipients, a, key); }
    }
  }

  ghost predicate NoRepeats(keys: seq<string>) {
    forall i, j :: 0 <= i < j < |keys| ==> keys[i] != keys[j]
  }

  lemma {:induction false} KeysOfDistinct(rows: seq<Recipient>, account: string)
    requires forall i, j :: 0 <= i < j < |rows| ==> rows[i].key != rows[j].key
    ensures NoRepeats(KeysOf(rows, account))
  {
    if rows != [] {
      var rest := KeysOf(rows[1..], account);
      KeysOfDistinct(rows[1..], account);
      assert rows[0].key !in rest by {
        KeysOfMembers(rows[1..], account, rows[0].key);
        assert forall i :: 0 <= i < |rows| - 1 ==> rows[1..][i] == rows[i + 1];
      }
      NoRepeatsCons(rows[0].key, rest);
    }
  }

  lemma NoRepeatsCons(key: string, rest: seq<string>)
    requires NoRepeats(rest) && key !in rest
    ensures NoRepeats([key] + rest) && NoRepeats([] + rest)
  {
    assert [] + rest == rest;
  }

  // -------------------------------------------------------------- the interface

  /** `MediatorPersistence` over one database. */
  class Store {
    var db: Db

    constructor ()
      ensures db == EMPTY && Inv(db)
    {
      db := EMPTY;
    }

    /** The row is inserted and then read back; a failed read is reported although the account exists. */
    method CreateAccountRow(account: string, details: Account, insertFault: bool, readFault: bool) returns (ok: bool)
      modifies this
      ensures db == CreateAccount(old(db), account, details, insertFault).0
      ensures ok <==> account !in old(db).accounts && !insertFault && !readFault
      ensures ok ==> Opened(old(db), db, account, details)
      ensures !ok ==> db == old(db) || (readFault && Opened(old(db), db, account, details))
    {
      if insertFault || account in db.accounts { return false; }
      db := db.(accounts := db.accounts[account := details]);
      ok := !readFault;
    }

    method AddRecipientRow(account: string, key: string, fault: bool) returns (ok: bool)
      modifies this
      ensures (db, ok) == AddRecipient(old(db), account, key, fault)
      ensures ok <==> !fault && account in old(db).accounts && forall a :: key !in KeysOf(old(db).recipients, a)
      ensures if ok then KeyAdded(old(db), db, account, key) else db == old(db)
    {
      hide KeysOf, KeyAdded;
      OwnerIsListed(db, key);
      if fault || account !in db.accounts || Owner(db.recipients, key).Some? { return false; }
      AddMeans(db, account, key);
      db := db.(recipients := db.recipients + [Recipient(account, key)]);
      ok := true;
    }

    method RemoveRecipientRow(account: string, key: string, fault: bool) returns (ok: bool)
      modifies this
      ensures (db, ok) == RemoveRecipient(old(db), account, key, fault)
      ensures ok <==> !fault && account in old(db).accounts
      ensures if ok then KeyRemoved(old(db), db, account, key) else db == old(db)
    {
      hide KeyRemoved;
      if fault || account !in db.accounts { return false; }
      RemoveMeans(db, account, key);
      var row := Recipient(account, key);
      if row in db.recipients { db := db.(messages := ClearKey(db.messages, key)); }
      db := db.(recipients := Without(db.recipients, row));
      ok := true;
    }

    method PersistForwardMessage(key: string, data: Bytes, fault: bool) returns (ok: bool)
      modifies this
      ensures (db, ok) == PersistForward(old(db), key, data, fault)
      ensures ok <==> !fault && exists a :: key in KeysOf(old(db).recipients, a)
      ensures if ok then exists a :: Enqueued(old(db), db, a, key, data) else db == old(db)
    {
      hide KeysOf, Enqueued;
      OwnerIsListed(db, key);
      var owner := Owner(db.recipients, key);
      if fault || owner.None? { return false; }
      PersistMeans(db, owner.value, key, data);
      db := db.(messages := db.messages + [Queued(|db.messages|, owner.value, Some(key), data)]);
      ok := true;
    }

    /** The keys are those registered for the account, once each. */
    method ListRecipientKeys(account: string, fault: bool) returns (r: Option<seq<string>>)
      ensures r == if fault || account !in db.accounts then None else Some(KeysOf(db.recipients, account))
      ensures r.Some? ==> forall key :: key in r.value <==> Recipient(account, key) in db.recipients
      ensures r.Some? && Inv(db) ==> NoRepeats(r.value)
    {
      if fault || account !in db.accounts { return None; }
      var keys := KeysOf(db.recipients, account);
      forall key ensures key in keys <==> Recipient(account, key) in db.recipients {
        KeysOfMembers(db.recipients, account, key);
      }
      if Inv(db) { KeysOfDistinct(db.recipients, account); }
      r := Some(keys);
    }

    /** The count is the number of places in the queue that match. */
    method RetrievePendingMessageCount(account: string, key: Option<string>, fault: bool) returns (r: Option<nat>)
      ensures r.Some? <==> !fault && account in db.accounts
      ensures r.Some? ==> r.value == |Matching(db.messages, account, key)| == |Pending(db.messages, account, key)|
    {
      if fault || account !in db.accounts { return None; }
      PendingCount(db.messages, account, key);
      r := Some(|Pending(db.messages, account, key)|);
    }

    /** Rows are pushed one by one and the limit is tested after each push. */
    method RetrievePendingMessages(account: string, limit: nat, key: Option<string>, fault: bool)
      returns (r: Option<seq<Queued>>)
      ensures r == if fault || account !in db.accounts then None
                   else var rows := Pending(db.messages, account, key); Some(rows[..Taken(|rows|, limit)])
    {
      hide Pending;
      if fault || account !in db.accounts { return None; }
      var rows := Pending(db.messages, account, key);
      var messages: seq<Queued> := [];
      while |messages| < |rows|
        invariant |messages| <= |rows| && messages == rows[..|messages|]
        invariant messages == [] || |messages| < limit
        decreases |rows| - |messages|
      {
        assert rows[..|messages| + 1] == rows[..|messages|] + [rows[|messages|]];
        messages := messages + [rows[|messages|]];
        if |messages| >= limit { break; }
      }
      assert |messages| == Taken(|rows|, limit);
      r := Some(messages);
    }
  }
}
