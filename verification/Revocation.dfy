/**
  Publishing a revocation registry and its revocations, when ledger and wallet
  may fail at every call.  A registry is published once: first its definition,
  then its initial entry.  Afterwards ids are revoked into a delta kept in the
  wallet, which is published and then cleared.
 */
module Revocation {
  import opened Wrappers
  import opened StatusList

  /** What a submission meets: applied and confirmed, not applied, or applied with the reply lost. */
  datatype Outcome = Accepted | Refused | LostReply

  datatype Submission = Definition(tails: string) | InitialEntry | Revocations(delta: Delta)

  /** One submission the ledger applied, and whether the submitter learnt of it. */
  datatype Receipt = Receipt(item: Submission, acknowledged: bool)

  datatype Error =
    | InvalidState | InvalidRevocationEntry
    | LedgerRead | LedgerWrite | WalletFailure | ConversionError | UpdateFailed
    | RevDeltaNotFound | RevDeltaFailedToClear

  type Status = Result<(), Error>

  /** The wallet and library failures one local revocation can meet, in the order it meets them. */
  datatype RevokeFaults = RevokeFaults(definitionRead: bool, storedRead: bool, update: bool, write: bool)

  datatype PublishFaults = PublishFaults(read: bool, reread: bool, delete: bool)

  datatype State = State(
    max: nat,
    defPublished: bool,
    deltaPublished: bool,
    tails: string,
    pending: Option<Delta>,
    log: seq<Receipt>)

  // -------------------------------------------------------------- specification

  function Logged(log: seq<Receipt>, item: Submission, o: Outcome): seq<Receipt> {
    if o.Refused? then log else log + [Receipt(item, o.Accepted?)]
  }

  function PublishDef(s: State, url: string, o: Outcome): (State, Status) {
    var s' := s.(tails := url, log := Logged(s.log, Definition(url), o));
    if o.Accepted? then (s'.(defPublished := true), Ok(())) else (s', Err(InvalidState))
  }

  function PublishDelta(s: State, o: Outcome): (State, Status) {
    var s' := s.(log := Logged(s.log, InitialEntry, o));
    if o.Accepted? then (s'.(deltaPublished := true), Ok(())) else (s', Err(InvalidRevocationEntry))
  }

  function PublishPrimitives(s: State, url: string, def: Outcome, entry: Outcome): (State, Status) {
    var (d, r) := if s.defPublished then (s, Ok(())) else PublishDef(s, url, def);
    if r.Err? then (d, r)
    else if d.deltaPublished then (d, Ok(()))
    else PublishDelta(d, entry)
  }

  /** The delta after revoking `id`, computed from `base`. */
  function Updated(base: Delta, max: nat, id: nat): Result<Delta, Error> {
    if !(Below(base.issued, max) && Below(base.revoked, max)) then Err(ConversionError)
    else
      var bits := Bits(base, max);
      if id < |bits| then Ok(Delta([], Ones(bits[id := true]))) else Err(UpdateFailed)
  }

  function RevokeLocal(s: State, id: nat, answer: Option<Delta>, f: RevokeFaults): (State, Status) {
    if answer.None? then (s, Err(LedgerRead))
    else if f.definitionRead then (s, Err(WalletFailure))
    else
      var stored := if f.storedRead then None else s.pending;
      var next := Updated(if stored.Some? then stored.value else answer.value, s.max, id);
      if next.Err? then (s, Err(next.error))
      else if f.update then (s, Err(UpdateFailed))
      else if f.write || (stored.None? && s.pending.Some?) then (s, Err(WalletFailure))
      else (s.(pending := Some(next.value)), Ok(()))
  }

  function PublishLocal(s: State, o: Outcome, f: PublishFaults): (State, Status) {
    if f.read || s.pending.None? then (s, Err(RevDeltaNotFound))
    else
      var s' := s.(log := Logged(s.log, Revocations(s.pending.value), o));
      if !o.Accepted? then (s', Err(LedgerWrite))
      else if f.reread then (s', Ok(()))
      else if f.delete then (s', Err(RevDeltaFailedToClear))
      else (s'.(pending := None), Ok(()))
  }

  // ------------------------------------------------------------- implementation

  class Ledger {
    var log: seq<Receipt>

    constructor ()
      ensures log == []
    {
      log := [];
    }

    method Submit(item: Submission, o: Outcome) returns (ok: bool)
      modifies this
      ensures log == Logged(old(log), item, o)
      ensures ok == o.Accepted?
    {
      if !o.Refused? { log := log + [Receipt(item, o.Accepted?)]; }
      ok := o.Accepted?;
    }
  }

  /** The wallet's record of the unpublished delta of one registry. */
  class Wallet {
    var pending: Option<Delta>

    constructor ()
      ensures pending == None
    {
      pending := None;
    }

    /** `get_rev_reg_delta`: an unreadable record looks like a missing one. */
    method GetDelta(fault: bool) returns (delta: Option<Delta>)
      ensures delta == if fault then None else pending
    {
      if fault { return None; }
      delta := pending;
    }

    method UpdateRecord(delta: Delta, fault: bool) returns (ok: bool)
      modifies this
      ensures ok == (!fault && old(pending).Some?)
      ensures pending == if ok then Some(delta) else old(pending)
    {
      ok := !fault && pending.Some?;
      if ok { pending := Some(delta); }
    }

    /** Adding a record that exists fails. */
    method AddRecord(delta: Delta, fault: bool) returns (ok: bool)
      modifies this
      ensures ok == (!fault && old(pending).None?)
      ensures pending == if ok then Some(delta) else old(pending)
    {
      ok := !fault && pending.None?;
      if ok { pending := Some(delta); }
    }

    /** `clear_rev_reg_delta` */
    method ClearDelta(readFault: bool, deleteFault: bool) returns (ok: bool)
      modifies this
      ensures ok == (readFault || old(pending).None? || !deleteFault)
      ensures pending == if ok && !readFault then None else old(pending)
    {
      var found := GetDelta(readFault);
      if found.Some? {
        if deleteFault { return false; }
        pending := None;
      }
      ok := true;
    }
  }

  class RevocationRegistry {
    const max: nat
    var defPublished: bool
    var deltaPublished: bool
    var tailsLocation: string

    constructor (max: nat, tailsLocation: string)
      ensures this.max == max && this.tailsLocation == tailsLocation
      ensures !defPublished && !deltaPublished
    {
      this.max := max;
      this.tailsLocation := tailsLocation;
      defPublished, deltaPublished := false, false;
    }

    ghost function View(ledger: Ledger, wallet: Wallet): State
      reads this, ledger, wallet
    {
      State(max, defPublished, deltaPublished, tailsLocation, wallet.pending, ledger.log)
    }

    method PublishRevRegDef(ledger: Ledger, ghost wallet: Wallet, url: string, o: Outcome) returns (r: Status)
      modifies this, ledger
      ensures (View(ledger, wallet), r) == PublishDef(old(View(ledger, wallet)), url, o)
    {
      tailsLocation := url;
      var ok := ledger.Submit(Definition(url), o);
      if !ok { return Err(InvalidState); }
      defPublished := true;
      r := Ok(());
    }

    method PublishRevRegDelta(ledger: Ledger, ghost wallet: Wallet, o: Outcome) returns (r: Status)
      modifies this, ledger
      ensures (View(ledger, wallet), r) == PublishDelta(old(View(ledger, wallet)), o)
    {
      var ok := ledger.Submit(InitialEntry, o);
      if !ok { return Err(InvalidRevocationEntry); }
      deltaPublished := true;
      r := Ok(());
    }

    method PublishRevocationPrimitives(ledger: Ledger, ghost wallet: Wallet, url: string, def: Outcome, entry: Outcome)
      returns (r: Status)
      modifies this, ledger
      ensures (View(ledger, wallet), r) == PublishPrimitives(old(View(ledger, wallet)), url, def, entry)
    {
      if !defPublished {
        r := PublishRevRegDef(ledger, wallet, url, def);
        if r.Err? { return; }
      }
      if !deltaPublished {
        r := PublishRevRegDelta(ledger, wallet, entry);
        return;
      }
      r := Ok(());
    }

    method RevokeCredentialLocal(ghost ledger: Ledger, wallet: Wallet, id: nat, answer: Option<Delta>, f: RevokeFaults)
      returns (r: Status)
      modifies wallet
      ensures (View(ledger, wallet), r) == RevokeLocal(old(View(ledger, wallet)), id, answer, f)
    {
      if answer.None? { return Err(LedgerRead); }
      if f.definitionRead { return Err(WalletFailure); }
      var stored := wallet.GetDelta(f.storedRead);
      var base := if stored.Some? then stored.value else answer.value;
      var list := StatusListOf(base, max);
      if list.None? { return Err(ConversionError); }
      if f.update || |list.value| <= id { return Err(UpdateFailed); }
      var delta := Delta([], Ones(list.value[id := true]));
      var ok;
      if stored.Some? {
        ok := wallet.UpdateRecord(delta, f.write);
      } else {
        ok := wallet.AddRecord(delta, f.write);
      }
      r := if ok then Ok(()) else Err(WalletFailure);
    }

    method PublishLocalRevocations(ledger: Ledger, wallet: Wallet, o: Outcome, f: PublishFaults) returns (r: Status)
      modifies ledger, wallet
      ensures (View(ledger, wallet), r) == PublishLocal(old(View(ledger, wallet)), o, f)
    {
      var delta := wallet.GetDelta(f.read);
      if delta.None? { return Err(RevDeltaNotFound); }
      var ok := ledger.Submit(Revocations(delta.value), o);
      if !ok { return Err(LedgerWrite); }
      ok := wallet.ClearDelta(f.reread, f.delete);
      r := if ok then Ok(()) else Err(RevDeltaFailedToClear);
    }
  }

  // ----------------------------------------------------------------------- runs

  datatype Action =
    | Primitives(url: string, def: Outcome, entry: Outcome)
    | Republish(url: string, outcome: Outcome)
    | ResubmitEntry(outcome: Outcome)
    | Revoke(id: nat, answer: Option<Delta>, faults: RevokeFaults)
    | PublishPending(outcome: Outcome, clear: PublishFaults)

  function Step(s: State, a: Action): (State, Status) {
    match a
    case Primitives(url, def, entry) => PublishPrimitives(s, url, def, entry)
    case Republish(url, o) => PublishDef(s, url, o)
    case ResubmitEntry(o) => PublishDelta(s, o)
    case Revoke(id, answer, f) => RevokeLocal(s, id, answer, f)
    case PublishPending(o, f) => PublishLocal(s, o, f)
  }

  function Fresh(max: nat, tails: string): State { State(max, false, false, tails, None, []) }

  function Run(s: State, run: seq<Action>): State {
    if run == [] then s else Step(Run(s, run[..|run| - 1]), run[|run| - 1]).0
  }

  /** The ids whose local revocation reported success. */
  function Asked(s: State, run: seq<Action>): set<nat> {
    if run == [] then {}
    else
      var n := |run| - 1;
      var a := run[n];
      Asked(s, run[..n]) + if a.Revoke? && Step(Run(s, run[..n]), a).1.Ok? then {a.id} else {}
  }

  // ------------------------------------------------------------- published once

  /** The definitions and initial entries that were confirmed, in order. */
  function AcknowledgedIn(log: seq<Receipt>): seq<Submission> {
    if log == [] then []
    else
      var n := |log| - 1;
      AcknowledgedIn(log[..n]) + if log[n].acknowledged && !log[n].item.Revocations? then [log[n].item] else []
  }

  /** Only the state machine `publish_revocation_primitives` submits primitives. */
  predicate OnlyPrimitives(run: seq<Action>) {
    forall i :: 0 <= i < |run| ==> !run[i].Republish? && !run[i].ResubmitEntry?
  }

  function Expected(s: State): seq<Submission> {
    (if s.defPublished then [Definition(s.tails)] else []) + if s.deltaPublished then [InitialEntry] else []
  }

  /** No definition follows an acknowledged definition or any entry; no entry precedes an acknowledged definition. */
  ghost predicate Ordered(log: seq<Receipt>) {
    && (forall i, j :: 0 <= i < j < |log| && log[j].item.Definition? ==>
         !log[i].item.InitialEntry? && !(log[i].item.Definition? && log[i].acknowledged))
    && (forall i, j :: 0 <= i < j < |log| && log[j].item.InitialEntry? ==>
         !(log[i].item.InitialEntry? && log[i].acknowledged))
    && (forall j :: 0 <= j < |log| && log[j].item.InitialEntry? ==>
         exists i :: 0 <= i < j && log[i].item.Definition? && log[i].acknowledged)
  }

  /** The two flags tell exactly what has been acknowledged. */
  ghost predicate FlagsTrue(s: State) {
    && (s.defPublished <==> exists i :: 0 <= i < |s.log| && s.log[i].item.Definition? && s.log[i].acknowledged)
    && (s.deltaPublished <==> exists i :: 0 <= i < |s.log| && s.log[i].item.InitialEntry? && s.log[i].acknowledged)
  }

  ghost predicate PublicationInv(s: State) {
    && FlagsTrue(s)
    && Ordered(s.log)
    && (s.deltaPublished ==> s.defPublished)
    && AcknowledgedIn(s.log) == Expected(s)
  }

  lemma {:induction false} AcknowledgedSnoc(log: seq<Receipt>, r: Receipt)
    ensures AcknowledgedIn(log + [r])
         == AcknowledgedIn(log) + if r.acknowledged && !r.item.Revocations? then [r.item] else []
  {
    assert (log + [r])[..|log|] == log;
  }

  lemma DefinitionKeeps(s: State, url: string, o: Outcome)
    requires PublicationInv(s) && !s.defPublished
    ensures PublicationInv(PublishDef(s, url, o).0)
  {
    hide AcknowledgedIn;
    var s' := PublishDef(s, url, o).0;
    if !o.Refused? {
      AcknowledgedSnoc(s.log, Receipt(Definition(url), o.Accepted?));
      assert forall i :: 0 <= i < |s.log| ==> s'.log[i] == s.log[i];
      assert s'.log[|s.log|] == Receipt(Definition(url), o.Accepted?);
    }
  }

  lemma EntryKeeps(s: State, o: Outcome)
    requires PublicationInv(s) && s.defPublished && !s.deltaPublished
    ensures PublicationInv(PublishDelta(s, o).0)
  {
    hide AcknowledgedIn;
    var s' := PublishDelta(s, o).0;
    if !o.Refused? {
      AcknowledgedSnoc(s.log, Receipt(InitialEntry, o.Accepted?));
      assert forall i :: 0 <= i < |s.log| ==> s'.log[i] == s.log[i];
      assert s'.log[|s.log|] == Receipt(InitialEntry, o.Accepted?);
    }
  }

  lemma RevocationsKeep(s: State, r: Receipt)
    requires FlagsTrue(s) && Ordered(s.log) && r.item.Revocations?
    ensures FlagsTrue(s.(log := s.log + [r])) && Ordered(s.log + [r])
  {
    hide Ordered, FlagsTrue;
    FlagsStay(s, r);
    OrderStays(s.log, r);
  }

  lemma FlagsStay(s: State, r: Receipt)
    requires FlagsTrue(s) && r.item.Revocations?
    ensures FlagsTrue(s.(log := s.log + [r]))
  {
    var log := s.log + [r];
    assert forall i :: 0 <= i < |s.log| ==> log[i] == s.log[i];
  }

  lemma OrderStays(before: seq<Receipt>, r: Receipt)
    requires Ordered(before) && r.item.Revocations?
    ensures Ordered(before + [r])
  {
    var log := before + [r];
    assert forall i :: 0 <= i < |before| ==> log[i] == before[i];
    forall j | 0 <= j < |log| && log[j].item.InitialEntry?
      ensures exists i :: 0 <= i < j && log[i].item.Definition? && log[i].acknowledged
    {
      var i :| 0 <= i < j && before[i].item.Definition? && before[i].acknowledged;
      assert log[i].item.Definition?;
    }
  }

  lemma LocalKeeps(s: State, o: Outcome, f: PublishFaults)
    requires PublicationInv(s)
    ensures PublicationInv(PublishLocal(s, o, f).0)
  {
    hide AcknowledgedIn, Ordered, FlagsTrue;
    var s' := PublishLocal(s, o, f).0;
    assert PublicationInv(s.(log := s'.log)) by {
      if s'.log != s.log {
        var r := Receipt(Revocations(s.pending.value), o.Accepted?);
        AcknowledgedSnoc(s.log, r);
        RevocationsKeep(s, r);
      }
    }
    PendingIrrelevant(s.(log := s'.log), s'.pending);
  }

  lemma StepKeepsPublication(s: State, a: Action)
    requires PublicationInv(s) && !a.Republish? && !a.ResubmitEntry?
    ensures PublicationInv(Step(s, a).0)
  {
    hide AcknowledgedIn, FlagsTrue, Ordered, Updated;
    match a
    case Primitives(url, def, entry) =>
      var d := if s.defPublished then s else PublishDef(s, url, def).0;
      if !s.defPublished { DefinitionKeeps(s, url, def); }
      if d.defPublished && !d.deltaPublished { EntryKeeps(d, entry); }
    case Revoke(id, answer, f) =>
      var s' := RevokeLocal(s, id, answer, f).0;
      assert s'.log == s.log && s' == s.(pending := s'.pending);
      PendingIrrelevant(s, s'.pending);
    case PublishPending(o, f) => LocalKeeps(s, o, f);
  }

  lemma PendingIrrelevant(s: State, pending: Option<Delta>)
    requires PublicationInv(s)
    ensures PublicationInv(s.(pending := pending))
  {
    hide AcknowledgedIn;
  }

  lemma {:induction false} PublicationKept(max: nat, tails: string, run: seq<Action>)
    requires OnlyPrimitives(run)
    ensures PublicationInv(Run(Fresh(max, tails), run))
  {
    if run != [] {
      hide PublicationInv, Step;
      var n := |run| - 1;
      PublicationKept(max, tails, run[..n]);
      StepKeepsPublication(Run(Fresh(max, tails), run[..n]), run[n]);
    }
  }

  /**
    Whatever fails in between, what a registry learns to be on the ledger is a
    prefix of [definition, initial entry], the definition being the one with the
    tails location the registry now holds; and the ledger itself never sees an
    entry before that definition, nor a definition after it.
   */
  lemma PublishedOnce(max: nat, tails: string, run: seq<Action>)
    requires OnlyPrimitives(run)
    ensures var s := Run(Fresh(max, tails), run);
      && AcknowledgedIn(s.log) <= [Definition(s.tails), InitialEntry]
      && AcknowledgedIn(s.log) == Expected(s)
      && FlagsTrue(s) && Ordered(s.log)
  {
    PublicationKept(max, tails, run);
  }

  /** Called once more with no failure, publication completes from wherever it stopped. */
  lemma RetryCompletes(max: nat, tails: string, run: seq<Action>, url: string)
    requires OnlyPrimitives(run)
    ensures var s := Run(Fresh(max, tails), run);
      var (s', r) := PublishPrimitives(s, url, Accepted, Accepted);
      && r.Ok? && AcknowledgedIn(s'.log) == [Definition(s'.tails), InitialEntry]
      && s'.tails == (if s.defPublished then s.tails else url)
      && |s'.log| == |s.log| + 2 - |AcknowledgedIn(s.log)|
  {
    hide AcknowledgedIn, FlagsTrue, Ordered;
    var s := Run(Fresh(max, tails), run);
    PublicationKept(max, tails, run);
    StepKeepsPublication(s, Primitives(url, Accepted, Accepted));
    assert Step(s, Primitives(url, Accepted, Accepted)) == PublishPrimitives(s, url, Accepted, Accepted);
  }

  // ------------------------------------------------------ no revocation is lost

  /** Every id revoked by an applied submission. */
  function OnLedger(log: seq<Receipt>): set<nat> {
    if log == [] then {}
    else
      var n := |log| - 1;
      OnLedger(log[..n]) + if log[n].item.Revocations? then Members(log[n].item.delta.revoked) else {}
  }

  function InWallet(s: State): set<nat> {
    if s.pending.Some? then Members(s.pending.value.revoked) else {}
  }

  function Known(s: State): set<nat> { OnLedger(s.log) + InWallet(s) }

  /** The stored delta is one the update wrote. */
  ghost predicate WellStored(s: State) {
    s.pending.Some? ==> s.pending.value.issued == [] && Ascending(s.pending.value.revoked)
  }

  /** Revoking `id` on top of an ascending delta adds exactly `id`. */
  lemma UpdatedAdds(base: Delta, max: nat, id: nat)
    requires Ascending(base.revoked)
    ensures Updated(base, max, id).Ok? ==> Members(Updated(base, max, id).value.revoked) == Members(base.revoked) + {id}
  {
    hide Inserted;
    if Updated(base, max, id).Ok? {
      var start := Inserted(Cleared(max), base.issued, false);
      InsertedFalse(Cleared(max), base.issued);
      AscendingIsExact(start, base.revoked);
      assert forall i :: i in base.revoked ==> i < |Bits(base, max)|;
    }
  }

  lemma {:induction false} OnLedgerLogged(log: seq<Receipt>, item: Submission, o: Outcome)
    ensures OnLedger(Logged(log, item, o))
         == OnLedger(log) + if item.Revocations? && !o.Refused? then Members(item.delta.revoked) else {}
  {
    if !o.Refused? { assert (log + [Receipt(item, o.Accepted?)])[..|log|] == log; }
  }

  lemma PrimitivesChangeNothing(s: State, a: Action)
    requires !a.Revoke? && !a.PublishPending?
    ensures OnLedger(Step(s, a).0.log) == OnLedger(s.log) && Step(s, a).0.pending == s.pending
  {
    hide OnLedger;
    match a
    case Primitives(url, def, entry) =>
      OnLedgerLogged(s.log, Definition(url), def);
      OnLedgerLogged(s.log, InitialEntry, entry);
      OnLedgerLogged(Logged(s.log, Definition(url), def), InitialEntry, entry);
    case Republish(url, o) => OnLedgerLogged(s.log, Definition(url), o);
    case ResubmitEntry(o) => OnLedgerLogged(s.log, InitialEntry, o);
  }

  /** No step forgets an id, and a successful revocation remembers its own. */
  lemma StepForgetsNothing(s: State, a: Action)
    requires WellStored(s)
    ensures var (s', r) := Step(s, a);
      && WellStored(s')
      && OnLedger(s.log) <= OnLedger(s'.log)
      && Known(s) <= Known(s')
      && (a.Revoke? && r.Ok? ==> a.id in Known(s'))
  {
    hide OnLedger;
    match a
    case Revoke(id, answer, f) =>
      hide Updated;
      if RevokeLocal(s, id, answer, f).1.Ok? {
        var base := if s.pending.Some? then s.pending.value else answer.value;
        UpdatedIsAscending(base, s.max, id);
        if s.pending.Some? { UpdatedAdds(base, s.max, id); }
      }
    case PublishPending(o, f) =>
      if s.pending.Some? { OnLedgerLogged(s.log, Revocations(s.pending.value), o); }
    case Primitives(_, _, _) => hide Step; PrimitivesChangeNothing(s, a);
    case Republish(_, _) => hide Step; PrimitivesChangeNothing(s, a);
    case ResubmitEntry(_) => hide Step; PrimitivesChangeNothing(s, a);
  }

  lemma UpdatedIsAscending(base: Delta, max: nat, id: nat)
    ensures var u := Updated(base, max, id);
      u.Ok? ==> u.value.issued == [] && Ascending(u.value.revoked) && id in u.value.revoked
  {}

  /**
    At every moment of every run, every id whose revocation was reported as done
    is in the wallet's pending delta or on the ledger, whatever the ledger answers
    and whatever fails.
   */
  lemma {:induction false} NoRevocationLost(s: State, run: seq<Action>)
    requires WellStored(s)
    ensures WellStored(Run(s, run))
    ensures Known(s) + Asked(s, run) <= Known(Run(s, run))
  {
    if run != [] {
      hide Step, WellStored, Known;
      var n := |run| - 1;
      NoRevocationLost(s, run[..n]);
      StepForgetsNothing(Run(s, run[..n]), run[n]);
    }
  }

  /** Once a publication is confirmed, cleared or not, every id asked for is on the ledger. */
  lemma {:induction false} ConfirmedIsOnLedger(s: State, run: seq<Action>, o: Outcome, f: PublishFaults)
    requires WellStored(s)
    ensures var (s', r) := PublishLocal(Run(s, run), o, f);
      r.Ok? || r == Err(RevDeltaFailedToClear) ==> Asked(s, run) <= OnLedger(s'.log)
  {
    hide OnLedger, Asked, Run, WellStored;
    NoRevocationLost(s, run);
    var last := Run(s, run);
    if last.pending.Some? { OnLedgerLogged(last.log, Revocations(last.pending.value), o); }
  }

  // ---------------------------------------------------------- what one call does

  /** The delta a revocation starts from: the stored one, or else the ledger's answer. */
  function BaseOf(s: State, answer: Delta, f: RevokeFaults): Delta {
    if s.pending.Some? && !f.storedRead then s.pending.value else answer
  }

  /**
    A local revocation succeeds exactly if nothing fails, no stored delta is overlooked,
    and the ids fit the list.  Then the delta from which it started, stored or answered
    by the ledger, and the new id are pending; otherwise nothing has changed.
   */
  lemma RevokeOutcome(s: State, id: nat, answer: Option<Delta>, f: RevokeFaults)
    ensures RevokeLocal(s, id, answer, f).1.Ok? <==>
      && answer.Some? && !f.definitionRead && !f.update && !f.write && !(f.storedRead && s.pending.Some?)
      && (var base := BaseOf(s, answer.value, f);
          Below(base.issued, s.max) && Below(base.revoked, s.max) && id < s.max + |base.issued| + |base.revoked|)
    ensures RevokeLocal(s, id, answer, f).1.Err? ==> RevokeLocal(s, id, answer, f).0 == s
    ensures RevokeLocal(s, id, answer, f).1.Ok? ==>
      var s', base := RevokeLocal(s, id, answer, f).0, BaseOf(s, answer.value, f);
      && s'.pending.Some? && s' == s.(pending := s'.pending)
      && s'.pending.value.issued == [] && Ascending(s'.pending.value.revoked)
      && (Ascending(base.revoked) ==> Members(s'.pending.value.revoked) == Members(base.revoked) + {id})
  {
    hide Bits, Ones;
    if answer.Some? {
      var base := BaseOf(s, answer.value, f);
      if Ascending(base.revoked) { UpdatedAdds(base, s.max, id); }
    }
  }

  /** A publication sends exactly the pending delta; it is cleared exactly if it was confirmed and clearing works. */
  lemma PublishOutcome(s: State, o: Outcome, f: PublishFaults)
    ensures var (s', r) := PublishLocal(s, o, f);
      var sent := s.pending.Some? && !f.read;
      && s'.log == (if sent && o != Refused then s.log + [Receipt(Revocations(s.pending.value), o == Accepted)] else s.log)
      && s'.pending == (if sent && o == Accepted && !f.reread && !f.delete then None else s.pending)
      && (s'.defPublished, s'.deltaPublished, s'.tails, s'.max) == (s.defPublished, s.deltaPublished, s.tails, s.max)
      && (r == Err(RevDeltaNotFound) <==> !sent)
      && (r == Err(LedgerWrite) <==> sent && o != Accepted)
      && (r == Err(RevDeltaFailedToClear) <==> sent && o == Accepted && !f.reread && f.delete)
      && (r.Ok? <==> sent && o == Accepted && (f.reread || !f.delete))
  {}

  /** Which part of the publication a failure stops at. */
  lemma PrimitivesOutcome(s: State, url: string, def: Outcome, entry: Outcome)
    ensures var (s', r) := PublishPrimitives(s, url, def, entry);
      && (r == Err(InvalidState) <==> !s.defPublished && def != Accepted)
      && (r == Err(InvalidRevocationEntry) <==> (s.defPublished || def == Accepted) && !s.deltaPublished && entry != Accepted)
      && (r.Ok? <==> (s.defPublished || def == Accepted) && (s.deltaPublished || entry == Accepted))
      && s'.pending == s.pending && s'.tails == (if s.defPublished then s.tails else url)
  {}

  // ------------------------------------------------------- no false revocation

  /** The ledger's answers list, in ascending order, ids that are revoked on it. */
  ghost predicate Truthful(s: State, run: seq<Action>) {
    forall i :: 0 <= i < |run| && run[i].Revoke? && run[i].answer.Some? ==>
      Ascending(run[i].answer.value.revoked) && Members(run[i].answer.value.revoked) <= OnLedger(Run(s, run[..i]).log)
  }

  lemma StepInventsNothing(s: State, a: Action)
    requires WellStored(s)
    requires a.Revoke? && a.answer.Some? ==>
      Ascending(a.answer.value.revoked) && Members(a.answer.value.revoked) <= OnLedger(s.log)
    ensures var (s', r) := Step(s, a);
      Known(s') == Known(s) + if a.Revoke? && r.Ok? then {a.id} else {}
  {
    hide OnLedger;
    match a
    case Revoke(id, answer, f) =>
      hide Updated;
      if RevokeLocal(s, id, answer, f).1.Ok? {
        UpdatedAdds(if s.pending.Some? then s.pending.value else answer.value, s.max, id);
      }
    case PublishPending(o, f) =>
      if s.pending.Some? { OnLedgerLogged(s.log, Revocations(s.pending.value), o); }
    case Primitives(_, _, _) => hide Step; PrimitivesChangeNothing(s, a);
    case Republish(_, _) => hide Step; PrimitivesChangeNothing(s, a);
    case ResubmitEntry(_) => hide Step; PrimitivesChangeNothing(s, a);
  }

  /** With truthful, ascending answers the ids known are exactly the ids asked for. */
  lemma {:induction false} ExactlyTheAsked(s: State, run: seq<Action>)
    requires WellStored(s) && Truthful(s, run)
    ensures Known(Run(s, run)) == Known(s) + Asked(s, run)
  {
    if run != [] {
      hide Step, WellStored, Known, OnLedger;
      var n := |run| - 1;
      assert Truthful(s, run[..n]) by {
        forall i | 0 <= i < n && run[..n][i].Revoke? && run[..n][i].answer.Some?
          ensures Ascending(run[..n][i].answer.value.revoked)
          ensures Members(run[..n][i].answer.value.revoked) <= OnLedger(Run(s, run[..n][..i]).log)
        {
          assert run[..n][..i] == run[..i] && run[..n][i] == run[i];
        }
      }
      NoRevocationLost(s, run[..n]);
      ExactlyTheAsked(s, run[..n]);
      StepInventsNothing(Run(s, run[..n]), run[n]);
    }
  }

  /** Revoking `id` on top of `base` makes exactly `id` pending beside what was there. */
  predicate AddsOnly(base: Delta, max: nat, id: nat) {
    var u := Updated(base, max, id);
    u.Ok? && Members(u.value.revoked) == Members(base.revoked) + {id}
  }

  /** A ledger answer is safe to revoke on top of exactly when it is in ascending order. */
  lemma SafeAnswer(answer: Delta, max: nat)
    requires Below(answer.issued, max) && Below(answer.revoked, max)
    ensures Ascending(answer.revoked) <==> forall id :: 0 <= id < max ==> AddsOnly(answer, max, id)
  {
    hide Inserted, Ones, Bits;
    if Ascending(answer.revoked) {
      forall id | 0 <= id < max ensures AddsOnly(answer, max, id) { UpdatedAdds(answer, max, id); }
    } else {
      assert !AddsOnly(answer, max, answer.revoked[0]) by {
        if AddsOnly(answer, max, answer.revoked[0]) { NothingMisplaced(answer, max); }
      }
    }
  }

  /** If re-revoking a revoked id changes nothing, the answer was in ascending order. */
  lemma NothingMisplaced(answer: Delta, max: nat)
    requires Below(answer.issued, max) && Below(answer.revoked, max) && answer.revoked != []
    requires AddsOnly(answer, max, answer.revoked[0])
    ensures Ascending(answer.revoked)
  {
    hide Inserted, Count;
    var bits, ids := Bits(answer, max), answer.revoked;
    var marked := set i | 0 <= i < |bits| && bits[i];
    var base := Inserted(Cleared(max), answer.issued, false);
    assert Count(bits) == |ids| by {
      InsertedFalse(Cleared(max), answer.issued);
      CountCleared(base);
      CountInserted(base, ids);
    }
    CountIsSize(bits, marked);
    forall i | i in marked ensures i in Members(ids) {
      assert bits[ids[0] := true][i];
      assert i in Members(Ones(bits[ids[0] := true]));
    }
    NoRoomForRepeats(ids, marked);
    assert Exact(bits, ids, max);
    StatusListIsExact(answer, max);
  }

  /** If the members of a list include as many ids as the list is long, they are all of them, once each. */
  lemma NoRoomForRepeats(ids: seq<nat>, marked: set<nat>)
    requires marked <= Members(ids) && |marked| == |ids|
    ensures marked == Members(ids) && Distinct(ids)
  {
    assert |Members(ids) - marked| == |Members(ids)| - |marked|;
    AtMostOneEach(ids);
    SubsetSameSize(marked, Members(ids));
  }

  lemma {:induction false} AtMostOneEach(ids: seq<nat>)
    ensures |Members(ids)| <= |ids|
    ensures |Members(ids)| == |ids| ==> Distinct(ids)
  {
    if ids != [] {
      var n := |ids| - 1;
      AtMostOneEach(ids[..n]);
      assert ids == ids[..n] + [ids[n]];
      assert Members(ids) == Members(ids[..n]) + {ids[n]};
      if |Members(ids)| == |ids| {
        assert ids[n] !in Members(ids[..n]);
      }
    }
  }

  lemma SubsetSameSize(a: set<nat>, b: set<nat>)
    requires a <= b && |a| == |b|
    ensures a == b
  {
    assert |b - a| == |b| - |a|;
    assert b == a + (b - a);
  }

  /** Revoking 3 and 5 and publishing them, with the ledger answering truthfully. */
  const REVOKED_3_5: seq<Action> := [
    Revoke(3, Some(Delta([], [])), RevokeFaults(false, false, false, false)),
    Revoke(5, Some(Delta([], [])), RevokeFaults(false, false, false, false)),
    PublishPending(Accepted, PublishFaults(false, false, false))]

  lemma ReachesRevoked(tails: string)
    ensures var s := Run(Fresh(8, tails), REVOKED_3_5);
      s.max == 8 && s.pending == None && OnLedger(s.log) == {3, 5}
  {
    hide Updated;
    var f, run := Fresh(8, tails), REVOKED_3_5;
    assert run[..3] == run && run[..2] == [run[0], run[1]] && run[..1] == [run[0]] && run[..0] == [];
    assert run[..3][..2] == run[..2] && run[..2][..1] == run[..1] && run[..1][..0] == run[..0];
    var none := Delta([], []);
    UpdatedAdds(none, 8, 3);
    Revocable(none, 8, 3);
    var one := Updated(none, 8, 3).value;
    assert Members(one.revoked) == {3};
    UpdatedIsAscending(none, 8, 3);
    OnlyBelow(one, 8);
    UpdatedAdds(one, 8, 5);
    Revocable(one, 8, 5);
    var two := Updated(one, 8, 5).value;
    assert Members(two.revoked) == {3, 5};
    var s1, s2 := f.(pending := Some(one)), f.(pending := Some(two));
    assert Run(f, run[..0]) == f && Run(f, run[..1]) == s1 && Run(f, run[..2]) == s2;
    var log := [Receipt(Revocations(two), true)];
    assert [] + log == log && log[..0] == [];
    assert Run(f, run[..3]) == f.(log := log);
    assert OnLedger([]) == {} && OnLedger(log) == {3, 5};
  }

  lemma Revocable(base: Delta, max: nat, id: nat)
    requires Below(base.issued, max) && Below(base.revoked, max) && id < max
    ensures Updated(base, max, id).Ok?
  {}

  lemma OnlyBelow(base: Delta, max: nat)
    requires base.issued == [] && forall i :: i in Members(base.revoked) ==> i < max
    ensures Below(base.issued, max) && Below(base.revoked, max)
  {
    forall i | 0 <= i < |base.revoked| ensures base.revoked[i] < max {
      assert base.revoked[i] in Members(base.revoked);
    }
  }

  /**
    A run that revokes 3 and 5, publishes them and asks for 3 once more, the ledger now
    answering "5, 3", makes 6 pending although nobody asked for it.
   */
  lemma FalselyRevokes(tails: string)
    ensures var run := REVOKED_3_5 + [Revoke(3, Some(Delta([], [5, 3])), RevokeFaults(false, false, false, false))];
      6 !in Asked(Fresh(8, tails), run) && 6 in Known(Run(Fresh(8, tails), run))
  {
    hide Inserted, Ones, OnLedger;
    var answer := Delta([], [5, 3]);
    var a := Revoke(3, Some(answer), RevokeFaults(false, false, false, false));
    var run := REVOKED_3_5 + [a];
    assert run[..3] == REVOKED_3_5 && run[3] == a;
    var s := Run(Fresh(8, tails), REVOKED_3_5);
    ReachesRevoked(tails);
    DescendingMisplaces();
    var delta := Delta([], Ones(Bits(answer, 8)[3 := true]));
    assert 6 in delta.revoked;
    assert Step(s, a) == (s.(pending := Some(delta)), Ok(()));
    assert Run(Fresh(8, tails), run) == Step(s, a).0;
    AskedIds(Fresh(8, tails), run, {3, 5});
  }

  lemma {:induction false} AskedIds(s: State, run: seq<Action>, ids: set<nat>)
    requires forall i :: 0 <= i < |run| && run[i].Revoke? ==> run[i].id in ids
    ensures Asked(s, run) <= ids
  {
    if run != [] {
      hide Step;
      AskedIds(s, run[..|run| - 1], ids);
    }
  }
}
