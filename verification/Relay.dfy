/** The message relay: one queue per user, filled by senders and emptied one message at a time. */
module Relay {
  import opened Wrappers

  type Queues = map<string, seq<Bytes>>

  datatype Event = Send(user: string, body: Bytes) | Pop(user: string)

  // -------------------------------------------------------------- specification

  function Queued(q: Queues, user: string): seq<Bytes> {
    if user in q then q[user] else []
  }

  function Sent(q: Queues, user: string, body: Bytes): Queues {
    q[user := Queued(q, user) + [body]]
  }

  function Popped(q: Queues, user: string): (Queues, Option<Bytes>) {
    if Queued(q, user) == [] then (q, None) else (q[user := q[user][1..]], Some(q[user][0]))
  }

  // ------------------------------------------------------------- implementation

  /** The map behind the lock; each request runs with the lock held. */
  class UserMessages {
    var messagesByUserId: Queues

    constructor ()
      ensures messagesByUserId == map[]
    {
      messagesByUserId := map[];
    }

    method SendUserMessage(user: string, body: Bytes)
      modifies this
      ensures messagesByUserId == Sent(old(messagesByUserId), user, body)
    {
      if user in messagesByUserId {
        messagesByUserId := messagesByUserId[user := messagesByUserId[user] + [body]];
      } else {
        messagesByUserId := messagesByUserId[user := [body]];
        assert [] + [body] == [body];
      }
    }

    /** `None` is the empty response. */
    method PopUserMessage(user: string) returns (body: Option<Bytes>)
      modifies this
      ensures (messagesByUserId, body) == Popped(old(messagesByUserId), user)
    {
      if user in messagesByUserId && messagesByUserId[user] != [] {
        var queue := messagesByUserId[user];
        messagesByUserId := messagesByUserId[user := queue[1..]];
        return Some(queue[0]);
      }
      body := None;
    }
  }

  // ----------------------------------------------------------------------- runs

  function Step(q: Queues, e: Event): Queues {
    match e
    case Send(user, body) => Sent(q, user, body)
    case Pop(user) => Popped(q, user).0
  }

  function After(run: seq<Event>): Queues {
    if run == [] then map[] else Step(After(run[..|run| - 1]), run[|run| - 1])
  }

  /** What `user` sends in one event, as a list of at most one message. */
  function Incoming(e: Event, user: string): seq<Bytes> {
    if e.Send? && e.user == user then [e.body] else []
  }

  /** What `user` receives in one event; an empty response leaves nothing. */
  function Outgoing(q: Queues, e: Event, user: string): seq<Bytes> {
    if e == Pop(user) && Popped(q, user).1.Some? then [Popped(q, user).1.value] else []
  }

  /** Everything sent to `user`, in order. */
  function SentTo(run: seq<Event>, user: string): seq<Bytes> {
    if run == [] then [] else SentTo(run[..|run| - 1], user) + Incoming(run[|run| - 1], user)
  }

  /** Everything `user` popped, in order. */
  function PoppedBy(run: seq<Event>, user: string): seq<Bytes> {
    if run == [] then []
    else PoppedBy(run[..|run| - 1], user) + Outgoing(After(run[..|run| - 1]), run[|run| - 1], user)
  }

  lemma StepConserves(q: Queues, e: Event, user: string)
    ensures Queued(q, user) + Incoming(e, user) == Outgoing(q, e, user) + Queued(Step(q, e), user)
  {
    var before := Queued(q, user);
    if e == Pop(user) && before != [] { assert before == [before[0]] + before[1..]; }
  }

  /** In every interleaving: what was sent is what was popped followed by what is queued. */
  lemma {:induction false} NothingLost(run: seq<Event>, user: string)
    ensures SentTo(run, user) == PoppedBy(run, user) + Queued(After(run), user)
  {
    if run != [] {
      hide Step, Incoming, Outgoing, Queued;
      var n := |run| - 1;
      NothingLost(run[..n], user);
      StepConserves(After(run[..n]), run[n], user);
      Shift(PoppedBy(run[..n], user), Queued(After(run[..n]), user), Incoming(run[n], user),
            Outgoing(After(run[..n]), run[n], user), Queued(After(run), user));
    }
  }

  lemma Shift(popped: seq<Bytes>, queued: seq<Bytes>, i: seq<Bytes>, o: seq<Bytes>, queued': seq<Bytes>)
    requires queued + i == o + queued'
    ensures popped + queued + i == popped + o + queued'
  {
    assert popped + queued + i == popped + (queued + i);
    assert popped + o + queued' == popped + (o + queued');
  }

  /** A pop is empty exactly when all that was ever sent to the user has been popped. */
  lemma EmptyIffAllPopped(run: seq<Event>, user: string)
    ensures Popped(After(run), user).1.None? <==> PoppedBy(run, user) == SentTo(run, user)
  {
    NothingLost(run, user);
  }

  /** The requests that concern one user. */
  function Of(run: seq<Event>, user: string): seq<Event> {
    if run == [] then []
    else Of(run[..|run| - 1], user) + if run[|run| - 1].user == user then [run[|run| - 1]] else []
  }

  lemma StepIsLocal(q: Queues, p: Queues, e: Event, user: string)
    requires Queued(q, user) == Queued(p, user)
    ensures e.user == user ==> Queued(Step(q, e), user) == Queued(Step(p, e), user) && Outgoing(q, e, user) == Outgoing(p, e, user)
    ensures e.user != user ==> Queued(Step(q, e), user) == Queued(q, user) && Outgoing(q, e, user) == Incoming(e, user) == []
  {}

  /** Users never affect each other: a user sees the run as if alone. */
  lemma {:induction false} UsersIsolated(run: seq<Event>, user: string)
    ensures Queued(After(run), user) == Queued(After(Of(run, user)), user)
    ensures PoppedBy(run, user) == PoppedBy(Of(run, user), user)
    ensures SentTo(run, user) == SentTo(Of(run, user), user)
  {
    if run != [] {
      hide Step, Incoming, Outgoing, Queued;
      var n := |run| - 1;
      var front, own := Of(run[..n], user), Of(run, user);
      UsersIsolated(run[..n], user);
      StepIsLocal(After(run[..n]), After(front), run[n], user);
      if run[n].user == user {
        assert own[..|own| - 1] == front && own[|own| - 1] == run[n];
      } else {
        assert own == front;
      }
    }
  }
}
