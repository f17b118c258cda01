/** The reconnecting JSON-RPC proxy. */
module Proxy {
  import opened Basics
  import opened ProxyState

  /** `xs` lists the elements of `s`, each once. */
  ghost predicate Lists<T(!new)>(xs: seq<T>, s: set<T>) {
    (forall x :: x in s <==> x in xs) && NoDuplicates(xs)
  }

  lemma ListMore<T(!new)>(xs: seq<T>, s: set<T>, x: T)
    requires Lists(xs, s) && x !in s
    ensures Lists(xs + [x], s + {x})
  {
    var ys := xs + [x];
    assert ys[|xs|] == x;
    assert forall y :: y in ys <==> y in xs || y == x;
  }

  /** The keys of a `Map` in insertion order, after setting one. */
  function WithKey<T(==)>(order: seq<T>, x: T): seq<T> {
    if x in order then order else order + [x]
  }

  /** ... and after deleting one. */
  function WithoutKey<T(==)>(order: seq<T>, x: T): seq<T> {
    if order == [] then []
    else
      var n := |order| - 1;
      WithoutKey(order[..n], x) + (if order[n] == x then [] else [order[n]])
  }

  lemma ListSet<T(!new)>(xs: seq<T>, s: set<T>, x: T)
    requires Lists(xs, s)
    ensures Lists(WithKey(xs, x), s + {x})
  {
    if x !in s {
      ListMore(xs, s, x);
    } else {
      assert s + {x} == s;
    }
  }

  lemma {:induction false} ListDelete<T(!new)>(xs: seq<T>, s: set<T>, x: T)
    requires Lists(xs, s)
    ensures Lists(WithoutKey(xs, x), s - {x})
  {
    if xs != [] {
      var n := |xs| - 1;
      ListLess(xs, s);
      ListDelete(xs[..n], s - {xs[n]}, x);
      if xs[n] == x {
        assert s - {xs[n]} - {x} == s - {x};
      } else {
        ListMore(WithoutKey(xs[..n], x), s - {xs[n]} - {x}, xs[n]);
        assert s - {xs[n]} - {x} + {xs[n]} == s - {x};
      }
    }
  }

  lemma ListLess<T(!new)>(xs: seq<T>, s: set<T>)
    requires Lists(xs, s) && xs != []
    ensures xs[|xs| - 1] in s && Lists(xs[..|xs| - 1], s - {xs[|xs| - 1]})
  {
    var n := |xs| - 1;
    forall x | x in s && x != xs[n] ensures x in xs[..n] {
      assert x in xs;
      var k :| 0 <= k < |xs| && xs[k] == x;
      assert xs[..n][k] == x;
    }
  }

  /** The tracked requests are known in the order in which they were sent. */
  ghost predicate InOrder(s: State, order: seq<Id>) {
    s.Connected? ==> Lists(order, s.onGoing.Keys)
  }

  /** Which of the requests `ids` were sent, in the order in which they were. */
  ghost function SentAmong(sent: seq<Outgoing>, ids: set<Id>): seq<Id> {
    if sent == [] then []
    else
      var last := sent[|sent| - 1];
      SentAmong(sent[..|sent| - 1], ids)
        + (if last.Forward? && last.msg.id.Some? && last.msg.id.value in ids then [last.msg.id.value] else [])
  }

  ghost predicate IsSent(sent: seq<Outgoing>, id: Id) {
    exists k :: 0 <= k < |sent| && sent[k].Forward? && sent[k].msg.id == Some(id)
  }

  /** The order is that of sending, and what was sent is tracked or answered. */
  ghost predicate OrderIsOfSending(onGoing: set<Id>, order: seq<Id>, sent: seq<Outgoing>, answered: multiset<Id>) {
    order == SentAmong(sent, onGoing) && forall id :: IsSent(sent, id) ==> id in answered || id in onGoing
  }

  ghost predicate SentInOrder(s: State, order: seq<Id>, sent: seq<Outgoing>, log: seq<Incoming>) {
    s.Connected? ==> OrderIsOfSending(s.onGoing.Keys, order, sent, AnsweredIds(log))
  }

  lemma NothingSent(sent: seq<Outgoing>, answered: multiset<Id>)
    requires forall k :: 0 <= k < |sent| ==> !sent[k].Forward?
    ensures OrderIsOfSending({}, [], sent, answered)
  {
    NoneSentAmong(sent);
  }

  lemma {:induction false} NoneSentAmong(sent: seq<Outgoing>)
    ensures SentAmong(sent, {}) == []
  {
    if sent != [] {
      NoneSentAmong(sent[..|sent| - 1]);
    }
  }

  /** Sending what is no request of the consumer's, and answering more. */
  lemma SentOther(onGoing: set<Id>, order: seq<Id>, sent: seq<Outgoing>, more: seq<Outgoing>, answered: multiset<Id>,
                 answered': multiset<Id>)
    requires OrderIsOfSending(onGoing, order, sent, answered) && answered <= answered'
    requires |more| <= 1 && forall k :: 0 <= k < |more| ==> !more[k].Forward?
    ensures OrderIsOfSending(onGoing, order, sent + more, answered')
  {
    if more == [] {
      assert sent + more == sent;
    } else {
      assert (sent + more)[..|sent|] == sent;
    }
    forall id | IsSent(sent + more, id) ensures id in answered' || id in onGoing {
      var k :| 0 <= k < |sent + more| && (sent + more)[k].Forward? && (sent + more)[k].msg.id == Some(id);
      assert k < |sent| && sent[k].Forward?;
      assert IsSent(sent, id);
    }
  }

  lemma {:induction false} SentAmongMore(sent: seq<Outgoing>, ids: set<Id>, id: Id)
    requires !IsSent(sent, id)
    ensures SentAmong(sent, ids + {id}) == SentAmong(sent, ids)
  {
    if sent != [] {
      var n := |sent| - 1;
      assert forall k :: 0 <= k < n ==> sent[..n][k] == sent[k];
      SentAmongMore(sent[..n], ids, id);
    }
  }

  /** A request is sent and tracked. */
  lemma SentNew(onGoing: set<Id>, order: seq<Id>, sent: seq<Outgoing>, answered: multiset<Id>, msg: Request)
    requires OrderIsOfSending(onGoing, order, sent, answered) && Lists(order, onGoing)
    requires msg.id.Some? ==> msg.id.value !in onGoing && msg.id.value !in answered
    ensures var onGoing' := if msg.id.Some? then onGoing + {msg.id.value} else onGoing;
            OrderIsOfSending(onGoing', if msg.id.Some? then WithKey(order, msg.id.value) else order,
                             sent + [Forward(msg)], answered)
  {
    var sent' := sent + [Forward(msg)];
    var onGoing' := if msg.id.Some? then onGoing + {msg.id.value} else onGoing;
    assert sent'[..|sent|] == sent;
    if msg.id.Some? {
      SentAmongMore(sent, onGoing, msg.id.value);
    }
    forall id | IsSent(sent', id) ensures id in answered || id in onGoing' {
      var k :| 0 <= k < |sent'| && sent'[k].Forward? && sent'[k].msg.id == Some(id);
      if k < |sent| {
        assert sent[k] == sent'[k];
        assert IsSent(sent, id);
      }
    }
  }

  lemma {:induction false} SentAmongLess(sent: seq<Outgoing>, ids: set<Id>, id: Id)
    ensures SentAmong(sent, ids - {id}) == WithoutKey(SentAmong(sent, ids), id)
  {
    if sent != [] {
      var n := |sent| - 1;
      SentAmongLess(sent[..n], ids, id);
      var before := SentAmong(sent[..n], ids);
      if sent[n].Forward? && sent[n].msg.id.Some? && sent[n].msg.id.value in ids {
        assert (before + [sent[n].msg.id.value])[..|before|] == before;
      } else {
        assert before + [] == before;
      }
    }
  }

  /** A request is answered. */
  lemma SentAnswered(onGoing: set<Id>, order: seq<Id>, sent: seq<Outgoing>, answered: multiset<Id>,
                     answered': multiset<Id>, id: Id)
    requires OrderIsOfSending(onGoing, order, sent, answered) && answered <= answered'
    requires id in onGoing ==> id in answered'
    ensures OrderIsOfSending(onGoing - {id}, WithoutKey(order, id), sent, answered')
  {
    SentAmongLess(sent, onGoing, id);
  }

  lemma HandIsUnanswered(s: State, c: Connection, count: nat, log: seq<Incoming>, requests: multiset<Id>,
                         inHand: multiset<Id>, msg: Request)
    requires Whole(s, c, count, log, requests, inHand + MsgIds(msg))
    ensures msg.id.Some? ==> msg.id.value !in AnsweredIds(log)
  {
    if msg.id.Some? {
      InHandIsNew(s, log, requests, inHand + MsgIds(msg), msg.id.value);
    }
  }

  /** The order after sending what was queued. */
  function OrderAfter(msgs: seq<Request>): seq<Id> {
    if msgs == [] then []
    else
      var last := msgs[|msgs| - 1];
      var before := OrderAfter(msgs[..|msgs| - 1]);
      if last.id.Some? then WithKey(before, last.id.value) else before
  }

  /** The tracked operations among `ids`, in that order. */
  function OperationsOf(onGoing: map<Id, Ongoing>, ids: seq<Id>): seq<Id> {
    if ids == [] then []
    else
      var id := ids[|ids| - 1];
      OperationsOf(onGoing, ids[..|ids| - 1]) + (if id in onGoing && onGoing[id].Operation? then [id] else [])
  }

  /** The requests to ask again among `ids`, in that order. */
  function RetriedOf(onGoing: map<Id, Ongoing>, ids: seq<Id>): seq<Request> {
    if ids == [] then []
    else
      var id := ids[|ids| - 1];
      RetriedOf(onGoing, ids[..|ids| - 1])
          + (if id in onGoing && !onGoing[id].Operation? then [onGoing[id].msg] else [])
  }

  function StopEvents(subs: seq<Payload>): (r: seq<Incoming>)
    ensures |r| == |subs|
  {
    seq(|subs|, k requires 0 <= k < |subs| => StopEvent(subs[k]))
  }

  function Errors(ids: seq<Id>): (r: seq<Incoming>)
    ensures |r| == |ids|
  {
    seq(|ids|, k requires 0 <= k < |ids| => Response(ids[k], Error))
  }

  function Forwards(msgs: seq<Request>): (r: seq<Outgoing>)
    ensures |r| == |msgs|
  {
    seq(|msgs|, k requires 0 <= k < |msgs| => Forward(msgs[k]))
  }

  ghost predicate SameKind(s: State, s': State) {
    s.Connected? == s'.Connected? && s.Connecting? == s'.Connecting?
  }

  /** What the proxy answers by itself to a broadcast or stop. */
  function OwnAnswer(msg: Request, count: nat): Incoming
    requires IsSynthetic(msg)
  {
    Response(msg.id.value, Result(if msg.call.TransactionStop? then Null else TokenPayload(Synthetic(count))))
  }

  /** Messages that do not reach the consumer: answers that the proxy asked for, or that nobody waits for. */
  predicate IsDropped(s: State, msg: Incoming) {
    s.Done? || (s.Connected? && msg.Response? && (msg.id in s.pendingBroadcasts || msg.id !in s.onGoing))
  }

  /** The answer to a follow, with the subscription that starts. */
  predicate IsFollowed(s: State, msg: Incoming)
    requires s.Connected? && msg.Response?
  {
    msg.id in s.onGoing && s.onGoing[msg.id].FollowMsg? && msg.reply.Result?
  }

  /** What goes to the server when the consumer sends `msg`. */
  ghost function Passed(s: State, msg: Request): seq<Outgoing> {
    if !s.Connected? then []
    else if !IsSynthetic(msg) then [Forward(msg)]
    else if msg.call.TransactionBroadcast? then [UpBroadcast(msg.id.value, msg.call.tx)]
    else if msg.call.token in s.activeBroadcasts && HasToken(s.activeBroadcasts[msg.call.token])
    then [UpStop(msg.id.value, s.activeBroadcasts[msg.call.token].upToken.value)]
    else []
  }

  /** The unstopped broadcasts after the consumer sends `msg`. */
  ghost function BroadcastsAfter(s: State, msg: Request, count: nat): map<Token, Broadcast> {
    if s.Done? || !IsSynthetic(msg) then s.Broadcasts()
    else if msg.call.TransactionBroadcast? then s.Broadcasts()[Synthetic(count) := Broadcast(msg.call.tx, None)]
    else s.Broadcasts() - {msg.call.token}
  }

  /** Follows are asked again with a new connection, operations on a chain fail, and the rest is asked again. */
  ghost predicate Tracks(o: Ongoing, msg: Request) {
    if msg.call.Unfollow? || msg.call.ChainHeadOperation? then o.Operation? && msg.id == Some(o.id)
    else o == (if msg.call.Follow? then FollowMsg(msg) else OtherMsg(msg))
  }

  /** One of the messages sends the broadcast `syn`, under the id for which an answer is awaited. */
  ghost predicate Resent(active: map<Token, Broadcast>, inFlight: map<Id, Token>, msgs: seq<Outgoing>, syn: Token)
    requires syn in active
  {
    exists k :: 0 <= k < |msgs| && ResendOf(active, inFlight, msgs[k], syn)
  }

  ghost predicate ResendOf(active: map<Token, Broadcast>, inFlight: map<Id, Token>, msg: Outgoing, syn: Token)
    requires syn in active
  {
    msg.UpBroadcast? && msg.id in inFlight && inFlight[msg.id] == syn && msg.tx == active[syn].tx
  }

  lemma EachResent(s: State, c: Connection, count: nat, answered: multiset<Id>)
    requires s.Connected? && Resending(s, c, count, answered, s.activeBroadcasts.Keys)
    ensures forall syn :: syn in s.activeBroadcasts ==> Resent(s.activeBroadcasts, s.pendingBroadcasts, c.sent, syn)
  {
    forall syn | syn in s.activeBroadcasts ensures Resent(s.activeBroadcasts, s.pendingBroadcasts, c.sent, syn) {
      assert InFlight(s.pendingBroadcasts, syn);
      var id :| id in s.pendingBroadcasts && s.pendingBroadcasts[id] == syn;
      assert WasSent(s, c, id);
      var k :| 0 <= k < |c.sent| && c.sent[k].UpBroadcast? && c.sent[k].id == id
        && c.sent[k].tx == s.activeBroadcasts[syn].tx;
      assert ResendOf(s.activeBroadcasts, s.pendingBroadcasts, c.sent[k], syn);
    }
  }

  lemma NoneForwarded(s: State, c: Connection, count: nat, answered: multiset<Id>)
    requires s.Connected? && Resending(s, c, count, answered, s.activeBroadcasts.Keys)
    ensures forall k :: 0 <= k < |c.sent| ==> !c.sent[k].Forward?
  {
    forall k | 0 <= k < |c.sent| ensures !c.sent[k].Forward? {
      assert Resend(s, c.sent[k]);
    }
  }

  lemma NothingQueued()
    ensures QueuedIds([]) == multiset{}
  {
  }

  lemma NothingSynthetic(s: State, c: Connection, count: nat, log: seq<Incoming>, requests: multiset<Id>)
    requires s.Connecting? && Whole(s, c, count, log, requests, multiset{})
    ensures forall k :: 0 <= k < |s.pending| ==> !IsSynthetic(s.pending[k])
  {
  }

  class Proxy {
    var state: State
    var count: nat                     // how many tokens and ids were drawn
    var toConsumer: seq<Incoming>      // everything handed to the consumer
    var sent: seq<Outgoing>            // everything sent on the current connection
    var order: seq<Id>                 // the keys of `onGoing` in insertion order
    ghost var requests: multiset<Id>   // the ids of everything the consumer asked
    ghost var received: set<Payload>   // the upstream tokens that came in on the current connection
    ghost var failed: set<Token>       // the broadcasts answered without a token on the current connection

    ghost function Conn(): Connection
      reads this
    {
      Connection(sent, received, failed)
    }

    /** What holds between any two steps, `inHand` being requests that a step is working on. */
    ghost predicate Ok(inHand: multiset<Id>)
      reads this
    {
      && Whole(state, Conn(), count, toConsumer, requests, inHand)
      && InOrder(state, order) && SentInOrder(state, order, sent, toConsumer)
    }

    constructor ()
      ensures Ok(multiset{}) && state == Connecting([], map[]) && requests == multiset{}
      ensures toConsumer == [] && sent == []
    {
      state, count, toConsumer, sent, order := Connecting([], map[]), 0, [], [], [];
      requests, received, failed := multiset{}, {}, {};
    }

    /** A broadcast is answered with a new token. */
    method Broadcasting(id: Id, tx: string, ghost inHand: multiset<Id>)
      requires !state.Done? && id.ConsumerId? && Ok(inHand + multiset{id})
      modifies this
      ensures Ok(inHand) && requests == old(requests) && order == old(order)
      ensures SameKind(old(state), state) && count == old(count) + 1
      ensures state.Broadcasts() == old(state).Broadcasts()[Synthetic(old(count)) := Broadcast(tx, None)]
      ensures toConsumer == old(toConsumer) + [Response(id, Result(TokenPayload(Synthetic(old(count)))))]
      ensures sent == if old(state).Connected? then old(sent) + [UpBroadcast(id, tx)] else old(sent)
      ensures state.Connected? ==> state.pendingBroadcasts == old(state).pendingBroadcasts[id := Synthetic(old(count))]
      ensures state.Connected? ==>
              state.onGoing == old(state).onGoing && state.activeChainHeads == old(state).activeChainHeads
      ensures state.Connecting? ==> state.pending == old(state).pending
    {
      hide Whole, OrderIsOfSending, AnsweredIds;
      AnsweredOne(toConsumer, Response(id, Result(TokenPayload(Synthetic(count)))));
      if state.Connected? {
        SentOther(state.onGoing.Keys, order, sent, [UpBroadcast(id, tx)], AnsweredIds(toConsumer),
                 AnsweredIds(toConsumer + [Response(id, Result(TokenPayload(Synthetic(count))))]));
      }
      if state.Connected? {
        BroadcastSent(state, Conn(), count, toConsumer, requests, inHand, id, tx);
      } else {
        BroadcastKept(state, Conn(), count, toConsumer, requests, inHand, id, tx);
      }
      var synToken := Synthetic(count);
      match state {
        case Connected(_, active, pending, _) =>
          state := state.(activeBroadcasts := active[synToken := Broadcast(tx, None)],
                          pendingBroadcasts := pending[id := synToken]);
          sent := sent + [UpBroadcast(id, tx)];
        case Connecting(_, idle) =>
          state := state.(idleBroadcasts := idle[synToken := Broadcast(tx, None)]);
        case Done =>
      }
      count := count + 1;
      toConsumer := toConsumer + [Response(id, Result(TokenPayload(synToken)))];
    }

    /** A stop is always acknowledged, and passed on when the broadcast has an upstream token. */
    method Stopping(id: Id, synToken: Token, ghost inHand: multiset<Id>)
      requires !state.Done? && Ok(inHand + multiset{id})
      modifies this
      ensures Ok(inHand) && requests == old(requests) && order == old(order)
      ensures SameKind(old(state), state) && count == old(count)
      ensures state.Broadcasts() == old(state).Broadcasts() - {synToken}
      ensures toConsumer == old(toConsumer) + [Response(id, Result(Null))]
      ensures sent == old(sent) + Passed(old(state), Request(Some(id), TransactionStop(synToken)))
      ensures state.Connected? ==> state.pendingBroadcasts == old(state).pendingBroadcasts
      ensures state.Connected? ==>
              state.onGoing == old(state).onGoing && state.activeChainHeads == old(state).activeChainHeads
      ensures state.Connecting? ==> state.pending == old(state).pending
    {
      hide Whole, OrderIsOfSending, AnsweredIds;
      StopHandled(state, Conn(), count, toConsumer, requests, inHand, id, synToken);
      AnsweredOne(toConsumer, Response(id, Result(Null)));
      if state.Connected? {
        SentOther(state.onGoing.Keys, order, sent, Passed(state, Request(Some(id), TransactionStop(synToken))),
                 AnsweredIds(toConsumer), AnsweredIds(toConsumer + [Response(id, Result(Null))]));
        assert sent + [] == sent;
      }
      toConsumer := toConsumer + [Response(id, Result(Null))];
      match state
      case Connected(_, active, _, _) =>
        state := state.(activeBroadcasts := active - {synToken});
        if synToken in active && active[synToken].upToken.Some? && IsToken(active[synToken].upToken.value) {
          sent := sent + [UpStop(id, active[synToken].upToken.value)];
        }
      case Connecting(_, idle) =>
        state := state.(idleBroadcasts := idle - {synToken});
      case Done =>
    }

    /** The proxy's reaction to a request, whether new or taken up again. */
    method Process(msg: Request, ghost inHand: multiset<Id>)
      requires Ok(inHand + MsgIds(msg))
      requires IsSynthetic(msg) ==> msg.id.value.ConsumerId?
      modifies this
      ensures Ok(inHand) && requests == old(requests)
      ensures SameKind(old(state), state) && (!IsSynthetic(msg) ==> count == old(count))
      ensures toConsumer == if old(state).Done? || !IsSynthetic(msg) then old(toConsumer)
                            else old(toConsumer) + [OwnAnswer(msg, old(count))]
      ensures sent == old(sent) + Passed(old(state), msg)
      ensures state.Broadcasts() == BroadcastsAfter(old(state), msg, old(count))
      ensures order == if old(state).Connected? && msg.id.Some? && !IsSynthetic(msg)
                       then WithKey(old(order), msg.id.value) else old(order)
      ensures state.Connecting? ==>
              state.pending == if IsSynthetic(msg) then old(state).pending else old(state).pending + [msg]
      ensures state.Connected? && (msg.id.None? || IsSynthetic(msg)) ==> state.onGoing == old(state).onGoing
      ensures state.Connected? && msg.id.Some? && !IsSynthetic(msg) ==>
                exists o :: state.onGoing == old(state).onGoing[msg.id.value := o] && Tracks(o, msg)
      ensures state.Connected? ==>
                && state.pendingBroadcasts == (if IsSynthetic(msg) && msg.call.TransactionBroadcast?
                                               then old(state).pendingBroadcasts[msg.id.value := Synthetic(old(count))]
                                               else old(state).pendingBroadcasts)
                && state.activeChainHeads
                   == (if msg.call.Unfollow? then old(state).activeChainHeads - {msg.call.subscription}
                                              else old(state).activeChainHeads)
    {
      hide Whole, OrderIsOfSending;
      if state.Done? {
        DroppedAfterDone(Conn(), count, toConsumer, requests, inHand, MsgIds(msg));
        return;
      }
      if IsSynthetic(msg) {
        match msg.call
        case TransactionStop(token) =>
          Stopping(msg.id.value, token, inHand);
          return;
        case TransactionBroadcast(tx) =>
          Broadcasting(msg.id.value, tx, inHand);
          return;
        case _ =>
      }
      if state.Connecting? {
        Queued(state, Conn(), count, toConsumer, requests, inHand, msg);
        state := state.(pending := state.pending + [msg]);
        return;
      }
      Pass(msg, inHand);
    }

    /** A request is sent to the server, and tracked if it has an id. */
    method Pass(msg: Request, ghost inHand: multiset<Id>)
      requires state.Connected? && !IsSynthetic(msg) && Ok(inHand + MsgIds(msg))
      modifies this
      ensures Ok(inHand) && requests == old(requests) && count == old(count) && toConsumer == old(toConsumer)
      ensures state.Connected? && sent == old(sent) + [Forward(msg)]
      ensures order == if msg.id.Some? then WithKey(old(order), msg.id.value) else old(order)
      ensures state.activeBroadcasts == old(state).activeBroadcasts
              && state.pendingBroadcasts == old(state).pendingBroadcasts
      ensures msg.id.None? ==> state.onGoing == old(state).onGoing
      ensures msg.id.Some? ==> exists o :: state.onGoing == old(state).onGoing[msg.id.value := o] && Tracks(o, msg)
      ensures state.activeChainHeads == if msg.call.Unfollow? then old(state).activeChainHeads - {msg.call.subscription}
                                        else old(state).activeChainHeads
    {
      hide Whole, OrderIsOfSending, AnsweredIds, Lists;
      ghost var heads :=
        if msg.call.Unfollow? then state.activeChainHeads - {msg.call.subscription} else state.activeChainHeads;
      HandIsUnanswered(state, Conn(), count, toConsumer, requests, inHand, msg);
      Forwarded(state, Conn(), count, toConsumer, requests, inHand, msg, heads);
      SentNew(state.onGoing.Keys, order, sent, AnsweredIds(toConsumer), msg);
      if msg.call.Unfollow? {
        state := state.(activeChainHeads := state.activeChainHeads - {msg.call.subscription});
      }
      if msg.id.Some? {
        ListSet(order, state.onGoing.Keys, msg.id.value);
        assert Tracks(OngoingOf(msg), msg);
        state := state.(onGoing := state.onGoing[msg.id.value := OngoingOf(msg)]);
        order := WithKey(order, msg.id.value);
        assert state.onGoing.Keys == old(state).onGoing.Keys + {msg.id.value};
      }
      sent := sent + [Forward(msg)];
    }

    /** The consumer asks something, under an id that it did not use before. */
    method Send(msg: Request)
      requires Ok(multiset{}) && (msg.id.Some? ==> msg.id.value.ConsumerId? && msg.id.value !in requests)
      modifies this
      ensures Ok(multiset{}) && requests == old(requests) + MsgIds(msg) && SameKind(old(state), state)
      ensures toConsumer == if old(state).Done? || !IsSynthetic(msg) then old(toConsumer)
                            else old(toConsumer) + [OwnAnswer(msg, old(count))]
      ensures sent == old(sent) + Passed(old(state), msg)
      ensures state.Broadcasts() == BroadcastsAfter(old(state), msg, old(count))
    {
      hide Whole, OrderIsOfSending;
      Asked(state, Conn(), count, toConsumer, requests, msg);
      requests := requests + MsgIds(msg);
      Process(msg, multiset{});
    }

    /** A message for the consumer, from the server or, after a halt, from the proxy itself. */
    method OnMsgFromProvider(parsed: Incoming, ghost inHand: multiset<Id>)
      requires Ok(if parsed.Response? && state.Connecting? then inHand + multiset{parsed.id} else inHand)
      modifies this
      ensures Ok(inHand) && requests == old(requests) && SameKind(old(state), state)
      ensures toConsumer == if IsDropped(old(state), parsed) then old(toConsumer) else old(toConsumer) + [parsed]
      ensures Transactions(state.Broadcasts()) == Transactions(old(state).Broadcasts())
      ensures !old(state).Connected? ==> state == old(state) && sent == old(sent)
      ensures order == if old(state).Connected? && parsed.Response? && parsed.id !in old(state).pendingBroadcasts
                       then WithoutKey(old(order), parsed.id) else old(order)
      ensures state.Connected? && parsed.Response? && parsed.id in old(state).pendingBroadcasts ==>
                var syn := old(state).pendingBroadcasts[parsed.id];
                && state.pendingBroadcasts == old(state).pendingBroadcasts - {parsed.id}
                && state.onGoing == old(state).onGoing && state.activeChainHeads == old(state).activeChainHeads
                && state.activeBroadcasts
                   == (if syn in old(state).activeBroadcasts && parsed.reply.Result?
                       then old(state).activeBroadcasts
                            [syn := Broadcast(old(state).activeBroadcasts[syn].tx, Some(parsed.reply.value))]
                       else old(state).activeBroadcasts)
                && sent == (if syn !in state.activeBroadcasts && parsed.reply.Result?
                            then old(sent) + [UpStop(InternalId(old(count)), parsed.reply.value)] else old(sent))
      ensures state.Connected? && parsed.Response? && parsed.id !in old(state).pendingBroadcasts ==>
                && state.onGoing == old(state).onGoing - {parsed.id} && sent == old(sent)
                && state.activeBroadcasts == old(state).activeBroadcasts
                && state.activeChainHeads == (if IsFollowed(old(state), parsed)
                                              then old(state).activeChainHeads + {parsed.reply.value}
                                              else old(state).activeChainHeads)
      ensures state.Connected? && !parsed.Response? ==>
                var heads := old(state).activeChainHeads;
                sent == old(sent) && state == old(state).(activeChainHeads :=
                                       if parsed.StopEvent? then heads - {parsed.subscription} else heads)
    {
      hide Whole, OrderIsOfSending, AnsweredIds, IsFollowed;
      AnsweredOne(toConsumer, parsed);
      if state.Connected? {
        SentOther(state.onGoing.Keys, order, sent, [], AnsweredIds(toConsumer), AnsweredIds(toConsumer + [parsed]));
        assert sent + [] == sent;
      }
      match state {
        case Connected(heads, _, pending, _) =>
          if parsed.Response? {
            if parsed.id in pending {
              Land(parsed.id, parsed.reply, inHand);
              return;
            }
            Answer(parsed, inHand);
            return;
          } else if parsed.StopEvent? {
            HeadsOnly(state, Conn(), count, toConsumer, requests, inHand, heads - {parsed.subscription});
            state := state.(activeChainHeads := heads - {parsed.subscription});
            Delivered(state, Conn(), count, toConsumer, requests, inHand, parsed);
          } else {
            Delivered(state, Conn(), count, toConsumer, requests, inHand, parsed);
          }
        case Connecting(_, _) =>
          Delivered(state, Conn(), count, toConsumer, requests, inHand, parsed);
        case Done =>
      }
      if !state.Done? {
        toConsumer := toConsumer + [parsed];
      }
    }

    /** An answer from the server to a broadcast, which the consumer may have stopped meanwhile. */
    method Land(id: Id, reply: Reply, ghost inHand: multiset<Id>)
      requires state.Connected? && id in state.pendingBroadcasts && Ok(inHand)
      modifies this
      ensures Ok(inHand) && requests == old(requests) && toConsumer == old(toConsumer) && order == old(order)
      ensures state.Connected?
      ensures var syn := old(state).pendingBroadcasts[id];
                && state.pendingBroadcasts == old(state).pendingBroadcasts - {id}
                && state.onGoing == old(state).onGoing && state.activeChainHeads == old(state).activeChainHeads
                && state.activeBroadcasts
                   == (if syn in old(state).activeBroadcasts && reply.Result?
                       then old(state).activeBroadcasts
                            [syn := Broadcast(old(state).activeBroadcasts[syn].tx, Some(reply.value))]
                       else old(state).activeBroadcasts)
                && sent == (if syn !in state.activeBroadcasts && reply.Result?
                            then old(sent) + [UpStop(InternalId(old(count)), reply.value)] else old(sent))
    {
      hide Whole, OrderIsOfSending, AnsweredIds;
      var active, pending := state.activeBroadcasts, state.pendingBroadcasts;
      Landed(state, Conn(), count, toConsumer, requests, inHand, id, reply);
      var synToken := pending[id];
      state := state.(pendingBroadcasts := pending - {id});
      if reply.Result? && IsToken(reply.value) {
        received := received + {reply.value};
      } else {
        failed := failed + {synToken};
      }
      if reply.Error? {
        return;
      }
      if synToken in active {
        state := state.(activeBroadcasts := active[synToken := active[synToken].(upToken := Some(reply.value))]);
      } else {
        SentOther(state.onGoing.Keys, order, sent, [UpStop(InternalId(count), reply.value)], AnsweredIds(toConsumer),
                  AnsweredIds(toConsumer));
        sent := sent + [UpStop(InternalId(count), reply.value)];
        count := count + 1;
      }
    }

    /** An answer from the server to a request that is tracked, or to none. */
    method Answer(parsed: Incoming, ghost inHand: multiset<Id>)
      requires state.Connected? && parsed.Response? && parsed.id !in state.pendingBroadcasts && Ok(inHand)
      modifies this
      ensures Ok(inHand) && requests == old(requests) && sent == old(sent) && count == old(count)
      ensures toConsumer == if parsed.id in old(state).onGoing then old(toConsumer) + [parsed] else old(toConsumer)
      ensures order == WithoutKey(old(order), parsed.id)
      ensures state.Connected? && state.onGoing == old(state).onGoing - {parsed.id}
      ensures state.activeBroadcasts == old(state).activeBroadcasts
              && state.pendingBroadcasts == old(state).pendingBroadcasts
      ensures state.activeChainHeads == if IsFollowed(old(state), parsed)
                                        then old(state).activeChainHeads + {parsed.reply.value}
                                        else old(state).activeChainHeads
    {
      hide Whole, OrderIsOfSending, AnsweredIds, Lists;
      var heads, onGoing := state.activeChainHeads, state.onGoing;
      var isActive := parsed.id in onGoing;
      var follows := parsed.reply.Result? && parsed.id in onGoing && onGoing[parsed.id].FollowMsg?;
      ghost var heads' := if follows then heads + {parsed.reply.value} else heads;
      AnsweredOne(toConsumer, parsed);
      SentAnswered(onGoing.Keys, order, sent, AnsweredIds(toConsumer),
                   AnsweredIds(if isActive then toConsumer + [parsed] else toConsumer), parsed.id);
      if isActive {
        Relayed(state, Conn(), count, toConsumer, requests, inHand, parsed, heads');
      }
      if follows {
        state := state.(activeChainHeads := heads + {parsed.reply.value});
      }
      ListDelete(order, onGoing.Keys, parsed.id);
      state := state.(onGoing := onGoing - {parsed.id});
      order := WithoutKey(order, parsed.id);
      assert state.onGoing.Keys == onGoing.Keys - {parsed.id};
      assert !isActive ==> state == old(state);
      if isActive {
        toConsumer := toConsumer + [parsed];
      }
    }

    /**
     * A connection is made: the unstopped broadcasts are sent once each under new ids, followed by
     * what was queued meanwhile, in its order.
     */
    method Connect() returns (ok: bool)
      requires Ok(multiset{})
      modifies this
      ensures ok == old(state).Connecting? && Ok(multiset{}) && requests == old(requests)
              && toConsumer == old(toConsumer)
      ensures !ok ==> state == old(state) && sent == old(sent)
      ensures ok ==>
              state.Connected? && state.activeChainHeads == {} && state.activeBroadcasts == old(state).idleBroadcasts
      ensures ok ==> var n := |state.activeBroadcasts|;
                     && n <= |sent| && sent[n..] == Forwards(old(state).pending)
                     && forall syn :: syn in state.activeBroadcasts ==>
                        Resent(state.activeBroadcasts, state.pendingBroadcasts, sent[..n], syn)
      ensures ok ==> order == OrderAfter(old(state).pending)
    {
      hide Whole, Balanced, Resending, Resent, AnsweredIds, OrderIsOfSending;
      if !state.Connecting? {
        return false;
      }
      var pending, active := state.pending, state.idleBroadcasts;
      NothingSynthetic(state, Conn(), count, toConsumer, requests);
      Reconnecting(state, Conn(), count, toConsumer, requests);
      state := Connected({}, active, map[], map[]);
      sent, order, received, failed := [], [], {}, {};
      ListNone<Id>();
      ResendBroadcasts(pending);
      EachResent(state, Conn(), count, AnsweredIds(toConsumer));
      NoneForwarded(state, Conn(), count, AnsweredIds(toConsumer));
      NothingSent(sent, AnsweredIds(toConsumer));
      assert state.onGoing.Keys == {};
      WholeWhenResent(state, Conn(), count, toConsumer, requests, QueuedIds(pending));
      SendPending(pending);
      return true;
    }

    /** Sends every broadcast, each once and under its own new id. */
    method ResendBroadcasts(ghost pending: seq<Request>)
      requires state.Connected? && state.activeChainHeads == {} && state.onGoing == map[] && sent == []
      requires Balanced(state, toConsumer, requests, QueuedIds(pending))
      requires Resending(state, Conn(), count, AnsweredIds(toConsumer), {})
      modifies this
      ensures state.Connected? && state.activeBroadcasts == old(state).activeBroadcasts
      ensures state.activeChainHeads == {} && state.onGoing == map[]
      ensures |sent| == |state.activeBroadcasts|
      ensures requests == old(requests) && toConsumer == old(toConsumer) && order == old(order)
      ensures Balanced(state, toConsumer, requests, QueuedIds(pending))
      ensures Resending(state, Conn(), count, AnsweredIds(toConsumer), state.activeBroadcasts.Keys)
    {
      hide Whole, Balanced, Resending, AnsweredIds, QueuedIds;
      var active := state.activeBroadcasts;
      var left := active.Keys;
      assert active.Keys - left == {};
      while |left| != 0
        invariant left <= active.Keys && state.Connected? && state.activeBroadcasts == active
        invariant state.activeChainHeads == {} && state.onGoing == map[]
        invariant |sent| + |left| == |active|
        invariant requests == old(requests) && toConsumer == old(toConsumer) && order == old(order)
        invariant Balanced(state, toConsumer, requests, QueuedIds(pending))
        invariant Resending(state, Conn(), count, AnsweredIds(toConsumer), active.Keys - left)
      {
        ghost var some := SomeElement(left);
        var synToken :| synToken in left;
        ResendOne(synToken, pending, active.Keys - left);
        assert active.Keys - left + {synToken} == active.Keys - (left - {synToken});
        left := left - {synToken};
      }
      assert active.Keys - left == active.Keys;
    }

    method ResendOne(synToken: Token, ghost pending: seq<Request>, ghost resent: set<Token>)
      requires state.Connected? && synToken in state.activeBroadcasts && synToken !in resent
      requires Balanced(state, toConsumer, requests, QueuedIds(pending))
      requires Resending(state, Conn(), count, AnsweredIds(toConsumer), resent)
      modifies this
      ensures state.Connected? && state == old(state).(pendingBroadcasts := state.pendingBroadcasts)
      ensures |sent| == |old(sent)| + 1
      ensures requests == old(requests) && toConsumer == old(toConsumer) && order == old(order)
      ensures Balanced(state, toConsumer, requests, QueuedIds(pending))
      ensures Resending(state, Conn(), count, AnsweredIds(toConsumer), resent + {synToken})
    {
      hide Whole, Balanced, Resending, AnsweredIds, QueuedIds;
      ResendStep(state, Conn(), count, AnsweredIds(toConsumer), resent, synToken);
      ghost var next := state.(pendingBroadcasts := state.pendingBroadcasts[InternalId(count) := synToken]);
      SameBalance(state, next, toConsumer, requests, QueuedIds(pending));
      state := state.(pendingBroadcasts := state.pendingBroadcasts[InternalId(count) := synToken]);
      sent := sent + [UpBroadcast(InternalId(count), state.activeBroadcasts[synToken].tx)];
      count := count + 1;
    }

    /** Sends what was queued. */
    method SendPending(pending: seq<Request>)
      requires state.Connected? && state.activeChainHeads == {} && order == [] && Ok(QueuedIds(pending))
      requires forall k :: 0 <= k < |pending| ==> !IsSynthetic(pending[k])
      modifies this
      ensures Ok(multiset{}) && requests == old(requests) && toConsumer == old(toConsumer)
      ensures state.Connected? && state.activeChainHeads == {}
      ensures state.activeBroadcasts == old(state).activeBroadcasts
              && state.pendingBroadcasts == old(state).pendingBroadcasts
      ensures sent == old(sent) + Forwards(pending) && order == OrderAfter(pending)
    {
      hide Whole, QueuedIds, OrderIsOfSending;
      assert pending[0..] == pending;
      for k := 0 to |pending|
        invariant state.Connected? && state.activeChainHeads == {} && Ok(QueuedIds(pending[k..]))
        invariant requests == old(requests) && toConsumer == old(toConsumer)
        invariant state.activeBroadcasts == old(state).activeBroadcasts
                  && state.pendingBroadcasts == old(state).pendingBroadcasts
        invariant sent == old(sent) + Forwards(pending[..k]) && order == OrderAfter(pending[..k])
      {
        QueuedFirst(pending[k..]);
        assert pending[k..][1..] == pending[k + 1..];
        ghost var rest := QueuedIds(pending[k + 1..]);
        assert QueuedIds(pending[k..]) == rest + MsgIds(pending[k]);
        Process(pending[k], rest);
        assert Forwards(pending[..k + 1]) == Forwards(pending[..k]) + [Forward(pending[k])];
        assert pending[..k + 1][..k] == pending[..k];
      }
      assert pending[|pending|..] == [] && pending[..|pending|] == pending;
      NothingQueued();
    }

    /**
     * The connection is lost: every followed chain is told to stop, every chain head operation
     * fails, and every other tracked request is queued again, each once and in the order in which
     * they were sent.
     */
    method Halt() returns (ghost subs: seq<Payload>)
      requires state.Connected? && Ok(multiset{})
      modifies this
      ensures Ok(multiset{}) && requests == old(requests) && sent == old(sent)
      ensures state.Connecting? && Transactions(state.idleBroadcasts) == Transactions(old(state).activeBroadcasts)
      ensures forall syn :: syn in state.idleBroadcasts ==> state.idleBroadcasts[syn].upToken == None
      ensures Lists(subs, old(state).activeChainHeads)
      ensures toConsumer == old(toConsumer) + StopEvents(subs) + Errors(OperationsOf(old(state).onGoing, old(order)))
      ensures state.pending == RetriedOf(old(state).onGoing, old(order))
      ensures old(order) == SentAmong(old(sent), old(state).onGoing.Keys)
      ensures Lists(OperationsOf(old(state).onGoing, old(order)),
                    Operations(old(state).onGoing, old(state).onGoing.Keys))
      ensures Lists(RetriedOf(old(state).onGoing, old(order)), Retried(old(state).onGoing, old(state).onGoing.Keys))
    {
      hide Whole, Lists, Idle, OperationsOf, RetriedOf, Operations, Retried;
      IdleKeeps(state.activeBroadcasts);
      var heads, onGoing := state.activeChainHeads, state.onGoing;
      assert order == SentAmong(sent, onGoing.Keys);
      TrackedWell(state, Conn(), count, toConsumer, requests);
      Halted(state, Conn(), count, toConsumer, requests);
      state := Connecting([], Idle(state.activeBroadcasts));
      subs := StopFollowing(heads, multiset(onGoing.Keys));
      EachGivenBack(onGoing, order, onGoing.Keys);
      GiveBack(onGoing);
    }

    method StopFollowing(heads: set<Payload>, ghost inHand: multiset<Id>) returns (ghost subs: seq<Payload>)
      requires state.Connecting? && Ok(inHand)
      modifies this
      ensures Ok(inHand) && state == old(state) && requests == old(requests) && sent == old(sent) && order == old(order)
      ensures Lists(subs, heads) && toConsumer == old(toConsumer) + StopEvents(subs)
    {
      hide Whole, Lists;
      var left := heads;
      subs := [];
      ListNone<Payload>();
      assert heads - left == {};
      while |left| != 0
        invariant left <= heads
        invariant state == old(state) && requests == old(requests) && Ok(inHand) && sent == old(sent)
                  && order == old(order)
        invariant Lists(subs, heads - left)
        invariant toConsumer == old(toConsumer) + StopEvents(subs)
      {
        ghost var some := SomeElement(left);
        var subscription :| subscription in left;
        OnMsgFromProvider(StopEvent(subscription), inHand);
        ListMore(subs, heads - left, subscription);
        assert heads - left + {subscription} == heads - (left - {subscription});
        assert StopEvents(subs + [subscription]) == StopEvents(subs) + [StopEvent(subscription)];
        subs := subs + [subscription];
        left := left - {subscription};
      }
      assert heads - left == heads;
    }

    /** Fails the operations and queues the other requests again, in the order in which they were sent. */
    method GiveBack(onGoing: map<Id, Ongoing>)
      requires state.Connecting? && state.pending == [] && Ok(multiset(onGoing.Keys)) && AllOngoingOk(onGoing)
      requires Lists(order, onGoing.Keys)
      modifies this
      ensures Ok(multiset{}) && requests == old(requests) && sent == old(sent)
      ensures state.Connecting? && state.idleBroadcasts == old(state).idleBroadcasts
      ensures toConsumer == old(toConsumer) + Errors(OperationsOf(onGoing, old(order)))
      ensures state.pending == RetriedOf(onGoing, old(order))
    {
      hide Whole, Lists, HasToken, Tracks, IsFollowed, OwnAnswer;
      var ids := order;
      ghost var left := onGoing.Keys;
      for k := 0 to |ids|
        invariant left <= onGoing.Keys && order == ids && Lists(ids[k..], left)
        invariant state.Connecting? && state.idleBroadcasts == old(state).idleBroadcasts
        invariant requests == old(requests) && Ok(multiset(left)) && sent == old(sent)
        invariant toConsumer == old(toConsumer) + Errors(OperationsOf(onGoing, ids[..k]))
        invariant state.pending == RetriedOf(onGoing, ids[..k])
      {
        var id := ids[k];
        ListFirst(ids[k..], left);
        assert ids[k..][0] == id && ids[k..][1..] == ids[k + 1..];
        assert ids[..k + 1][..k] == ids[..k];
        TrackedUnder(onGoing, id);
        ghost var rest := multiset(left - {id});
        assert multiset(left) == rest + multiset{id};
        match onGoing[id] {
          case Operation(own) =>
            OnMsgFromProvider(Response(own, Error), rest);
            ErrorsMore(OperationsOf(onGoing, ids[..k]), own);
          case FollowMsg(msg) =>
            Process(msg, rest);
          case OtherMsg(msg) =>
            Process(msg, rest);
        }
        left := left - {id};
      }
      assert ids[..|ids|] == ids && ids[|ids|..] == [];
      NothingLeft(left);
    }

    /** The consumer leaves: from now on nothing is answered. */
    method Disconnect()
      requires Ok(multiset{})
      modifies this`state
      ensures Ok(multiset{}) && state.Done?
    {
      Left(state, Conn(), count, toConsumer, requests);
      hide Whole;
      state := Done;
    }
  }

  lemma ListNone<T(!new)>()
    ensures Lists<T>([], {})
  {
  }

  ghost predicate AllOngoingOk(onGoing: map<Id, Ongoing>) {
    forall id :: id in onGoing ==> OngoingOk(id, onGoing[id])
  }

  lemma TrackedWell(s: State, c: Connection, count: nat, log: seq<Incoming>, requests: multiset<Id>)
    requires s.Connected? && Whole(s, c, count, log, requests, multiset{})
    ensures AllOngoingOk(s.onGoing)
  {
    hide AnsweredIds, BroadcastsOk;
  }

  /** A request is tracked under its own id. */
  lemma TrackedUnder(onGoing: map<Id, Ongoing>, id: Id)
    requires AllOngoingOk(onGoing) && id in onGoing
    ensures match onGoing[id]
            case Operation(own) => own == id
            case FollowMsg(msg) => msg.id == Some(id) && !IsSynthetic(msg)
            case OtherMsg(msg) => msg.id == Some(id) && !IsSynthetic(msg)
  {
    assert OngoingOk(id, onGoing[id]);
  }

  lemma ListFirst<T(!new)>(xs: seq<T>, s: set<T>)
    requires Lists(xs, s) && xs != []
    ensures xs[0] in s && Lists(xs[1..], s - {xs[0]})
  {
    forall x | x in s && x != xs[0] ensures x in xs[1..] {
      assert x in xs;
      var k :| 0 <= k < |xs| && xs[k] == x;
      assert xs[1..][k - 1] == x;
    }
  }

  lemma NothingLeft(left: set<Id>)
    requires Lists([], left)
    ensures multiset(left) == multiset{}
  {
    assert left == {};
  }

  lemma ErrorsMore(ids: seq<Id>, id: Id)
    ensures Errors(ids + [id]) == Errors(ids) + [Response(id, Error)]
  {
  }

  /** The tracked chain head operations among `ids`: they fail when the connection is lost. */
  ghost function Operations(onGoing: map<Id, Ongoing>, ids: set<Id>): set<Id> {
    set id | id in ids && id in onGoing && onGoing[id].Operation?
  }

  /** The other tracked requests among `ids`: they are asked again. */
  ghost function Retried(onGoing: map<Id, Ongoing>, ids: set<Id>): set<Request> {
    set id | id in ids && id in onGoing && !onGoing[id].Operation? :: onGoing[id].msg
  }

  /** Every operation fails and every other request is queued again, each once. */
  lemma {:induction false} EachGivenBack(onGoing: map<Id, Ongoing>, order: seq<Id>, ids: set<Id>)
    requires AllOngoingOk(onGoing) && Lists(order, ids) && ids <= onGoing.Keys
    ensures Lists(OperationsOf(onGoing, order), Operations(onGoing, ids))
    ensures Lists(RetriedOf(onGoing, order), Retried(onGoing, ids))
  {
    hide Lists;
    if order == [] {
      NoneListed(ids);
      NothingGivenBack(onGoing);
    } else {
      var n := |order| - 1;
      ListLess(order, ids);
      EachGivenBack(onGoing, order[..n], ids - {order[n]});
      OneGivenBack(onGoing, order, ids - {order[n]}, order[n]);
      assert ids - {order[n]} + {order[n]} == ids;
    }
  }

  lemma NoneListed<T(!new)>(s: set<T>)
    requires Lists([], s)
    ensures s == {}
  {
  }

  lemma NothingGivenBack(onGoing: map<Id, Ongoing>)
    ensures Lists([], Operations(onGoing, {})) && Lists([], Retried(onGoing, {}))
  {
  }

  lemma OneGivenBack(onGoing: map<Id, Ongoing>, order: seq<Id>, before: set<Id>, id: Id)
    requires AllOngoingOk(onGoing) && id in onGoing && id !in before
    requires order != [] && order[|order| - 1] == id
    requires Lists(OperationsOf(onGoing, order[..|order| - 1]), Operations(onGoing, before))
    requires Lists(RetriedOf(onGoing, order[..|order| - 1]), Retried(onGoing, before))
    ensures Lists(OperationsOf(onGoing, order), Operations(onGoing, before + {id}))
    ensures Lists(RetriedOf(onGoing, order), Retried(onGoing, before + {id}))
  {
    hide Lists, OperationsOf, RetriedOf, Operations, Retried, AllOngoingOk;
    var front := order[..|order| - 1];
    ListsOneMore(onGoing, order);
    SetsOneMore(onGoing, before, id);
    if onGoing[id].Operation? {
      ListMore(OperationsOf(onGoing, front), Operations(onGoing, before), id);
    } else {
      ListMore(RetriedOf(onGoing, front), Retried(onGoing, before), onGoing[id].msg);
    }
  }

  lemma ListsOneMore(onGoing: map<Id, Ongoing>, order: seq<Id>)
    requires order != [] && order[|order| - 1] in onGoing
    ensures var id, front := order[|order| - 1], order[..|order| - 1];
            if onGoing[id].Operation? then
              OperationsOf(onGoing, order) == OperationsOf(onGoing, front) + [id]
              && RetriedOf(onGoing, order) == RetriedOf(onGoing, front)
            else
              OperationsOf(onGoing, order) == OperationsOf(onGoing, front)
              && RetriedOf(onGoing, order) == RetriedOf(onGoing, front) + [onGoing[id].msg]
  {
  }

  lemma SetsOneMore(onGoing: map<Id, Ongoing>, before: set<Id>, id: Id)
    requires AllOngoingOk(onGoing) && id in onGoing && id !in before
    ensures if onGoing[id].Operation? then
              && id !in Operations(onGoing, before)
              && Operations(onGoing, before + {id}) == Operations(onGoing, before) + {id}
              && Retried(onGoing, before + {id}) == Retried(onGoing, before)
            else
              && onGoing[id].msg !in Retried(onGoing, before)
              && Operations(onGoing, before + {id}) == Operations(onGoing, before)
              && Retried(onGoing, before + {id}) == Retried(onGoing, before) + {onGoing[id].msg}
  {
    assert OngoingOk(id, onGoing[id]);
  }
}
