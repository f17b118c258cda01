/** What a run of the proxy comes to, told from what happened in it. */
module ProxyRuns {
  import opened Basics
  import opened ProxyState
  import opened Proxy

  /** What can happen to the proxy. */
  datatype Event =
    | ConsumerSends(request: Request)
    | ServerSends(message: Incoming)
    | ConnectionMade
    | ConnectionLost
    | ConsumerLeaves

  datatype Phase = Offline | Online | Over

  function PhaseOf(s: State): Phase {
    match s
    case Connecting(_, _) => Offline
    case Connected(_, _, _, _) => Online
    case Done => Over
  }

  function PhaseBy(e: Event, before: Phase): Phase {
    match e
    case ConnectionMade => if before.Offline? then Online else before
    case ConnectionLost => if before.Online? then Offline else before
    case ConsumerLeaves => Over
    case _ => before
  }

  /** Where a run of events leads. */
  function PhaseAfter(events: seq<Event>): Phase {
    if events == [] then Offline else PhaseBy(events[|events| - 1], PhaseAfter(events[..|events| - 1]))
  }

  /** The server answers only on a connection, and only a connection that was made is lost. */
  ghost predicate Timely(events: seq<Event>) {
    forall k :: 0 <= k < |events| ==> InTime(events[k], PhaseAfter(events[..k]))
  }

  predicate InTime(e: Event, phase: Phase) {
    match e
    case ServerSends(message) => !phase.Offline? || !message.Response?
    case ConnectionLost => phase.Online?
    case _ => true
  }

  lemma PhaseNext(events: seq<Event>, k: nat)
    requires k < |events|
    ensures PhaseAfter(events[..k + 1]) == PhaseBy(events[k], PhaseAfter(events[..k]))
  {
    assert events[..k + 1][..k] == events[..k];
  }

  /** The ids of everything asked in a run. */
  function AskedIds(events: seq<Event>): multiset<Id> {
    if events == [] then multiset{}
    else AskedIds(events[..|events| - 1])
         + (if events[|events| - 1].ConsumerSends? then MsgIds(events[|events| - 1].request) else multiset{})
  }

  lemma {:induction false} AskedBefore(events: seq<Event>, k: nat)
    requires k <= |events|
    ensures AskedIds(events[..k]) <= AskedIds(events)
  {
    if k < |events| {
      AskedBefore(events[..|events| - 1], k);
      assert events[..|events| - 1][..k] == events[..k];
    } else {
      assert events[..k] == events;
    }
  }

  // ------------------------------------------------------------------ broadcasts

  ghost predicate Asks(e: Event, id: Id, tx: string) {
    e == ConsumerSends(Request(Some(id), TransactionBroadcast(tx)))
  }

  ghost predicate Stops(e: Event, token: Token) {
    e.ConsumerSends? && e.request.id.Some? && e.request.call == TransactionStop(token)
  }

  /** The consumer was told that its request `id` goes by the name of `token`. */
  ghost predicate GivenToken(log: seq<Incoming>, id: Id, token: Token) {
    Response(id, Result(TokenPayload(token))) in log
  }

  /** Event `k` asked to broadcast `tx`, which goes by the name of `token` and was not stopped since. */
  ghost predicate UnstoppedSince(events: seq<Event>, log: seq<Incoming>, k: nat, id: Id, token: Token, tx: string) {
    && k < |events| && Asks(events[k], id, tx) && GivenToken(log, id, token)
    && forall j :: k < j < |events| ==> !Stops(events[j], token)
  }

  ghost predicate Unstopped(events: seq<Event>, log: seq<Incoming>, token: Token, tx: string) {
    exists k: nat, id :: UnstoppedSince(events, log, k, id, token, tx)
  }

  /** Broadcasts and stops were answered at once. */
  ghost predicate Acknowledged(events: seq<Event>, log: seq<Incoming>) {
    forall k :: 0 <= k < |events| && events[k].ConsumerSends? && IsSynthetic(events[k].request) ==>
      events[k].request.id.value in AnsweredIds(log)
  }

  /** The broadcasts are those asked for and not stopped, each with the transaction of its own request. */
  ghost predicate BroadcastsAre(events: seq<Event>, log: seq<Incoming>, txs: map<Token, string>) {
    forall token, tx :: (token in txs && txs[token] == tx) <==> Unstopped(events, log, token, tx)
  }

  ghost predicate History(events: seq<Event>, log: seq<Incoming>, txs: map<Token, string>) {
    Acknowledged(events, log) && BroadcastsAre(events, log, txs)
  }

  lemma {:induction false} GivenIsAnswered(log: seq<Incoming>, id: Id, token: Token)
    requires GivenToken(log, id, token)
    ensures id in AnsweredIds(log)
  {
    var n := |log| - 1;
    if log[n] != Response(id, Result(TokenPayload(token))) {
      GivenIsAnswered(log[..n], id, token);
    }
  }

  lemma {:induction false} AnsweredMore(log: seq<Incoming>, more: seq<Incoming>)
    ensures AnsweredIds(log) <= AnsweredIds(log + more)
  {
    if more == [] {
      assert log + more == log;
    } else {
      var n := |more| - 1;
      AnsweredMore(log, more[..n]);
      assert log + more == log + more[..n] + [more[n]];
      AnsweredOne(log + more[..n], more[n]);
    }
  }

  /** Nothing that was answered before is now given a token. */
  ghost predicate NoNewTokens(log: seq<Incoming>, log': seq<Incoming>) {
    forall id, token :: id in AnsweredIds(log) && GivenToken(log', id, token) ==> GivenToken(log, id, token)
  }

  lemma AcknowledgedMore(events: seq<Event>, e: Event, log: seq<Incoming>, more: seq<Incoming>)
    requires Acknowledged(events, log)
    requires e.ConsumerSends? && IsSynthetic(e.request) ==> e.request.id.value in AnsweredIds(log + more)
    ensures Acknowledged(events + [e], log + more)
  {
    AnsweredMore(log, more);
    hide AnsweredIds;
  }

  /** What was asked before an event goes on, unless the event stops it. */
  lemma UnstoppedBefore(events: seq<Event>, e: Event, log: seq<Incoming>, more: seq<Incoming>, token: Token, tx: string)
    requires Acknowledged(events, log) && NoNewTokens(log, log + more)
    requires !exists id :: Asks(e, id, tx) && GivenToken(log + more, id, token)
    ensures Unstopped(events + [e], log + more, token, tx) <==> Unstopped(events, log, token, tx) && !Stops(e, token)
  {
    var events', log' := events + [e], log + more;
    hide AnsweredIds;
    if Unstopped(events', log', token, tx) {
      var k: nat, id :| UnstoppedSince(events', log', k, id, token, tx);
      assert k < |events| && events[k] == events'[k];
      assert IsSynthetic(events[k].request) && events[k].request.id.value == id;
      assert forall j :: k < j < |events| ==> events[j] == events'[j];
      assert events'[|events|] == e;
      assert UnstoppedSince(events, log, k, id, token, tx);
    }
    if Unstopped(events, log, token, tx) && !Stops(e, token) {
      var k: nat, id :| UnstoppedSince(events, log, k, id, token, tx);
      assert UnstoppedSince(events', log', k, id, token, tx);
    }
  }

  /** An event by which no broadcast starts or stops. */
  lemma HistoryKept(events: seq<Event>, e: Event, log: seq<Incoming>, more: seq<Incoming>, txs: map<Token, string>)
    requires History(events, log, txs) && NoNewTokens(log, log + more)
    requires e.ConsumerSends? ==> !IsSynthetic(e.request)
    ensures History(events + [e], log + more, txs)
  {
    AcknowledgedMore(events, e, log, more);
    forall token, tx ensures Unstopped(events + [e], log + more, token, tx) <==> Unstopped(events, log, token, tx) {
      UnstoppedBefore(events, e, log, more, token, tx);
    }
    hide Unstopped;
  }

  lemma HistoryStop(events: seq<Event>, id: Id, token: Token, log: seq<Incoming>, txs: map<Token, string>)
    requires History(events, log, txs)
    ensures History(events + [ConsumerSends(Request(Some(id), TransactionStop(token)))],
                    log + [Response(id, Result(Null))], txs - {token})
  {
    var e := ConsumerSends(Request(Some(id), TransactionStop(token)));
    var more := [Response(id, Result(Null))];
    AnsweredOne(log, more[0]);
    AcknowledgedMore(events, e, log, more);
    hide AnsweredIds;
    forall other, tx ensures Unstopped(events + [e], log + more, other, tx)
        <==> Unstopped(events, log, other, tx) && other != token {
      UnstoppedBefore(events, e, log, more, other, tx);
    }
    hide Unstopped;
  }

  lemma HistoryAsk(events: seq<Event>, id: Id, tx: string, log: seq<Incoming>, token: Token, txs: map<Token, string>)
    requires History(events, log, txs) && id !in AnsweredIds(log) && token !in txs
    ensures History(events + [ConsumerSends(Request(Some(id), TransactionBroadcast(tx)))],
                    log + [Response(id, Result(TokenPayload(token)))], txs[token := tx])
  {
    var e := ConsumerSends(Request(Some(id), TransactionBroadcast(tx)));
    var more := [Response(id, Result(TokenPayload(token)))];
    AnsweredOne(log, more[0]);
    AcknowledgedMore(events, e, log, more);
    GivenOnce(log, id, token);
    hide AnsweredIds;
    forall other, tx' ensures Unstopped(events + [e], log + more, other, tx')
        <==> Unstopped(events, log, other, tx') || (other == token && tx' == tx) {
      if other == token && tx' == tx {
        assert (events + [e])[|events|] == e && (log + more)[|log|] == more[0];
        assert UnstoppedSince(events + [e], log + more, |events|, id, token, tx);
      } else {
        UnstoppedBefore(events, e, log, more, other, tx');
      }
    }
    hide Unstopped;
  }

  lemma GivenOnce(log: seq<Incoming>, id: Id, token: Token)
    requires id !in AnsweredIds(log)
    ensures NoNewTokens(log, log + [Response(id, Result(TokenPayload(token)))])
    ensures forall other :: GivenToken(log + [Response(id, Result(TokenPayload(token)))], id, other) ==> other == token
  {
    var answer := Response(id, Result(TokenPayload(token)));
    hide AnsweredIds;
    forall other | GivenToken(log + [answer], id, other) ensures other == token {
      if GivenToken(log, id, other) {
        GivenIsAnswered(log, id, other);
      }
      assert (log + [answer])[|log|] == answer;
    }
  }

  // ------------------------------------------------------------ the steps of a run

  /** A message from the server gives no token to a request of the consumer that was answered. */
  lemma RelayedGivesNone(log: seq<Incoming>, msg: Incoming)
    requires forall id :: AnsweredIds(log + [msg])[id] <= 1
    ensures NoNewTokens(log, log + [msg])
  {
    AnsweredOne(log, msg);
    hide AnsweredIds;
    forall id, token | id in AnsweredIds(log) && GivenToken(log + [msg], id, token) ensures GivenToken(log, id, token) {
      var answer := Response(id, Result(TokenPayload(token)));
      assert answer in log || msg == answer;
      assert AnsweredIds(log + [msg])[id] <= 1;
    }
  }

  lemma HaltGivesNone(log: seq<Incoming>, subs: seq<Payload>, ids: seq<Id>)
    ensures NoNewTokens(log, log + (StopEvents(subs) + Errors(ids)))
  {
  }

  lemma NothingNew(log: seq<Incoming>)
    ensures log + [] == log && NoNewTokens(log, log)
  {
  }

  /** Every broadcast was sent on this connection, with its transaction. */
  ghost predicate EachSent(sent: seq<Outgoing>, txs: map<Token, string>) {
    forall token :: token in txs ==> exists k :: 0 <= k < |sent| && sent[k].UpBroadcast? && sent[k].tx == txs[token]
  }

  lemma EachSentMore(sent: seq<Outgoing>, more: seq<Outgoing>, txs: map<Token, string>)
    requires EachSent(sent, txs)
    ensures EachSent(sent + more, txs)
  {
    var sent' := sent + more;
    forall token | token in txs
      ensures exists k :: 0 <= k < |sent'| && sent'[k].UpBroadcast? && sent'[k].tx == txs[token]
    {
      var k :| 0 <= k < |sent| && sent[k].UpBroadcast? && sent[k].tx == txs[token];
      assert sent'[k] == sent[k];
    }
  }

  lemma EachSentNew(sent: seq<Outgoing>, id: Id, token: Token, tx: string, txs: map<Token, string>)
    requires EachSent(sent, txs)
    ensures EachSent(sent + [UpBroadcast(id, tx)], txs[token := tx])
  {
    EachSentMore(sent, [UpBroadcast(id, tx)], txs);
    assert (sent + [UpBroadcast(id, tx)])[|sent|].tx == tx;
  }

  /** What a run leaves behind: the state, what was handed to the consumer, and what was sent on the connection. */
  datatype View = View(s: State, log: seq<Incoming>, sent: seq<Outgoing>) {
    ghost function Broadcasts(): map<Token, string> {
      Transactions(s.Broadcasts())
    }
  }

  /**
   * Until the consumer leaves, the broadcasts are those that the events ask for, and on a connection
   * every one of them was sent.
   */
  ghost predicate Told(events: seq<Event>, v: View) {
    && (!v.s.Done? ==> History(events, v.log, v.Broadcasts()))
    && (v.s.Connected? ==> EachSent(v.sent, v.Broadcasts()))
  }

  /** The consumer sends a request. */
  lemma SendTold(events: seq<Event>, v: View, request: Request, count: nat, v': View)
    requires Told(events, v) && SameKind(v.s, v'.s)
    requires request.id.Some? ==> v.s.Done? || request.id.value !in AnsweredIds(v.log)
    requires Synthetic(count) !in v.s.Broadcasts()
    requires v'.log == if v.s.Done? || !IsSynthetic(request) then v.log else v.log + [OwnAnswer(request, count)]
    requires v'.sent == v.sent + Passed(v.s, request)
    requires v'.s.Broadcasts() == BroadcastsAfter(v.s, request, count)
    ensures Told(events + [ConsumerSends(request)], v')
  {
    hide AnsweredIds, History, EachSent;
    if !v.s.Done? {
      SendHistory(events, v, request, count, v');
    }
    if v.s.Connected? {
      SendSends(v, request, count, v');
    }
  }

  lemma SendHistory(events: seq<Event>, v: View, request: Request, count: nat, v': View)
    requires !v.s.Done? && History(events, v.log, v.Broadcasts())
    requires request.id.Some? ==> request.id.value !in AnsweredIds(v.log)
    requires Synthetic(count) !in v.s.Broadcasts()
    requires v'.log == if !IsSynthetic(request) then v.log else v.log + [OwnAnswer(request, count)]
    requires v'.s.Broadcasts() == BroadcastsAfter(v.s, request, count)
    ensures History(events + [ConsumerSends(request)], v'.log, v'.Broadcasts())
  {
    hide AnsweredIds, History;
    if !IsSynthetic(request) {
      NothingNew(v.log);
      HistoryKept(events, ConsumerSends(request), v.log, [], v.Broadcasts());
    } else if request.call.TransactionStop? {
      HistoryStop(events, request.id.value, request.call.token, v.log, v.Broadcasts());
      assert v'.Broadcasts() == v.Broadcasts() - {request.call.token};
    } else {
      HistoryAsk(events, request.id.value, request.call.tx, v.log, Synthetic(count), v.Broadcasts());
      assert v'.Broadcasts() == v.Broadcasts()[Synthetic(count) := request.call.tx];
    }
  }

  lemma SendSends(v: View, request: Request, count: nat, v': View)
    requires v.s.Connected? && v'.s.Connected? && EachSent(v.sent, v.Broadcasts())
    requires v'.sent == v.sent + Passed(v.s, request)
    requires v'.s.Broadcasts() == BroadcastsAfter(v.s, request, count)
    ensures EachSent(v'.sent, v'.Broadcasts())
  {
    if IsSynthetic(request) && request.call.TransactionBroadcast? {
      EachSentNew(v.sent, request.id.value, Synthetic(count), request.call.tx, v.Broadcasts());
      assert v'.Broadcasts() == v.Broadcasts()[Synthetic(count) := request.call.tx];
    } else {
      EachSentMore(v.sent, Passed(v.s, request), v.Broadcasts());
      hide Passed;
      assert forall token :: token in v'.Broadcasts() ==>
        token in v.Broadcasts() && v'.Broadcasts()[token] == v.Broadcasts()[token];
    }
  }

  /** A message comes from the server. */
  lemma MessageTold(events: seq<Event>, v: View, msg: Incoming, v': View)
    requires Told(events, v) && SameKind(v.s, v'.s)
    requires v'.log == if IsDropped(v.s, msg) then v.log else v.log + [msg]
    requires forall id :: AnsweredIds(v'.log)[id] <= 1
    requires v'.Broadcasts() == v.Broadcasts() && v.sent <= v'.sent
    ensures Told(events + [ServerSends(msg)], v')
  {
    hide History, EachSent, IsDropped;
    if !v.s.Done? {
      if v'.log == v.log + [msg] {
        RelayedGivesNone(v.log, msg);
        HistoryKept(events, ServerSends(msg), v.log, [msg], v.Broadcasts());
      } else {
        NothingNew(v.log);
        HistoryKept(events, ServerSends(msg), v.log, [], v.Broadcasts());
      }
    }
    if v.s.Connected? {
      EachSentMore(v.sent, v'.sent[|v.sent|..], v.Broadcasts());
      assert v'.sent == v.sent + v'.sent[|v.sent|..];
    }
  }

  /** A connection is made. */
  lemma ConnectTold(events: seq<Event>, v: View, v': View)
    requires Told(events, v) && v'.log == v.log
    requires v.s.Connecting? && v'.s.Connected? && v'.s.activeBroadcasts == v.s.idleBroadcasts
    requires |v'.s.activeBroadcasts| <= |v'.sent|
    requires forall syn :: syn in v'.s.activeBroadcasts ==>
      Resent(v'.s.activeBroadcasts, v'.s.pendingBroadcasts, v'.sent[..|v'.s.activeBroadcasts|], syn)
    ensures Told(events + [ConnectionMade], v')
  {
    hide History, AnsweredIds;
    NothingNew(v.log);
    HistoryKept(events, ConnectionMade, v.log, [], v.Broadcasts());
    var active, n := v'.s.activeBroadcasts, |v'.s.activeBroadcasts|;
    forall syn | syn in active
      ensures exists k :: 0 <= k < |v'.sent| && v'.sent[k].UpBroadcast? && v'.sent[k].tx == active[syn].tx
    {
      var k :| 0 <= k < n && ResendOf(active, v'.s.pendingBroadcasts, v'.sent[..n][k], syn);
      assert v'.sent[k] == v'.sent[..n][k];
    }
  }

  /** An event that changes nothing for the broadcasts. */
  lemma NothingTold(events: seq<Event>, e: Event, v: View)
    requires Told(events, v) && !e.ConsumerSends?
    ensures Told(events + [e], v)
  {
    hide History, AnsweredIds;
    if !v.s.Done? {
      NothingNew(v.log);
      HistoryKept(events, e, v.log, [], v.Broadcasts());
    }
  }

  /** The connection is lost. */
  lemma HaltTold(events: seq<Event>, v: View, subs: seq<Payload>, ids: seq<Id>, v': View)
    requires Told(events, v) && v.s.Connected? && v'.s.Connecting?
    requires v'.log == v.log + StopEvents(subs) + Errors(ids) && v'.Broadcasts() == v.Broadcasts()
    ensures Told(events + [ConnectionLost], v')
  {
    HaltGivesNone(v.log, subs, ids);
    hide AnsweredIds;
    HistoryKept(events, ConnectionLost, v.log, StopEvents(subs) + Errors(ids), v.Broadcasts());
    assert v.log + StopEvents(subs) + Errors(ids) == v.log + (StopEvents(subs) + Errors(ids));
  }

  lemma NothingBroadcast()
    ensures Told([], View(Connecting([], map[]), [], []))
  {
  }

  lemma NothingLeftToTell(events: seq<Event>, v: View)
    requires v.s.Done?
    ensures Told(events, v)
  {
  }

  lemma AnsweredAtMostOnce(s: State, c: Connection, count: nat, log: seq<Incoming>, requests: multiset<Id>)
    requires Whole(s, c, count, log, requests, multiset{})
    ensures forall id :: AnsweredIds(log)[id] <= 1
    ensures forall id :: id !in requests && !s.Done? ==> id !in AnsweredIds(log)
    ensures Synthetic(count) !in s.Broadcasts()
  {
    forall id ensures AnsweredIds(log)[id] <= 1 && (id !in requests && !s.Done? ==> id !in AnsweredIds(log)) {
      ExactlyOnePlace(s, c, count, log, requests, id);
    }
    hide AnsweredIds, Balanced;
    assert !TokenDrawn(Synthetic(count), count);
  }

  /** One event. */
  method Step(p: Proxy, ghost events: seq<Event>, e: Event)
    requires p.Ok(multiset{}) && Told(events, View(p.state, p.toConsumer, p.sent))
    requires FromConsumer(e) && InTime(e, PhaseOf(p.state))
    requires e.ConsumerSends? && e.request.id.Some? ==> e.request.id.value !in p.requests
    modifies p
    ensures p.Ok(multiset{}) && Told(events + [e], View(p.state, p.toConsumer, p.sent))
    ensures p.requests == old(p.requests) + (if e.ConsumerSends? then MsgIds(e.request) else multiset{})
    ensures PhaseOf(p.state) == PhaseBy(e, PhaseOf(old(p.state)))
  {
    hide Whole, Idle, Lists, BroadcastsAfter, Passed, OperationsOf, RetriedOf, InOrder, Told, Transactions, Resent,
        AnsweredIds, IsDropped, OwnAnswer;
    AnsweredAtMostOnce(p.state, p.Conn(), p.count, p.toConsumer, p.requests);
    ghost var v := View(p.state, p.toConsumer, p.sent);
    match e {
      case ConsumerSends(request) =>
        ghost var count := p.count;
        p.Send(request);
        SendTold(events, v, request, count, View(p.state, p.toConsumer, p.sent));
      case ServerSends(message) =>
        p.OnMsgFromProvider(message, multiset{});
        AnsweredAtMostOnce(p.state, p.Conn(), p.count, p.toConsumer, p.requests);
        MessageTold(events, v, message, View(p.state, p.toConsumer, p.sent));
      case ConnectionMade =>
        var ok := p.Connect();
        if ok {
          ConnectTold(events, v, View(p.state, p.toConsumer, p.sent));
        } else {
          NothingTold(events, e, v);
        }
      case ConnectionLost =>
        ghost var ids := OperationsOf(p.state.onGoing, p.order);
        ghost var subs := p.Halt();
        HaltTold(events, v, subs, ids, View(p.state, p.toConsumer, p.sent));
      case ConsumerLeaves =>
        p.Disconnect();
        NothingLeftToTell(events + [e], View(p.state, p.toConsumer, p.sent));
    }
  }

  /**
   * Any run whose requests have distinct ids of the consumer's own: whatever the server sends,
   * answers only while there is a connection, and however often that is lost and made, everything asked
   * is accounted for. Until the consumer leaves, the broadcasts are those that it asked for and did not
   * stop, each under the token that it was given, and on a connection every one of them was sent.
   */
  method Run(events: seq<Event>) returns (p: Proxy)
    requires forall id :: AskedIds(events)[id] <= 1
    requires forall k :: 0 <= k < |events| ==> FromConsumer(events[k])
    requires Timely(events)
    ensures p.Ok(multiset{}) && p.requests == AskedIds(events) && PhaseOf(p.state) == PhaseAfter(events)
    ensures Told(events, View(p.state, p.toConsumer, p.sent))
  {
    hide Whole, AskedIds, PhaseAfter, InOrder, Told;
    p := new Proxy();
    NothingAsked();
    NoEvents();
    NothingBroadcast();
    assert events[..0] == [];
    for k := 0 to |events|
      invariant fresh(p) && p.Ok(multiset{}) && p.requests == AskedIds(events[..k])
      invariant PhaseOf(p.state) == PhaseAfter(events[..k])
      invariant Told(events[..k], View(p.state, p.toConsumer, p.sent))
    {
      AskedNext(events, k);
      PhaseNext(events, k);
      assert FromConsumer(events[k]) && InTime(events[k], PhaseAfter(events[..k]));
      assert events[..k + 1] == events[..k] + [events[k]];
      Step(p, events[..k], events[k]);
    }
    assert events[..|events|] == events;
  }

  predicate FromConsumer(e: Event) {
    e.ConsumerSends? && e.request.id.Some? ==> e.request.id.value.ConsumerId?
  }

  lemma NoEvents()
    ensures PhaseAfter([]) == Offline
  {
  }

  lemma NothingAsked()
    ensures AskedIds([]) == multiset{}
  {
  }

  lemma AskedNext(events: seq<Event>, k: nat)
    requires k < |events| && forall id :: AskedIds(events)[id] <= 1
    ensures events[k].ConsumerSends? ==>
              && AskedIds(events[..k + 1]) == AskedIds(events[..k]) + MsgIds(events[k].request)
              && (events[k].request.id.Some? ==> events[k].request.id.value !in AskedIds(events[..k]))
    ensures !events[k].ConsumerSends? ==> AskedIds(events[..k + 1]) == AskedIds(events[..k])
  {
    assert events[..k + 1][..k] == events[..k];
    AskedBefore(events, k + 1);
    if events[k].ConsumerSends? && events[k].request.id.Some? {
      var id := events[k].request.id.value;
      assert AskedIds(events[..k + 1])[id] <= AskedIds(events)[id];
    }
  }
}
