/** The state of the reconnecting JSON-RPC proxy, and what every step of it keeps. */
module ProxyState {
  import opened Basics

  /** Consumers never use the names that the proxy makes up for its own requests. */
  datatype Id = ConsumerId(s: string) | InternalId(n: nat)

  /** Synthetic broadcast tokens are numbered; a consumer may also pass any other text as a token. */
  datatype Token = Synthetic(n: nat) | Foreign(s: string)

  datatype Payload = Text(s: string) | Null | TokenPayload(token: Token)

  datatype Call =
    | Follow
    | Unfollow(subscription: Payload)
    | ChainHeadOperation
    | TransactionBroadcast(tx: string)
    | TransactionStop(token: Token)
    | OtherCall

  datatype Request = Request(id: Option<Id>, call: Call)

  datatype Reply = Result(value: Payload) | Error

  /** Messages towards the consumer. */
  datatype Incoming =
    | Response(id: Id, reply: Reply)
    | StopEvent(subscription: Payload)
    | OtherNotification

  /** Messages towards the server. */
  datatype Outgoing =
    | Forward(msg: Request)
    | UpBroadcast(id: Id, tx: string)
    | UpStop(id: Id, upToken: Payload)

  datatype Ongoing = FollowMsg(msg: Request) | Operation(id: Id) | OtherMsg(msg: Request)

  datatype Broadcast = Broadcast(tx: string, upToken: Option<Payload>)

  datatype State =
    | Connected(
        activeChainHeads: set<Payload>,
        activeBroadcasts: map<Token, Broadcast>,
        pendingBroadcasts: map<Id, Token>,
        onGoing: map<Id, Ongoing>)
    | Connecting(pending: seq<Request>, idleBroadcasts: map<Token, Broadcast>)
    | Done
  {
    /** The broadcasts that the consumer has not stopped. */
    function Broadcasts(): map<Token, Broadcast> {
      match this
      case Connected(_, active, _, _) => active
      case Connecting(_, idle) => idle
      case Done => map[]
    }
  }

  /** The transaction of each broadcast. */
  function Transactions(broadcasts: map<Token, Broadcast>): (r: map<Token, string>)
    ensures r.Keys == broadcasts.Keys
  {
    map syn | syn in broadcasts :: broadcasts[syn].tx
  }

  /** A broadcast or stop request with an id is answered by the proxy itself. */
  predicate IsSynthetic(msg: Request) {
    msg.id.Some? && (msg.call.TransactionBroadcast? || msg.call.TransactionStop?)
  }

  predicate IsToken(p: Payload) {
    p != Null && p != Text("")
  }

  // ------------------------------------------------------------- conservation

  function MsgIds(msg: Request): multiset<Id> {
    if msg.id.Some? then multiset{msg.id.value} else multiset{}
  }

  /** The ids of the responses in a log. */
  function AnsweredIds(log: seq<Incoming>): multiset<Id> {
    if log == [] then multiset{}
    else AnsweredIds(log[..|log| - 1]) + (if log[|log| - 1].Response? then multiset{log[|log| - 1].id} else multiset{})
  }

  function QueuedIds(msgs: seq<Request>): multiset<Id> {
    if msgs == [] then multiset{} else QueuedIds(msgs[..|msgs| - 1]) + MsgIds(msgs[|msgs| - 1])
  }

  lemma AnsweredOne(log: seq<Incoming>, msg: Incoming)
    ensures AnsweredIds(log + [msg]) == AnsweredIds(log) + (if msg.Response? then multiset{msg.id} else multiset{})
  {
    assert (log + [msg])[..|log|] == log;
  }

  lemma QueuedOne(msgs: seq<Request>, msg: Request)
    ensures QueuedIds(msgs + [msg]) == QueuedIds(msgs) + MsgIds(msg)
  {
    assert (msgs + [msg])[..|msgs|] == msgs;
  }

  lemma {:induction false} QueuedFirst(msgs: seq<Request>)
    requires msgs != []
    ensures QueuedIds(msgs) == MsgIds(msgs[0]) + QueuedIds(msgs[1..])
  {
    var n := |msgs| - 1;
    var front, last := msgs[..n], msgs[n];
    assert msgs == front + [last];
    QueuedOne(front, last);
    if n == 0 {
      assert front == [] && msgs[1..] == [];
    } else {
      QueuedFirst(front);
      QueuedOne(front[1..], last);
      hide QueuedIds, MsgIds;
      assert msgs[1..] == front[1..] + [last];
    }
  }

  /** What still waits for an answer. */
  ghost function Waiting(s: State): multiset<Id> {
    match s
    case Connected(_, _, _, onGoing) => multiset(onGoing.Keys)
    case Connecting(pending, _) => QueuedIds(pending)
    case Done => multiset{}
  }

  /** No request is queued or tracked under a wrong id, and none that the proxy answers itself. */
  ghost predicate TrackedOk(s: State) {
    match s
    case Connected(_, _, _, onGoing) =>
      forall id :: id in onGoing ==> OngoingOk(id, onGoing[id])
    case Connecting(pending, _) =>
      forall k :: 0 <= k < |pending| ==> !IsSynthetic(pending[k])
    case Done => true
  }

  predicate OngoingOk(id: Id, o: Ongoing) {
    match o
    case FollowMsg(msg) => msg.id == Some(id) && msg.call.Follow?
    case Operation(id') => id' == id
    case OtherMsg(msg) => msg.id == Some(id) && msg.call.OtherCall?
  }

  /**
   * Every request is answered, waiting or in hand, and only once; after `disconnect` requests may
   * be dropped but still none is answered twice.
   */
  ghost predicate Balanced(s: State, log: seq<Incoming>, requests: multiset<Id>, inHand: multiset<Id>) {
    && (forall id :: requests[id] <= 1)
    && TrackedOk(s)
    && (if s.Done? then AnsweredIds(log) + inHand <= requests
        else AnsweredIds(log) + Waiting(s) + inHand == requests)
  }

  // ---------------------------------------------------------------- broadcasts

  /** What happened to the broadcasts on the current connection. */
  datatype Connection = Connection(
    sent: seq<Outgoing>,
    received: set<Payload>,  // the upstream tokens that came in
    failed: set<Token>)      // the broadcasts that upstream answered without a token

  ghost predicate InFlight(pending: map<Id, Token>, syn: Token) {
    exists id :: id in pending && pending[id] == syn
  }

  ghost predicate HasToken(b: Broadcast) {
    b.upToken !in {None, Some(Null), Some(Text(""))}
  }

  /** The broadcast has a token, or is in flight, or failed, and only one of these. */
  ghost predicate OneFate(s: State, c: Connection, syn: Token)
    requires s.Connected? && syn in s.activeBroadcasts
  {
    var token, flying, failed := HasToken(s.activeBroadcasts[syn]), InFlight(s.pendingBroadcasts, syn), syn in c.failed;
    (token || flying || failed) && !(token && flying) && !(token && failed) && !(flying && failed)
  }

  ghost predicate StopSent(c: Connection, t: Payload) {
    exists k :: 0 <= k < |c.sent| && c.sent[k].UpStop? && c.sent[k].upToken == t
  }

  ghost predicate TokenActive(active: map<Token, Broadcast>, t: Payload) {
    exists syn :: syn in active && active[syn].upToken == Some(t)
  }

  /** The request in flight under `id` was sent, with the transaction of its broadcast. */
  ghost predicate WasSent(s: State, c: Connection, id: Id)
    requires s.Connected? && id in s.pendingBroadcasts
  {
    exists k :: 0 <= k < |c.sent| && c.sent[k].UpBroadcast? && c.sent[k].id == id
      && (s.pendingBroadcasts[id] in s.activeBroadcasts ==>
          c.sent[k].tx == s.activeBroadcasts[s.pendingBroadcasts[id]].tx)
  }

  /** Tokens and internal ids are numbers already drawn; consumer ids in flight are answered. */
  ghost predicate Fresh(s: State, count: nat, answered: multiset<Id>)
    requires s.Connected?
  {
    && TokensDrawn(s.activeBroadcasts, count)
    && (forall id :: id in s.pendingBroadcasts ==>
          TokenDrawn(s.pendingBroadcasts[id], count) && IdDrawn(id, count, answered))
  }

  ghost predicate TokensDrawn(active: map<Token, Broadcast>, count: nat) {
    forall syn :: syn in active ==> TokenDrawn(syn, count)
  }

  ghost predicate TokenDrawn(syn: Token, count: nat) {
    syn.Synthetic? && syn.n < count
  }

  ghost predicate IdDrawn(id: Id, count: nat, answered: multiset<Id>) {
    if id.InternalId? then id.n < count else id in answered
  }

  /** No two requests in flight are for the same broadcast. */
  ghost predicate OneFlightEach(pending: map<Id, Token>) {
    forall i, j :: i in pending && j in pending && pending[i] == pending[j] ==> i == j
  }

  ghost predicate FatesOk(s: State, c: Connection)
    requires s.Connected?
  {
    forall syn :: syn in s.activeBroadcasts ==> OneFate(s, c, syn)
  }

  ghost predicate FlightsOk(s: State, c: Connection)
    requires s.Connected?
  {
    OneFlightEach(s.pendingBroadcasts) && forall id :: id in s.pendingBroadcasts ==> WasSent(s, c, id)
  }

  /** Every token received on this connection belongs to an active broadcast or had a stop sent. */
  ghost predicate TokensOk(s: State, c: Connection)
    requires s.Connected?
  {
    forall t :: t in c.received ==> IsToken(t) && (TokenActive(s.activeBroadcasts, t) || StopSent(c, t))
  }

  ghost predicate BroadcastsOk(s: State, c: Connection, count: nat, answered: multiset<Id>) {
    match s
    case Connected(_, _, _, _) => Fresh(s, count, answered) && FatesOk(s, c) && FlightsOk(s, c) && TokensOk(s, c)
    case Connecting(_, active) =>
      TokensDrawn(active, count) && forall syn :: syn in active ==> active[syn].upToken == None
    case Done => true
  }

  // ----------------------------------------------------- what steps do to broadcasts

  lemma SentMore(s: State, c: Connection, msg: Outgoing)
    requires s.Connected?
    ensures FlightsOk(s, c) ==> FlightsOk(s, c.(sent := c.sent + [msg]))
    ensures TokensOk(s, c) ==> TokensOk(s, c.(sent := c.sent + [msg]))
    ensures FatesOk(s, c) ==> FatesOk(s, c.(sent := c.sent + [msg]))
  {
    var c' := c.(sent := c.sent + [msg]);
    assert forall k :: 0 <= k < |c.sent| ==> c'.sent[k] == c.sent[k];
    if FlightsOk(s, c) {
      forall id | id in s.pendingBroadcasts ensures WasSent(s, c', id) {
        assert WasSent(s, c, id);
      }
    }
    if TokensOk(s, c) {
      forall t | t in c'.received ensures IsToken(t) && (TokenActive(s.activeBroadcasts, t) || StopSent(c', t)) {
        if !TokenActive(s.activeBroadcasts, t) { assert StopSent(c, t); }
      }
    }
    if FatesOk(s, c) {
      forall syn | syn in s.activeBroadcasts ensures OneFate(s, c', syn) {
        assert OneFate(s, c, syn);
      }
    }
  }

  /** Following chain heads and tracking other requests does not touch the broadcasts. */
  lemma OtherStep(s: State, s': State, c: Connection, count: nat, count': nat, answered: multiset<Id>,
                  answered': multiset<Id>)
    requires s.Connected? && s'.Connected? && count <= count' && answered <= answered'
    requires s'.activeBroadcasts == s.activeBroadcasts && s'.pendingBroadcasts == s.pendingBroadcasts
    requires BroadcastsOk(s, c, count, answered)
    ensures BroadcastsOk(s', c, count', answered')
  {
    forall syn | syn in s.activeBroadcasts ensures OneFate(s', c, syn) {
      assert OneFate(s, c, syn);
    }
    forall id | id in s.pendingBroadcasts ensures WasSent(s', c, id) {
      assert WasSent(s, c, id);
    }
    forall t | t in c.received ensures IsToken(t) && (TokenActive(s'.activeBroadcasts, t) || StopSent(c, t)) {
      assert TokenActive(s.activeBroadcasts, t) ==> TokenActive(s'.activeBroadcasts, t);
    }
  }

  lemma ForwardStep(s: State, c: Connection, count: nat, answered: multiset<Id>, msg: Request)
    requires s.Connected? && BroadcastsOk(s, c, count, answered)
    ensures BroadcastsOk(s, c.(sent := c.sent + [Forward(msg)]), count, answered)
  {
    hide FlightsOk, FatesOk, TokensOk, Fresh;
    SentMore(s, c, Forward(msg));
  }

  /** The consumer stops a broadcast that has a token, so a stop is sent for the token. */
  lemma StopStep(s: State, c: Connection, count: nat, answered: multiset<Id>, syn: Token, id: Id)
    requires s.Connected? && BroadcastsOk(s, c, count, answered)
    ensures var s' := s.(activeBroadcasts := s.activeBroadcasts - {syn});
            var c' := if syn in s.activeBroadcasts && HasToken(s.activeBroadcasts[syn])
                      then c.(sent := c.sent + [UpStop(id, s.activeBroadcasts[syn].upToken.value)]) else c;
            BroadcastsOk(s', c', count, answered)
  {
    var s' := s.(activeBroadcasts := s.activeBroadcasts - {syn});
    var stops := syn in s.activeBroadcasts && HasToken(s.activeBroadcasts[syn]);
    var c' := if stops then c.(sent := c.sent + [UpStop(id, s.activeBroadcasts[syn].upToken.value)]) else c;
    assert forall k :: 0 <= k < |c.sent| ==> c'.sent[k] == c.sent[k];
    forall other | other in s'.activeBroadcasts ensures OneFate(s', c', other) {
      assert OneFate(s, c, other);
    }
    forall i | i in s'.pendingBroadcasts ensures WasSent(s', c', i) {
      assert WasSent(s, c, i);
    }
    forall t | t in c'.received ensures IsToken(t) && (TokenActive(s'.activeBroadcasts, t) || StopSent(c', t)) {
      if StopSent(c, t) {
        var k :| 0 <= k < |c.sent| && c.sent[k].UpStop? && c.sent[k].upToken == t;
        assert c'.sent[k].upToken == t;
      } else {
        var owner :| owner in s.activeBroadcasts && s.activeBroadcasts[owner].upToken == Some(t);
        if owner == syn {
          assert c'.sent[|c.sent|].upToken == t;
        } else {
          assert owner in s'.activeBroadcasts;
        }
      }
    }
  }

  /** The consumer broadcasts: a new token is drawn and the transaction is sent. */
  lemma BroadcastStep(s: State, c: Connection, count: nat, answered: multiset<Id>, id: Id, tx: string)
    requires s.Connected? && BroadcastsOk(s, c, count, answered)
    requires id !in s.pendingBroadcasts && Synthetic(count) !in c.failed && IdDrawn(id, count + 1, answered)
    ensures var syn := Synthetic(count);
            BroadcastsOk(s.(activeBroadcasts := s.activeBroadcasts[syn := Broadcast(tx, None)],
                            pendingBroadcasts := s.pendingBroadcasts[id := syn]),
                         c.(sent := c.sent + [UpBroadcast(id, tx)]), count + 1, answered)
  {
    var syn := Synthetic(count);
    var s' := s.(activeBroadcasts := s.activeBroadcasts[syn := Broadcast(tx, None)],
                 pendingBroadcasts := s.pendingBroadcasts[id := syn]);
    var c' := c.(sent := c.sent + [UpBroadcast(id, tx)]);
    FlightAdded(s, s', c, c', id, syn, tx);
    forall t | t in c'.received ensures IsToken(t) && (TokenActive(s'.activeBroadcasts, t) || StopSent(c', t)) {
      if StopSent(c, t) {
        var k :| 0 <= k < |c.sent| && c.sent[k].UpStop? && c.sent[k].upToken == t;
        assert c'.sent[k].upToken == t;
      } else {
        var owner :| owner in s.activeBroadcasts && s.activeBroadcasts[owner].upToken == Some(t);
        assert owner in s'.activeBroadcasts && owner != syn;
      }
    }
  }

  /** A request for a broadcast without token or other request goes in flight. */
  lemma FlightAdded(s: State, s': State, c: Connection, c': Connection, id: Id, syn: Token, tx: string)
    requires s.Connected? && s'.Connected? && FlightsOk(s, c)
    requires forall other :: other in s.activeBroadcasts && other != syn ==> OneFate(s, c, other)
    requires id !in s.pendingBroadcasts && syn !in c.failed && !InFlight(s.pendingBroadcasts, syn)
    requires s'.activeBroadcasts == s.activeBroadcasts[syn := Broadcast(tx, None)]
    requires s'.pendingBroadcasts == s.pendingBroadcasts[id := syn]
    requires c' == c.(sent := c.sent + [UpBroadcast(id, tx)])
    ensures FatesOk(s', c') && FlightsOk(s', c')
  {
    assert c'.sent[|c.sent|] == UpBroadcast(id, tx);
    assert forall k :: 0 <= k < |c.sent| ==> c'.sent[k] == c.sent[k];
    forall other | other in s'.activeBroadcasts ensures OneFate(s', c', other) {
      if other == syn {
        assert s'.pendingBroadcasts[id] == syn;
      } else {
        assert OneFate(s, c, other);
        SameFlight(s.pendingBroadcasts, id, syn, other);
      }
    }
    forall i | i in s'.pendingBroadcasts ensures WasSent(s', c', i) {
      if i != id {
        assert WasSent(s, c, i);
        assert s.pendingBroadcasts[i] != syn;
      }
    }
    assert forall i :: i in s.pendingBroadcasts ==> s.pendingBroadcasts[i] != syn;
    var flying := s'.pendingBroadcasts;
    forall i, j | i in flying && j in flying && flying[i] == flying[j]
      ensures i == j
    {
    }
  }

  lemma SameFlight(pending: map<Id, Token>, id: Id, syn: Token, other: Token)
    requires other != syn && id !in pending
    ensures InFlight(pending[id := syn], other) <==> InFlight(pending, other)
  {
    if InFlight(pending, other) {
      var i :| i in pending && pending[i] == other;
      assert pending[id := syn][i] == other;
    }
  }

  /** Upstream answers a request in flight. */
  lemma AnswerStep(s: State, c: Connection, count: nat, answered: multiset<Id>, id: Id, reply: Reply)
    requires s.Connected? && BroadcastsOk(s, c, count, answered) && id in s.pendingBroadcasts
    ensures var syn := s.pendingBroadcasts[id];
            var s1 := s.(pendingBroadcasts := s.pendingBroadcasts - {id});
            var good := reply.Result? && IsToken(reply.value);
            var c1 := c.(received := if good then c.received + {reply.value} else c.received,
                         failed := if good then c.failed else c.failed + {syn});
            if syn in s.activeBroadcasts && reply.Result? then
              BroadcastsOk(s1.(activeBroadcasts :=
                               s1.activeBroadcasts[syn := s1.activeBroadcasts[syn].(upToken := Some(reply.value))]),
                           c1, count, answered)
            else if reply.Result? then
              BroadcastsOk(s1, c1.(sent := c1.sent + [UpStop(InternalId(count), reply.value)]), count + 1, answered)
            else
              BroadcastsOk(s1, c1, count, answered)
  {
    var syn := s.pendingBroadcasts[id];
    if syn in s.activeBroadcasts && reply.Result? {
      AnswerActive(s, c, count, answered, id, reply.value);
    } else if reply.Result? {
      AnswerStopped(s, c, count, answered, id, reply.value);
    } else {
      AnswerError(s, c, count, answered, id);
    }
  }

  lemma FlightLanded(pending: map<Id, Token>, id: Id, other: Token)
    requires id in pending && OneFlightEach(pending)
    ensures InFlight(pending - {id}, other) <==> InFlight(pending, other) && other != pending[id]
  {
    if InFlight(pending, other) && other != pending[id] {
      var i :| i in pending && pending[i] == other;
      assert i in pending - {id} && (pending - {id})[i] == other;
    }
    if InFlight(pending - {id}, other) {
      var i :| i in pending - {id} && (pending - {id})[i] == other;
      assert i in pending && i != id;
    }
  }

  lemma AnswerActive(s: State, c: Connection, count: nat, answered: multiset<Id>, id: Id, value: Payload)
    requires s.Connected? && BroadcastsOk(s, c, count, answered) && id in s.pendingBroadcasts
    requires s.pendingBroadcasts[id] in s.activeBroadcasts
    ensures var syn := s.pendingBroadcasts[id];
            BroadcastsOk(s.(pendingBroadcasts := s.pendingBroadcasts - {id},
                            activeBroadcasts :=
                                s.activeBroadcasts[syn := s.activeBroadcasts[syn].(upToken := Some(value))]),
                         c.(received := if IsToken(value) then c.received + {value} else c.received,
                            failed := if IsToken(value) then c.failed else c.failed + {syn}),
                         count, answered)
  {
    var syn := s.pendingBroadcasts[id];
    var s' := s.(pendingBroadcasts := s.pendingBroadcasts - {id},
                 activeBroadcasts := s.activeBroadcasts[syn := s.activeBroadcasts[syn].(upToken := Some(value))]);
    var c' := c.(received := if IsToken(value) then c.received + {value} else c.received,
                 failed := if IsToken(value) then c.failed else c.failed + {syn});
    assert OneFate(s, c, syn) && InFlight(s.pendingBroadcasts, syn);
    forall other | other in s'.activeBroadcasts ensures OneFate(s', c', other) {
      assert OneFate(s, c, other);
      FlightLanded(s.pendingBroadcasts, id, other);
    }
    forall i | i in s'.pendingBroadcasts ensures WasSent(s', c', i) {
      assert WasSent(s, c, i);
    }
    forall t | t in c'.received ensures IsToken(t) && (TokenActive(s'.activeBroadcasts, t) || StopSent(c', t)) {
      if t == value {
        assert s'.activeBroadcasts[syn].upToken == Some(t);
      } else if StopSent(c, t) {
        assert StopSent(c', t);
      } else {
        var owner :| owner in s.activeBroadcasts && s.activeBroadcasts[owner].upToken == Some(t);
        assert HasToken(s.activeBroadcasts[owner]) && OneFate(s, c, owner);
        assert owner in s'.activeBroadcasts && s'.activeBroadcasts[owner].upToken == Some(t);
      }
    }
  }

  lemma AnswerStopped(s: State, c: Connection, count: nat, answered: multiset<Id>, id: Id, value: Payload)
    requires s.Connected? && BroadcastsOk(s, c, count, answered) && id in s.pendingBroadcasts
    requires s.pendingBroadcasts[id] !in s.activeBroadcasts
    ensures BroadcastsOk(s.(pendingBroadcasts := s.pendingBroadcasts - {id}),
                         Connection(c.sent + [UpStop(InternalId(count), value)],
                                    if IsToken(value) then c.received + {value} else c.received,
                                    if IsToken(value) then c.failed else c.failed + {s.pendingBroadcasts[id]}),
                         count + 1, answered)
  {
    var syn := s.pendingBroadcasts[id];
    var s' := s.(pendingBroadcasts := s.pendingBroadcasts - {id});
    var c' := Connection(c.sent + [UpStop(InternalId(count), value)],
                         if IsToken(value) then c.received + {value} else c.received,
                         if IsToken(value) then c.failed else c.failed + {syn});
    assert c'.sent[|c.sent|] == UpStop(InternalId(count), value);
    assert forall k :: 0 <= k < |c.sent| ==> c'.sent[k] == c.sent[k];
    forall other | other in s'.activeBroadcasts ensures OneFate(s', c', other) {
      assert OneFate(s, c, other);
      FlightLanded(s.pendingBroadcasts, id, other);
    }
    forall i | i in s'.pendingBroadcasts ensures WasSent(s', c', i) {
      assert WasSent(s, c, i);
    }
    forall t | t in c'.received ensures IsToken(t) && (TokenActive(s'.activeBroadcasts, t) || StopSent(c', t)) {
      if t != value {
        assert TokenActive(s.activeBroadcasts, t) ==> TokenActive(s'.activeBroadcasts, t);
        if StopSent(c, t) {
          var k :| 0 <= k < |c.sent| && c.sent[k].UpStop? && c.sent[k].upToken == t;
          assert c'.sent[k].upToken == t;
        }
      }
    }
  }

  lemma AnswerError(s: State, c: Connection, count: nat, answered: multiset<Id>, id: Id)
    requires s.Connected? && BroadcastsOk(s, c, count, answered) && id in s.pendingBroadcasts
    ensures BroadcastsOk(s.(pendingBroadcasts := s.pendingBroadcasts - {id}),
                         c.(failed := c.failed + {s.pendingBroadcasts[id]}), count, answered)
  {
    var s' := s.(pendingBroadcasts := s.pendingBroadcasts - {id});
    var c' := c.(failed := c.failed + {s.pendingBroadcasts[id]});
    assert InFlight(s.pendingBroadcasts, s.pendingBroadcasts[id]);
    forall other | other in s'.activeBroadcasts ensures OneFate(s', c', other) {
      assert OneFate(s, c, other);
      FlightLanded(s.pendingBroadcasts, id, other);
    }
    forall i | i in s'.pendingBroadcasts ensures WasSent(s', c', i) {
      assert WasSent(s, c, i);
    }
    forall t | t in c'.received ensures IsToken(t) && (TokenActive(s'.activeBroadcasts, t) || StopSent(c', t)) {
      assert TokenActive(s.activeBroadcasts, t) ==> TokenActive(s'.activeBroadcasts, t);
      assert StopSent(c, t) ==> StopSent(c', t);
    }
  }

  // ------------------------------------------------------- losing the connection

  function Idle(active: map<Token, Broadcast>): map<Token, Broadcast> {
    map syn | syn in active :: active[syn].(upToken := None)
  }

  lemma IdleKeeps(active: map<Token, Broadcast>)
    ensures Transactions(Idle(active)) == Transactions(active)
    ensures forall syn :: syn in Idle(active) ==> Idle(active)[syn].upToken == None
  {
  }

  /** Losing the connection forgets the upstream tokens and keeps the broadcasts. */
  lemma HaltStep(s: State, c: Connection, count: nat, answered: multiset<Id>)
    requires s.Connected? && BroadcastsOk(s, c, count, answered)
    ensures BroadcastsOk(Connecting([], Idle(s.activeBroadcasts)), c, count, answered)
  {
  }

  /** On a new connection the broadcasts in `resent` are in flight, the rest are still to be sent. */
  ghost predicate Resending(s: State, c: Connection, count: nat, answered: multiset<Id>, resent: set<Token>) {
    && s.Connected?
    && Fresh(s, count, answered) && FlightsOk(s, c)
    && c.received == {} && c.failed == {}
    && resent <= s.activeBroadcasts.Keys
    && (forall syn :: syn in s.activeBroadcasts ==> s.activeBroadcasts[syn].upToken == None)
    && (forall syn :: syn in resent <==> InFlight(s.pendingBroadcasts, syn))
    && (forall id :: id in s.pendingBroadcasts ==> id.InternalId?)
    && OnlyResends(s, c)
  }

  /** Everything sent so far is a broadcast in flight, each under its own id. */
  ghost predicate OnlyResends(s: State, c: Connection)
    requires s.Connected?
  {
    && (forall k :: 0 <= k < |c.sent| ==> Resend(s, c.sent[k]))
    && (forall k, l :: 0 <= k < l < |c.sent| ==> c.sent[k] != c.sent[l])
  }

  ghost predicate Resend(s: State, msg: Outgoing)
    requires s.Connected?
  {
    && msg.UpBroadcast? && msg.id in s.pendingBroadcasts
    && s.pendingBroadcasts[msg.id] in s.activeBroadcasts
    && s.activeBroadcasts[s.pendingBroadcasts[msg.id]].tx == msg.tx
  }

  lemma ResendStep(s: State, c: Connection, count: nat, answered: multiset<Id>, resent: set<Token>, syn: Token)
    requires Resending(s, c, count, answered, resent) && syn in s.activeBroadcasts && syn !in resent
    ensures Resending(s.(pendingBroadcasts := s.pendingBroadcasts[InternalId(count) := syn]),
                      c.(sent := c.sent + [UpBroadcast(InternalId(count), s.activeBroadcasts[syn].tx)]),
                      count + 1, answered, resent + {syn})
  {
    var id := InternalId(count);
    var tx := s.activeBroadcasts[syn].tx;
    var s' := s.(pendingBroadcasts := s.pendingBroadcasts[id := syn]);
    var c' := c.(sent := c.sent + [UpBroadcast(id, tx)]);
    assert id !in s.pendingBroadcasts;
    assert s.activeBroadcasts[syn := Broadcast(tx, None)] == s.activeBroadcasts by {
      assert s.activeBroadcasts[syn] == Broadcast(tx, None);
    }
    assert FlightsOk(s', c') by { ResentFlights(s, s', c, c', id, syn, tx); }
    forall other ensures other in resent + {syn} <==> InFlight(s'.pendingBroadcasts, other) {
      if other == syn {
        assert s'.pendingBroadcasts[id] == syn;
      } else {
        SameFlight(s.pendingBroadcasts, id, syn, other);
      }
    }
    forall k | 0 <= k < |c'.sent| ensures Resend(s', c'.sent[k]) {
      if k < |c.sent| { assert Resend(s, c.sent[k]); }
    }
  }

  lemma ResentFlights(s: State, s': State, c: Connection, c': Connection, id: Id, syn: Token, tx: string)
    requires s.Connected? && FlightsOk(s, c) && id !in s.pendingBroadcasts && !InFlight(s.pendingBroadcasts, syn)
    requires syn in s.activeBroadcasts && s.activeBroadcasts[syn].tx == tx
    requires s' == s.(pendingBroadcasts := s.pendingBroadcasts[id := syn])
    requires c' == c.(sent := c.sent + [UpBroadcast(id, tx)])
    ensures FlightsOk(s', c')
  {
    assert c'.sent[|c.sent|] == UpBroadcast(id, tx);
    assert forall k :: 0 <= k < |c.sent| ==> c'.sent[k] == c.sent[k];
    assert forall i :: i in s.pendingBroadcasts ==> s.pendingBroadcasts[i] != syn;
    forall i | i in s'.pendingBroadcasts ensures WasSent(s', c', i) {
      if i != id {
        assert WasSent(s, c, i);
      }
    }
  }

  lemma ResentAll(s: State, c: Connection, count: nat, answered: multiset<Id>)
    requires s.Connected? && Resending(s, c, count, answered, s.activeBroadcasts.Keys)
    ensures BroadcastsOk(s, c, count, answered)
  {
  }

  // -------------------------------------------------- what steps do to the balance

  lemma AnswerBalance(s: State, log: seq<Incoming>, requests: multiset<Id>, inHand: multiset<Id>, msg: Incoming)
    requires msg.Response? && Balanced(s, log, requests, inHand + multiset{msg.id})
    ensures Balanced(s, log + [msg], requests, inHand)
  {
    AnsweredOne(log, msg);
    hide AnsweredIds, Waiting;
  }

  lemma NotifyBalance(s: State, log: seq<Incoming>, requests: multiset<Id>, inHand: multiset<Id>, msg: Incoming)
    requires !msg.Response? && Balanced(s, log, requests, inHand)
    ensures Balanced(s, log + [msg], requests, inHand)
  {
    AnsweredOne(log, msg);
    hide AnsweredIds, Waiting;
  }

  lemma QueueBalance(s: State, log: seq<Incoming>, requests: multiset<Id>, inHand: multiset<Id>, msg: Request)
    requires s.Connecting? && !IsSynthetic(msg) && Balanced(s, log, requests, inHand + MsgIds(msg))
    ensures Balanced(s.(pending := s.pending + [msg]), log, requests, inHand)
  {
    QueuedOne(s.pending, msg);
    hide AnsweredIds, QueuedIds;
  }

  /** A request that is tracked was not tracked before, so nothing is overwritten. */
  lemma TrackBalance(s: State, log: seq<Incoming>, requests: multiset<Id>, inHand: multiset<Id>, id: Id, o: Ongoing)
    requires s.Connected? && OngoingOk(id, o) && Balanced(s, log, requests, inHand + multiset{id})
    ensures id !in s.onGoing
    ensures Balanced(s.(onGoing := s.onGoing[id := o]), log, requests, inHand)
  {
    hide AnsweredIds;
    assert requests[id] == (AnsweredIds(log) + Waiting(s) + (inHand + multiset{id}))[id];
    assert id !in s.onGoing;
    assert multiset(s.onGoing.Keys + {id}) == multiset(s.onGoing.Keys) + multiset{id};
    assert s.onGoing[id := o].Keys == s.onGoing.Keys + {id};
  }

  /** An answer from upstream is handed over, and the request no longer tracked. */
  lemma UntrackBalance(s: State, log: seq<Incoming>, requests: multiset<Id>, inHand: multiset<Id>, id: Id)
    requires s.Connected? && id in s.onGoing && Balanced(s, log, requests, inHand)
    ensures Balanced(s.(onGoing := s.onGoing - {id}), log, requests, inHand + multiset{id})
  {
    hide AnsweredIds;
    assert multiset(s.onGoing.Keys) == multiset(s.onGoing.Keys - {id}) + multiset{id};
    assert (s.onGoing - {id}).Keys == s.onGoing.Keys - {id};
  }

  /** Changes that leave what is tracked alone. */
  lemma SameBalance(s: State, s': State, log: seq<Incoming>, requests: multiset<Id>, inHand: multiset<Id>)
    requires Balanced(s, log, requests, inHand) && s.Connected? && s'.Connected? && s'.onGoing == s.onGoing
    ensures Balanced(s', log, requests, inHand)
  {
    hide AnsweredIds;
  }

  // ------------------------------------------------------------------ both together

  ghost predicate FailedDrawn(failed: set<Token>, count: nat) {
    forall syn :: syn in failed ==> TokenDrawn(syn, count)
  }

  /** What holds between any two steps, `inHand` being requests that a step is working on. */
  ghost predicate Whole(s: State, c: Connection, count: nat, log: seq<Incoming>, requests: multiset<Id>,
                        inHand: multiset<Id>) {
    && Balanced(s, log, requests, inHand)
    && BroadcastsOk(s, c, count, AnsweredIds(log))
    && FailedDrawn(c.failed, count)
  }

  lemma InHandIsNew(s: State, log: seq<Incoming>, requests: multiset<Id>, inHand: multiset<Id>, id: Id)
    requires Balanced(s, log, requests, inHand) && id in inHand
    ensures id !in AnsweredIds(log)
  {
    hide AnsweredIds, Waiting;
    if s.Done? {
      assert (AnsweredIds(log) + inHand)[id] <= requests[id];
    } else {
      assert (AnsweredIds(log) + Waiting(s) + inHand)[id] == requests[id];
    }
  }

  /** An answer that is relayed while there is no connection upsets the balance, whatever its id. */
  lemma AnswerWhileOffline(s: State, c: Connection, count: nat, log: seq<Incoming>, requests: multiset<Id>,
                           inHand: multiset<Id>, id: Id, reply: Reply)
    requires s.Connecting? && Whole(s, c, count, log, requests, inHand)
    ensures !Whole(s, c, count, log + [Response(id, reply)], requests, inHand)
  {
    AnsweredOne(log, Response(id, reply));
    hide AnsweredIds, BroadcastsOk;
    assert (AnsweredIds(log) + Waiting(s) + inHand)[id] == requests[id];
  }

  lemma Delivered(s: State, c: Connection, count: nat, log: seq<Incoming>, requests: multiset<Id>,
                  inHand: multiset<Id>, msg: Incoming)
    requires Whole(s, c, count, log, requests, if msg.Response? then inHand + multiset{msg.id} else inHand)
    ensures Whole(s, c, count, log + [msg], requests, inHand)
  {
    AnsweredOne(log, msg);
    if msg.Response? {
      AnswerBalance(s, log, requests, inHand, msg);
    } else {
      NotifyBalance(s, log, requests, inHand, msg);
    }
    hide AnsweredIds, Balanced;
    if s.Connected? {
      OtherStep(s, s, c, count, count, AnsweredIds(log), AnsweredIds(log + [msg]));
    }
  }

  /** An answered broadcast, on a connection. */
  lemma BroadcastSent(s: State, c: Connection, count: nat, log: seq<Incoming>, requests: multiset<Id>,
                      inHand: multiset<Id>, id: Id, tx: string)
    requires s.Connected? && id.ConsumerId? && Whole(s, c, count, log, requests, inHand + multiset{id})
    ensures var syn := Synthetic(count);
            Whole(s.(activeBroadcasts := s.activeBroadcasts[syn := Broadcast(tx, None)],
                     pendingBroadcasts := s.pendingBroadcasts[id := syn]),
                  c.(sent := c.sent + [UpBroadcast(id, tx)]), count + 1,
                  log + [Response(id, Result(TokenPayload(syn)))], requests, inHand)
  {
    var syn := Synthetic(count);
    var answer := Response(id, Result(TokenPayload(syn)));
    var log' := log + [answer];
    InHandIsNew(s, log, requests, inHand + multiset{id}, id);
    AnsweredOne(log, answer);
    Delivered(s, c, count, log, requests, inHand, answer);
    hide AnsweredIds;
    assert id in s.pendingBroadcasts ==> IdDrawn(id, count, AnsweredIds(log));
    BroadcastStep(s, c, count, AnsweredIds(log'), id, tx);
    SameBalance(s, s.(activeBroadcasts := s.activeBroadcasts[syn := Broadcast(tx, None)],
                      pendingBroadcasts := s.pendingBroadcasts[id := syn]), log', requests, inHand);
    hide Balanced, BroadcastsOk;
  }

  /** An answered broadcast, while there is no connection. */
  lemma BroadcastKept(s: State, c: Connection, count: nat, log: seq<Incoming>, requests: multiset<Id>,
                      inHand: multiset<Id>, id: Id, tx: string)
    requires s.Connecting? && Whole(s, c, count, log, requests, inHand + multiset{id})
    ensures var syn := Synthetic(count);
            Whole(s.(idleBroadcasts := s.idleBroadcasts[syn := Broadcast(tx, None)]), c, count + 1,
                  log + [Response(id, Result(TokenPayload(syn)))], requests, inHand)
  {
    Delivered(s, c, count, log, requests, inHand, Response(id, Result(TokenPayload(Synthetic(count)))));
    hide AnsweredIds;
  }

  /** An answered stop. */
  lemma StopHandled(s: State, c: Connection, count: nat, log: seq<Incoming>, requests: multiset<Id>,
                    inHand: multiset<Id>, id: Id, syn: Token)
    requires !s.Done? && Whole(s, c, count, log, requests, inHand + multiset{id})
    ensures var log' := log + [Response(id, Result(Null))];
            match s
            case Connected(_, active, _, _) =>
              Whole(s.(activeBroadcasts := active - {syn}),
                    if syn in active && HasToken(active[syn])
                        then c.(sent := c.sent + [UpStop(id, active[syn].upToken.value)]) else c,
                    count, log', requests, inHand)
            case Connecting(_, idle) => Whole(s.(idleBroadcasts := idle - {syn}), c, count, log', requests, inHand)
            case Done => true
  {
    var answer := Response(id, Result(Null));
    var log' := log + [answer];
    Delivered(s, c, count, log, requests, inHand, answer);
    hide AnsweredIds;
    if s.Connected? {
      StopStep(s, c, count, AnsweredIds(log'), syn, id);
      SameBalance(s, s.(activeBroadcasts := s.activeBroadcasts - {syn}), log', requests, inHand);
      hide Balanced, BroadcastsOk;
    }
  }

  lemma Queued(s: State, c: Connection, count: nat, log: seq<Incoming>, requests: multiset<Id>, inHand: multiset<Id>,
               msg: Request)
    requires s.Connecting? && !IsSynthetic(msg) && Whole(s, c, count, log, requests, inHand + MsgIds(msg))
    ensures Whole(s.(pending := s.pending + [msg]), c, count, log, requests, inHand)
  {
    QueueBalance(s, log, requests, inHand, msg);
    hide Balanced, AnsweredIds;
  }

  /** The kind of bookkeeping that a forwarded request needs. */
  function OngoingOf(msg: Request): Ongoing
    requires msg.id.Some?
  {
    match msg.call
    case Follow => FollowMsg(msg)
    case Unfollow(_) => Operation(msg.id.value)
    case ChainHeadOperation => Operation(msg.id.value)
    case _ => OtherMsg(msg)
  }

  lemma Forwarded(s: State, c: Connection, count: nat, log: seq<Incoming>, requests: multiset<Id>,
                  inHand: multiset<Id>, msg: Request, heads: set<Payload>)
    requires s.Connected? && !IsSynthetic(msg) && Whole(s, c, count, log, requests, inHand + MsgIds(msg))
    ensures msg.id.Some? ==> msg.id.value !in s.onGoing
    ensures Whole(s.(activeChainHeads := heads,
                     onGoing := if msg.id.Some? then s.onGoing[msg.id.value := OngoingOf(msg)] else s.onGoing),
                  c.(sent := c.sent + [Forward(msg)]), count, log, requests, inHand)
  {
    var tracked := s.(onGoing := if msg.id.Some? then s.onGoing[msg.id.value := OngoingOf(msg)] else s.onGoing);
    if msg.id.Some? {
      TrackBalance(s, log, requests, inHand, msg.id.value, OngoingOf(msg));
    }
    SameBalance(tracked, tracked.(activeChainHeads := heads), log, requests, inHand);
    hide Balanced, AnsweredIds;
    ForwardStep(s, c, count, AnsweredIds(log), msg);
    OtherStep(s, tracked.(activeChainHeads := heads), c.(sent := c.sent + [Forward(msg)]), count, count,
              AnsweredIds(log), AnsweredIds(log));
  }

  /** An answer from upstream to a tracked request. */
  lemma Relayed(s: State, c: Connection, count: nat, log: seq<Incoming>, requests: multiset<Id>, inHand: multiset<Id>,
                msg: Incoming, heads: set<Payload>)
    requires s.Connected? && msg.Response? && msg.id in s.onGoing && Whole(s, c, count, log, requests, inHand)
    ensures Whole(s.(activeChainHeads := heads, onGoing := s.onGoing - {msg.id}), c, count, log + [msg], requests,
                  inHand)
  {
    var s' := s.(onGoing := s.onGoing - {msg.id});
    UntrackBalance(s, log, requests, inHand, msg.id);
    hide AnsweredIds;
    OtherStep(s, s'.(activeChainHeads := heads), c, count, count, AnsweredIds(log), AnsweredIds(log));
    SameBalance(s', s'.(activeChainHeads := heads), log, requests, inHand + multiset{msg.id});
    hide Balanced, BroadcastsOk;
    Delivered(s'.(activeChainHeads := heads), c, count, log, requests, inHand, msg);
  }

  lemma HeadsOnly(s: State, c: Connection, count: nat, log: seq<Incoming>, requests: multiset<Id>,
                  inHand: multiset<Id>, heads: set<Payload>)
    requires s.Connected? && Whole(s, c, count, log, requests, inHand)
    ensures Whole(s.(activeChainHeads := heads), c, count, log, requests, inHand)
  {
    SameBalance(s, s.(activeChainHeads := heads), log, requests, inHand);
    hide Balanced, AnsweredIds;
    OtherStep(s, s.(activeChainHeads := heads), c, count, count, AnsweredIds(log), AnsweredIds(log));
  }

  /** An answer from upstream to a broadcast in flight. */
  lemma Landed(s: State, c: Connection, count: nat, log: seq<Incoming>, requests: multiset<Id>, inHand: multiset<Id>,
               id: Id, reply: Reply)
    requires s.Connected? && id in s.pendingBroadcasts && Whole(s, c, count, log, requests, inHand)
    ensures var syn := s.pendingBroadcasts[id];
            var good := reply.Result? && IsToken(reply.value);
            var s1 := s.(pendingBroadcasts := s.pendingBroadcasts - {id});
            var c1 := c.(received := if good then c.received + {reply.value} else c.received,
                         failed := if good then c.failed else c.failed + {syn});
            if syn in s.activeBroadcasts && reply.Result? then
              Whole(s1.(activeBroadcasts :=
                        s1.activeBroadcasts[syn := s1.activeBroadcasts[syn].(upToken := Some(reply.value))]),
                    c1, count, log, requests, inHand)
            else if reply.Result? then
              Whole(s1, c1.(sent := c1.sent + [UpStop(InternalId(count), reply.value)]), count + 1, log, requests,
                    inHand)
            else
              Whole(s1, c1, count, log, requests, inHand)
  {
    hide AnsweredIds;
    var syn := s.pendingBroadcasts[id];
    assert TokenDrawn(syn, count);
    AnswerStep(s, c, count, AnsweredIds(log), id, reply);
    var s1 := s.(pendingBroadcasts := s.pendingBroadcasts - {id});
    SameBalance(s, s1, log, requests, inHand);
    if syn in s.activeBroadcasts && reply.Result? {
      var active := s1.activeBroadcasts[syn := s1.activeBroadcasts[syn].(upToken := Some(reply.value))];
      SameBalance(s, s1.(activeBroadcasts := active), log, requests, inHand);
    }
    hide Balanced, BroadcastsOk;
  }

  /** The connection is lost: what was tracked is in hand. */
  lemma Halted(s: State, c: Connection, count: nat, log: seq<Incoming>, requests: multiset<Id>)
    requires s.Connected? && Whole(s, c, count, log, requests, multiset{})
    ensures Whole(Connecting([], Idle(s.activeBroadcasts)), c, count, log, requests, multiset(s.onGoing.Keys))
  {
    hide AnsweredIds;
    HaltStep(s, c, count, AnsweredIds(log));
    hide BroadcastsOk;
    assert AnsweredIds(log) + multiset(s.onGoing.Keys) + multiset{} == requests;
    assert AnsweredIds(log) + QueuedIds([]) + multiset(s.onGoing.Keys) == requests;
  }

  /** A new connection: what was queued is in hand. */
  lemma Reconnecting(s: State, c: Connection, count: nat, log: seq<Incoming>, requests: multiset<Id>)
    requires s.Connecting? && Whole(s, c, count, log, requests, multiset{})
    ensures var s' := Connected({}, s.idleBroadcasts, map[], map[]);
            && Balanced(s', log, requests, QueuedIds(s.pending))
            && Resending(s', Connection([], {}, {}), count, AnsweredIds(log), {})
  {
    hide AnsweredIds, QueuedIds;
    assert AnsweredIds(log) + multiset{} + QueuedIds(s.pending) == requests;
  }

  lemma WholeWhenResent(s: State, c: Connection, count: nat, log: seq<Incoming>, requests: multiset<Id>,
                        inHand: multiset<Id>)
    requires s.Connected? && Balanced(s, log, requests, inHand)
    requires Resending(s, c, count, AnsweredIds(log), s.activeBroadcasts.Keys)
    ensures Whole(s, c, count, log, requests, inHand)
  {
    hide Balanced, AnsweredIds;
    ResentAll(s, c, count, AnsweredIds(log));
  }

  /** After `disconnect` requests are dropped. */
  lemma DroppedAfterDone(c: Connection, count: nat, log: seq<Incoming>, requests: multiset<Id>, inHand: multiset<Id>,
                         dropped: multiset<Id>)
    requires Whole(Done, c, count, log, requests, inHand + dropped)
    ensures Whole(Done, c, count, log, requests, inHand)
  {
    hide AnsweredIds;
  }

  /** The consumer leaves. */
  lemma Left(s: State, c: Connection, count: nat, log: seq<Incoming>, requests: multiset<Id>)
    requires Whole(s, c, count, log, requests, multiset{})
    ensures Whole(Done, c, count, log, requests, multiset{})
  {
    hide AnsweredIds, Waiting;
  }

  /** A new request is in hand. */
  lemma Asked(s: State, c: Connection, count: nat, log: seq<Incoming>, requests: multiset<Id>, msg: Request)
    requires Whole(s, c, count, log, requests, multiset{}) && (msg.id.Some? ==> msg.id.value !in requests)
    ensures Whole(s, c, count, log, requests + MsgIds(msg), multiset{} + MsgIds(msg))
  {
    hide AnsweredIds, Waiting, BroadcastsOk;
    assert forall id :: (requests + MsgIds(msg))[id] == requests[id] + MsgIds(msg)[id];
  }

  /**
   * Between steps, every request not yet answered is queued once or tracked, never both, and every
   * answered one is neither; no request is answered twice.
   */
  lemma ExactlyOnePlace(s: State, c: Connection, count: nat, log: seq<Incoming>, requests: multiset<Id>, id: Id)
    requires Whole(s, c, count, log, requests, multiset{})
    ensures AnsweredIds(log)[id] <= 1
    ensures s.Connected? && id in requests ==> (id in AnsweredIds(log) <==> id !in s.onGoing)
    ensures s.Connecting? && id in requests ==> AnsweredIds(log)[id] + QueuedIds(s.pending)[id] == 1
    ensures !s.Done? && id !in requests ==> id !in AnsweredIds(log) && id !in Waiting(s)
  {
    hide AnsweredIds, QueuedIds;
    if !s.Done? {
      assert (AnsweredIds(log) + Waiting(s) + multiset{})[id] == requests[id];
    } else {
      assert (AnsweredIds(log) + multiset{})[id] <= requests[id];
    }
  }
}
