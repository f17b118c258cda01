/** Eagerly subscribing to inner streams while keeping their outputs in order. */
module ConcatEager {
  import opened Basics

  /** What an inner stream does while it is being subscribed to: some values, and perhaps its end. */
  datatype Inner<O> = Inner(atOnce: seq<O>, endsAtOnce: bool)

  /** The outputs of the first `n` inner streams, one stream after the other. */
  function InOrder<O>(emitted: seq<seq<O>>, n: nat): seq<O>
    requires n <= |emitted|
  {
    if n == 0 then [] else InOrder(emitted, n - 1) + emitted[n - 1]
  }

  lemma {:induction false} InOrderSame<O>(a: seq<seq<O>>, b: seq<seq<O>>, n: nat)
    requires n <= |a| && n <= |b| && a[..n] == b[..n]
    ensures InOrder(a, n) == InOrder(b, n)
  {
    if n > 0 {
      assert a[..n][..n - 1] == a[..n - 1] && b[..n][..n - 1] == b[..n - 1];
      assert a[n - 1] == a[..n][n - 1] && b[n - 1] == b[..n][n - 1];
      InOrderSame(a, b, n - 1);
    }
  }

  lemma {:induction false} InOrderPrefix<O>(emitted: seq<seq<O>>, m: nat, n: nat)
    requires m <= n <= |emitted|
    ensures InOrder(emitted, m) <= InOrder(emitted, n)
  {
    if m < n {
      InOrderPrefix(emitted, m, n - 1);
    }
  }

  lemma InOrderNext<O>(emitted: seq<seq<O>>, n: nat)
    requires n < |emitted|
    ensures InOrder(emitted, n + 1) == InOrder(emitted, n) + emitted[n]
  {
  }

  // ------------------------------------------------------------ which streams run

  /** The inner streams asked for, what each one subscribed to has emitted, and which of these go on. */
  datatype Streams<O> = Streams(inners: seq<Inner<O>>, emitted: seq<seq<O>>, active: set<nat>)

  /** Subscribes to the waiting streams, in order, while fewer than `concurrent` are active. */
  function Fill<O>(concurrent: nat, s: Streams<O>): (r: Streams<O>)
    decreases |s.inners| - |s.emitted|
  {
    var idx := |s.emitted|;
    if |s.active| < concurrent && idx < |s.inners| then
      Fill(concurrent, Streams(s.inners, s.emitted + [s.inners[idx].atOnce],
                               if s.inners[idx].endsAtOnce then s.active else s.active + {idx}))
    else s
  }

  datatype Event<O> = FromSource(inner: Inner<O>) | FromInner(idx: nat, x: O) | InnerEnds(idx: nat)

  /** Only a stream that was subscribed to and has not ended does something. */
  predicate Enabled<O>(s: Streams<O>, e: Event<O>) {
    e.FromSource? || (e.idx in s.active && e.idx < |s.emitted|)
  }

  function Next<O>(concurrent: nat, s: Streams<O>, e: Event<O>): Streams<O>
    requires Enabled(s, e)
  {
    match e
    case FromSource(inner) => Fill(concurrent, s.(inners := s.inners + [inner]))
    case FromInner(idx, x) => s.(emitted := s.emitted[idx := s.emitted[idx] + [x]])
    case InnerEnds(idx) => Fill(concurrent, s.(active := s.active - {idx}))
  }

  /** What is left of a run whose events could all happen. */
  function After<O>(concurrent: nat, events: seq<Event<O>>): Option<Streams<O>> {
    if events == [] then Some(Streams([], [], {}))
    else
      var n := |events| - 1;
      match After(concurrent, events[..n])
      case None => None
      case Some(s) => if Enabled(s, events[n]) then Some(Next(concurrent, s, events[n])) else None
  }

  /** The values that come from stream `i` after the subscription. */
  function ValuesOf<O>(events: seq<Event<O>>, i: nat): seq<O> {
    if events == [] then []
    else
      var n := |events| - 1;
      ValuesOf(events[..n], i) + (if events[n].FromInner? && events[n].idx == i then [events[n].x] else [])
  }

  /** What each stream has emitted is what the run says. */
  ghost predicate Told<O>(s: Streams<O>, events: seq<Event<O>>) {
    && |s.emitted| <= |s.inners|
    && (forall i :: i in s.active ==> i < |s.emitted|)
    && (forall i :: 0 <= i < |s.emitted| ==> s.emitted[i] == s.inners[i].atOnce + ValuesOf(events, i))
    && (forall i: nat :: |s.emitted| <= i ==> ValuesOf(events, i) == [])
  }

  lemma {:induction false} FillTold<O>(concurrent: nat, s: Streams<O>, events: seq<Event<O>>)
    requires Told(s, events)
    ensures Told(Fill(concurrent, s), events)
    decreases |s.inners| - |s.emitted|
  {
    var idx := |s.emitted|;
    hide ValuesOf;
    if |s.active| < concurrent && idx < |s.inners| {
      var atOnce := s.inners[idx].atOnce;
      assert atOnce + [] == atOnce;
      FillTold(concurrent, Streams(s.inners, s.emitted + [atOnce],
                                   if s.inners[idx].endsAtOnce then s.active else s.active + {idx}), events);
    }
  }

  /** What stream `i` emits is what it has at once, and then its values in the order of the run. */
  lemma {:induction false} EmittedIs<O>(concurrent: nat, events: seq<Event<O>>)
    requires After(concurrent, events).Some?
    ensures Told(After(concurrent, events).value, events)
  {
    if events != [] {
      var n := |events| - 1;
      EmittedIs(concurrent, events[..n]);
      NextTold(concurrent, After(concurrent, events[..n]).value, events);
    }
  }

  lemma NextTold<O>(concurrent: nat, s: Streams<O>, events: seq<Event<O>>)
    requires events != [] && Told(s, events[..|events| - 1]) && Enabled(s, events[|events| - 1])
    ensures Told(Next(concurrent, s, events[|events| - 1]), events)
  {
    var n := |events| - 1;
    forall i: nat ensures ValuesOf(events, i) == ValuesOf(events[..n], i)
                            + (if events[n].FromInner? && events[n].idx == i then [events[n].x] else [])
    {
    }
    hide ValuesOf;
    match events[n]
    case FromSource(inner) => FillTold(concurrent, s.(inners := s.inners + [inner]), events);
    case FromInner(idx, x) =>
    case InnerEnds(idx) => FillTold(concurrent, s.(active := s.active - {idx}), events);
  }

  class ConcatMapEager<O(0)> {
    const concurrent: nat
    var queues: map<nat, Inner<O>>
    var innerSubscriptions: set<nat>
    var results: map<nat, seq<O>>
    var mapperIdx: nat
    var subscriptionIdx: nat
    var observerIdx: nat
    var output: seq<O>                 // what the observer got
    ghost var emitted: seq<seq<O>>     // what every subscribed inner stream emitted so far
    ghost var inners: seq<Inner<O>>    // the streams asked for

    constructor (concurrent: nat)
      ensures Ok() && this.concurrent == concurrent && output == [] && Now() == Streams([], [], {})
    {
      this.concurrent := concurrent;
      queues, innerSubscriptions, results := map[], {}, map[];
      mapperIdx, subscriptionIdx, observerIdx := 0, 0, 0;
      output, emitted, inners := [], [], [];
    }

    /** The streams as they are now. */
    ghost function Now(): Streams<O>
      reads this
    {
      Streams(inners, emitted, innerSubscriptions)
    }

    /** The stream being observed, and those before it, are delivered; those after it are buffered. */
    ghost predicate Delivered()
      reads this
    {
      && |emitted| == subscriptionIdx && observerIdx <= subscriptionIdx
      && output == InOrder(emitted, if observerIdx < subscriptionIdx then observerIdx + 1 else observerIdx)
    }

    ghost predicate Buffered()
      reads this
    {
      && |emitted| == subscriptionIdx
      && (forall i: nat :: i in results <==> observerIdx < i < subscriptionIdx)
      && (forall i: nat :: i in results && i < |emitted| ==> results[i] == emitted[i])
    }

    /** The active streams are subscribed and not before the observed one. */
    ghost predicate Active()
      reads this
    {
      && (forall i: nat :: i in innerSubscriptions ==> observerIdx <= i < subscriptionIdx)
      && (forall i: nat :: i in queues <==> subscriptionIdx <= i < mapperIdx)
      && subscriptionIdx <= mapperIdx == |inners|
      && (forall i: nat :: i in queues && i < |inners| ==> queues[i] == inners[i])
    }

    /** Between events. */
    ghost predicate Ok()
      reads this
    {
      && Delivered() && Buffered() && Active()
      && (observerIdx < subscriptionIdx ==> observerIdx in innerSubscriptions)
      && |innerSubscriptions| <= concurrent
      && (subscriptionIdx < mapperIdx ==> |innerSubscriptions| == concurrent)
    }

    /** The source has another value, and `inner` is what it is mapped to. */
    method SourceNext(inner: Inner<O>)
      requires Ok()
      modifies this
      ensures Ok() && old(output) <= output
      ensures Now() == Fill(concurrent, old(Now()).(inners := old(inners) + [inner]))
    {
      hide InOrder;
      inners := inners + [inner];
      queues := queues[mapperIdx := inner];
      mapperIdx := mapperIdx + 1;
      if |innerSubscriptions| < concurrent {
        NextSubscription();
      }
    }

    /** An active inner stream emits. */
    method InnerNext(idx: nat, x: O)
      requires Ok() && idx in innerSubscriptions
      modifies this`output, this`results, this`emitted
      ensures Ok() && emitted == old(emitted)[idx := old(emitted)[idx] + [x]]
      ensures output == if idx == observerIdx then old(output) + [x] else old(output)
      ensures Now() == old(Now()).(emitted := emitted)
    {
      Emit(idx, x);
    }

    /** An active inner stream ends. */
    method InnerComplete(idx: nat)
      requires Ok() && idx in innerSubscriptions
      modifies this
      ensures Ok() && old(output) <= output
      ensures Now() == Fill(concurrent, old(Now()).(active := old(innerSubscriptions) - {idx}))
    {
      innerSubscriptions := innerSubscriptions - {idx};
      Completed(idx);
    }

    /** A slot is free, and at most one stream waits unless it is the only one. */
    ghost predicate Free()
      reads this
    {
      |innerSubscriptions| < concurrent && (mapperIdx > subscriptionIdx + 1 ==> |innerSubscriptions| + 1 == concurrent)
    }

    /** A value goes to the observer, or to the buffer of its stream. */
    method Emit(idx: nat, x: O)
      requires Delivered() && Buffered() && observerIdx <= idx < subscriptionIdx
      modifies this`output, this`results, this`emitted
      ensures Delivered() && Buffered()
      ensures emitted == old(emitted)[idx := old(emitted)[idx] + [x]]
      ensures output == if idx == observerIdx then old(output) + [x] else old(output)
    {
      ghost var n := observerIdx;
      if observerIdx == idx {
        output := output + [x];
        emitted := emitted[idx := emitted[idx] + [x]];
        InOrderSame(emitted, old(emitted), n);
      } else {
        results := results[idx := results[idx] + [x]];
        emitted := emitted[idx := emitted[idx] + [x]];
        assert emitted[..n + 1] == old(emitted)[..n + 1];
        InOrderSame(emitted, old(emitted), n + 1);
      }
    }

    method EmitAll(idx: nat, xs: seq<O>)
      requires Delivered() && Buffered() && observerIdx <= idx && idx + 1 == subscriptionIdx && emitted[idx] == []
      modifies this`output, this`results, this`emitted
      ensures Delivered() && Buffered() && old(output) <= output
      ensures emitted == old(emitted)[idx := xs]
    {
      for k := 0 to |xs|
        invariant Delivered() && Buffered() && old(output) <= output
        invariant emitted == old(emitted)[idx := xs[..k]]
      {
        Emit(idx, xs[k]);
        assert xs[..k] + [xs[k]] == xs[..k + 1];
      }
      assert xs[..|xs|] == xs;
    }

    /** Subscribes to the next waiting stream, if there is one. */
    method NextSubscription()
      requires Delivered() && Buffered() && Active() && Free()
      requires observerIdx < subscriptionIdx ==> observerIdx in innerSubscriptions
      modifies this
      ensures Ok() && old(output) <= output && Now() == Fill(concurrent, old(Now()))
      decreases mapperIdx - subscriptionIdx, 0
    {
      hide InOrder;
      if subscriptionIdx !in queues {
        return;
      }
      var idx := subscriptionIdx;
      var endsAtOnce := queues[idx].endsAtOnce;
      Subscribe(idx);
      if endsAtOnce {
        Completed(idx);
      } else {
        Activate(idx);
      }
    }

    /** The stream goes on after the subscription. */
    method Activate(idx: nat)
      requires Delivered() && Buffered() && Active() && idx + 1 == subscriptionIdx && idx !in innerSubscriptions
      requires |innerSubscriptions| < concurrent
               && (subscriptionIdx < mapperIdx ==> |innerSubscriptions| + 1 == concurrent)
      requires observerIdx <= idx && (observerIdx < idx ==> observerIdx in innerSubscriptions)
      modifies this`innerSubscriptions
      ensures Ok() && innerSubscriptions == old(innerSubscriptions) + {idx}
      ensures Fill(concurrent, Now()) == Now()
    {
      hide InOrder;
      innerSubscriptions := innerSubscriptions + {idx};
    }

    /** Subscribes to a stream, which emits what it has at once. */
    method Subscribe(idx: nat)
      requires Delivered() && Buffered() && Active() && idx == subscriptionIdx && idx in queues
      modifies this`queues, this`subscriptionIdx, this`results, this`emitted, this`output
      ensures Delivered() && Buffered() && Active() && subscriptionIdx == idx + 1 && old(output) <= output
      ensures emitted == old(emitted) + [old(queues)[idx].atOnce] && queues == old(queues) - {idx}
    {
      var inner := queues[idx];
      Open(idx);
      EmitAll(idx, inner.atOnce);
    }

    method Open(idx: nat)
      requires Delivered() && Buffered() && Active() && idx == subscriptionIdx && idx in queues
      modifies this`queues, this`subscriptionIdx, this`results, this`emitted
      ensures Delivered() && Buffered() && Active() && subscriptionIdx == idx + 1
      ensures emitted == old(emitted) + [[]] && queues == old(queues) - {idx}
    {
      hide InOrder;
      subscriptionIdx := subscriptionIdx + 1;
      queues := queues - {idx};
      if observerIdx != idx {
        results := results[idx := []];
      }
      emitted := emitted + [[]];
      InOrderSame(emitted, old(emitted), if observerIdx < idx then observerIdx + 1 else observerIdx);
      if observerIdx == idx {
        InOrderNext(emitted, idx);
      }
    }

    /** A stream has ended and is no longer active. */
    method Completed(idx: nat)
      requires Delivered() && Buffered() && Active() && Free()
      requires observerIdx <= idx < subscriptionIdx && idx !in innerSubscriptions
      requires idx == observerIdx || observerIdx in innerSubscriptions
      modifies this
      ensures Ok() && old(output) <= output && Now() == Fill(concurrent, old(Now()))
      decreases mapperIdx - subscriptionIdx, 1
    {
      if idx == observerIdx {
        Flush();
      }
      NextSubscription();
    }

    /** The observed stream has ended: what was buffered behind it comes out. */
    method Flush()
      requires Delivered() && Buffered() && Active()
      requires observerIdx < subscriptionIdx && observerIdx !in innerSubscriptions
      modifies this`observerIdx, this`output, this`results
      ensures Delivered() && Buffered() && Active() && old(output) <= output
      ensures observerIdx < subscriptionIdx ==> observerIdx in innerSubscriptions
    {
      hide InOrder;
      observerIdx := observerIdx + 1;
      while observerIdx in results
        invariant observerIdx <= subscriptionIdx == |emitted|
        invariant forall i: nat :: i in innerSubscriptions ==> observerIdx <= i < subscriptionIdx
        invariant forall i: nat :: i in results <==> observerIdx <= i < subscriptionIdx
        invariant forall i: nat :: i in results && i < |emitted| ==> results[i] == emitted[i]
        invariant output == InOrder(emitted, observerIdx) && old(output) <= output
        decreases subscriptionIdx - observerIdx
      {
        output := output + results[observerIdx];
        results := results - {observerIdx};
        InOrderNext(emitted, observerIdx);
        if observerIdx in innerSubscriptions {
          break;
        }
        observerIdx := observerIdx + 1;
      }
    }

    /** The output is the beginning of all outputs in order. */
    lemma OutputIsPrefix()
      requires Ok()
      ensures output <= InOrder(emitted, |emitted|)
    {
      InOrderPrefix(emitted, if observerIdx < subscriptionIdx then observerIdx + 1 else observerIdx, |emitted|);
    }

    /** When nothing is active any more, everything was delivered. */
    lemma EverythingDelivered()
      requires Ok() && innerSubscriptions == {} && concurrent > 0
      ensures |emitted| == mapperIdx && output == InOrder(emitted, mapperIdx) && results == map[]
    {
    }
  }

  /**
   * Any run of the source and the inner streams: whatever their order, the output is the beginning of
   * all outputs in order, and all of them when no stream is active any more.
   */
  method Run<O(0)>(concurrent: nat, events: seq<Event<O>>) returns (c: ConcatMapEager<O>)
    requires After(concurrent, events).Some?
    ensures c.Ok() && c.concurrent == concurrent && c.Now() == After(concurrent, events).value
    ensures c.output <= InOrder(c.emitted, |c.emitted|)
    ensures c.innerSubscriptions == {} && concurrent > 0 ==>
            |c.emitted| == |c.inners| && c.output == InOrder(c.emitted, |c.emitted|)
    ensures Told(c.Now(), events)
  {
    hide InOrder, Fill, After, Told;
    c := new ConcatMapEager(concurrent);
    NothingYet<O>(concurrent);
    assert events[..0] == [];
    for k := 0 to |events|
      invariant fresh(c) && c.Ok() && c.concurrent == concurrent && After(concurrent, events[..k]) == Some(c.Now())
    {
      Stepwise(concurrent, events, k);
      match events[k]
      case FromSource(inner) => c.SourceNext(inner);
      case FromInner(idx, x) => c.InnerNext(idx, x);
      case InnerEnds(idx) => c.InnerComplete(idx);
    }
    assert events[..|events|] == events;
    EmittedIs(concurrent, events);
    c.OutputIsPrefix();
    if c.innerSubscriptions == {} && concurrent > 0 {
      c.EverythingDelivered();
    }
  }

  lemma NothingYet<O>(concurrent: nat)
    ensures After<O>(concurrent, []) == Some(Streams([], [], {}))
  {
  }

  /** A run that can happen can happen step by step. */
  lemma Stepwise<O>(concurrent: nat, events: seq<Event<O>>, k: nat)
    requires k < |events| && After(concurrent, events).Some?
    ensures After(concurrent, events[..k]).Some? && Enabled(After(concurrent, events[..k]).value, events[k])
    ensures After(concurrent, events[..k + 1])
            == Some(Next(concurrent, After(concurrent, events[..k]).value, events[k]))
  {
    Possible(concurrent, events, k + 1);
    assert events[..k + 1][..k] == events[..k];
  }

  lemma {:induction false} Possible<O>(concurrent: nat, events: seq<Event<O>>, k: nat)
    requires k <= |events| && After(concurrent, events).Some?
    ensures After(concurrent, events[..k]).Some?
    decreases |events|
  {
    hide Next;
    if k < |events| {
      var n := |events| - 1;
      assert events[..n][..k] == events[..k];
      Possible(concurrent, events[..n], k);
    } else {
      assert events[..k] == events;
    }
  }
}
