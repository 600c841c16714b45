/**
 The response queue between the reader, the handlers and the generator of `ProcessCallerInput`
 (`src/byova/sdk_patch.py`): any number of producers, one consumer, `None` as end marker.
 */
module ResponseQueue {
  import opened Results
  import opened Text
  import opened CallerStream
  import opened StreamProperties

  type Response = string

  /**
   `queue` is what waits to be taken. For the specification the state also keeps everything ever
   put, in order, and what the generator has yielded.
   */
  datatype System = System(queue: seq<Option<Response>>, put: seq<Option<Response>>, yielded: seq<Response>, done: bool)

  datatype Move = Put(item: Option<Response>) | Get

  const EMPTY := System([], [], [], false)

  /** A producer puts an item, or the consumer takes the oldest one. */
  ghost predicate Next(s: System, s': System, move: Move) {
    match move
    case Put(item) => s' == s.(queue := s.queue + [item], put := s.put + [item])
    case Get =>
      && !s.done && s.queue != []
      && match s.queue[0]
         case None => s' == s.(queue := s.queue[1..], done := true)
         case Some(response) => s' == s.(queue := s.queue[1..], yielded := s.yielded + [response])
  }

  ghost predicate Behaviour(states: seq<System>, moves: seq<Move>) {
    && |states| == |moves| + 1
    && states[0] == EMPTY
    && forall i | 0 <= i < |moves| :: Next(states[i], states[i + 1], moves[i])
  }

  /** The responses before the first end marker, in order. */
  function BeforeEnd(items: seq<Option<Response>>): seq<Response> {
    if items == [] || items[0].None? then [] else [items[0].value] + BeforeEnd(items[1..])
  }

  /** How many items precede the first end marker. */
  function EndPosition(items: seq<Option<Response>>): (n: nat)
    ensures n <= |items| && (n < |items| <==> None in items)
    ensures forall i | 0 <= i < n :: items[i].Some?
    ensures n < |items| ==> items[n].None?
  {
    if items == [] || items[0].None? then 0 else 1 + EndPosition(items[1..])
  }

  /** How often the consumer has taken an item. */
  function Gets(moves: seq<Move>): nat {
    if moves == [] then 0 else Gets(moves[..|moves| - 1]) + if moves[|moves| - 1].Get? then 1 else 0
  }

  /* ---------- The invariant ---------- */

  /** The items taken so far: what was put, less what still waits. */
  function Taken(s: System): seq<Option<Response>>
    requires |s.queue| <= |s.put|
  {
    s.put[..|s.put| - |s.queue|]
  }

  /** Items wait in the order they were put; the consumer stops with the first marker it takes. */
  ghost predicate Inv(s: System) {
    && |s.queue| <= |s.put|
    && s.queue == s.put[|s.put| - |s.queue|..]
    && s.yielded == BeforeEnd(Taken(s))
    && |Taken(s)| == EndPosition(Taken(s)) + (if s.done then 1 else 0)
  }

  lemma {:induction false} BeforeEndGrows(items: seq<Option<Response>>, item: Option<Response>)
    ensures None in items ==> BeforeEnd(items + [item]) == BeforeEnd(items)
    ensures None !in items ==> BeforeEnd(items + [item]) == BeforeEnd(items) + if item.Some? then [item.value] else []
    ensures EndPosition(items + [item]) == EndPosition(items) + if None !in items && item.Some? then 1 else 0
  {
    hide BeforeEnd, EndPosition;
    if items == [] {
      assert [] + [item] == [item];
      OfOneItem(item);
    } else {
      var (first, rest) := (items[0], items[1..]);
      assert items == [first] + rest;
      Regroup([first], rest, [item]);
      WithOneBefore(first, rest);
      WithOneBefore(first, rest + [item]);
      BeforeEndGrows(rest, item);
      if first.Some? {
        Regroup([first.value], BeforeEnd(rest), if item.Some? then [item.value] else []);
      }
    }
  }

  lemma OfOneItem(item: Option<Response>)
    ensures BeforeEnd([]) == [] && EndPosition([]) == 0
    ensures BeforeEnd([item]) == if item.Some? then [item.value] else []
    ensures EndPosition([item]) == if item.Some? then 1 else 0
  {
    assert [item][1..] == [];
  }

  lemma WithOneBefore(first: Option<Response>, rest: seq<Option<Response>>)
    ensures BeforeEnd([first] + rest) == if first.None? then [] else [first.value] + BeforeEnd(rest)
    ensures EndPosition([first] + rest) == if first.None? then 0 else 1 + EndPosition(rest)
    ensures None in [first] + rest <==> first.None? || None in rest
  {
    assert ([first] + rest)[1..] == rest;
  }

  lemma EveryMoveKeepsInv(s: System, s': System, move: Move)
    requires Inv(s) && Next(s, s', move)
    ensures Inv(s')
    ensures |Taken(s')| == |Taken(s)| + if move.Get? then 1 else 0
  {
    hide BeforeEnd, EndPosition;
    if move.Put? {
      assert Taken(s') == Taken(s);
    } else {
      TakingKeepsInv(s, s');
    }
  }

  lemma TakingKeepsInv(s: System, s': System)
    requires Inv(s) && Next(s, s', Get)
    ensures Inv(s') && |Taken(s')| == |Taken(s)| + 1
  {
    hide BeforeEnd, EndPosition;
    var (taken, item) := (Taken(s), s.queue[0]);
    assert item == s.put[|taken|];
    assert Taken(s') == taken + [item];
    NoMarkerBefore(taken);
    BeforeEndGrows(taken, item);
  }

  lemma NoMarkerBefore(items: seq<Option<Response>>)
    ensures |items| == EndPosition(items) <==> None !in items
  {
    hide BeforeEnd;
  }

  lemma InvAtStart()
    ensures Inv(EMPTY) && Taken(EMPTY) == []
  {
  }

  lemma {:induction false} InvHoldsThroughout(states: seq<System>, moves: seq<Move>, n: nat)
    requires Behaviour(states, moves) && n < |states|
    ensures Inv(states[n]) && |Taken(states[n])| == Gets(moves[..n])
  {
    hide Inv, BeforeEnd, EndPosition;
    if n == 0 {
      InvAtStart();
      assert moves[..0] == [];
    } else {
      InvHoldsThroughout(states, moves, n - 1);
      EveryMoveKeepsInv(states[n - 1], states[n], moves[n - 1]);
      assert moves[..n][..n - 1] == moves[..n - 1];
    }
  }

  /* ---------- First in, first out, up to the marker ---------- */

  lemma {:induction false} BeforeEndOfPrefix(items: seq<Option<Response>>, n: nat)
    requires n <= |items|
    ensures BeforeEnd(items[..n]) <= BeforeEnd(items)
    ensures None in items[..n] ==> BeforeEnd(items[..n]) == BeforeEnd(items)
    decreases |items| - n
  {
    if n < |items| {
      BeforeEndOfPrefix(items, n + 1);
      assert items[..n + 1] == items[..n] + [items[n]];
      BeforeEndGrows(items[..n], items[n]);
    } else {
      assert items[..n] == items;
    }
  }

  /**
   In every interleaving the generator has yielded, in order and without loss or duplication, a
   prefix of the responses put before the first end marker; once it is done, exactly those.
   */
  lemma YieldedInOrder(states: seq<System>, moves: seq<Move>, n: nat)
    requires Behaviour(states, moves) && n < |states|
    ensures var s := states[n];
            && s.yielded <= BeforeEnd(s.put)
            && (s.done ==> s.yielded == BeforeEnd(s.put) && None in s.put)
  {
    InvHoldsThroughout(states, moves, n);
    var s := states[n];
    var taken := Taken(s);
    BeforeEndOfPrefix(s.put, |taken|);
    assert s.done ==> None in taken;
  }

  /**
   Once a marker has been put, the generator is done as soon as it has taken one item more than
   precede the marker, and until then there is always an item for it to take: it cannot run for
   ever, whatever producers add. If no marker is ever put it is never done.
   */
  lemma MarkerEndsTheGenerator(states: seq<System>, moves: seq<Move>, n: nat)
    requires Behaviour(states, moves) && n < |states|
    ensures var s := states[n];
            && (None in s.put && Gets(moves[..n]) > EndPosition(s.put) ==> s.done)
            && (None in s.put && !s.done ==> s.queue != [])
            && (None !in s.put ==> !s.done)
  {
    InvHoldsThroughout(states, moves, n);
    var s := states[n];
    var taken := Taken(s);
    assert forall i | 0 <= i < |taken| :: taken[i] == s.put[i];
    assert !s.done ==> forall i | 0 <= i < |taken| :: taken[i].Some?;
    assert None in s.put && !s.done ==> |taken| <= EndPosition(s.put);
  }

  /* ---------- The reader, the handlers and the generator together ---------- */

  /**
   One stream: the queue, how many of its calls the reader has made, and whether a handler has
   closed the stream. The reader's `QueueEnd` call and a handler's `close_stream` put the marker.
   */
  datatype Stream = Stream(queue: System, made: nat, closed: bool)

  datatype StreamEvent = ReaderCall | Respond(response: Response) | CloseStream | Take | Pause

  const OPENED := Stream(EMPTY, 0, false)

  ghost predicate StreamNext(calls: seq<Call>, s: Stream, s': Stream, event: StreamEvent) {
    match event
    case ReaderCall =>
      && s.made < |calls| && s'.made == s.made + 1 && s'.closed == s.closed
      && if calls[s.made] == QueueEnd then Next(s.queue, s'.queue, Put(None)) else s'.queue == s.queue
    case Respond(response) => Next(s.queue, s'.queue, Put(Some(response))) && s' == s.(queue := s'.queue)
    case CloseStream => Next(s.queue, s'.queue, Put(None)) && s' == s.(queue := s'.queue, closed := true)
    case Take => Next(s.queue, s'.queue, Get) && s' == s.(queue := s'.queue)
    case Pause => s' == s
  }

  /** An infinite run; from some point on it may be all pauses. */
  ghost predicate Runs(calls: seq<Call>, states: nat -> Stream, events: nat -> StreamEvent) {
    && states(0) == OPENED
    && forall n: nat :: StreamNext(calls, states(n), states(n + 1), events(n))
  }

  /** The marker is there exactly if the reader or a handler has put it. */
  ghost predicate StreamInv(calls: seq<Call>, s: Stream) {
    && Inv(s.queue)
    && s.made <= |calls|
    && (None in s.queue.put <==> s.closed || QueueEnd in calls[..s.made])
  }

  /** How many items the generator has taken. */
  ghost function Takes(s: Stream): int {
    |s.queue.put| - |s.queue.queue|
  }

  lemma EveryEventKeepsInv(calls: seq<Call>, s: Stream, s': Stream, event: StreamEvent)
    requires StreamInv(calls, s) && StreamNext(calls, s, s', event)
    ensures StreamInv(calls, s')
    ensures Takes(s') == Takes(s) + if event.Take? then 1 else 0
    ensures s'.made == s.made + if event.ReaderCall? then 1 else 0
    ensures s'.closed <==> s.closed || event.CloseStream?
    ensures s.queue.done ==> s'.queue.done
    ensures None in s.queue.put ==> None in s'.queue.put && EndPosition(s'.queue.put) == EndPosition(s.queue.put)
  {
    hide Inv, EndPosition, BeforeEnd;
    match event
    case ReaderCall =>
      assert calls[..s'.made] == calls[..s.made] + [calls[s.made]];
      if calls[s.made] == QueueEnd {
        EveryMoveKeepsInv(s.queue, s'.queue, Put(None));
        BeforeEndGrows(s.queue.put, None);
      }
    case Respond(response) =>
      EveryMoveKeepsInv(s.queue, s'.queue, Put(Some(response)));
      BeforeEndGrows(s.queue.put, Some(response));
    case CloseStream =>
      EveryMoveKeepsInv(s.queue, s'.queue, Put(None));
      BeforeEndGrows(s.queue.put, None);
    case Take =>
      EveryMoveKeepsInv(s.queue, s'.queue, Get);
    case Pause =>
  }

  lemma {:induction false} StreamInvThroughout(
    calls: seq<Call>, states: nat -> Stream, events: nat -> StreamEvent, n: nat)
    requires Runs(calls, states, events)
    ensures StreamInv(calls, states(n))
    ensures states(n).closed <==> exists m: nat :: m < n && events(m) == CloseStream
  {
    hide Inv, StreamNext, StreamInv;
    if n == 0 {
      NothingPutYet(calls);
    } else {
      StreamInvThroughout(calls, states, events, n - 1);
      assert StreamNext(calls, states(n - 1), states((n - 1) + 1), events(n - 1));
      EveryEventKeepsInv(calls, states(n - 1), states(n), events(n - 1));
      if m: nat :| m < n && events(m) == CloseStream {
        assert m < n - 1 || m == n - 1;
      }
    }
  }

  lemma NothingPutYet(calls: seq<Call>)
    ensures StreamInv(calls, OPENED)
  {
    InvAtStart();
    assert calls[..0] == [];
  }

  /** What holds once the marker is put: the generator is done, or has an item to take, and few to go. */
  lemma MarkerLeavesFewItems(s: Stream)
    requires Inv(s.queue) && None in s.queue.put
    ensures Takes(s) <= EndPosition(s.queue.put) + 1
    ensures s.queue.done || (s.queue.queue != [] && Takes(s) <= EndPosition(s.queue.put))
  {
    var taken := Taken(s.queue);
    assert forall i | 0 <= i < |taken| :: taken[i] == s.queue.put[i];
    if |taken| > EndPosition(s.queue.put) {
      assert taken[EndPosition(s.queue.put)].None?;
    }
  }

  lemma DoneMeansMarker(s: System)
    requires Inv(s) && s.done
    ensures None in s.put
  {
    var taken := Taken(s);
    assert taken[EndPosition(taken)].None? && taken[EndPosition(taken)] in s.put;
  }

  /**
   The reader is never held up for ever while it has calls to make, and neither is the generator
   while it has items to take. Handlers may do as they please.
   */
  ghost predicate Fair(calls: seq<Call>, states: nat -> Stream, events: nat -> StreamEvent) {
    && (forall n: nat :: ReaderServedFrom(calls, states, events, n))
    && (forall n: nat :: GeneratorServedFrom(states, events, n))
  }

  ghost predicate ReaderServedFrom(calls: seq<Call>, states: nat -> Stream, events: nat -> StreamEvent, n: nat) {
    exists m: nat :: n <= m && ReaderServed(calls, states, events, m)
  }

  ghost predicate GeneratorServedFrom(states: nat -> Stream, events: nat -> StreamEvent, n: nat) {
    exists m: nat :: n <= m && GeneratorServed(states, events, m)
  }

  ghost predicate ReaderServed(calls: seq<Call>, states: nat -> Stream, events: nat -> StreamEvent, m: nat) {
    events(m) == ReaderCall || states(m).made >= |calls|
  }

  ghost predicate GeneratorServed(states: nat -> Stream, events: nat -> StreamEvent, m: nat) {
    events(m) == Take || states(m).queue.done || states(m).queue.queue == []
  }

  /** From instant n to a later one counts only grow, and a marker stays where it is. */
  lemma {:induction false} Later(calls: seq<Call>, states: nat -> Stream, events: nat -> StreamEvent, n: nat, m: nat)
    requires Runs(calls, states, events) && n <= m
    ensures StreamInv(calls, states(n)) && StreamInv(calls, states(m))
    ensures states(n).made <= states(m).made && Takes(states(n)) <= Takes(states(m))
    ensures states(n).queue.done ==> states(m).queue.done
    ensures None in states(n).queue.put ==>
              None in states(m).queue.put && EndPosition(states(m).queue.put) == EndPosition(states(n).queue.put)
    decreases m - n
  {
    hide StreamNext, StreamInv, Inv, Takes, EndPosition;
    StreamInvThroughout(calls, states, events, n);
    StreamInvThroughout(calls, states, events, m);
    if n >= m {
    } else {
      Later(calls, states, events, n, m - 1);
      assert StreamNext(calls, states(m - 1), states((m - 1) + 1), events(m - 1));
      EveryEventKeepsInv(calls, states(m - 1), states(m), events(m - 1));
    }
  }

  lemma {:induction false} ReaderFinishes(calls: seq<Call>, states: nat -> Stream, events: nat -> StreamEvent, n: nat)
    returns (m: nat)
    requires Runs(calls, states, events) && Fair(calls, states, events)
    ensures n <= m && states(m).made == |calls|
    decreases |calls| - states(n).made
  {
    hide StreamNext, Inv;
    Later(calls, states, events, n, n);
    if states(n).made == |calls| {
      m := n;
    } else {
      assert ReaderServedFrom(calls, states, events, n);
      var k: nat :| n <= k && ReaderServed(calls, states, events, k);
      Later(calls, states, events, n, k);
      if events(k) == ReaderCall {
        assert StreamNext(calls, states(k), states(k + 1), events(k));
        EveryEventKeepsInv(calls, states(k), states(k + 1), events(k));
        Later(calls, states, events, k, k + 1);
        m := ReaderFinishes(calls, states, events, k + 1);
      } else {
        m := k;
      }
    }
  }

  lemma FairToGenerator(calls: seq<Call>, states: nat -> Stream, events: nat -> StreamEvent, n: nat)
    requires Fair(calls, states, events)
    ensures GeneratorServedFrom(states, events, n)
  {
  }

  lemma {:induction false} GeneratorFinishes(
    calls: seq<Call>, states: nat -> Stream, events: nat -> StreamEvent, n: nat)
    returns (m: nat)
    requires Runs(calls, states, events) && Fair(calls, states, events) && None in states(n).queue.put
    ensures n <= m && states(m).queue.done
    decreases EndPosition(states(n).queue.put) + 1 - Takes(states(n))
  {
    hide StreamNext, Inv, Takes, EndPosition, Fair;
    Later(calls, states, events, n, n);
    MarkerLeavesFewItems(states(n));
    if states(n).queue.done {
      m := n;
    } else {
      FairToGenerator(calls, states, events, n);
      var k: nat :| n <= k && GeneratorServed(states, events, k);
      Later(calls, states, events, n, k);
      MarkerLeavesFewItems(states(k));
      if states(k).queue.done {
        m := k;
      } else {
        assert StreamNext(calls, states(k), states(k + 1), events(k));
        EveryEventKeepsInv(calls, states(k), states(k + 1), events(k));
        Later(calls, states, events, k, k + 1);
        MarkerLeavesFewItems(states(k + 1));
        m := GeneratorFinishes(calls, states, events, k + 1);
      }
    }
  }

  /**
   In every fair run of a stream the generator ends if and only if the reader's unregistration does
   not raise or some handler closes the stream; then it has yielded, in order, exactly the
   responses put before the first marker.
   */
  lemma GeneratorEndsIffMarked(env: Env, rs: seq<Request>, states: nat -> Stream, events: nat -> StreamEvent)
    requires var calls := ReaderTrace(env, rs); Runs(calls, states, events) && Fair(calls, states, events)
    ensures (exists n: nat :: states(n).queue.done) <==>
            !UnregisterRaised(env, ReaderTrace(env, rs)) || exists n: nat :: events(n) == CloseStream
    ensures forall n: nat | states(n).queue.done :: states(n).queue.yielded == BeforeEnd(states(n).queue.put)
  {
    hide ReaderTrace, StreamNext, Inv, Fair, UnregisterRaised, BeforeEnd, EndPosition;
    var calls := ReaderTrace(env, rs);
    EndMarkerUnlessUnregisterRaises(env, rs);
    if !UnregisterRaised(env, calls) {
      var n := ReaderFinishes(calls, states, events, 0);
      StreamInvThroughout(calls, states, events, n);
      assert calls[..states(n).made] == calls;
      var m := GeneratorFinishes(calls, states, events, n);
    }
    if n: nat :| events(n) == CloseStream {
      StreamInvThroughout(calls, states, events, n + 1);
      var m := GeneratorFinishes(calls, states, events, n + 1);
    }
    forall n: nat | states(n).queue.done
      ensures states(n).queue.yielded == BeforeEnd(states(n).queue.put)
      ensures !UnregisterRaised(env, calls) || exists m: nat :: events(m) == CloseStream
    {
      StreamInvThroughout(calls, states, events, n);
      DoneMeansMarker(states(n).queue);
      DoneYieldsAll(states(n).queue);
    }
  }

  /** One request, and an unregistration (the fourth call) that raises. */
  function RaisingEnv(): Env {
    Env(false, 0, map[], _ => 0, n => if n == 3 then Some(OtherError) else None)
  }

  const ONE_REQUEST := [Request("c", NoBody)]

  lemma CallsOfOneRequest()
    ensures ReaderTrace(RaisingEnv(), ONE_REQUEST) == [Pull(0), RegisterStream("c"), Pull(1), UnregisterStream("c")]
  {
    var (env, rs) := (RaisingEnv(), ONE_REQUEST);
    var (pull, body) := ([Pull(0)], [Pull(0), RegisterStream("c"), Pull(1)]);
    assert Conversation(rs, 1) == "c";
    assert EmittedUpTo(env, rs, 1) == [] + ([Pull(0)] + ([RegisterStream("c")] + []));
    assert BodyCalls(env, rs) == body;
    var k := ExecuteMakesAPrefix([], body, env.faults);
    assert [] + body[..3] == body;
    assert Execute([], body, env.faults) == (body, Pass);
    assert body[..2] == [Pull(0), RegisterStream("c")];
    assert LastRegistered(body[..2]) == LastRegistered(body) == "c";
    ExecuteOne(body, UnregisterStream("c"), env.faults);
  }

  /** A fair run whose generator waits for ever: the unregistration raises and no handler closes. */
  lemma GeneratorMayWaitForEver() returns (states: nat -> Stream, events: nat -> StreamEvent)
    ensures var calls := ReaderTrace(RaisingEnv(), ONE_REQUEST);
            && Runs(calls, states, events) && Fair(calls, states, events)
            && UnregisterRaised(RaisingEnv(), calls)
            && forall n: nat :: !states(n).queue.done
  {
    CallsOfOneRequest();
    hide ReaderTrace;
    var calls := ReaderTrace(RaisingEnv(), ONE_REQUEST);
    states := (n: nat) => Stream(EMPTY, if n < 4 then n else 4, false);
    events := (n: nat) => if n < 4 then ReaderCall else Pause;
    assert forall n: nat | n < 4 :: calls[n] != QueueEnd;
    forall n: nat ensures ReaderServedFrom(calls, states, events, n) && GeneratorServedFrom(states, events, n) {
      assert ReaderServed(calls, states, events, n) && GeneratorServed(states, events, n);
    }
  }

  lemma DoneYieldsAll(s: System)
    requires Inv(s) && s.done
    ensures s.yielded == BeforeEnd(s.put)
  {
    BeforeEndOfPrefix(s.put, |Taken(s)|);
    var taken := Taken(s);
    assert taken[EndPosition(taken)].None?;
  }

  /**
   At every instant at which the reader is over: if its unregistration has not raised, the generator
   is done or can take the next item, and has taken at most as many as precede the marker, and one.
   If it has raised and no handler has closed the stream, the generator is not done.
   */
  lemma FinishedReaderEndsTheGenerator(
    env: Env, rs: seq<Request>, states: nat -> Stream, events: nat -> StreamEvent, n: nat)
    requires Runs(ReaderTrace(env, rs), states, events) && states(n).made == |ReaderTrace(env, rs)|
    ensures var (s, raised) := (states(n).queue, UnregisterRaised(env, ReaderTrace(env, rs)));
            && (!raised ==> s.done || (s.queue != [] && Takes(states(n)) <= EndPosition(s.put)))
            && (raised && (forall m: nat | m < n :: events(m) != CloseStream) ==> !s.done)
  {
    hide ReaderTrace, StreamNext, Inv, UnregisterRaised, BeforeEnd, EndPosition;
    var calls, s := ReaderTrace(env, rs), states(n).queue;
    EndMarkerUnlessUnregisterRaises(env, rs);
    StreamInvThroughout(calls, states, events, n);
    assert calls[..states(n).made] == calls;
    if None in s.put {
      MarkerLeavesFewItems(states(n));
    }
    if s.done {
      DoneMeansMarker(s);
    }
  }
}
