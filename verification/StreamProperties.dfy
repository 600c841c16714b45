/** What the reader of one media stream guarantees, for every request list and every fault. */
module StreamProperties {
  import opened Results
  import opened Text
  import opened CallerStream

  /* ---------- Projections of a trace ---------- */

  /** The caller input handed to handlers, each with the turn it goes to. */
  function Inputs(calls: seq<Call>): seq<(Event, Turn)> {
    if calls == [] then []
    else
      Inputs(calls[..|calls| - 1]) +
      match calls[|calls| - 1]
      case Dispatch(AudioHeard(a, r), t) => [(AudioHeard(a, r), t)]
      case Dispatch(DigitsPressed(d), t) => [(DigitsPressed(d), t)]
      case _ => []
  }

  /** The first-audio flags passed to the turn manager. */
  function AudioFlags(calls: seq<Call>): seq<bool> {
    if calls == [] then []
    else
      AudioFlags(calls[..|calls| - 1]) +
      match calls[|calls| - 1]
      case OnInboundAudio(_, isFirst) => [isFirst]
      case _ => []
  }

  lemma {:induction false} ProjectionsInParts(a: seq<Call>, b: seq<Call>)
    ensures Inputs(a + b) == Inputs(a) + Inputs(b)
    ensures AudioFlags(a + b) == AudioFlags(a) + AudioFlags(b)
  {
    if b == [] {
      assert a + b == a;
    } else {
      var front := b[..|b| - 1];
      ProjectionsInParts(a, front);
      LastOfSum(a, b);
      Regroup(Inputs(a), Inputs(front), Inputs(b)[|Inputs(front)|..]);
      Regroup(AudioFlags(a), AudioFlags(front), AudioFlags(b)[|AudioFlags(front)|..]);
    }
  }

  lemma LastOfSum<T>(a: seq<T>, b: seq<T>)
    requires b != []
    ensures (a + b)[..|a + b| - 1] == a + b[..|b| - 1] && (a + b)[|a + b| - 1] == b[|b| - 1]
  {
  }

  lemma ProjectionsOfOne(call: Call)
    ensures Inputs([call]) == match call
                              case Dispatch(AudioHeard(a, r), t) => [(AudioHeard(a, r), t)]
                              case Dispatch(DigitsPressed(d), t) => [(DigitsPressed(d), t)]
                              case _ => []
    ensures AudioFlags([call]) == match call case OnInboundAudio(_, isFirst) => [isFirst] case _ => []
  {
    assert [call][..0] == [];
  }

  lemma ProjectionsOfTwo(x: Call, y: Call)
    ensures Inputs([x, y]) == Inputs([x]) + Inputs([y])
    ensures AudioFlags([x, y]) == AudioFlags([x]) + AudioFlags([y])
  {
    assert [x, y] == [x] + [y];
    ProjectionsInParts([x], [y]);
    ProjectionsOfOne(x);
    ProjectionsOfOne(y);
  }

  /** Calls that carry no caller input. */
  predicate Silent(call: Call) {
    !call.OnInboundAudio? && (call.Dispatch? ==> !call.event.AudioHeard? && !call.event.DigitsPressed?)
  }

  lemma {:induction false} SilentCalls(calls: seq<Call>)
    requires forall call | call in calls :: Silent(call)
    ensures Inputs(calls) == [] && AudioFlags(calls) == []
  {
    if calls == [] {
    } else {
      assert calls[|calls| - 1] in calls;
      SilentCalls(calls[..|calls| - 1]);
    }
  }

  /* ---------- Which inputs a stream should deliver ---------- */

  lemma {:induction false} TurnMeansStarted(rs: seq<Request>, n: nat)
    requires n <= |rs|
    ensures TurnAfter(rs, n).Some? <==> exists s :: 0 <= s < n && IsStart(rs, s)
  {
    if n == 0 {
    } else {
      TurnMeansStarted(rs, n - 1);
    }
  }

  lemma {:induction false} OnceKnownAlwaysKnown(rs: seq<Request>, i: nat, j: nat)
    requires i <= j < |rs| && Known(rs, i)
    ensures Known(rs, j)
    decreases j - i
  {
    if i >= j {
    } else {
      OnceKnownAlwaysKnown(rs, i, j - 1);
    }
  }

  /** Request i carries input after the first effective session start. */
  ghost predicate Delivers(env: Env, rs: seq<Request>, i: nat)
    requires i < |rs|
  {
    (exists s :: 0 <= s < i && IsStart(rs, s)) && InputEvent(env, rs[i].body).Some?
  }

  /** The input of request i, for the latest turn, if it is to be delivered. */
  ghost function Delivered(env: Env, rs: seq<Request>, i: nat): seq<(Event, Turn)>
    requires i < |rs|
  {
    TurnMeansStarted(rs, i);
    if Delivers(env, rs, i) then [(InputEvent(env, rs[i].body).value, TurnAfter(rs, i).value)] else []
  }

  /** The inputs of the first n requests, in order. */
  ghost function Expected(env: Env, rs: seq<Request>, n: nat): seq<(Event, Turn)>
    requires n <= |rs|
  {
    if n == 0 then [] else Expected(env, rs, n - 1) + Delivered(env, rs, n - 1)
  }

  lemma HandlingProjections(env: Env, rs: seq<Request>, i: nat)
    requires i < |rs| && Known(rs, i)
    ensures Inputs(Handling(env, rs, i)) == Delivered(env, rs, i)
    ensures AudioFlags(Handling(env, rs, i)) == if IsLiveAudio(rs, i) then [!AudioBefore(rs, i)] else []
  {
    hide Inputs, AudioFlags, AudioBefore, Digits, Conversation, TurnAfter;
    TurnMeansStarted(rs, i);
    var turn, event := TurnAfter(rs, i), InputEvent(env, rs[i].body);
    if turn.Some? && event.Some? {
      DispatchProjections(event.value, turn.value);
      if rs[i].body.AudioInput? {
        InboundProjections(turn.value, !AudioBefore(rs, i));
        ProjectionsInParts([CancelNoInputTimer(turn.value), OnInboundAudio(turn.value, !AudioBefore(rs, i))],
                           [Dispatch(event.value, turn.value), ResolveInput(event.value, turn.value)]);
      }
    } else {
      SilentCalls(Handling(env, rs, i));
    }
  }

  lemma DispatchProjections(event: Event, turn: Turn)
    requires event.AudioHeard? || event.DigitsPressed?
    ensures Inputs([Dispatch(event, turn), ResolveInput(event, turn)]) == [(event, turn)]
    ensures AudioFlags([Dispatch(event, turn), ResolveInput(event, turn)]) == []
  {
    ProjectionsOfTwo(Dispatch(event, turn), ResolveInput(event, turn));
    ProjectionsOfOne(Dispatch(event, turn));
    ProjectionsOfOne(ResolveInput(event, turn));
  }

  lemma InboundProjections(turn: Turn, isFirst: bool)
    ensures Inputs([CancelNoInputTimer(turn), OnInboundAudio(turn, isFirst)]) == []
    ensures AudioFlags([CancelNoInputTimer(turn), OnInboundAudio(turn, isFirst)]) == [isFirst]
  {
    ProjectionsOfTwo(CancelNoInputTimer(turn), OnInboundAudio(turn, isFirst));
    ProjectionsOfOne(CancelNoInputTimer(turn));
    ProjectionsOfOne(OnInboundAudio(turn, isFirst));
  }

  lemma EmittedProjections(env: Env, rs: seq<Request>, i: nat)
    requires i < |rs|
    ensures Inputs(Emitted(env, rs, i)) == Delivered(env, rs, i)
    ensures AudioFlags(Emitted(env, rs, i)) == if IsLiveAudio(rs, i) then [!AudioBefore(rs, i)] else []
  {
    hide Handling, InputEvent, AudioBefore;
    SilentCalls([Pull(i)]);
    if Known(rs, i) {
      var register := RegisterStream(Conversation(rs, i + 1));
      SilentCalls([register]);
      HandlingProjections(env, rs, i);
      ProjectionsInParts([register], Handling(env, rs, i));
      ProjectionsInParts([Pull(i)], [register] + Handling(env, rs, i));
    } else {
      if s :| 0 <= s < i && IsStart(rs, s) {
        OnceKnownAlwaysKnown(rs, s, i);
      }
      assert Emitted(env, rs, i) == [Pull(i)];
    }
  }

  lemma AudioBeforeOneMore(rs: seq<Request>, n: nat)
    requires n < |rs|
    ensures AudioBefore(rs, n + 1) <==> AudioBefore(rs, n) || IsLiveAudio(rs, n)
  {
  }

  ghost predicate OnlyFirst(flags: seq<bool>) {
    forall k | 0 <= k < |flags| :: flags[k] <==> k == 0
  }

  lemma {:induction false} ProjectionsUpTo(env: Env, rs: seq<Request>, n: nat)
    requires n <= |rs|
    ensures Inputs(EmittedUpTo(env, rs, n)) == Expected(env, rs, n)
    ensures var flags := AudioFlags(EmittedUpTo(env, rs, n));
            (flags != [] <==> AudioBefore(rs, n)) && OnlyFirst(flags)
  {
    hide Emitted, Delivered, IsLiveAudio, AudioBefore, Inputs, AudioFlags;
    if n == 0 {
      SilentCalls(EmittedUpTo(env, rs, 0));
      NoAudioYet(rs);
    } else {
      ProjectionsUpTo(env, rs, n - 1);
      EmittedProjections(env, rs, n - 1);
      AudioBeforeOneMore(rs, n - 1);
      ProjectionsInParts(EmittedUpTo(env, rs, n - 1), Emitted(env, rs, n - 1));
    }
  }

  lemma NoAudioYet(rs: seq<Request>)
    ensures !AudioBefore(rs, 0)
  {
  }

  /**
   When nothing raises, handlers receive exactly the audio and the non-empty key presses that come
   after the first effective session start and before the first effective session end, in order and
   each on the latest turn; and of all audio exactly the first carries the flag, however many
   session starts there are.
   */
  lemma InputsAreTheSessions(env: Env, rs: seq<Request>)
    ensures Inputs(BodyCalls(env, rs)) == Expected(env, rs, EndFrom(rs, 0))
    ensures OnlyFirst(AudioFlags(BodyCalls(env, rs)))
  {
    hide EmittedUpTo, Emitted, Inputs, AudioFlags, OnlyFirst;
    var end := EndFrom(rs, 0);
    if end < |rs| {
      ProjectionsUpTo(env, rs, end + 1);
      assert Delivered(env, rs, end) == [];
    } else {
      ProjectionsUpTo(env, rs, |rs|);
      SilentCalls([Pull(|rs|)]);
      ProjectionsInParts(EmittedUpTo(env, rs, |rs|), [Pull(|rs|)]);
      assert AudioFlags(EmittedUpTo(env, rs, |rs|)) + [] == AudioFlags(EmittedUpTo(env, rs, |rs|));
    }
  }

  /** Whatever raises, the inputs delivered are a prefix of those. */
  lemma FaultsOnlyCutShort(env: Env, rs: seq<Request>)
    ensures Inputs(Execute([], BodyCalls(env, rs), env.faults).0) <= Expected(env, rs, EndFrom(rs, 0))
  {
    hide BodyCalls, Execute, Inputs, Expected;
    var all := BodyCalls(env, rs);
    var k := ExecuteMakesAPrefix([], all, env.faults);
    InputsAreTheSessions(env, rs);
    assert all == all[..k] + all[k..] && [] + all[..k] == all[..k];
    ProjectionsInParts(all[..k], all[k..]);
  }

  /* ---------- Before the first id and after the end ---------- */

  /** Until a conversation id arrives nothing is called but the verification and the iterator. */
  lemma {:induction false} QuietUntilKnown(env: Env, rs: seq<Request>, n: nat)
    requires n <= |rs| && Conversation(rs, n) == ""
    ensures forall call | call in EmittedUpTo(env, rs, n) :: call.Pull? || call.VerifyContext?
  {
    if n == 0 {
    } else {
      QuietUntilKnown(env, rs, n - 1);
    }
  }

  lemma {:induction false} SameState(rs: seq<Request>, m: nat, n: nat)
    requires n <= m <= |rs|
    ensures Conversation(rs[..m], n) == Conversation(rs, n) && TurnAfter(rs[..m], n) == TurnAfter(rs, n)
  {
    if n == 0 {
    } else {
      SameState(rs, m, n - 1);
    }
  }

  lemma SameAudio(rs: seq<Request>, m: nat, n: nat)
    requires n <= m <= |rs|
    ensures AudioBefore(rs[..m], n) <==> AudioBefore(rs, n)
  {
    forall i | 0 <= i < n ensures IsLiveAudio(rs[..m], i) <==> IsLiveAudio(rs, i) {
      SameState(rs, m, i);
      SameState(rs, m, i + 1);
    }
  }

  lemma {:induction false} SameUpTo(env: Env, rs: seq<Request>, m: nat, n: nat)
    requires n <= m <= |rs|
    ensures EmittedUpTo(env, rs[..m], n) == EmittedUpTo(env, rs, n)
  {
    hide Emitted, EmittedUpTo;
    if n == 0 {
      NothingEmittedYet(env, rs);
      NothingEmittedYet(env, rs[..m]);
    } else {
      OneMoreRequest(env, rs[..m], n);
      OneMoreRequest(env, rs, n);
      SameUpTo(env, rs, m, n - 1);
      SameHandling(env, rs, m, n - 1);
    }
  }

  lemma NothingEmittedYet(env: Env, rs: seq<Request>)
    ensures EmittedUpTo(env, rs, 0) == if env.verifyTokens then [VerifyContext] else []
  {
  }

  lemma OneMoreRequest(env: Env, rs: seq<Request>, n: nat)
    requires 0 < n <= |rs|
    ensures EmittedUpTo(env, rs, n) == EmittedUpTo(env, rs, n - 1) + Emitted(env, rs, n - 1)
  {
    hide Emitted;
  }

  lemma SameHandling(env: Env, rs: seq<Request>, m: nat, i: nat)
    requires i < m <= |rs|
    ensures Emitted(env, rs[..m], i) == Emitted(env, rs, i)
  {
    SameState(rs, m, i);
    SameState(rs, m, i + 1);
    SameAudio(rs, m, i);
    hide Conversation, TurnAfter, AudioBefore, InputEvent;
  }

  /** Requests after the session end are never read, and releasing the session is the last call. */
  lemma NothingAfterSessionEnd(env: Env, rs: seq<Request>, end: nat)
    requires end < |rs| && end == EndFrom(rs, 0)
    ensures BodyCalls(env, rs[..end + 1]) == BodyCalls(env, rs)
    ensures var calls := BodyCalls(env, rs);
            |calls| > 0 && calls[|calls| - 1] == ReleaseSession(Conversation(rs, end + 1))
  {
    hide IsEnd, EmittedUpTo, Conversation;
    SameEnd(rs, end);
    SameUpTo(env, rs, end + 1, end + 1);
    EndReleases(env, rs, end);
    assert BodyCalls(env, rs) == EmittedUpTo(env, rs, end + 1);
    assert BodyCalls(env, rs[..end + 1]) == EmittedUpTo(env, rs[..end + 1], end + 1);
  }

  lemma SameEnd(rs: seq<Request>, end: nat)
    requires end < |rs| && end == EndFrom(rs, 0)
    ensures EndFrom(rs[..end + 1], 0) == end
  {
    hide Conversation;
    var cut := rs[..end + 1];
    forall k | 0 <= k <= end ensures IsEnd(cut, k) <==> IsEnd(rs, k) {
      SameState(rs, end + 1, k + 1);
    }
    var n := EndFrom(cut, 0);
    assert IsEnd(cut, end) && n <= end;
    assert IsEnd(cut, n) && IsEnd(rs, n);
  }

  lemma EndReleases(env: Env, rs: seq<Request>, end: nat)
    requires end < |rs| && IsEnd(rs, end)
    ensures var calls := EmittedUpTo(env, rs, end + 1);
            |calls| > 0 && calls[|calls| - 1] == ReleaseSession(Conversation(rs, end + 1))
  {
    hide Conversation, TurnAfter, EmittedUpTo;
    OneMoreRequest(env, rs, end + 1);
    var (handling, emitted) := (Handling(env, rs, end), Emitted(env, rs, end));
    assert handling[|handling| - 1] == ReleaseSession(Conversation(rs, end + 1));
    assert Known(rs, end) && emitted[|emitted| - 1] == handling[|handling| - 1];
    var before := EmittedUpTo(env, rs, end);
    assert EmittedUpTo(env, rs, end + 1)[|before| + |emitted| - 1] == emitted[|emitted| - 1];
  }

  /* ---------- Every registered stream is unregistered ---------- */

  predicate BodyCall(call: Call) {
    !call.UnregisterStream? && !call.QueueEnd?
  }

  lemma {:induction false} BodyNeverCloses(env: Env, rs: seq<Request>, n: nat)
    requires n <= |rs|
    ensures forall call | call in EmittedUpTo(env, rs, n) :: BodyCall(call)
  {
    if n == 0 {
    } else {
      BodyNeverCloses(env, rs, n - 1);
      assert forall call | call in Handling(env, rs, n - 1) :: BodyCall(call);
    }
  }

  /** Call p of the trace, a registration, is answered later in the trace and before any end marker. */
  ghost predicate Answered(trace: seq<Call>, p: nat)
    requires p < |trace| && trace[p].RegisterStream?
  {
    exists q :: p < q < |trace| && trace[q] == UnregisterStream(trace[p].conversationId) && QueueEnd !in trace[..q]
  }

  ghost predicate AllAnswered(trace: seq<Call>) {
    forall p | 0 <= p < |trace| && trace[p].RegisterStream? :: Answered(trace, p)
  }

  /** All registrations are for one conversation. */
  ghost predicate OneConversation(trace: seq<Call>) {
    forall p, q | 0 <= p < q < |trace| && trace[p].RegisterStream? && trace[q].RegisterStream? :: trace[p] == trace[q]
  }

  lemma {:induction false} LastRegisteredIsThere(trace: seq<Call>)
    ensures (exists p :: 0 <= p < |trace| && trace[p].RegisterStream?) ==>
              exists p :: 0 <= p < |trace| && trace[p] == RegisterStream(LastRegistered(trace))
    ensures LastRegistered(trace) != "" ==> exists p :: 0 <= p < |trace| && trace[p].RegisterStream?
  {
    if trace != [] && !trace[|trace| - 1].RegisterStream? {
      var front := trace[..|trace| - 1];
      LastRegisteredIsThere(front);
      assert forall p | 0 <= p < |front| :: front[p] == trace[p];
    }
  }

  /** The shape of every run: body calls, the except clause's calls, one unregistration, one end marker. */
  lemma ShapeOfReaderTrace(env: Env, rs: seq<Request>) returns (calls: seq<Call>)
    ensures forall call | call in calls :: BodyCall(call)
    ensures LastRegistered(calls) == LastRegistered(Execute([], BodyCalls(env, rs), env.faults).0)
    ensures ReaderTrace(env, rs) == Closed(calls, LastRegistered(calls), env.faults).0
    ensures forall id | RegisterStream(id) in calls :: IsConversation(rs, Read(rs), id)
    ensures FaultFree(env) ==> forall id | IsConversation(rs, Read(rs), id) :: RegisterStream(id) in calls
  {
    var (body, raised) := Execute([], BodyCalls(env, rs), env.faults);
    BodyOfReader(env, rs);
    hide BodyCalls, IsConversation, LastRegistered, Read, FaultFree;
    calls := Handled(body, raised, env.faults).0;
    var extra := ExceptCalls(body, raised, env.faults);
    assert calls == body + extra;
    assert forall call | call in extra :: Plain(call) && BodyCall(call);
    PlainCallsKeep(body, extra);
  }

  /** What the except clause adds. */
  lemma ExceptCalls(body: seq<Call>, raised: Outcome<Fault>, faults: nat -> Option<Fault>) returns (extra: seq<Call>)
    ensures Handled(body, raised, faults).0 == body + extra
    ensures forall call | call in extra :: call.SetStatus? || call.HandleHandlerError?
  {
    hide LastTurn, Execute;
    if LastTurn(body).Some? {
      ExecuteOne(body, HandleHandlerError(LastTurn(body).value), faults);
    }
    extra := match raised
      case Fail(DuplicateStream) => [SetStatus(AlreadyExists)]
      case Fail(BadToken) => [SetStatus(Unauthenticated)]
      case Fail(OtherError) => if LastTurn(body).Some? then [HandleHandlerError(LastTurn(body).value)] else []
      case _ => [];
  }

  lemma BodyOfReader(env: Env, rs: seq<Request>)
    ensures var body := Execute([], BodyCalls(env, rs), env.faults).0;
            && (forall call | call in body :: BodyCall(call))
            && (forall id | RegisterStream(id) in body :: IsConversation(rs, Read(rs), id))
            && (FaultFree(env) ==> forall id | IsConversation(rs, Read(rs), id) :: RegisterStream(id) in body)
  {
    hide IsConversation, EmittedUpTo, Execute;
    var all := BodyCalls(env, rs);
    var k := ExecuteMakesAPrefix([], all, env.faults);
    var n := Read(rs);
    BodyNeverCloses(env, rs, n);
    RegistrationsAreHandled(env, rs, n);
    assert forall call | call in all :: call in EmittedUpTo(env, rs, n) || call == Pull(|rs|);
    assert forall call | call in EmittedUpTo(env, rs, n) :: call in all;
    assert forall call | call in [] + all[..k] :: call in all;
    assert FaultFree(env) ==> [] + all[..k] == all;
  }

  /** How many requests the reader reads. */
  function Read(rs: seq<Request>): (n: nat)
    ensures n <= |rs|
  {
    if EndFrom(rs, 0) < |rs| then EndFrom(rs, 0) + 1 else |rs|
  }

  ghost predicate FaultFree(env: Env) {
    forall n: nat :: env.faults(n).None?
  }

  /** Request i is handled for this conversation. */
  ghost predicate HandledFor(rs: seq<Request>, i: nat, id: string) {
    i < |rs| && Known(rs, i) && id == Conversation(rs, i + 1)
  }

  /** The id is the conversation of some handled request among the first n. */
  ghost predicate IsConversation(rs: seq<Request>, n: nat, id: string) {
    exists i: nat :: i < n && HandledFor(rs, i, id)
  }

  lemma {:induction false} RegistrationsAreHandled(env: Env, rs: seq<Request>, n: nat)
    requires n <= |rs|
    ensures forall id :: RegisterStream(id) in EmittedUpTo(env, rs, n) <==> IsConversation(rs, n, id)
  {
    hide EmittedUpTo, Emitted, IsConversation, HandledFor;
    if n == 0 {
      NothingEmittedYet(env, rs);
      NoConversationYet(rs);
    } else {
      RegistrationsAreHandled(env, rs, n - 1);
      OneMoreRequest(env, rs, n);
      EmittedRegistration(env, rs, n - 1);
      OneMoreConversation(rs, n);
    }
  }

  lemma ConversationsAreNamed(rs: seq<Request>, n: nat)
    ensures forall id | IsConversation(rs, n, id) :: id != ""
  {
  }

  lemma NoConversationYet(rs: seq<Request>)
    ensures forall id :: !IsConversation(rs, 0, id)
  {
  }

  lemma OneMoreConversation(rs: seq<Request>, n: nat)
    requires 0 < n <= |rs|
    ensures forall id :: IsConversation(rs, n, id) <==> IsConversation(rs, n - 1, id) || HandledFor(rs, n - 1, id)
  {
    hide HandledFor;
  }

  lemma EmittedRegistration(env: Env, rs: seq<Request>, i: nat)
    requires i < |rs|
    ensures forall id :: RegisterStream(id) in Emitted(env, rs, i) <==> HandledFor(rs, i, id)
  {
    NoRegistrationInHandling(env, rs, i);
    hide Handling, Conversation;
  }

  lemma NoRegistrationInHandling(env: Env, rs: seq<Request>, i: nat)
    requires i < |rs|
    ensures forall call | call in Handling(env, rs, i) :: !call.RegisterStream?
  {
  }

  /**
   On every exit (end of input, session end, duplicate stream, authentication or handler error,
   cancellation) every registration is followed by an unregistration of the same stream, before any
   end marker, exactly if the stream never changed its conversation: only the last one is unregistered.
   */
  lemma UnregisteredIffOneConversation(env: Env, rs: seq<Request>)
    ensures AllAnswered(ReaderTrace(env, rs)) <==> OneConversation(ReaderTrace(env, rs))
  {
    var calls := ShapeOfReaderTrace(env, rs);
    var last := LastRegistered(calls);
    var trace := ReaderTrace(env, rs);
    hide ReaderTrace, LastRegistered, IsConversation;
    ConversationsAreNamed(rs, Read(rs));
    LastRegisteredIsThere(calls);
    assert forall p | 0 <= p < |calls| :: calls[p] in calls;
    if last == "" {
      assert trace == calls + [QueueEnd];
      assert forall p | 0 <= p < |trace| :: !trace[p].RegisterStream?;
    } else {
      ExecuteOne(calls, UnregisterStream(last), env.faults);
      var tail := if env.faults(|calls|).Some? then [] else [QueueEnd];
      assert trace == calls + [UnregisterStream(last)] + tail;
      OnlyLastIsAnswered(calls, last, tail);
    }
  }

  /** After calls that never close, one unregistration answers the registrations of that stream only. */
  lemma OnlyLastIsAnswered(calls: seq<Call>, last: string, tail: seq<Call>)
    requires forall call | call in calls :: BodyCall(call)
    requires exists r :: 0 <= r < |calls| && calls[r] == RegisterStream(last)
    requires tail == [] || tail == [QueueEnd]
    ensures var trace := calls + [UnregisterStream(last)] + tail;
            AllAnswered(trace) <==> OneConversation(trace)
  {
    var trace, n := calls + [UnregisterStream(last)] + tail, |calls|;
    assert trace[n] == UnregisterStream(last) && trace[..n] == calls && QueueEnd !in calls;
    assert forall p | 0 <= p < n :: trace[p] == calls[p] && calls[p] in calls;
    var r :| 0 <= r < n && calls[r] == RegisterStream(last);
    AnsweredByLast(trace, n, last);
    hide Answered;
    assert trace[r] == RegisterStream(last);
    assert OneConversation(trace) <==>
           forall p | 0 <= p < |trace| && trace[p].RegisterStream? :: trace[p] == RegisterStream(last) by {
      OneMeansLast(trace, r);
    }
  }

  lemma OneMeansLast(trace: seq<Call>, r: nat)
    requires r < |trace| && trace[r].RegisterStream?
    ensures OneConversation(trace) <==> forall p | 0 <= p < |trace| && trace[p].RegisterStream? :: trace[p] == trace[r]
  {
    if OneConversation(trace) {
      forall p | 0 <= p < |trace| && trace[p].RegisterStream? ensures trace[p] == trace[r] {
        assert p < r || p == r || r < p;
      }
    }
  }

  lemma AnsweredByLast(trace: seq<Call>, n: nat, last: string)
    requires n < |trace| && trace[n] == UnregisterStream(last) && QueueEnd !in trace[..n]
    requires forall p | 0 <= p < n :: BodyCall(trace[p])
    requires forall p | n < p < |trace| :: trace[p] == QueueEnd
    ensures forall p | 0 <= p < |trace| && trace[p].RegisterStream? ::
              p < n && (Answered(trace, p) <==> trace[p] == RegisterStream(last))
  {
    forall p | 0 <= p < |trace| && trace[p].RegisterStream?
      ensures p < n && (Answered(trace, p) <==> trace[p] == RegisterStream(last))
    {
      assert forall q | 0 <= q < |trace| && trace[q].UnregisterStream? :: q == n;
    }
  }

  lemma RegistrationsOfTrace(env: Env, rs: seq<Request>)
    ensures var trace := ReaderTrace(env, rs);
            && (forall id | RegisterStream(id) in trace :: IsConversation(rs, Read(rs), id))
            && (FaultFree(env) ==> forall id | IsConversation(rs, Read(rs), id) :: RegisterStream(id) in trace)
  {
    hide ReaderTrace, LastRegistered, IsConversation, Read, FaultFree;
    var calls := ShapeOfReaderTrace(env, rs);
    if LastRegistered(calls) != "" {
      ExecuteOne(calls, UnregisterStream(LastRegistered(calls)), env.faults);
    }
    assert forall id :: RegisterStream(id) in ReaderTrace(env, rs) <==> RegisterStream(id) in calls;
  }

  /** All handled requests, up to and including the session end, have the same conversation. */
  ghost predicate KeepsOneConversation(rs: seq<Request>) {
    forall i: nat, j: nat | i < j < |rs| && j <= EndFrom(rs, 0) && Known(rs, i) && Known(rs, j) ::
      Conversation(rs, i + 1) == Conversation(rs, j + 1)
  }

  lemma KeepingMeansOneId(rs: seq<Request>)
    ensures KeepsOneConversation(rs) <==>
            forall a, b | IsConversation(rs, Read(rs), a) && IsConversation(rs, Read(rs), b) :: a == b
  {
    hide Known, Conversation;
    if KeepsOneConversation(rs) {
      forall a, b | IsConversation(rs, Read(rs), a) && IsConversation(rs, Read(rs), b) ensures a == b {
        var i: nat :| i < Read(rs) && HandledFor(rs, i, a);
        var j: nat :| j < Read(rs) && HandledFor(rs, j, b);
        assert i < j || i == j || j < i;
      }
    }
    if forall a, b | IsConversation(rs, Read(rs), a) && IsConversation(rs, Read(rs), b) :: a == b {
      forall i: nat, j: nat | i < j < |rs| && j <= EndFrom(rs, 0) && Known(rs, i) && Known(rs, j)
        ensures Conversation(rs, i + 1) == Conversation(rs, j + 1)
      {
        assert HandledFor(rs, i, Conversation(rs, i + 1)) && HandledFor(rs, j, Conversation(rs, j + 1));
        assert i < Read(rs) && j < Read(rs);
        var a, b := Conversation(rs, i + 1), Conversation(rs, j + 1);
        assert IsConversation(rs, Read(rs), a) && IsConversation(rs, Read(rs), b);
      }
    }
  }

  /**
   Whatever raises, a stream that keeps its conversation leaves no registration behind; when nothing
   raises, a stream that changes it does.
   */
  lemma UnregisteredIffStreamKeepsConversation(env: Env, rs: seq<Request>)
    ensures KeepsOneConversation(rs) ==> AllAnswered(ReaderTrace(env, rs))
    ensures FaultFree(env) ==> (AllAnswered(ReaderTrace(env, rs)) <==> KeepsOneConversation(rs))
  {
    hide ReaderTrace, AllAnswered, IsConversation, KeepsOneConversation, Read, FaultFree;
    UnregisteredIffOneConversation(env, rs);
    RegistrationsOfTrace(env, rs);
    KeepingMeansOneId(rs);
    OneIdPerTrace(ReaderTrace(env, rs));
  }

  lemma OneIdPerTrace(trace: seq<Call>)
    ensures OneConversation(trace) <==> forall a, b | RegisterStream(a) in trace && RegisterStream(b) in trace :: a == b
  {
    if forall a, b | RegisterStream(a) in trace && RegisterStream(b) in trace :: a == b {
      forall p, q | 0 <= p < q < |trace| && trace[p].RegisterStream? && trace[q].RegisterStream?
        ensures trace[p] == trace[q]
      {
        assert trace[p] in trace && trace[q] in trace;
        assert trace[p] == RegisterStream(trace[p].conversationId);
        assert trace[q] == RegisterStream(trace[q].conversationId);
      }
    }
  }

  /** A stream that changes its conversation leaves the first one registered, if nothing raises. */
  lemma ChangedStreamStaysRegistered(env: Env)
    requires FaultFree(env)
    ensures !AllAnswered(ReaderTrace(env, [Request("a", NoBody), Request("b", NoBody)]))
  {
    hide ReaderTrace, AllAnswered;
    var rs := [Request("a", NoBody), Request("b", NoBody)];
    assert Conversation(rs, 1) == "a" && Conversation(rs, 2) == "b";
    assert Known(rs, 0) && Known(rs, 1);
    assert !KeepsOneConversation(rs);
    UnregisteredIffStreamKeepsConversation(env, rs);
  }

  /** A stream leaves no registration behind under any faults exactly if it keeps its conversation. */
  lemma KeepingIsWhatEveryExitNeeds(env: Env, rs: seq<Request>)
    ensures (forall faults: nat -> Option<Fault> :: AllAnswered(ReaderTrace(env.(faults := faults), rs))) <==>
            KeepsOneConversation(rs)
  {
    hide ReaderTrace, AllAnswered, KeepsOneConversation;
    forall faults: nat -> Option<Fault>
      ensures KeepsOneConversation(rs) ==> AllAnswered(ReaderTrace(env.(faults := faults), rs))
    {
      UnregisteredIffStreamKeepsConversation(env.(faults := faults), rs);
    }
    var calm := env.(faults := _ => None);
    assert FaultFree(calm);
    UnregisteredIffStreamKeepsConversation(calm, rs);
    assert AllAnswered(ReaderTrace(env.(faults := calm.faults), rs)) <==> KeepsOneConversation(rs);
  }

  /** Streams whose non-empty conversation ids are all equal never leave a registration behind. */
  lemma SteadyStreamsAreUnregistered(env: Env, rs: seq<Request>, id: string)
    requires forall r | r in rs :: r.conversationId == "" || r.conversationId == id
    ensures KeepsOneConversation(rs) && AllAnswered(ReaderTrace(env, rs))
  {
    forall n: nat | n <= |rs| ensures Conversation(rs, n) == "" || Conversation(rs, n) == id {
      ConversationIsSomeId(rs, n, id);
    }
    UnregisteredIffStreamKeepsConversation(env, rs);
  }

  lemma {:induction false} ConversationIsSomeId(rs: seq<Request>, n: nat, id: string)
    requires n <= |rs| && forall r | r in rs :: r.conversationId == "" || r.conversationId == id
    ensures Conversation(rs, n) == "" || Conversation(rs, n) == id
  {
    if n == 0 {
    } else {
      assert rs[n - 1] in rs;
      ConversationIsSomeId(rs, n - 1, id);
    }
  }

  lemma ExecuteNothing(before: seq<Call>, faults: nat -> Option<Fault>)
    ensures Execute(before, [], faults) == (before, Pass)
  {
  }

  /** The reader ended because its unregistration raised. */
  predicate UnregisterRaised(env: Env, trace: seq<Call>) {
    trace != [] && trace[|trace| - 1].UnregisterStream? && env.faults(|trace| - 1).Some?
  }

  /**
   The end marker is put exactly if the unregistration does not raise, and it is then the last call
   and the only marker. This is what lets the response generator finish.
   */
  lemma EndMarkerUnlessUnregisterRaises(env: Env, rs: seq<Request>)
    ensures var trace := ReaderTrace(env, rs);
            && trace != []
            && (QueueEnd in trace <==> !UnregisterRaised(env, trace))
            && (QueueEnd in trace <==> trace[|trace| - 1] == QueueEnd)
            && QueueEnd !in trace[..|trace| - 1]
  {
    hide ReaderTrace, LastRegistered, IsConversation, Execute, FaultFree, Read;
    var calls := ShapeOfReaderTrace(env, rs);
    var last := LastRegistered(calls);
    var trace := ReaderTrace(env, rs);
    if last != "" {
      ExecuteOne(calls, UnregisterStream(last), env.faults);
    } else {
      ExecuteNothing(calls, env.faults);
    }
    if last == "" {
      assert trace == calls + [QueueEnd];
      assert trace[..|trace| - 1] == calls;
    } else if env.faults(|calls|).Some? {
      assert trace == calls + [UnregisterStream(last)];
      assert trace[..|trace| - 1] == calls;
    } else {
      assert trace == calls + [UnregisterStream(last)] + [QueueEnd];
      assert trace[..|trace| - 1] == calls + [UnregisterStream(last)];
    }
  }
}
