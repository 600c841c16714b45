/**
 The request reader of one media stream (`request_reader` inside `ProcessCallerInput`,
 `src/byova/sdk_patch.py`). Calls into the SDK are recorded in a trace, and each may raise.
 */
module CallerStream {
  import opened Results

  /* ---------- Requests and calls ---------- */

  datatype EventType = SessionStart | SessionEnd | NoInput | OtherEvent

  datatype Body =
    | EventInput(kind: EventType)
    | AudioInput(audio: string, sampleRate: nat)
    | DtmfInput(keys: seq<int>)
    | NoBody

  datatype Request = Request(conversationId: string, body: Body)

  /** The turn context of the n-th session start of the stream, and the session it belongs to. */
  datatype Turn = Turn(nth: nat, session: string)

  datatype Event =
    | SessionStarted(conversationId: string)
    | SessionEnded
    | AudioHeard(audio: string, sampleRate: nat)
    | DigitsPressed(digits: string)

  /** Calls out of the reader, in the order it makes them. `Pull(i)` awaits request i. */
  datatype Call =
    | VerifyContext
    | Pull(i: nat)
    | RegisterStream(conversationId: string)
    | GetOrCreateSession(conversationId: string)
    | BindTurn(turn: Turn, turnNumber: nat)
    | StartTurn(turn: Turn)
    | CancelNoInputTimer(turn: Turn)
    | OnInboundAudio(turn: Turn, isFirst: bool)
    | Dispatch(event: Event, turn: Turn)
    | ResolveInput(event: Event, turn: Turn)
    | ReleaseSession(conversationId: string)
    | SetStatus(code: Status)
    | HandleHandlerError(turn: Turn)
    | UnregisterStream(conversationId: string)
    | QueueEnd

  datatype Status = AlreadyExists | Unauthenticated

  datatype Fault = DuplicateStream | BadToken | OtherError | Cancelled

  /**
   Settings, the SDK's key map, the `turn_count` of the session found at the n-th session start, and
   which calls (by position in the trace) raise what.
   */
  datatype Env = Env(
    verifyTokens: bool, defaultRate: nat, dtmf: map<int, string>, turnCount: nat -> nat, faults: nat -> Option<Fault>)

  /** `"".join(_DTMF_MAP.get(d, "") for d in keys)`. */
  function Digits(dtmf: map<int, string>, keys: seq<int>): string {
    if keys == [] then ""
    else (if keys[0] in dtmf then dtmf[keys[0]] else "") + Digits(dtmf, keys[1..])
  }

  /* ---------- Making calls that may raise ---------- */

  /** Make calls one after another until one raises. */
  function Execute(before: seq<Call>, calls: seq<Call>, faults: nat -> Option<Fault>): (seq<Call>, Outcome<Fault>)
    decreases |calls|
  {
    if calls == [] then (before, Pass)
    else match faults(|before|)
      case Some(fault) => (before + [calls[0]], Fail(fault))
      case None => Execute(before + [calls[0]], calls[1..], faults)
  }

  lemma ExecuteOne(before: seq<Call>, call: Call, faults: nat -> Option<Fault>)
    ensures Execute(before, [call], faults) ==
            (before + [call], match faults(|before|) case Some(fault) => Fail(fault) case None => Pass)
  {
  }

  lemma {:induction false} ExecuteInParts(before: seq<Call>, a: seq<Call>, b: seq<Call>, faults: nat -> Option<Fault>)
    ensures var (middle, o) := Execute(before, a, faults);
            Execute(before, a + b, faults) == if o.Fail? then (middle, o) else Execute(middle, b, faults)
    decreases |a|
  {
    if a == [] {
      assert a + b == b;
    } else {
      assert (a + b)[1..] == a[1..] + b;
      ExecuteInParts(before + [a[0]], a[1..], b, faults);
    }
  }

  /** The calls made are a prefix of those intended, and all of them unless one raised. */
  lemma {:induction false} ExecuteMakesAPrefix(before: seq<Call>, calls: seq<Call>, faults: nat -> Option<Fault>)
    returns (k: nat)
    ensures k <= |calls| && Execute(before, calls, faults).0 == before + calls[..k]
    ensures Execute(before, calls, faults).1 == Pass ==> k == |calls|
    ensures Execute(before, calls, faults).1.Fail? ==>
              k > 0 && faults(|before| + k - 1) == Some(Execute(before, calls, faults).1.error)
    ensures forall i | |before| <= i < |before| + k - (if Execute(before, calls, faults).1.Fail? then 1 else 0) ::
              faults(i).None?
    decreases |calls|
  {
    if calls == [] {
      k := 0;
    } else if faults(|before|).Some? {
      k := 1;
    } else {
      var rest := ExecuteMakesAPrefix(before + [calls[0]], calls[1..], faults);
      k := rest + 1;
      assert calls[..k] == [calls[0]] + calls[1..][..rest];
    }
  }

  /* ---------- What the stream is, request by request ---------- */

  /** The conversation id after the first n requests: the last one that was not empty. */
  function Conversation(rs: seq<Request>, n: nat): string
    requires n <= |rs|
  {
    if n == 0 then "" else if rs[n - 1].conversationId != "" then rs[n - 1].conversationId else Conversation(rs, n - 1)
  }

  /** Request i is handled: some conversation id has arrived by then. */
  predicate Known(rs: seq<Request>, i: nat)
    requires i < |rs|
  {
    Conversation(rs, i + 1) != ""
  }

  predicate IsStart(rs: seq<Request>, i: nat)
    requires i < |rs|
  {
    Known(rs, i) && rs[i].body == EventInput(SessionStart)
  }

  predicate IsEnd(rs: seq<Request>, i: nat)
    requires i < |rs|
  {
    Known(rs, i) && rs[i].body == EventInput(SessionEnd)
  }

  /** The turn of the last effective session start among the first n requests. */
  function TurnAfter(rs: seq<Request>, n: nat): Option<Turn>
    requires n <= |rs|
  {
    if n == 0 then None
    else if IsStart(rs, n - 1) then
      Some(Turn(match TurnAfter(rs, n - 1) case Some(t) => t.nth + 1 case None => 1, Conversation(rs, n)))
    else TurnAfter(rs, n - 1)
  }

  /** Audio that reaches the session. */
  predicate IsLiveAudio(rs: seq<Request>, i: nat)
    requires i < |rs|
  {
    Known(rs, i) && rs[i].body.AudioInput? && TurnAfter(rs, i).Some?
  }

  predicate AudioBefore(rs: seq<Request>, n: nat)
    requires n <= |rs|
  {
    exists i :: 0 <= i < n && IsLiveAudio(rs, i)
  }

  /** The event that audio or key presses become, if they become one. */
  function InputEvent(env: Env, body: Body): Option<Event> {
    match body
    case AudioInput(audio, rate) => Some(AudioHeard(audio, if rate != 0 then rate else env.defaultRate))
    case DtmfInput(keys) => if Digits(env.dtmf, keys) != "" then Some(DigitsPressed(Digits(env.dtmf, keys))) else None
    case _ => None
  }

  /** The calls made for the body of request i. */
  function Handling(env: Env, rs: seq<Request>, i: nat): seq<Call>
    requires i < |rs|
  {
    var conversation, turn := Conversation(rs, i + 1), TurnAfter(rs, i);
    match rs[i].body
    case EventInput(SessionStart) =>
      if !IsStart(rs, i) then []
      else
        var started := TurnAfter(rs, i + 1).value;
        [GetOrCreateSession(conversation), BindTurn(started, env.turnCount(started.nth) + 1), StartTurn(started),
         Dispatch(SessionStarted(conversation), started)]
    case EventInput(SessionEnd) =>
      (if turn.Some? then [Dispatch(SessionEnded, turn.value)] else []) + [ReleaseSession(conversation)]
    case EventInput(NoInput) => if turn.Some? then [CancelNoInputTimer(turn.value)] else []
    case AudioInput(_, _) =>
      if turn.None? then []
      else
        var event := InputEvent(env, rs[i].body).value;
        [CancelNoInputTimer(turn.value), OnInboundAudio(turn.value, !AudioBefore(rs, i))] +
        [Dispatch(event, turn.value), ResolveInput(event, turn.value)]
    case DtmfInput(_) =>
      if turn.None? || InputEvent(env, rs[i].body).None? then []
      else
        var event := InputEvent(env, rs[i].body).value;
        [Dispatch(event, turn.value), ResolveInput(event, turn.value)]
    case _ => []
  }

  /** The calls made for request i. */
  function Emitted(env: Env, rs: seq<Request>, i: nat): seq<Call>
    requires i < |rs|
  {
    [Pull(i)] + if Known(rs, i) then [RegisterStream(Conversation(rs, i + 1))] + Handling(env, rs, i) else []
  }

  /** The calls made for the first n requests. */
  function EmittedUpTo(env: Env, rs: seq<Request>, n: nat): seq<Call>
    requires n <= |rs|
  {
    if n == 0 then (if env.verifyTokens then [VerifyContext] else [])
    else EmittedUpTo(env, rs, n - 1) + Emitted(env, rs, n - 1)
  }

  /** The first effective session end at or after i, or the number of requests. */
  function EndFrom(rs: seq<Request>, i: nat): (n: nat)
    requires i <= |rs|
    ensures i <= n <= |rs|
    ensures forall k | i <= k < n :: !IsEnd(rs, k)
    ensures n < |rs| ==> IsEnd(rs, n)
    decreases |rs| - i
  {
    if i == |rs| || IsEnd(rs, i) then i else EndFrom(rs, i + 1)
  }

  /** All calls of the reader's body when nothing raises. */
  function BodyCalls(env: Env, rs: seq<Request>): seq<Call> {
    var end := EndFrom(rs, 0);
    if end < |rs| then EmittedUpTo(env, rs, end + 1) else EmittedUpTo(env, rs, |rs|) + [Pull(|rs|)]
  }

  /* ---------- The reader ---------- */

  /** The stream that is registered last, or "" when none is. */
  function LastRegistered(trace: seq<Call>): string {
    if trace == [] then ""
    else match trace[|trace| - 1]
      case RegisterStream(conversationId) => conversationId
      case _ => LastRegistered(trace[..|trace| - 1])
  }

  /** The turn that is bound last. */
  function LastTurn(trace: seq<Call>): Option<Turn> {
    if trace == [] then None
    else match trace[|trace| - 1]
      case BindTurn(turn, _) => Some(turn)
      case _ => LastTurn(trace[..|trace| - 1])
  }

  predicate Plain(call: Call) {
    !call.RegisterStream? && !call.BindTurn?
  }

  /** Calls that neither register nor bind leave what was registered and bound last. */
  lemma {:induction false} PlainCallsKeep(trace: seq<Call>, calls: seq<Call>)
    requires forall call | call in calls :: Plain(call)
    ensures LastRegistered(trace + calls) == LastRegistered(trace)
    ensures LastTurn(trace + calls) == LastTurn(trace)
  {
    if calls == [] {
      assert trace + calls == trace;
    } else {
      var front := calls[..|calls| - 1];
      PlainCallsKeep(trace, front);
      assert (trace + calls)[..|trace + calls| - 1] == trace + front;
      assert calls[|calls| - 1] in calls;
    }
  }

  lemma PlainRunKeeps(trace: seq<Call>, calls: seq<Call>, faults: nat -> Option<Fault>)
    requires forall call | call in calls :: Plain(call)
    ensures LastRegistered(Execute(trace, calls, faults).0) == LastRegistered(trace)
    ensures LastTurn(Execute(trace, calls, faults).0) == LastTurn(trace)
  {
    var k := ExecuteMakesAPrefix(trace, calls, faults);
    PlainCallsKeep(trace, calls[..k]);
  }

  /** How the `except` clauses answer what the body raised. */
  function Handled(trace: seq<Call>, raised: Outcome<Fault>, faults: nat -> Option<Fault>)
    : (seq<Call>, Outcome<Fault>)
  {
    match raised
    case Pass => (trace, Pass)
    case Fail(DuplicateStream) => (trace + [SetStatus(AlreadyExists)], Pass)
    case Fail(BadToken) => (trace + [SetStatus(Unauthenticated)], Pass)
    case Fail(OtherError) =>
      if LastTurn(trace).None? then (trace, Pass)
      else Execute(trace, [HandleHandlerError(LastTurn(trace).value)], faults)
    case Fail(Cancelled) => (trace, raised)
  }

  /** The `finally` clause: unregister the last conversation, then put the end marker. */
  function Closed(trace: seq<Call>, conversationId: string, faults: nat -> Option<Fault>): (seq<Call>, Outcome<Fault>) {
    var (t, o) := Execute(trace, if conversationId != "" then [UnregisterStream(conversationId)] else [], faults);
    if o.Fail? then (t, o) else (t + [QueueEnd], Pass)
  }

  /** Everything the reader does with a list of requests, whatever raises. */
  function ReaderTrace(env: Env, rs: seq<Request>): seq<Call> {
    var (body, raised) := Execute([], BodyCalls(env, rs), env.faults);
    Closed(Handled(body, raised, env.faults).0, LastRegistered(body), env.faults).0
  }

  class Reader {
    const env: Env
    var conversationId: string
    var session: Option<string>
    var turn: Option<Turn>
    var firstAudio: bool
    var trace: seq<Call>

    constructor (env: Env)
      ensures this.env == env && Fresh()
    {
      this.env := env;
      conversationId, session, turn, firstAudio, trace := "", None, None, true, [];
    }

    ghost predicate Fresh()
      reads this
    {
      conversationId == "" && session == None && turn == None && firstAudio && trace == []
    }

    /** Calls made in a row, with no assignment between them. */
    method CallAll(calls: seq<Call>) returns (o: Outcome<Fault>)
      modifies this`trace
      ensures (trace, o) == Execute(old(trace), calls, env.faults)
    {
      for i := 0 to |calls|
        invariant Execute(trace, calls[i..], env.faults) == Execute(old(trace), calls, env.faults)
      {
        assert calls[i..][0] == calls[i] && calls[i..][1..] == calls[i + 1..];
        var fault := env.faults(|trace|);
        trace := trace + [calls[i]];
        if fault.Some? {
          return Fail(fault.value);
        }
      }
      return Pass;
    }

    /** The state before request i, when nothing has raised. */
    ghost predicate Ready(rs: seq<Request>, i: nat)
      requires i <= |rs|
      reads this
    {
      && Execute([], EmittedUpTo(env, rs, i), env.faults) == (trace, Pass)
      && conversationId == Conversation(rs, i)
      && turn == TurnAfter(rs, i)
      && session == (match turn case Some(t) => Some(t.session) case None => None)
      && (firstAudio <==> !AudioBefore(rs, i))
      && Tracked()
    }

    ghost predicate Tracked()
      reads this
    {
      LastRegistered(trace) == conversationId && LastTurn(trace) == turn && (session.Some? <==> turn.Some?)
    }

    method StartSession(ghost rs: seq<Request>, ghost i: nat) returns (o: Outcome<Fault>)
      requires i < |rs| && IsStart(rs, i)
      requires conversationId == Conversation(rs, i + 1) && turn == TurnAfter(rs, i) && Tracked()
      modifies this`session, this`turn, this`trace
      ensures (trace, o) == Execute(old(trace), Handling(env, rs, i), env.faults)
      ensures Tracked()
      ensures o.Pass? ==> turn == TurnAfter(rs, i + 1) && session == Some(turn.value.session)
    {
      hide LastRegistered, LastTurn, Conversation;
      ghost var first: seq<Call> := [GetOrCreateSession(conversationId)];
      o := CallAll([GetOrCreateSession(conversationId)]);
      PlainRunKeeps(old(trace), first, env.faults);
      var started := Turn(if turn.Some? then turn.value.nth + 1 else 1, conversationId);
      var turnNumber := env.turnCount(started.nth) + 1;
      var rest :=
        [BindTurn(started, turnNumber), StartTurn(started), Dispatch(SessionStarted(conversationId), started)];
      assert Handling(env, rs, i) == first + rest;
      ExecuteInParts(old(trace), first, rest, env.faults);
      if o.Fail? {
        return;
      }
      session := Some(conversationId);
      turn := Some(started);
      ghost var middle := trace;
      o := CallAll(rest);
      BindingIsLast(middle, started, turnNumber, rest[1..], env.faults);
      assert [BindTurn(started, turnNumber)] + rest[1..] == rest;
    }

    method HandleInput(ghost rs: seq<Request>, ghost i: nat, body: Body) returns (o: Outcome<Fault>)
      requires i < |rs| && Known(rs, i) && rs[i].body == body && (body.AudioInput? || body.DtmfInput?)
      requires turn == TurnAfter(rs, i) && (firstAudio <==> !AudioBefore(rs, i)) && Tracked()
      modifies this`firstAudio, this`trace
      ensures (trace, o) == Execute(old(trace), Handling(env, rs, i), env.faults)
      ensures Tracked()
      ensures o.Pass? ==> (firstAudio <==> !AudioBefore(rs, i + 1))
    {
      PlainRunKeeps(trace, Handling(env, rs, i), env.faults);
      if session.None? || turn.None? {
        return Pass;
      }
      var event := InputEvent(env, body);
      if body.AudioInput? {
        assert IsLiveAudio(rs, i);
        var before := [CancelNoInputTimer(turn.value), OnInboundAudio(turn.value, firstAudio)];
        ghost var after := [Dispatch(event.value, turn.value), ResolveInput(event.value, turn.value)];
        ExecuteInParts(trace, before, after, env.faults);
        o := CallAll(before);
        if o.Fail? {
          return;
        }
        firstAudio := false;
      }
      if event.Some? {
        o := CallAll([Dispatch(event.value, turn.value), ResolveInput(event.value, turn.value)]);
      } else {
        o := Pass;
      }
    }

    method EndSession(ghost rs: seq<Request>, ghost i: nat) returns (o: Outcome<Fault>)
      requires i < |rs| && IsEnd(rs, i)
      requires conversationId == Conversation(rs, i + 1) && turn == TurnAfter(rs, i) && Tracked()
      modifies this`trace
      ensures (trace, o) == Execute(old(trace), Handling(env, rs, i), env.faults)
      ensures Tracked()
    {
      PlainRunKeeps(trace, Handling(env, rs, i), env.faults);
      if session.Some? && turn.Some? {
        ExecuteInParts(trace, [Dispatch(SessionEnded, turn.value)], [ReleaseSession(conversationId)], env.faults);
        o := CallAll([Dispatch(SessionEnded, turn.value)]);
        if o.Fail? {
          return;
        }
      }
      o := CallAll([ReleaseSession(conversationId)]);
    }

    /** The branches on the kind of a request whose conversation is registered. */
    method HandleBody(rs: seq<Request>, i: nat) returns (o: Outcome<Fault>, ended: bool)
      requires i < |rs| && Known(rs, i)
      requires conversationId == Conversation(rs, i + 1) && turn == TurnAfter(rs, i) && Tracked()
      requires session == (match turn case Some(t) => Some(t.session) case None => None)
      requires firstAudio <==> !AudioBefore(rs, i)
      modifies this`session, this`turn, this`firstAudio, this`trace
      ensures (trace, o) == Execute(old(trace), Handling(env, rs, i), env.faults)
      ensures Tracked()
      ensures o.Pass? ==>
                && turn == TurnAfter(rs, i + 1)
                && session == (match turn case Some(t) => Some(t.session) case None => None)
                && (firstAudio <==> !AudioBefore(rs, i + 1))
                && (ended <==> IsEnd(rs, i))
    {
      o, ended := Pass, false;
      match rs[i].body
      case EventInput(SessionStart) =>
        o := StartSession(rs, i);
      case EventInput(SessionEnd) =>
        ended := true;
        o := EndSession(rs, i);
      case EventInput(NoInput) =>
        PlainRunKeeps(trace, Handling(env, rs, i), env.faults);
        if turn.Some? {
          o := CallAll([CancelNoInputTimer(turn.value)]);
        }
      case AudioInput(_, _) =>
        o := HandleInput(rs, i, rs[i].body);
      case DtmfInput(_) =>
        o := HandleInput(rs, i, rs[i].body);
      case _ =>
    }

    /** One turn of the request loop; `ended` after a session end. */
    method HandleRequest(rs: seq<Request>, i: nat) returns (o: Outcome<Fault>, ended: bool)
      requires i < |rs| && Ready(rs, i)
      modifies this
      ensures (trace, o) == Execute(old(trace), Emitted(env, rs, i), env.faults)
      ensures Tracked()
      ensures o.Pass? ==> Ready(rs, i + 1) && (ended <==> IsEnd(rs, i))
    {
      hide Handling, LastRegistered, LastTurn, AudioBefore;
      ended := false;
      ghost var start := trace;
      ReadyForNext(env, rs, i, start);
      PlainRunKeeps(start, [Pull(i)], env.faults);
      EmittedInParts(env, rs, i, start);
      o := CallAll([Pull(i)]);
      if o.Fail? {
        return;
      }
      conversationId := if rs[i].conversationId != "" then rs[i].conversationId else conversationId;
      if conversationId == "" {
        NotYetKnown(rs, i);
        return;
      }
      ghost var pulled := trace;
      o := CallAll([RegisterStream(conversationId)]);
      RegisteringIsLast(pulled, conversationId, env.faults);
      if o.Fail? {
        return;
      }
      o, ended := HandleBody(rs, i);
    }

    /** The body of the reader's `try`. */
    method ReadRequests(rs: seq<Request>) returns (o: Outcome<Fault>)
      requires Fresh()
      modifies this
      ensures (trace, o) == Execute([], BodyCalls(env, rs), env.faults)
      ensures Tracked()
    {
      hide Emitted, EmittedUpTo, AudioBefore, LastRegistered, LastTurn;
      NothingYet(env, rs);
      if env.verifyTokens {
        PlainRunKeeps(trace, [VerifyContext], env.faults);
        o := CallAll([VerifyContext]);
        if o.Fail? {
          StoppedAtVerification(env, rs);
          return;
        }
      }
      var i := 0;
      while i < |rs|
        invariant i <= |rs| && Ready(rs, i) && forall k | 0 <= k < i :: !IsEnd(rs, k)
        decreases |rs| - i
      {
        ghost var before := trace;
        var ended;
        o, ended := HandleRequest(rs, i);
        if o.Fail? || ended {
          StoppedInRequest(env, rs, i, before, trace, o);
          return;
        }
        i := i + 1;
      }
      assert EndFrom(rs, 0) == |rs|;
      PlainRunKeeps(trace, [Pull(i)], env.faults);
      ExecuteInParts([], EmittedUpTo(env, rs, |rs|), [Pull(|rs|)], env.faults);
      o := CallAll([Pull(i)]);
    }

    /** The `except` clauses. */
    method Except(raised: Outcome<Fault>)
      requires Tracked()
      modifies this`trace
      ensures trace == Handled(old(trace), raised, env.faults).0
    {
      match raised
      case Pass =>
      case Fail(DuplicateStream) => trace := trace + [SetStatus(AlreadyExists)];
      case Fail(BadToken) => trace := trace + [SetStatus(Unauthenticated)];
      case Fail(OtherError) =>
        if session.Some? && turn.Some? {
          var _ := CallAll([HandleHandlerError(turn.value)]);
        }
      case Fail(Cancelled) =>
    }

    /** The `finally` clause. */
    method Finally()
      modifies this`trace
      ensures trace == Closed(old(trace), conversationId, env.faults).0
    {
      if conversationId != "" {
        var o := CallAll([UnregisterStream(conversationId)]);
        if o.Fail? {
          return;
        }
      }
      trace := trace + [QueueEnd];
    }

    /** The whole reader: body, `except` clauses, `finally`. */
    method RequestReader(rs: seq<Request>)
      requires Fresh()
      modifies this
      ensures trace == ReaderTrace(env, rs)
    {
      hide Execute, Handled, Closed, BodyCalls, LastRegistered, LastTurn;
      var raised := ReadRequests(rs);
      Except(raised);
      Finally();
    }
  }

  lemma RegisteringIsLast(trace: seq<Call>, conversationId: string, faults: nat -> Option<Fault>)
    ensures var after := Execute(trace, [RegisterStream(conversationId)], faults).0;
            LastRegistered(after) == conversationId && LastTurn(after) == LastTurn(trace)
  {
    assert (trace + [RegisterStream(conversationId)])[..|trace|] == trace;
  }

  lemma NotYetKnown(rs: seq<Request>, i: nat)
    requires i < |rs| && !Known(rs, i)
    ensures TurnAfter(rs, i + 1) == TurnAfter(rs, i)
    ensures AudioBefore(rs, i + 1) <==> AudioBefore(rs, i)
  {
  }

  /** Pull, then register if a conversation is known, then handle. */
  lemma EmittedInParts(env: Env, rs: seq<Request>, i: nat, start: seq<Call>)
    requires i < |rs|
    ensures var (pulled, o) := Execute(start, [Pull(i)], env.faults);
            Execute(start, Emitted(env, rs, i), env.faults) ==
            if o.Fail? || !Known(rs, i) then (pulled, o)
            else
              var (registered, p) := Execute(pulled, [RegisterStream(Conversation(rs, i + 1))], env.faults);
              if p.Fail? then (registered, p) else Execute(registered, Handling(env, rs, i), env.faults)
  {
    hide Handling;
    if Known(rs, i) {
      var register := [RegisterStream(Conversation(rs, i + 1))];
      ExecuteInParts(start, [Pull(i)], register + Handling(env, rs, i), env.faults);
      ExecuteInParts(Execute(start, [Pull(i)], env.faults).0, register, Handling(env, rs, i), env.faults);
    } else {
      assert Emitted(env, rs, i) == [Pull(i)];
    }
  }

  /** Executing the calls of one more request after those of the earlier ones. */
  lemma ReadyForNext(env: Env, rs: seq<Request>, i: nat, start: seq<Call>)
    requires i < |rs| && Execute([], EmittedUpTo(env, rs, i), env.faults) == (start, Pass)
    ensures Execute([], EmittedUpTo(env, rs, i + 1), env.faults) == Execute(start, Emitted(env, rs, i), env.faults)
  {
    ExecuteInParts([], EmittedUpTo(env, rs, i), Emitted(env, rs, i), env.faults);
  }

  lemma {:induction false} EarlierIsPrefix(env: Env, rs: seq<Request>, n: nat, m: nat)
    requires n <= m <= |rs|
    ensures EmittedUpTo(env, rs, n) <= EmittedUpTo(env, rs, m)
    decreases m - n
  {
    if n >= m {
    } else {
      EarlierIsPrefix(env, rs, n, m - 1);
    }
  }

  lemma PrefixSplits<T>(p: seq<T>, s: seq<T>)
    requires p <= s
    ensures s == p + s[|p|..]
  {
  }

  lemma NothingYet(env: Env, rs: seq<Request>)
    ensures EmittedUpTo(env, rs, 0) == if env.verifyTokens then [VerifyContext] else []
    ensures !AudioBefore(rs, 0) && LastRegistered([]) == "" && LastTurn([]) == None
  {
  }

  /** Stopping in the verification stops the whole body. */
  lemma StoppedAtVerification(env: Env, rs: seq<Request>)
    requires env.verifyTokens && Execute([], [VerifyContext], env.faults).1.Fail?
    ensures Execute([], BodyCalls(env, rs), env.faults) == Execute([], [VerifyContext], env.faults)
  {
    var all := BodyCalls(env, rs);
    EarlierIsPrefix(env, rs, 0, if EndFrom(rs, 0) < |rs| then EndFrom(rs, 0) + 1 else |rs|);
    assert EmittedUpTo(env, rs, 0) == [VerifyContext];
    hide EmittedUpTo, Execute;
    PrefixSplits([VerifyContext], all);
    ExecuteInParts([], [VerifyContext], all[1..], env.faults);
  }

  /** Stopping in a request, by a fault or by a session end, stops the whole body. */
  lemma StoppedInRequest(env: Env, rs: seq<Request>, i: nat, before: seq<Call>, after: seq<Call>, o: Outcome<Fault>)
    requires i < |rs| && (forall k | 0 <= k < i :: !IsEnd(rs, k)) && (o.Fail? || IsEnd(rs, i))
    requires Execute([], EmittedUpTo(env, rs, i), env.faults) == (before, Pass)
    requires Execute(before, Emitted(env, rs, i), env.faults) == (after, o)
    ensures Execute([], BodyCalls(env, rs), env.faults) == (after, o)
  {
    hide Emitted, EmittedUpTo, Execute;
    var all, sofar := BodyCalls(env, rs), EmittedUpTo(env, rs, i + 1);
    ReadyForNext(env, rs, i, before);
    var end := EndFrom(rs, 0);
    assert end >= i;
    EarlierIsPrefix(env, rs, i + 1, if end < |rs| then end + 1 else |rs|);
    PrefixSplits(sofar, all);
    ExecuteInParts([], sofar, all[|sofar|..], env.faults);
    if o.Pass? {
      assert end == i;
    }
  }

  lemma BindingIsLast(trace: seq<Call>, turn: Turn, turnNumber: nat, rest: seq<Call>, faults: nat -> Option<Fault>)
    requires forall call | call in rest :: Plain(call)
    ensures var after := Execute(trace, [BindTurn(turn, turnNumber)] + rest, faults).0;
            LastTurn(after) == Some(turn) && LastRegistered(after) == LastRegistered(trace)
  {
    var bound := trace + [BindTurn(turn, turnNumber)];
    assert bound[..|bound| - 1] == trace;
    ExecuteInParts(trace, [BindTurn(turn, turnNumber)], rest, faults);
    PlainRunKeeps(bound, rest, faults);
  }
}
