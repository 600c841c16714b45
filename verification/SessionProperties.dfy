/**
 What the reader calls for each single request, read off the trace of its body: the calls from one
 pull to the next.
 */
module SessionProperties {
  import opened Results
  import opened Text
  import opened CallerStream
  import opened StreamProperties

  /* ---------- The trace, pull by pull ---------- */

  /** The calls before the first pull, then those from each pull up to the next. */
  function Groups(calls: seq<Call>): (r: seq<seq<Call>>)
    ensures r != []
  {
    if calls == [] then [[]]
    else
      var (before, last) := (Groups(calls[..|calls| - 1]), calls[|calls| - 1]);
      if last.Pull? then before + [[last]]
      else before[..|before| - 1] + [before[|before| - 1] + [last]]
  }

  lemma {:induction false} GroupsWithoutPull(before: seq<Call>, more: seq<Call>)
    requires forall call | call in more :: !call.Pull?
    ensures var g := Groups(before); Groups(before + more) == g[..|g| - 1] + [g[|g| - 1] + more]
  {
    if more == [] {
      var g := Groups(before);
      assert before + more == before && g[|g| - 1] + more == g[|g| - 1];
      assert g == g[..|g| - 1] + [g[|g| - 1]];
    } else {
      var front, last := more[..|more| - 1], more[|more| - 1];
      GroupsWithoutPull(before, front);
      LastOfSum(before, more);
      assert last in more;
      var g := Groups(before);
      Regroup(g[|g| - 1], front, [last]);
      assert front + [last] == more;
    }
  }

  lemma GroupsOfOneMorePull(before: seq<Call>, i: nat, more: seq<Call>)
    requires forall call | call in more :: !call.Pull?
    ensures Groups(before + ([Pull(i)] + more)) == Groups(before) + [[Pull(i)] + more]
  {
    assert (before + [Pull(i)])[..|before|] == before;
    assert Groups(before + [Pull(i)]) == Groups(before) + [[Pull(i)]];
    GroupsWithoutPull(before + [Pull(i)], more);
    Regroup(before, [Pull(i)], more);
  }

  lemma NoPullInside(env: Env, rs: seq<Request>, i: nat)
    requires i < |rs|
    ensures forall call | call in Handling(env, rs, i) :: !call.Pull?
  {
    hide TurnAfter, Conversation, InputEvent, AudioBefore;
  }

  lemma EmittedStartsWithItsPull(env: Env, rs: seq<Request>, i: nat)
    requires i < |rs|
    ensures Emitted(env, rs, i) == [Pull(i)] + Emitted(env, rs, i)[1..]
    ensures forall call | call in Emitted(env, rs, i)[1..] :: !call.Pull?
  {
    hide Handling;
    NoPullInside(env, rs, i);
  }

  lemma {:induction false} GroupsUpTo(env: Env, rs: seq<Request>, n: nat)
    requires n <= |rs|
    ensures var g := Groups(EmittedUpTo(env, rs, n));
            && |g| == n + 1
            && g[0] == (if env.verifyTokens then [VerifyContext] else [])
            && forall i: nat | i < n :: g[i + 1] == Emitted(env, rs, i)
  {
    hide Emitted, EmittedUpTo, Groups;
    if n == 0 {
      NothingEmittedYet(env, rs);
      FirstGroup(env);
    } else {
      GroupsUpTo(env, rs, n - 1);
      OneMoreRequest(env, rs, n);
      EmittedStartsWithItsPull(env, rs, n - 1);
      GroupsOfOneMorePull(EmittedUpTo(env, rs, n - 1), n - 1, Emitted(env, rs, n - 1)[1..]);
    }
  }

  lemma FirstGroup(env: Env)
    ensures var first := if env.verifyTokens then [VerifyContext] else []; Groups(first) == [first]
  {
    var first: seq<Call> := if env.verifyTokens then [VerifyContext] else [];
    GroupsWithoutPull([], first);
    assert [] + first == first;
  }

  lemma GroupsOfBody(env: Env, rs: seq<Request>)
    ensures var g := Groups(BodyCalls(env, rs));
            && |g| == Read(rs) + (if EndFrom(rs, 0) < |rs| then 1 else 2)
            && g[0] == (if env.verifyTokens then [VerifyContext] else [])
            && (forall i: nat | i < Read(rs) :: g[i + 1] == Emitted(env, rs, i))
            && (EndFrom(rs, 0) == |rs| ==> g[|rs| + 1] == [Pull(|rs|)])
  {
    hide Emitted, EmittedUpTo, Groups;
    GroupsUpTo(env, rs, Read(rs));
    if EndFrom(rs, 0) == |rs| {
      GroupsOfOneMorePull(EmittedUpTo(env, rs, |rs|), |rs|, []);
      assert [Pull(|rs|)] + [] == [Pull(|rs|)];
    }
  }

  lemma GroupOfRequest(env: Env, rs: seq<Request>, i: nat)
    requires i < Read(rs)
    ensures |Groups(BodyCalls(env, rs))| > i + 1 && Groups(BodyCalls(env, rs))[i + 1] == Emitted(env, rs, i)
  {
    hide Emitted, BodyCalls, Groups;
    GroupsOfBody(env, rs);
    assert Emitted(env, rs, i) == Emitted(env, rs, i);
  }

  /* ---------- Conversation and turn, by position ---------- */

  /** The conversation is the last id that was not empty. */
  lemma {:induction false} ConversationIsTheLastId(rs: seq<Request>, n: nat)
    requires n <= |rs|
    ensures Conversation(rs, n) == "" <==> forall j | 0 <= j < n :: rs[j].conversationId == ""
    ensures forall j | 0 <= j < n && rs[j].conversationId != "" ::
              (forall k | j < k < n :: rs[k].conversationId == "") ==>
              Conversation(rs, n) == rs[j].conversationId
  {
    if n == 0 {
    } else {
      ConversationIsTheLastId(rs, n - 1);
    }
  }

  /** The effective session starts among the first n requests, in order. */
  function Starts(rs: seq<Request>, n: nat): (r: seq<nat>)
    requires n <= |rs|
    ensures forall k | 0 <= k < |r| ::
              r[k] < n && Conversation(rs, r[k] + 1) != "" && rs[r[k]].body == EventInput(SessionStart)
    ensures forall j, k | 0 <= j < k < |r| :: r[j] < r[k]
  {
    if n == 0 then []
    else if Conversation(rs, n) != "" && rs[n - 1].body == EventInput(SessionStart) then Starts(rs, n - 1) + [n - 1]
    else Starts(rs, n - 1)
  }

  lemma {:induction false} StartsAreAll(rs: seq<Request>, n: nat, s: nat)
    requires s < n <= |rs| && Conversation(rs, s + 1) != "" && rs[s].body == EventInput(SessionStart)
    ensures s in Starts(rs, n)
  {
    if s == n - 1 {
      assert Starts(rs, n)[|Starts(rs, n)| - 1] == s;
    } else {
      StartsAreAll(rs, n - 1, s);
    }
  }

  /** The k-th session start makes the stream's k-th turn, for the conversation it arrives in. */
  lemma {:induction false} TurnIsOfTheLastStart(rs: seq<Request>, n: nat)
    requires n <= |rs|
    ensures var starts := Starts(rs, n);
            TurnAfter(rs, n) ==
            if starts == [] then None else Some(Turn(|starts|, Conversation(rs, starts[|starts| - 1] + 1)))
  {
    hide Conversation, TurnAfter, Starts;
    NextTurn(rs, n);
    NextStart(rs, n);
    if n == 0 {
    } else {
      TurnIsOfTheLastStart(rs, n - 1);
    }
  }

  lemma NextTurn(rs: seq<Request>, n: nat)
    requires n <= |rs|
    ensures n == 0 ==> TurnAfter(rs, n) == None
    ensures n > 0 && !(Conversation(rs, n) != "" && rs[n - 1].body == EventInput(SessionStart)) ==>
              TurnAfter(rs, n) == TurnAfter(rs, n - 1)
    ensures n > 0 && Conversation(rs, n) != "" && rs[n - 1].body == EventInput(SessionStart) ==>
              var before := TurnAfter(rs, n - 1);
              TurnAfter(rs, n) == Some(Turn(if before.None? then 1 else before.value.nth + 1, Conversation(rs, n)))
  {
    hide Conversation;
  }

  lemma NextStart(rs: seq<Request>, n: nat)
    requires n <= |rs|
    ensures n == 0 ==> Starts(rs, n) == []
    ensures n > 0 && !(Conversation(rs, n) != "" && rs[n - 1].body == EventInput(SessionStart)) ==>
              Starts(rs, n) == Starts(rs, n - 1)
    ensures n > 0 && Conversation(rs, n) != "" && rs[n - 1].body == EventInput(SessionStart) ==>
              Starts(rs, n) == Starts(rs, n - 1) + [n - 1]
  {
    hide Conversation;
  }

  /* ---------- What each request causes ---------- */

  /** Some audio has been handled before request i. */
  ghost predicate HeardBefore(rs: seq<Request>, i: nat)
    requires i <= |rs|
  {
    exists j: nat :: j < i && rs[j].body.AudioInput? && Starts(rs, j) != []
  }

  lemma HeardMeansAudioBefore(rs: seq<Request>, i: nat)
    requires i <= |rs|
    ensures HeardBefore(rs, i) <==> AudioBefore(rs, i)
  {
    hide Conversation, Starts, TurnAfter;
    forall j: nat | j < i ensures IsLiveAudio(rs, j) <==> rs[j].body.AudioInput? && Starts(rs, j) != [] {
      TurnIsOfTheLastStart(rs, j);
      if Starts(rs, j) != [] {
        OnceKnownAlwaysKnown(rs, Starts(rs, j)[0], j);
      }
    }
    if HeardBefore(rs, i) {
      var j: nat :| j < i && rs[j].body.AudioInput? && Starts(rs, j) != [];
      assert IsLiveAudio(rs, j);
    }
  }

  /** The key presses are looked up one by one, in order; unknown keys are dropped. */
  lemma {:induction false} DigitsInOrder(dtmf: map<int, string>, a: seq<int>, b: seq<int>, key: int)
    ensures Digits(dtmf, [key]) == if key in dtmf then dtmf[key] else ""
    ensures Digits(dtmf, a + b) == Digits(dtmf, a) + Digits(dtmf, b)
    decreases |a|
  {
    assert [key][1..] == [];
    if a == [] {
      assert a + b == b;
    } else {
      assert (a + b)[1..] == a[1..] + b;
      DigitsInOrder(dtmf, a[1..], b, key);
      Regroup(if a[0] in dtmf then dtmf[a[0]] else "", Digits(dtmf, a[1..]), Digits(dtmf, b));
    }
  }

  /** Before any conversation id has arrived a request is only read. */
  lemma UnknownRequestsAreOnlyRead(env: Env, rs: seq<Request>, i: nat)
    requires i < Read(rs) && Conversation(rs, i + 1) == ""
    ensures |Groups(BodyCalls(env, rs))| > i + 1 && Groups(BodyCalls(env, rs))[i + 1] == [Pull(i)]
  {
    hide Groups, Handling, Conversation;
    GroupOfRequest(env, rs, i);
  }

  /**
   A session start registers the stream, gets its session, binds and starts the new turn, numbered one
   above the session's count, and then tells the handlers.
   */
  lemma SessionStartIsAnnounced(env: Env, rs: seq<Request>, i: nat)
    requires i < Read(rs) && Conversation(rs, i + 1) != "" && rs[i].body == EventInput(SessionStart)
    ensures var (c, nth) := (Conversation(rs, i + 1), |Starts(rs, i + 1)|);
            && |Groups(BodyCalls(env, rs))| > i + 1
            && Groups(BodyCalls(env, rs))[i + 1] ==
               [Pull(i), RegisterStream(c), GetOrCreateSession(c), BindTurn(Turn(nth, c), env.turnCount(nth) + 1),
                StartTurn(Turn(nth, c)), Dispatch(SessionStarted(c), Turn(nth, c))]
  {
    hide Groups, Conversation, TurnAfter;
    GroupOfRequest(env, rs, i);
    TurnIsOfTheLastStart(rs, i + 1);
  }

  /**
   A session end tells the handlers, once and right before the session is released, exactly if a
   session had started.
   */
  lemma SessionEndIsAnnounced(env: Env, rs: seq<Request>, i: nat)
    requires i < Read(rs) && Conversation(rs, i + 1) != "" && rs[i].body == EventInput(SessionEnd)
    ensures var (c, starts) := (Conversation(rs, i + 1), Starts(rs, i));
            && |Groups(BodyCalls(env, rs))| > i + 1
            && Groups(BodyCalls(env, rs))[i + 1] ==
               if starts == [] then [Pull(i), RegisterStream(c), ReleaseSession(c)]
               else
                 var turn := Turn(|starts|, Conversation(rs, starts[|starts| - 1] + 1));
                 [Pull(i), RegisterStream(c), Dispatch(SessionEnded, turn), ReleaseSession(c)]
  {
    hide Groups, Conversation, TurnAfter, Starts;
    GroupOfRequest(env, rs, i);
    TurnIsOfTheLastStart(rs, i);
  }

  /** Before a session has started, input is only registered. */
  lemma InputNeedsASession(env: Env, rs: seq<Request>, i: nat)
    requires i < Read(rs) && Conversation(rs, i + 1) != "" && Starts(rs, i) == []
    requires rs[i].body.AudioInput? || rs[i].body.DtmfInput? || rs[i].body == EventInput(NoInput)
    ensures |Groups(BodyCalls(env, rs))| > i + 1
    ensures Groups(BodyCalls(env, rs))[i + 1] == [Pull(i), RegisterStream(Conversation(rs, i + 1))]
  {
    hide Groups, Conversation, TurnAfter, Starts;
    GroupOfRequest(env, rs, i);
    TurnIsOfTheLastStart(rs, i);
  }

  /**
   Audio cancels the timer, is counted with the turn manager, flagged if it is the first, and goes to the
   handlers and then to whoever waits for input; a missing sample rate is that of the settings.
   */
  lemma AudioIsHandled(env: Env, rs: seq<Request>, i: nat)
    requires i < Read(rs) && Conversation(rs, i + 1) != "" && Starts(rs, i) != [] && rs[i].body.AudioInput?
    ensures var (starts, rate) := (Starts(rs, i), rs[i].body.sampleRate);
            var turn := Turn(|starts|, Conversation(rs, starts[|starts| - 1] + 1));
            var event := AudioHeard(rs[i].body.audio, if rate == 0 then env.defaultRate else rate);
            && |Groups(BodyCalls(env, rs))| > i + 1
            && Groups(BodyCalls(env, rs))[i + 1] ==
               [Pull(i), RegisterStream(Conversation(rs, i + 1)), CancelNoInputTimer(turn),
                OnInboundAudio(turn, !HeardBefore(rs, i)), Dispatch(event, turn), ResolveInput(event, turn)]
  {
    hide Groups, Conversation, TurnAfter, Starts, AudioBefore, HeardBefore;
    GroupOfRequest(env, rs, i);
    TurnIsOfTheLastStart(rs, i);
    HeardMeansAudioBefore(rs, i);
  }

  /** Key presses go to the handlers and to whoever waits, if any of them is known. */
  lemma KeyPressesAreHandled(env: Env, rs: seq<Request>, i: nat)
    requires i < Read(rs) && Conversation(rs, i + 1) != "" && Starts(rs, i) != [] && rs[i].body.DtmfInput?
    ensures var (starts, digits) := (Starts(rs, i), Digits(env.dtmf, rs[i].body.keys));
            var turn := Turn(|starts|, Conversation(rs, starts[|starts| - 1] + 1));
            && |Groups(BodyCalls(env, rs))| > i + 1
            && Groups(BodyCalls(env, rs))[i + 1] ==
               [Pull(i), RegisterStream(Conversation(rs, i + 1))] +
               if digits == "" then []
               else [Dispatch(DigitsPressed(digits), turn), ResolveInput(DigitsPressed(digits), turn)]
  {
    hide Groups, Conversation, TurnAfter, Starts, Digits;
    GroupOfRequest(env, rs, i);
    TurnIsOfTheLastStart(rs, i);
  }

  /** Silence cancels the timer of the turn; other events and empty requests are only registered. */
  lemma OtherRequestsAreRegistered(env: Env, rs: seq<Request>, i: nat)
    requires i < Read(rs) && Conversation(rs, i + 1) != ""
    requires rs[i].body == EventInput(NoInput) || rs[i].body == EventInput(OtherEvent) || rs[i].body == NoBody
    ensures var starts := Starts(rs, i);
            && |Groups(BodyCalls(env, rs))| > i + 1
            && Groups(BodyCalls(env, rs))[i + 1] ==
               [Pull(i), RegisterStream(Conversation(rs, i + 1))] +
               if starts == [] || rs[i].body != EventInput(NoInput) then []
               else [CancelNoInputTimer(Turn(|starts|, Conversation(rs, starts[|starts| - 1] + 1)))]
  {
    hide Groups, Conversation, TurnAfter, Starts;
    GroupOfRequest(env, rs, i);
    TurnIsOfTheLastStart(rs, i);
  }

  /* ---------- Sessions announced over the whole stream ---------- */

  /** The session starts the handlers are told of, each with its turn. */
  function Announced(calls: seq<Call>): seq<(string, Turn)> {
    if calls == [] then []
    else
      Announced(calls[..|calls| - 1]) +
      match calls[|calls| - 1]
      case Dispatch(SessionStarted(c), turn) => [(c, turn)]
      case _ => []
  }

  lemma {:induction false} AnnouncedInParts(a: seq<Call>, b: seq<Call>)
    ensures Announced(a + b) == Announced(a) + Announced(b)
  {
    if b == [] {
      assert a + b == a;
    } else {
      var front := b[..|b| - 1];
      AnnouncedInParts(a, front);
      LastOfSum(a, b);
      Regroup(Announced(a), Announced(front), Announced(b)[|Announced(front)|..]);
    }
  }

  lemma {:induction false} NothingAnnounced(calls: seq<Call>)
    requires forall call | call in calls :: !(call.Dispatch? && call.event.SessionStarted?)
    ensures Announced(calls) == []
  {
    if calls == [] {
    } else {
      assert calls[|calls| - 1] in calls;
      NothingAnnounced(calls[..|calls| - 1]);
    }
  }

  /** One announcement per effective session start, in order. */
  function Expectation(rs: seq<Request>, n: nat): seq<(string, Turn)>
    requires n <= |rs|
  {
    var starts := Starts(rs, n);
    seq(|starts|, k requires 0 <= k < |starts| =>
      (Conversation(rs, starts[k] + 1), Turn(k + 1, Conversation(rs, starts[k] + 1))))
  }

  lemma AnnouncedByOne(env: Env, rs: seq<Request>, i: nat)
    requires i < |rs|
    ensures Announced(Emitted(env, rs, i)) ==
            if Conversation(rs, i + 1) != "" && rs[i].body == EventInput(SessionStart) then
              [(Conversation(rs, i + 1), Turn(|Starts(rs, i + 1)|, Conversation(rs, i + 1)))]
            else []
  {
    hide Announced, Conversation, Starts, Emitted;
    if Conversation(rs, i + 1) != "" && rs[i].body == EventInput(SessionStart) {
      AnnouncedAtStart(env, rs, i);
    } else {
      NoAnnouncement(env, rs, i);
      NothingAnnounced(Emitted(env, rs, i));
    }
  }

  lemma AnnouncedAtStart(env: Env, rs: seq<Request>, i: nat)
    requires i < |rs| && Conversation(rs, i + 1) != "" && rs[i].body == EventInput(SessionStart)
    ensures Announced(Emitted(env, rs, i)) ==
            [(Conversation(rs, i + 1), Turn(|Starts(rs, i + 1)|, Conversation(rs, i + 1)))]
  {
    hide Announced, Conversation, TurnAfter, Starts, AudioBefore, InputEvent;
    TurnIsOfTheLastStart(rs, i + 1);
    LastStartIsHere(rs, i);
    var c := Conversation(rs, i + 1);
    var turn := Turn(|Starts(rs, i + 1)|, c);
    var quiet: seq<Call> :=
      [Pull(i), RegisterStream(c), GetOrCreateSession(c), BindTurn(turn, env.turnCount(turn.nth) + 1), StartTurn(turn)];
    assert Emitted(env, rs, i) == quiet + [Dispatch(SessionStarted(c), turn)];
    AnnouncedInParts(quiet, [Dispatch(SessionStarted(c), turn)]);
    NothingAnnounced(quiet);
    AnnouncedAlone(c, turn);
  }

  lemma NoAnnouncement(env: Env, rs: seq<Request>, i: nat)
    requires i < |rs| && !(Conversation(rs, i + 1) != "" && rs[i].body == EventInput(SessionStart))
    ensures forall call | call in Emitted(env, rs, i) :: !(call.Dispatch? && call.event.SessionStarted?)
  {
    hide Conversation, TurnAfter, AudioBefore;
    assert forall call | call in Handling(env, rs, i) :: !(call.Dispatch? && call.event.SessionStarted?);
  }

  lemma LastStartIsHere(rs: seq<Request>, i: nat)
    requires i < |rs| && Conversation(rs, i + 1) != "" && rs[i].body == EventInput(SessionStart)
    ensures Starts(rs, i + 1) == Starts(rs, i) + [i]
  {
  }

  lemma AnnouncedAlone(c: string, turn: Turn)
    ensures Announced([Dispatch(SessionStarted(c), turn)]) == [(c, turn)]
  {
    assert [Dispatch(SessionStarted(c), turn)][..0] == [];
  }

  lemma {:induction false} AnnouncedUpTo(env: Env, rs: seq<Request>, n: nat)
    requires n <= |rs|
    ensures Announced(EmittedUpTo(env, rs, n)) == Expectation(rs, n)
  {
    hide Emitted, EmittedUpTo, Announced, Conversation;
    if n == 0 {
      NothingEmittedYet(env, rs);
      NothingAnnounced(EmittedUpTo(env, rs, 0));
    } else {
      AnnouncedUpTo(env, rs, n - 1);
      OneMoreRequest(env, rs, n);
      AnnouncedInParts(EmittedUpTo(env, rs, n - 1), Emitted(env, rs, n - 1));
      AnnouncedByOne(env, rs, n - 1);
    }
  }

  /**
   The handlers are told of exactly the effective session starts that are read, in order, each with its
   conversation and with its own new turn.
   */
  lemma EverySessionIsAnnouncedOnce(env: Env, rs: seq<Request>)
    ensures Announced(BodyCalls(env, rs)) == Expectation(rs, Read(rs))
  {
    hide EmittedUpTo, Announced, Expectation;
    AnnouncedUpTo(env, rs, Read(rs));
    if EndFrom(rs, 0) == |rs| {
      AnnouncedInParts(EmittedUpTo(env, rs, |rs|), [Pull(|rs|)]);
      NothingAnnounced([Pull(|rs|)]);
    }
  }

  /* ---------- How the body's failure is reported ---------- */

  lemma {:induction false} LastTurnIsTheLastBound(calls: seq<Call>, p: nat)
    requires p < |calls| && calls[p].BindTurn? && forall q | p < q < |calls| :: !calls[q].BindTurn?
    ensures LastTurn(calls) == Some(calls[p].turn)
  {
    if p == |calls| - 1 {
    } else {
      LastTurnIsTheLastBound(calls[..|calls| - 1], p);
    }
  }

  lemma {:induction false} NoTurnBound(calls: seq<Call>)
    requires forall q | 0 <= q < |calls| :: !calls[q].BindTurn?
    ensures LastTurn(calls) == None
  {
    if calls == [] {
    } else {
      NoTurnBound(calls[..|calls| - 1]);
    }
  }

  /**
   If call k of the body is the first that raises, no later call of the body is made, and the next calls
   are: the status for a duplicate stream or a bad token; for another error the handlers' own, with the
   turn bound last, if one was bound; none for a cancellation. Then comes the closing.
   */
  lemma FailuresAreReported(env: Env, rs: seq<Request>, k: nat)
    requires k < |BodyCalls(env, rs)| && env.faults(k).Some? && forall j: nat | j < k :: env.faults(j).None?
    ensures var (made, trace) := (BodyCalls(env, rs)[..k + 1], ReaderTrace(env, rs));
            && |trace| > k + 1 && made <= trace
            && match env.faults(k).value
               case DuplicateStream => trace[k + 1] == SetStatus(AlreadyExists)
               case BadToken => trace[k + 1] == SetStatus(Unauthenticated)
               case Cancelled => trace[k + 1].UnregisterStream? || trace[k + 1] == QueueEnd
               case OtherError =>
                 && (forall p: nat | p <= k && made[p].BindTurn? && (forall q | p < q <= k :: !made[q].BindTurn?) ::
                       trace[k + 1] == HandleHandlerError(made[p].turn))
                 && ((forall p | 0 <= p <= k :: !made[p].BindTurn?) ==>
                       trace[k + 1].UnregisterStream? || trace[k + 1] == QueueEnd)
  {
    hide BodyCalls, LastTurn, LastRegistered;
    var (calls, faults) := (BodyCalls(env, rs), env.faults);
    var made := calls[..k + 1];
    StopsAtTheFault(calls, faults, k);
    var fault := faults(k).value;
    var handled := Handled(made, Fail(fault), faults).0;
    ClosingAddsCalls(handled, LastRegistered(made), faults);
    if fault.OtherError? {
      HandlerErrorIsNext(made, faults);
      forall p: nat | p <= k && made[p].BindTurn? && (forall q | p < q <= k :: !made[q].BindTurn?)
        ensures LastTurn(made) == Some(made[p].turn)
      {
        LastTurnIsTheLastBound(made, p);
      }
      if forall p | 0 <= p <= k :: !made[p].BindTurn? {
        NoTurnBound(made);
      }
    }
  }

  lemma HandlerErrorIsNext(made: seq<Call>, faults: nat -> Option<Fault>)
    ensures Handled(made, Fail(OtherError), faults).0 ==
            made + if LastTurn(made).Some? then [HandleHandlerError(LastTurn(made).value)] else []
  {
    hide LastTurn, Execute;
    if LastTurn(made).Some? {
      ExecuteOne(made, HandleHandlerError(LastTurn(made).value), faults);
    }
  }

  lemma StopsAtTheFault(calls: seq<Call>, faults: nat -> Option<Fault>, k: nat)
    requires k < |calls| && faults(k).Some? && forall j: nat | j < k :: faults(j).None?
    ensures Execute([], calls, faults) == (calls[..k + 1], Fail(faults(k).value))
  {
    hide Execute;
    var m := ExecuteMakesAPrefix([], calls, faults);
    assert [] + calls[..m] == calls[..m];
  }

  lemma ClosingAddsCalls(handled: seq<Call>, last: string, faults: nat -> Option<Fault>)
    ensures var trace := Closed(handled, last, faults).0;
            && handled <= trace && |trace| > |handled|
            && (trace[|handled|].UnregisterStream? || trace[|handled|] == QueueEnd)
  {
    if last != "" {
      ExecuteOne(handled, UnregisterStream(last), faults);
    }
  }

  /** Only streams that were registered are unregistered, each at most once. */
  lemma UnregistersOnlyWhatItRegistered(env: Env, rs: seq<Request>, id: string)
    requires UnregisterStream(id) in ReaderTrace(env, rs)
    ensures RegisterStream(id) in ReaderTrace(env, rs)
    ensures forall p, q | 0 <= p < q < |ReaderTrace(env, rs)| ::
              !(ReaderTrace(env, rs)[p].UnregisterStream? && ReaderTrace(env, rs)[q].UnregisterStream?)
  {
    hide LastRegistered, IsConversation, FaultFree, Read;
    var calls := ShapeOfReaderTrace(env, rs);
    var last := LastRegistered(calls);
    assert forall p | 0 <= p < |calls| :: calls[p] in calls;
    if last != "" {
      ExecuteOne(calls, UnregisterStream(last), env.faults);
      RegisteredLast(calls);
    }
    hide ReaderTrace;
  }

  lemma RegisteredLast(calls: seq<Call>)
    requires LastRegistered(calls) != ""
    ensures RegisterStream(LastRegistered(calls)) in calls
  {
    LastRegisteredIsThere(calls);
    var p :| 0 <= p < |calls| && calls[p] == RegisterStream(LastRegistered(calls));
  }
}
