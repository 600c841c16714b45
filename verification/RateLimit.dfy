/** The sliding-window webhook rate limit (`src/common/middleware.py`). */
module RateLimit {
  import opened Results

  const WINDOW := 60.0
  const UNKNOWN := "unknown"

  /** An HTTP request: its method and path, its peer address, and the time it arrives. */
  datatype Request = Request(httpMethod: string, path: string, host: Option<string>, now: real) {
    predicate IsWebhook() {
      httpMethod == "POST" && path == "/webhooks/webex"
    }
  }

  datatype Decision = PassedThrough | Admitted | Rejected

  function Client(r: Request): string {
    if r.host.Some? then r.host.value else UNKNOWN
  }

  /** Times of hits per client; a client without an entry has none. */
  type Hits = map<string, seq<real>>

  function HitsOf(hits: Hits, client: string): seq<real> {
    if client in hits then hits[client] else []
  }

  /** `[t for t in times if t >= start]`. */
  function Prune(times: seq<real>, start: real): (r: seq<real>)
    ensures |r| <= |times|
    ensures forall t :: t in r <==> t in times && t >= start
  {
    if times == [] then []
    else
      var last := times[|times| - 1];
      assert times == times[..|times| - 1] + [last];
      Prune(times[..|times| - 1], start) + if last >= start then [last] else []
  }

  /** One request: prune, then admit if fewer than `limit` hits are left. */
  function Step(hits: Hits, limit: int, r: Request): (Hits, Decision) {
    if !r.IsWebhook() then (hits, PassedThrough)
    else
      var recent := Prune(HitsOf(hits, Client(r)), r.now - WINDOW);
      if |recent| >= limit then (hits[Client(r) := recent], Rejected)
      else (hits[Client(r) := recent + [r.now]], Admitted)
  }

  class WebhookRateLimitMiddleware {
    const limit: int
    var hits: Hits

    constructor (limitPerMinute: int)
      ensures limit == limitPerMinute && hits == map[]
    {
      limit := limitPerMinute;
      hits := map[];
    }

    method Dispatch(r: Request) returns (decision: Decision)
      modifies this
      ensures (hits, decision) == Step(old(hits), limit, r)
    {
      if !r.IsWebhook() {
        return PassedThrough;
      }
      var client := if r.host.Some? then r.host.value else UNKNOWN;
      var windowStart := r.now - WINDOW;
      hits := hits[client := Prune(HitsOf(hits, client), windowStart)];
      if |hits[client]| >= limit {
        return Rejected;
      }
      hits := hits[client := hits[client] + [r.now]];
      assert hits == Step(old(hits), limit, r).0;
      return Admitted;
    }
  }

  /* ---------- The limiter that forgets nothing ---------- */

  /** How many times lie in the closed interval. */
  function CountIn(times: seq<real>, from: real, to: real): nat {
    if times == [] then 0
    else
      var last := times[|times| - 1];
      CountIn(times[..|times| - 1], from, to) + if from <= last <= to then 1 else 0
  }

  /** Keep every admission for ever; admit while fewer than `limit` lie in the last 60 seconds. */
  function FullStep(history: Hits, limit: int, r: Request): (Hits, Decision) {
    if !r.IsWebhook() then (history, PassedThrough)
    else
      var past := HitsOf(history, Client(r));
      if CountIn(past, r.now - WINDOW, r.now) >= limit then (history, Rejected)
      else (history[Client(r) := past + [r.now]], Admitted)
  }

  /* ---------- Runs ---------- */

  function Run(limit: int, rs: seq<Request>): Hits {
    if rs == [] then map[] else Step(Run(limit, rs[..|rs| - 1]), limit, rs[|rs| - 1]).0
  }

  function FullRun(limit: int, rs: seq<Request>): Hits {
    if rs == [] then map[] else FullStep(FullRun(limit, rs[..|rs| - 1]), limit, rs[|rs| - 1]).0
  }

  /** The decision on a request after a run of others. */
  function Decide(limit: int, rs: seq<Request>, r: Request): Decision {
    Step(Run(limit, rs), limit, r).1
  }

  /** The clock never goes back. */
  ghost predicate ClockForward(rs: seq<Request>) {
    forall i, j | 0 <= i < j < |rs| :: rs[i].now <= rs[j].now
  }

  ghost predicate NotAfter(times: seq<real>, clock: real) {
    forall i | 0 <= i < |times| :: times[i] <= clock
  }

  ghost predicate InOrder(times: seq<real>) {
    forall i, j | 0 <= i < j < |times| :: times[i] <= times[j]
  }

  /* ---------- The pruned buffer refines the full history ---------- */

  lemma {:induction false} PruneTwice(times: seq<real>, a: real, b: real)
    requires a <= b
    ensures Prune(Prune(times, a), b) == Prune(times, b)
  {
    if times == [] {
    } else {
      var front, last := times[..|times| - 1], times[|times| - 1];
      PruneTwice(front, a, b);
      if last >= a {
        PruneOfOneMore(Prune(front, a), b, last);
      } else {
        assert Prune(times, a) == Prune(front, a);
      }
    }
  }

  lemma PruneOfOneMore(times: seq<real>, start: real, t: real)
    ensures Prune(times + [t], start) == Prune(times, start) + if t >= start then [t] else []
  {
    assert (times + [t])[..|times|] == times;
  }

  lemma {:induction false} PrunedLengthIsCount(times: seq<real>, start: real, clock: real)
    requires NotAfter(times, clock)
    ensures |Prune(times, start)| == CountIn(times, start, clock)
  {
    if times == [] {
    } else {
      PrunedLengthIsCount(times[..|times| - 1], start, clock);
    }
  }

  /** The buffer is what is left of the full history after pruning at some earlier moment. */
  ghost predicate Remembers(buffer: seq<real>, past: seq<real>, clock: real) {
    && NotAfter(past, clock) && InOrder(past) && InOrder(buffer)
    && exists start :: start <= clock - WINDOW && buffer == Prune(past, start)
  }

  lemma PruneOfEarlier(times: seq<real>, start: real, clock: real)
    requires NotAfter(times, clock)
    ensures NotAfter(Prune(times, start), clock)
  {
    forall i | 0 <= i < |Prune(times, start)| ensures Prune(times, start)[i] <= clock {
      assert Prune(times, start)[i] in Prune(times, start);
    }
  }

  ghost predicate Refines(hits: Hits, history: Hits, limit: int, clock: real) {
    forall c :: RefinesFor(hits, history, limit, clock, c)
  }

  /** One client's buffer is in order, within the limit, and agrees with its full history. */
  ghost predicate RefinesFor(hits: Hits, history: Hits, limit: int, clock: real, client: string) {
    && Remembers(HitsOf(hits, client), HitsOf(history, client), clock)
    && |HitsOf(hits, client)| <= (if limit > 0 then limit else 0)
  }

  lemma {:induction false} PruneKeepsOrder(times: seq<real>, start: real)
    requires InOrder(times)
    ensures InOrder(Prune(times, start))
  {
    if times == [] {
    } else {
      PruneKeepsOrder(times[..|times| - 1], start);
      PruneOfEarlier(times[..|times| - 1], start, times[|times| - 1]);
    }
  }

  /** One webhook request of one client, on its buffer and on its full history. */
  lemma BucketRefines(buffer: seq<real>, past: seq<real>, clock: real, now: real)
    requires Remembers(buffer, past, clock) && clock <= now
    ensures var recent := Prune(buffer, now - WINDOW);
            && |recent| == CountIn(past, now - WINDOW, now)
            && Remembers(recent, past, now)
            && Remembers(recent + [now], past + [now], now)
  {
    hide Prune, CountIn;
    var start :| start <= clock - WINDOW && buffer == Prune(past, start);
    var recent := Prune(buffer, now - WINDOW);
    assert NotAfter(past, now);
    PruneTwice(past, start, now - WINDOW);
    PrunedLengthIsCount(past, now - WINDOW, now);
    PruneKeepsOrder(past, now - WINDOW);
    PruneOfEarlier(past, now - WINDOW, now);
    PruneOfOneMore(past, now - WINDOW, now);
    assert recent + [now] == Prune(past + [now], now - WINDOW);
    OneMoreInOrder(past, now);
    OneMoreInOrder(recent, now);
  }

  lemma OneMoreInOrder(times: seq<real>, now: real)
    requires InOrder(times) && NotAfter(times, now)
    ensures InOrder(times + [now]) && NotAfter(times + [now], now)
  {
  }

  lemma LaterStillRemembers(buffer: seq<real>, past: seq<real>, clock: real, now: real)
    requires Remembers(buffer, past, clock) && clock <= now
    ensures Remembers(buffer, past, now)
  {
    var start :| start <= clock - WINDOW && buffer == Prune(past, start);
    assert start <= now - WINDOW;
  }

  lemma StepRefines(hits: Hits, history: Hits, limit: int, clock: real, r: Request)
    requires Refines(hits, history, limit, clock) && clock <= r.now
    ensures var (hits', decision) := Step(hits, limit, r);
            var (history', reference) := FullStep(history, limit, r);
            decision == reference && Refines(hits', history', limit, r.now)
  {
    hide Remembers, Prune, CountIn;
    var c := Client(r);
    assert RefinesFor(hits, history, limit, clock, c);
    BucketRefines(HitsOf(hits, c), HitsOf(history, c), clock, r.now);
    var hits', history' := Step(hits, limit, r).0, FullStep(history, limit, r).0;
    forall d ensures RefinesFor(hits', history', limit, r.now, d) {
      assert RefinesFor(hits, history, limit, clock, d);
      LaterStillRemembers(HitsOf(hits, d), HitsOf(history, d), clock, r.now);
    }
  }

  lemma {:induction false} RunRefines(limit: int, rs: seq<Request>)
    requires ClockForward(rs)
    ensures rs != [] ==> Refines(Run(limit, rs), FullRun(limit, rs), limit, rs[|rs| - 1].now)
    ensures forall r: Request | ClockForward(rs + [r]) ::
              Decide(limit, rs, r) == FullStep(FullRun(limit, rs), limit, r).1
  {
    hide Run, FullRun, Refines, ClockForward, Decide, FullStep;
    if rs == [] {
    } else {
      var front, last := rs[..|rs| - 1], rs[|rs| - 1];
      assert front + [last] == rs;
      FrontStaysForward(front, last);
      RunRefines(limit, front);
      NextRefines(limit, front, last);
    }
    forall r: Request | ClockForward(rs + [r])
      ensures Decide(limit, rs, r) == FullStep(FullRun(limit, rs), limit, r).1
    {
      NextRefines(limit, rs, r);
    }
  }

  lemma NextRefines(limit: int, rs: seq<Request>, r: Request)
    requires ClockForward(rs + [r])
    requires rs != [] ==> Refines(Run(limit, rs), FullRun(limit, rs), limit, rs[|rs| - 1].now)
    ensures Decide(limit, rs, r) == FullStep(FullRun(limit, rs), limit, r).1
    ensures Refines(Run(limit, rs + [r]), FullRun(limit, rs + [r]), limit, r.now)
  {
    hide Run, FullRun, Refines, Step, FullStep;
    RunOfOneMore(limit, rs, r);
    if rs == [] {
      EmptyRuns(limit);
      EmptyRefines(limit, r.now);
      StepRefines(map[], map[], limit, r.now, r);
    } else {
      assert (rs + [r])[|rs| - 1] == rs[|rs| - 1] && (rs + [r])[|rs|] == r;
      StepRefines(Run(limit, rs), FullRun(limit, rs), limit, rs[|rs| - 1].now, r);
    }
  }

  lemma EmptyRefines(limit: int, clock: real)
    ensures Refines(map[], map[], limit, clock)
  {
    assert clock - WINDOW <= clock - WINDOW && Prune([], clock - WINDOW) == [];
  }

  /* ---------- Clients do not affect each other ---------- */

  function RequestsOf(rs: seq<Request>, client: string): seq<Request> {
    if rs == [] then []
    else
      var last := rs[|rs| - 1];
      RequestsOf(rs[..|rs| - 1], client) + if last.IsWebhook() && Client(last) == client then [last] else []
  }

  /** A request changes the hits of its own client only, and they depend on nothing else. */
  lemma StepOnOwnHits(busy: Hits, alone: Hits, limit: int, r: Request, client: string)
    ensures r.IsWebhook() && Client(r) == client && HitsOf(busy, client) == HitsOf(alone, client) ==>
              && HitsOf(Step(busy, limit, r).0, client) == HitsOf(Step(alone, limit, r).0, client)
              && HitsOf(FullStep(busy, limit, r).0, client) == HitsOf(FullStep(alone, limit, r).0, client)
    ensures !(r.IsWebhook() && Client(r) == client) ==>
              && HitsOf(Step(busy, limit, r).0, client) == HitsOf(busy, client)
              && HitsOf(FullStep(busy, limit, r).0, client) == HitsOf(busy, client)
  {
    hide Prune, CountIn;
  }

  lemma {:induction false} OwnHitsOnly(limit: int, rs: seq<Request>, client: string)
    ensures HitsOf(Run(limit, rs), client) == HitsOf(Run(limit, RequestsOf(rs, client)), client)
    ensures HitsOf(FullRun(limit, rs), client) == HitsOf(FullRun(limit, RequestsOf(rs, client)), client)
  {
    if rs == [] {
    } else {
      hide Step, FullStep, HitsOf, Run, FullRun;
      var front, last := rs[..|rs| - 1], rs[|rs| - 1];
      StepOnOwnHits(Run(limit, front), Run(limit, RequestsOf(front, client)), limit, last, client);
      StepOnOwnHits(FullRun(limit, front), FullRun(limit, RequestsOf(front, client)), limit, last, client);
      OwnHitsOnly(limit, front, client);
      var own := RequestsOf(front, client);
      assert rs == front + [last];
      RunOfOneMore(limit, front, last);
      if last.IsWebhook() && Client(last) == client {
        RunOfOneMore(limit, own, last);
        assert RequestsOf(rs, client) == own + [last];
      } else {
        assert RequestsOf(rs, client) == own;
      }
    }
  }

  /** A client's decisions are those it would get if it were alone; other paths are never limited. */
  lemma ClientsAreIsolated(limit: int, rs: seq<Request>, r: Request)
    ensures Decide(limit, rs, r) == Decide(limit, RequestsOf(rs, Client(r)), r)
    ensures Decide(limit, rs, r) == PassedThrough <==> !r.IsWebhook()
  {
    hide Run, RequestsOf;
    OwnHitsOnly(limit, rs, Client(r));
  }

  /**
   As long as the clock does not go back between webhook requests of one client, its buffer agrees
   with its full history, and its next request is decided as by the limiter that forgets nothing.
   */
  lemma BufferRefinesHistory(limit: int, rs: seq<Request>, r: Request)
    requires ClockForward(RequestsOf(rs + [r], Client(r)))
    ensures Decide(limit, rs, r) == FullStep(FullRun(limit, rs), limit, r).1
    ensures var own := RequestsOf(rs, Client(r));
            own != [] ==> RefinesFor(Run(limit, rs), FullRun(limit, rs), limit, own[|own| - 1].now, Client(r))
  {
    hide Run, FullRun, Step, FullStep, HitsOf, RefinesFor, ClockForward;
    var (client, own) := (Client(r), RequestsOf(rs, Client(r)));
    assert (rs + [r])[..|rs|] == rs;
    if r.IsWebhook() {
      assert RequestsOf(rs + [r], client) == own + [r];
      FrontStaysForward(own, r);
    } else {
      assert RequestsOf(rs + [r], client) == own;
    }
    OwnHitsOnly(limit, rs, client);
    RunRefines(limit, own);
    if own != [] {
      OnlyOwnHitsCount(Run(limit, rs), Run(limit, own), FullRun(limit, rs), FullRun(limit, own), limit,
                       own[|own| - 1].now, client, r);
    } else {
      OnlyOwnHitsCount(Run(limit, rs), Run(limit, own), FullRun(limit, rs), FullRun(limit, own), limit, 0.0, client, r);
    }
    if !r.IsWebhook() {
      PassesThrough(Run(limit, rs), FullRun(limit, rs), limit, r);
    }
  }

  lemma PassesThrough(hits: Hits, history: Hits, limit: int, r: Request)
    requires !r.IsWebhook()
    ensures Step(hits, limit, r).1 == FullStep(history, limit, r).1 == PassedThrough
  {
  }

  /** Decisions on a client, and what is said of its buffer, depend on its own hits. */
  lemma OnlyOwnHitsCount(
    busy: Hits, alone: Hits, busyHistory: Hits, aloneHistory: Hits, limit: int, clock: real, client: string, r: Request)
    requires HitsOf(busy, client) == HitsOf(alone, client) && Client(r) == client
    requires HitsOf(busyHistory, client) == HitsOf(aloneHistory, client)
    ensures Step(busy, limit, r).1 == Step(alone, limit, r).1
    ensures FullStep(busyHistory, limit, r).1 == FullStep(aloneHistory, limit, r).1
    ensures RefinesFor(busy, busyHistory, limit, clock, client) <==>
            RefinesFor(alone, aloneHistory, limit, clock, client)
  {
    hide Prune, CountIn, Remembers;
  }

  lemma FrontStaysForward(rs: seq<Request>, r: Request)
    requires ClockForward(rs + [r])
    ensures ClockForward(rs)
  {
    assert forall i | 0 <= i < |rs| :: (rs + [r])[i] == rs[i];
  }

  /* ---------- The bound ---------- */

  lemma {:induction false} WiderCountsMore(times: seq<real>, a: real, b: real, from: real, to: real)
    requires forall i | 0 <= i < |times| && a <= times[i] <= b :: from <= times[i] <= to
    ensures CountIn(times, a, b) <= CountIn(times, from, to)
  {
    if times == [] {
    } else {
      WiderCountsMore(times[..|times| - 1], a, b, from, to);
    }
  }

  lemma CountOfOneMore(times: seq<real>, t: real, from: real, to: real)
    ensures CountIn(times + [t], from, to) == CountIn(times, from, to) + if from <= t <= to then 1 else 0
  {
    assert (times + [t])[..|times|] == times;
  }

  /** Admissions of a client are never after the clock. */
  lemma {:induction false} AdmissionsNotAfterClock(limit: int, rs: seq<Request>, client: string)
    requires ClockForward(rs)
    ensures rs != [] ==> NotAfter(HitsOf(FullRun(limit, rs), client), rs[|rs| - 1].now)
    ensures rs == [] ==> HitsOf(FullRun(limit, rs), client) == []
  {
    if rs == [] {
    } else {
      AdmissionsNotAfterClock(limit, rs[..|rs| - 1], client);
    }
  }

  lemma {:induction false} HistoryStaysInBound(limit: int, rs: seq<Request>, client: string, from: real)
    requires ClockForward(rs)
    ensures CountIn(HitsOf(FullRun(limit, rs), client), from, from + WINDOW) <= if limit > 0 then limit else 0
  {
    if rs == [] {
    } else {
      var front, r := rs[..|rs| - 1], rs[|rs| - 1];
      HistoryStaysInBound(limit, front, client, from);
      AdmissionsNotAfterClock(limit, front, client);
      assert NotAfter(HitsOf(FullRun(limit, front), client), r.now);
      assert FullRun(limit, rs) == FullStep(FullRun(limit, front), limit, r).0;
      hide FullRun, CountIn, FullStep, HitsOf;
      OneMoreKeepsTheBound(FullRun(limit, front), limit, r, client, from);
    }
  }

  lemma OneMoreKeepsTheBound(history: Hits, limit: int, r: Request, client: string, from: real)
    requires NotAfter(HitsOf(history, client), r.now)
    requires CountIn(HitsOf(history, client), from, from + WINDOW) <= if limit > 0 then limit else 0
    ensures CountIn(HitsOf(FullStep(history, limit, r).0, client), from, from + WINDOW) <=
            if limit > 0 then limit else 0
  {
    hide CountIn;
    var past := HitsOf(history, client);
    CountOfOneMore(past, r.now, from, from + WINDOW);
    if from <= r.now <= from + WINDOW {
      WiderCountsMore(past, from, from + WINDOW, r.now - WINDOW, r.now);
    }
  }

  /** When the middleware has admitted a client during a run. */
  function AdmittedTimes(limit: int, rs: seq<Request>, client: string): seq<real> {
    if rs == [] then []
    else
      var front, last := rs[..|rs| - 1], rs[|rs| - 1];
      AdmittedTimes(limit, front, client) +
      if Client(last) == client && Decide(limit, front, last) == Admitted then [last.now] else []
  }

  lemma AdmittedOfOneMore(limit: int, rs: seq<Request>, r: Request, client: string)
    ensures AdmittedTimes(limit, rs + [r], client) ==
            AdmittedTimes(limit, rs, client) +
            if Client(r) == client && Decide(limit, rs, r) == Admitted then [r.now] else []
  {
    assert (rs + [r])[..|rs|] == rs;
  }

  lemma {:induction false} AdmittedAsIfAlone(limit: int, rs: seq<Request>, client: string)
    ensures AdmittedTimes(limit, rs, client) == AdmittedTimes(limit, RequestsOf(rs, client), client)
  {
    if rs == [] {
    } else {
      hide Decide;
      var front, last := rs[..|rs| - 1], rs[|rs| - 1];
      AdmittedAsIfAlone(limit, front, client);
      ClientsAreIsolated(limit, front, last);
      if last.IsWebhook() && Client(last) == client {
        assert RequestsOf(rs, client) == RequestsOf(front, client) + [last];
        AdmittedOfOneMore(limit, RequestsOf(front, client), last, client);
      } else {
        assert RequestsOf(rs, client) == RequestsOf(front, client);
      }
    }
  }

  lemma NothingAdmittedYet(limit: int, client: string)
    ensures AdmittedTimes(limit, [], client) == HitsOf(FullRun(limit, []), client) == []
  {
  }

  /** While the clock does not go back, the admissions are the history of the limiter that forgets nothing. */
  lemma {:induction false} AdmittedIsTheHistory(limit: int, rs: seq<Request>, client: string)
    requires ClockForward(rs)
    ensures AdmittedTimes(limit, rs, client) == HitsOf(FullRun(limit, rs), client)
  {
    if rs == [] {
      NothingAdmittedYet(limit, client);
    } else {
      hide CountIn, Decide, Refines, FullRun, FullStep, HitsOf, AdmittedTimes, Run;
      var front, last := rs[..|rs| - 1], rs[|rs| - 1];
      AdmittedIsTheHistory(limit, front, client);
      assert front + [last] == rs;
      RunRefines(limit, front);
      AdmittedOfOneMore(limit, front, last, client);
      RunOfOneMore(limit, front, last);
      HistoryGrowsByAdmissions(FullRun(limit, front), limit, last, client);
    }
  }

  lemma HistoryGrowsByAdmissions(history: Hits, limit: int, r: Request, client: string)
    ensures var (history', decision) := FullStep(history, limit, r);
            HitsOf(history', client) ==
            HitsOf(history, client) + if Client(r) == client && decision == Admitted then [r.now] else []
  {
    hide CountIn;
  }

  /**
   As long as the clock does not go back between webhook requests of one client, each closed
   interval of 60 seconds holds at most `limit` of the requests the middleware has admitted for it
   (none at all for a limit below 1).
   */
  lemma AtMostLimitInAnyWindow(limit: int, rs: seq<Request>, client: string, from: real)
    requires ClockForward(RequestsOf(rs, client))
    ensures CountIn(AdmittedTimes(limit, rs, client), from, from + WINDOW) <= if limit > 0 then limit else 0
  {
    AdmittedAsIfAlone(limit, rs, client);
    AdmittedIsTheHistory(limit, RequestsOf(rs, client), client);
    HistoryStaysInBound(limit, RequestsOf(rs, client), client, from);
  }

  /* ---------- Peer by peer ---------- */

  /** A webhook request of a peer; those without an address, or called "unknown", are taken together. */
  predicate IsFrom(r: Request, peer: Option<string>) {
    && r.httpMethod == "POST" && r.path == "/webhooks/webex"
    && if peer.Some? then r.host == peer else r.host == None || r.host == Some("unknown")
  }

  function From(rs: seq<Request>, peer: Option<string>): seq<Request> {
    if rs == [] then []
    else From(rs[..|rs| - 1], peer) + if IsFrom(rs[|rs| - 1], peer) then [rs[|rs| - 1]] else []
  }

  function NameOf(peer: Option<string>): string {
    match peer
    case Some(host) => host
    case None => "unknown"
  }

  lemma {:induction false} FromPeerIsOfClient(rs: seq<Request>, peer: Option<string>)
    requires peer != Some("unknown")
    ensures From(rs, peer) == RequestsOf(rs, NameOf(peer))
  {
    if rs == [] {
    } else {
      FromPeerIsOfClient(rs[..|rs| - 1], peer);
    }
  }

  /**
   A request is decided as if its own peer were the only one; a request that is no POST to the webhook
   path always passes.
   */
  lemma PeersAreIsolated(limit: int, rs: seq<Request>, r: Request, peer: Option<string>)
    requires peer != Some("unknown")
    ensures IsFrom(r, peer) ==> Decide(limit, rs, r) == Decide(limit, From(rs, peer), r) != PassedThrough
    ensures !(r.httpMethod == "POST" && r.path == "/webhooks/webex") ==> Decide(limit, rs, r) == PassedThrough
  {
    hide Decide, From, RequestsOf;
    ClientsAreIsolated(limit, rs, r);
    if IsFrom(r, peer) {
      FromPeerIsOfClient(rs, peer);
    }
  }

  /** Request i is of the peer and was admitted at a time in the closed interval. */
  predicate AdmittedAt(limit: int, rs: seq<Request>, i: nat, peer: Option<string>, from: real, to: real)
    requires i < |rs|
  {
    IsFrom(rs[i], peer) && Decide(limit, rs[..i], rs[i]) == Admitted && from <= rs[i].now <= to
  }

  /** Which of a peer's requests were admitted at a time in the closed interval. */
  function AdmittedBetween(limit: int, rs: seq<Request>, peer: Option<string>, from: real, to: real): set<nat> {
    set i: nat | i < |rs| && AdmittedAt(limit, rs, i, peer, from, to)
  }

  lemma {:induction false} AdmittedBetweenIsCounted(
    limit: int, rs: seq<Request>, peer: Option<string>, from: real, to: real)
    requires peer != Some("unknown")
    ensures |AdmittedBetween(limit, rs, peer, from, to)| == CountIn(AdmittedTimes(limit, rs, NameOf(peer)), from, to)
  {
    hide Decide, CountIn, AdmittedBetween, AdmittedTimes, IsFrom;
    if rs == [] {
      NoneAdmitted(limit, peer, from, to);
    } else {
      var front, last := rs[..|rs| - 1], rs[|rs| - 1];
      assert rs == front + [last];
      AdmittedBetweenIsCounted(limit, front, peer, from, to);
      BetweenOfOneMore(limit, front, last, peer, from, to);
      AdmittedOfOneMore(limit, front, last, NameOf(peer));
      AdmittedAsPeer(limit, front, last, peer);
      var times := AdmittedTimes(limit, front, NameOf(peer));
      CountOfOneMore(times, last.now, from, to);
      assert times + [] == times;
    }
  }

  lemma BetweenOfOneMore(limit: int, rs: seq<Request>, r: Request, peer: Option<string>, from: real, to: real)
    ensures |AdmittedBetween(limit, rs + [r], peer, from, to)| ==
            |AdmittedBetween(limit, rs, peer, from, to)| +
            if IsFrom(r, peer) && Decide(limit, rs, r) == Admitted && from <= r.now <= to then 1 else 0
  {
    hide Decide, IsFrom, AdmittedAt;
    var before, after := AdmittedBetween(limit, rs, peer, from, to), AdmittedBetween(limit, rs + [r], peer, from, to);
    AdmittedAtLast(limit, rs, r, peer, from, to);
    forall i: nat | i < |rs|
      ensures AdmittedAt(limit, rs + [r], i, peer, from, to) <==> AdmittedAt(limit, rs, i, peer, from, to)
    {
      AdmittedAtEarlier(limit, rs, r, i, peer, from, to);
    }
    assert |rs| !in before;
    if AdmittedAt(limit, rs + [r], |rs|, peer, from, to) {
      assert after == before + {|rs|};
    } else {
      assert after == before;
    }
  }

  lemma AdmittedAtEarlier(
    limit: int, rs: seq<Request>, r: Request, i: nat, peer: Option<string>, from: real, to: real)
    requires i < |rs|
    ensures AdmittedAt(limit, rs + [r], i, peer, from, to) <==> AdmittedAt(limit, rs, i, peer, from, to)
  {
    hide Decide, IsFrom;
    assert (rs + [r])[i] == rs[i] && (rs + [r])[..i] == rs[..i];
  }

  lemma AdmittedAtLast(limit: int, rs: seq<Request>, r: Request, peer: Option<string>, from: real, to: real)
    ensures AdmittedAt(limit, rs + [r], |rs|, peer, from, to) <==>
            IsFrom(r, peer) && Decide(limit, rs, r) == Admitted && from <= r.now <= to
  {
    hide Decide, IsFrom;
    assert (rs + [r])[|rs|] == r && (rs + [r])[..|rs|] == rs;
  }

  lemma AdmittedAsPeer(limit: int, rs: seq<Request>, r: Request, peer: Option<string>)
    requires peer != Some("unknown")
    ensures Decide(limit, rs, r) == Admitted ==> (IsFrom(r, peer) <==> Client(r) == NameOf(peer))
  {
    hide Decide;
    OnlyWebhooksAreAdmitted(limit, rs, r);
  }

  lemma NoneAdmitted(limit: int, peer: Option<string>, from: real, to: real)
    ensures AdmittedBetween(limit, [], peer, from, to) == {}
    ensures CountIn(AdmittedTimes(limit, [], NameOf(peer)), from, to) == 0
  {
  }

  lemma OnlyWebhooksAreAdmitted(limit: int, rs: seq<Request>, r: Request)
    ensures Decide(limit, rs, r) == Admitted ==> r.httpMethod == "POST" && r.path == "/webhooks/webex"
  {
  }

  /** The clock does not go back between requests of the peer. */
  ghost predicate PeerForward(rs: seq<Request>, peer: Option<string>) {
    forall i, j | 0 <= i < j < |rs| && IsFrom(rs[i], peer) && IsFrom(rs[j], peer) :: rs[i].now <= rs[j].now
  }

  lemma {:induction false} PeerForwardIsClockForward(rs: seq<Request>, peer: Option<string>)
    requires PeerForward(rs, peer)
    ensures ClockForward(From(rs, peer))
  {
    hide IsFrom;
    if rs == [] {
    } else {
      var front, last := rs[..|rs| - 1], rs[|rs| - 1];
      assert forall i | 0 <= i < |front| :: front[i] == rs[i];
      PeerForwardIsClockForward(front, peer);
      var own := From(front, peer);
      if IsFrom(last, peer) {
        forall i | 0 <= i < |own| ensures own[i].now <= last.now {
          var k := PlaceInRun(front, peer, i);
          assert rs[k].now <= rs[|rs| - 1].now;
        }
        assert From(rs, peer) == own + [last];
        OneLater(own, last);
      } else {
        assert From(rs, peer) == own;
      }
    }
  }

  lemma OneLater(rs: seq<Request>, r: Request)
    requires ClockForward(rs) && forall i | 0 <= i < |rs| :: rs[i].now <= r.now
    ensures ClockForward(rs + [r])
  {
  }

  lemma {:induction false} PlaceInRun(rs: seq<Request>, peer: Option<string>, i: nat) returns (k: nat)
    requires i < |From(rs, peer)|
    ensures k < |rs| && rs[k] == From(rs, peer)[i] && IsFrom(rs[k], peer)
  {
    if i == |From(rs, peer)| - 1 && IsFrom(rs[|rs| - 1], peer) {
      k := |rs| - 1;
    } else {
      k := PlaceInRun(rs[..|rs| - 1], peer, i);
    }
  }

  /**
   A webhook request is admitted exactly if fewer than `limit` requests of its peer were admitted in the
   60 seconds up to it, and is rejected otherwise.
   */
  lemma PeerIsAdmittedBelowTheLimit(limit: int, rs: seq<Request>, r: Request, peer: Option<string>)
    requires peer != Some("unknown") && IsFrom(r, peer) && PeerForward(rs + [r], peer)
    ensures Decide(limit, rs, r) ==
            if |AdmittedBetween(limit, rs, peer, r.now - 60.0, r.now)| < limit then Admitted else Rejected
  {
    hide Decide, AdmittedBetween, AdmittedTimes, CountIn, FullRun, From, RequestsOf, PeerForward, ClockForward;
    var client := NameOf(peer);
    PeerForwardIsClockForward(rs + [r], peer);
    FromPeerIsOfClient(rs + [r], peer);
    BufferRefinesHistory(limit, rs, r);
    HistoryIsAdmittedTimes(limit, rs, r, client);
    AdmittedBetweenIsCounted(limit, rs, peer, r.now - 60.0, r.now);
  }

  lemma HistoryIsAdmittedTimes(limit: int, rs: seq<Request>, r: Request, client: string)
    requires ClockForward(RequestsOf(rs + [r], client)) && r.IsWebhook() && Client(r) == client
    ensures HitsOf(FullRun(limit, rs), client) == AdmittedTimes(limit, rs, client)
  {
    hide Decide, FullRun, HitsOf, AdmittedTimes, ClockForward;
    var own := RequestsOf(rs, client);
    assert (rs + [r])[..|rs|] == rs;
    assert RequestsOf(rs + [r], client) == own + [r];
    FrontStaysForward(own, r);
    OwnHitsOnly(limit, rs, client);
    AdmittedAsIfAlone(limit, rs, client);
    AdmittedIsTheHistory(limit, own, client);
  }

  /** No closed interval of 60 seconds holds more than `limit` admitted requests of a peer. */
  lemma PeerStaysInBound(limit: int, rs: seq<Request>, peer: Option<string>, from: real)
    requires peer != Some("unknown") && PeerForward(rs, peer)
    ensures |AdmittedBetween(limit, rs, peer, from, from + 60.0)| <= if limit > 0 then limit else 0
  {
    hide AdmittedBetween, AdmittedTimes, CountIn, From, RequestsOf, PeerForward, ClockForward;
    PeerForwardIsClockForward(rs, peer);
    FromPeerIsOfClient(rs, peer);
    AtMostLimitInAnyWindow(limit, rs, NameOf(peer), from);
    AdmittedBetweenIsCounted(limit, rs, peer, from, from + 60.0);
  }

  /* ---------- Why the clock must not go back ---------- */

  function Hit(now: real): Request {
    Request("POST", "/webhooks/webex", None, now)
  }

  lemma PruneOfTwo(a: real, b: real, start: real)
    ensures Prune([a], start) == if a >= start then [a] else []
    ensures Prune([a, b], start) == Prune([a], start) + if b >= start then [b] else []
  {
    assert [a][..0] == [] && [a, b][..1] == [a];
  }

  lemma CountOfThree(a: real, b: real, c: real, from: real, to: real)
    ensures CountIn([a], from, to) == if from <= a <= to then 1 else 0
    ensures CountIn([a, b], from, to) == CountIn([a], from, to) + if from <= b <= to then 1 else 0
    ensures CountIn([a, b, c], from, to) == CountIn([a, b], from, to) + if from <= c <= to then 1 else 0
  {
    assert [a][..0] == [] && [a, b][..1] == [a] && [a, b, c][..2] == [a, b];
  }

  lemma RunOfOneMore(limit: int, rs: seq<Request>, r: Request)
    ensures Run(limit, rs + [r]) == Step(Run(limit, rs), limit, r).0
    ensures FullRun(limit, rs + [r]) == FullStep(FullRun(limit, rs), limit, r).0
  {
    assert (rs + [r])[..|rs|] == rs;
  }

  /** After hits at 0, 1 and 100 the buffer has forgotten what the full history still holds. */
  lemma BufferForgets()
    ensures var rs := [Hit(0.0)] + [Hit(1.0)] + [Hit(100.0)];
            HitsOf(Run(2, rs), UNKNOWN) == [100.0] && HitsOf(FullRun(2, rs), UNKNOWN) == [0.0, 1.0, 100.0]
  {
    hide Prune, CountIn, Run, FullRun;
    assert Run(2, []) == map[] && FullRun(2, []) == map[] by { EmptyRuns(2); }
    assert Prune([], 0.0 - WINDOW) == [] && CountIn([], 0.0 - WINDOW, 0.0) == 0 by { NothingToPrune(0.0); }
    RunOfOneMore(2, [], Hit(0.0));
    assert [] + [Hit(0.0)] == [Hit(0.0)];
    assert HitsOf(Run(2, [Hit(0.0)]), UNKNOWN) == HitsOf(FullRun(2, [Hit(0.0)]), UNKNOWN) == [0.0];
    PruneOfTwo(0.0, 1.0, 1.0 - WINDOW);
    CountOfThree(0.0, 1.0, 100.0, 1.0 - WINDOW, 1.0);
    RunOfOneMore(2, [Hit(0.0)], Hit(1.0));
    var two := [Hit(0.0)] + [Hit(1.0)];
    assert HitsOf(Run(2, two), UNKNOWN) == HitsOf(FullRun(2, two), UNKNOWN) == [0.0, 1.0];
    PruneOfTwo(0.0, 1.0, 100.0 - WINDOW);
    CountOfThree(0.0, 1.0, 100.0, 100.0 - WINDOW, 100.0);
    RunOfOneMore(2, two, Hit(100.0));
    assert [] + [100.0] == [100.0] && [0.0, 1.0] + [100.0] == [0.0, 1.0, 100.0];
  }

  lemma EmptyRuns(limit: int)
    ensures Run(limit, []) == map[] && FullRun(limit, []) == map[]
  {
  }

  lemma NothingToPrune(now: real)
    ensures Prune([], now - WINDOW) == [] && CountIn([], now - WINDOW, now) == 0
  {
  }

  /**
   With a limit of 2, hits at 0, 1 and 100 and then, the clock set back, at 50: the hit at 100 has
   pruned the first two, so the last is admitted although two admissions lie in the minute before it.
   Three admissions then lie within the first 60 seconds.
   */
  lemma ClockSetBackAdmitsTooMany()
    ensures var rs := [Hit(0.0)] + [Hit(1.0)] + [Hit(100.0)];
            && !ClockForward(rs + [Hit(50.0)])
            && Decide(2, rs, Hit(50.0)) == Admitted
            && FullStep(FullRun(2, rs), 2, Hit(50.0)).1 == Rejected
            && CountIn(AdmittedTimes(2, rs + [Hit(50.0)], UNKNOWN), 0.0, WINDOW) == 3
  {
    hide Prune, CountIn, Run, FullRun, AdmittedTimes;
    BufferForgets();
    PruneOfTwo(100.0, 0.0, 50.0 - WINDOW);
    CountOfThree(0.0, 1.0, 100.0, 50.0 - WINDOW, 50.0);
    var all := [Hit(0.0)] + [Hit(1.0)] + [Hit(100.0)] + [Hit(50.0)];
    assert all[2].now > all[3].now;
    var rs := [Hit(0.0)] + [Hit(1.0)] + [Hit(100.0)];
    AdmittedIsTheHistory(2, rs, UNKNOWN);
    AdmittedOfOneMore(2, rs, Hit(50.0), UNKNOWN);
    CountOfThree(0.0, 1.0, 100.0, 0.0, WINDOW);
    CountOfOneMore([0.0, 1.0, 100.0], 50.0, 0.0, WINDOW);
    NothingToPrune(60.0);
  }
}
