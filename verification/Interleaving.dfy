/**
 Calls of different owners interleave write by write, and any of them may stop between two writes;
 the calls of one owner follow each other.
 */
module Interleaving {
  import opened Results
  import opened Store
  import opened CatalogRepository
  import opened SingleTable
  import Catalog
  import CatalogCrash

  /** A call that has been begun, and how many of its writes were made. */
  datatype Attempt = Attempt(call: Call, writes: nat)

  /** A call in flight: what it is to write, planned from what it has read, and how much is written. */
  datatype Flight = Flight(plan: seq<TableOp>, done: nat)

  /** The table; for each owner the call in flight, if any; and all calls begun, oldest first. */
  datatype System = System(items: Items, flights: map<Owner, Flight>, made: map<Owner, seq<Attempt>>)

  /** `End` is the end of a call, be it that all is written or that it crashed. */
  datatype Move = Begin(call: Call) | Write(owner: Owner) | End(owner: Owner)

  function MadeBy(s: System, owner: Owner): seq<Attempt> {
    if owner in s.made then s.made[owner] else []
  }

  /**
   Nobody but an owner writes its store, so that it makes no difference when during a call the store
   is read; the plan is made at its begin.
   */
  ghost predicate Next(s: System, s': System, encryptionKey: string, move: Move) {
    match move
    case Begin(call) =>
      var owner := CallOwner(call);
      && owner !in s.flights && Shaped(s.items)
      && s' == System(s.items, s.flights[owner := Flight(CallPlan(s.items, encryptionKey, call), 0)],
                      s.made[owner := MadeBy(s, owner) + [Attempt(call, 0)]])
    case Write(owner) =>
      && owner in s.flights && s.flights[owner].done < |s.flights[owner].plan| && MadeBy(s, owner) != []
      && var (Flight(plan, done), made) := (s.flights[owner], MadeBy(s, owner));
         s' == System(Apply(s.items, plan[done]), s.flights[owner := Flight(plan, done + 1)],
                      s.made[owner := OneMoreWrite(made)])
    case End(owner) => owner in s.flights && s' == s.(flights := s.flights - {owner})
  }

  function OneMoreWrite(made: seq<Attempt>): seq<Attempt>
    requires made != []
  {
    var last := made[|made| - 1];
    made[..|made| - 1] + [last.(writes := last.writes + 1)]
  }

  ghost predicate Behaviour(states: seq<System>, moves: seq<Move>, encryptionKey: string) {
    && |states| == |moves| + 1
    && forall i | 0 <= i < |moves| :: Next(states[i], states[i + 1], encryptionKey, moves[i])
  }

  ghost predicate Start(s: System) {
    Shaped(s.items) && s.flights == map[] && s.made == map[]
  }

  /* ---------- Stopped calls, one after another ---------- */

  function Cut(plan: seq<TableOp>, n: nat): seq<TableOp> {
    if n < |plan| then plan[..n] else plan
  }

  /** The table after these calls alone, each stopped after so many writes. */
  function RunAttempts(items: Items, encryptionKey: string, made: seq<Attempt>): (r: Items)
    requires Shaped(items)
    ensures Shaped(r)
  {
    if made == [] then items
    else
      var before, last := RunAttempts(items, encryptionKey, made[..|made| - 1]), made[|made| - 1];
      CutKeepsShape(before, encryptionKey, last.call, last.writes);
      Run(before, Cut(CallPlan(before, encryptionKey, last.call), last.writes))
  }

  /** Agent items are written only under the key of their own id. */
  predicate ShapedWrite(op: TableOp) {
    op.Put? && IsAgentKey(op.key) ==> op.item.AgentItem? && op.key == AgentKey(op.item.entry.virtualAgentId)
  }

  lemma PlansAreShaped(items: Items, encryptionKey: string, call: Call)
    requires Shaped(items)
    ensures forall op | op in CallPlan(items, encryptionKey, call) :: ShapedWrite(op)
  {
    if call.OnCatalog? {
      CatalogPlansAreShaped(items, call.op);
    } else {
      hide CallPlan, Shaped;
      CallStaysAtHome(items, encryptionKey, call);
      forall op | op in CallPlan(items, encryptionKey, call) ensures ShapedWrite(op) {
        NoAgentAwayFromHome(op, CallOwner(call));
      }
    }
  }

  lemma NoAgentAwayFromHome(op: TableOp, owner: Owner)
    requires AtHome(op, owner) && owner != TheCatalog
    ensures !IsAgentKey(op.key)
  {
    var slot :| OwnerOf(slot) == owner && op.key == Place(slot);
    if IsAgentKey(op.key) {
      var agent := CatalogAgent(op.key.sk[|AGENT_PREFIX|..]);
      PrefixThenRest(AGENT_PREFIX, op.key.sk);
      PlaceIsInjective(slot, agent);
    }
  }

  lemma CatalogPlansAreShaped(items: Items, op: CatalogOp)
    requires Shaped(items)
    ensures DynPlan(items, op).Success? ==> forall w | w in DynPlan(items, op).value :: ShapedWrite(w)
  {
    hide WritePlan, DynPlan, ShapedWrite, CatalogCrash.Target;
    CatalogCrash.TargetIsPlanned(items, op);
    if CatalogCrash.Target(items, op).Some? {
      var (es, seeded) := CatalogCrash.Target(items, op).value;
      RewritesAreShaped(items, es, seeded);
    } else {
      CatalogCrash.NoTargetNoWrites(items, op);
    }
  }

  lemma RewritesAreShaped(items: Items, es: seq<Catalog.Entry>, seeded: bool)
    ensures forall w | w in WritePlan(items, es, seeded) :: ShapedWrite(w)
  {
    hide AgentKey, OldKeys, IsAgentKey;
    assert forall w | w in Deletes(OldKeys(items)) :: w.Delete?;
    MetaIsNoAgent();
  }

  lemma {:induction false} ShapedWritesKeepShape(items: Items, ops: seq<TableOp>)
    requires Shaped(items) && forall op | op in ops :: ShapedWrite(op)
    ensures Shaped(Run(items, ops))
  {
    if ops == [] {
    } else {
      hide IsAgentKey, AgentKey;
      var front, last := ops[..|ops| - 1], ops[|ops| - 1];
      ShapedWritesKeepShape(items, front);
      assert ShapedWrite(last);
    }
  }

  lemma CutKeepsShape(items: Items, encryptionKey: string, call: Call, n: nat)
    requires Shaped(items)
    ensures Shaped(Run(items, Cut(CallPlan(items, encryptionKey, call), n)))
  {
    hide Shaped, CallPlan, ShapedWrite;
    PlansAreShaped(items, encryptionKey, call);
    ShapedWritesKeepShape(items, Cut(CallPlan(items, encryptionKey, call), n));
  }

  lemma AttemptsOfOneMore(items: Items, encryptionKey: string, made: seq<Attempt>, last: Attempt)
    requires Shaped(items)
    ensures var before := RunAttempts(items, encryptionKey, made);
            RunAttempts(items, encryptionKey, made + [last]) ==
            Run(before, Cut(CallPlan(before, encryptionKey, last.call), last.writes))
  {
    hide CallPlan, Shaped, Run;
    assert (made + [last])[..|made|] == made;
  }

  /* ---------- The invariant ---------- */

  /** An owner's store is what its own attempts alone would have left; its flight continues the last. */
  ghost predicate OwnerInv(first: Items, s: System, encryptionKey: string, owner: Owner)
    requires Shaped(first)
  {
    var made := MadeBy(s, owner);
    && Part(s.items, owner) == Part(RunAttempts(first, encryptionKey, made), owner)
    && (owner in s.flights ==> made != [] && InFlight(first, encryptionKey, s.flights[owner], made, owner))
  }

  ghost predicate InFlight(first: Items, encryptionKey: string, flight: Flight, made: seq<Attempt>, owner: Owner)
    requires Shaped(first) && made != []
  {
    var before, last := RunAttempts(first, encryptionKey, made[..|made| - 1]), made[|made| - 1];
    && flight == Flight(CallPlan(before, encryptionKey, last.call), last.writes)
    && last.writes <= |flight.plan|
    && CallOwner(last.call) == owner
  }

  ghost predicate Inv(first: Items, s: System, encryptionKey: string)
    requires Shaped(first)
  {
    Shaped(s.items) && forall owner :: OwnerInv(first, s, encryptionKey, owner)
  }

  lemma BeginKeepsOwn(first: Items, s: System, s': System, encryptionKey: string, call: Call)
    requires Shaped(first) && OwnerInv(first, s, encryptionKey, CallOwner(call))
    requires Next(s, s', encryptionKey, Begin(call))
    ensures OwnerInv(first, s', encryptionKey, CallOwner(call))
  {
    hide Part, Run, CallPlan, CallOwner, Cut, Shaped, RunAttempts, Next, MadeBy;
    var (owner, made) := (CallOwner(call), MadeBy(s, CallOwner(call)));
    var before := RunAttempts(first, encryptionKey, made);
    WhatBeginDoes(s, s', encryptionKey, call);
    AttemptsOfOneMore(first, encryptionKey, made, Attempt(call, 0));
    NothingCut(before, CallPlan(before, encryptionKey, call));
    SamePartSamePlan(s.items, before, encryptionKey, call);
    LastOfOneMore(made, Attempt(call, 0));
  }

  lemma WhatBeginDoes(s: System, s': System, encryptionKey: string, call: Call)
    requires Next(s, s', encryptionKey, Begin(call))
    ensures var owner := CallOwner(call);
            && Shaped(s.items) && s'.items == s.items
            && owner in s'.flights && s'.flights[owner] == Flight(CallPlan(s.items, encryptionKey, call), 0)
            && MadeBy(s', owner) == MadeBy(s, owner) + [Attempt(call, 0)]
  {
    hide CallPlan, CallOwner, Shaped;
  }

  lemma LastOfOneMore(made: seq<Attempt>, last: Attempt)
    ensures (made + [last])[..|made + [last]| - 1] == made && (made + [last])[|made + [last]| - 1] == last
  {
  }

  lemma NothingCut(items: Items, plan: seq<TableOp>)
    ensures Run(items, Cut(plan, 0)) == items
  {
    assert Cut(plan, 0) == [];
  }

  lemma WriteKeepsOwn(first: Items, s: System, s': System, encryptionKey: string, owner: Owner)
    requires Shaped(first) && OwnerInv(first, s, encryptionKey, owner)
    requires Next(s, s', encryptionKey, Write(owner))
    ensures OwnerInv(first, s', encryptionKey, owner)
    ensures AtHome(s.flights[owner].plan[s.flights[owner].done], owner)
  {
    hide Part, Run, CallPlan, Shaped, RunAttempts, Apply, AtHome;
    var (Flight(plan, done), made) := (s.flights[owner], MadeBy(s, owner));
    var front, last := made[..|made| - 1], made[|made| - 1];
    var before := RunAttempts(first, encryptionKey, front);
    var longer := last.(writes := done + 1);
    assert made == front + [last] && OneMoreWrite(made) == front + [longer];
    assert OneMoreWrite(made)[..|made| - 1] == front;
    AttemptsOfOneMore(first, encryptionKey, front, last);
    AttemptsOfOneMore(first, encryptionKey, front, longer);
    CutOneLater(before, plan, done);
    SameWriteSamePart(s.items, Run(before, Cut(plan, done)), plan[done], owner);
    CallStaysAtHome(before, encryptionKey, last.call);
    assert plan[done] in plan;
  }

  lemma CutOneLater(items: Items, plan: seq<TableOp>, k: nat)
    requires k < |plan|
    ensures Run(items, Cut(plan, k + 1)) == Apply(Run(items, Cut(plan, k)), plan[k])
  {
    RunOneMore(items, plan, k);
    assert k + 1 == |plan| ==> plan[..k + 1] == plan;
  }

  lemma SameWriteSamePart(a: Items, b: Items, op: TableOp, owner: Owner)
    requires Part(a, owner) == Part(b, owner)
    ensures Part(Apply(a, op), owner) == Part(Apply(b, op), owner)
  {
    hide Place, OwnerOf, Part;
    SamePart(a, b, owner);
    SamePart(Apply(a, op), Apply(b, op), owner);
  }

  lemma MoveKeepsInv(first: Items, s: System, s': System, encryptionKey: string, move: Move)
    requires Shaped(first) && Inv(first, s, encryptionKey) && Next(s, s', encryptionKey, move)
    ensures Inv(first, s', encryptionKey)
  {
    forall owner ensures OwnerInv(first, s', encryptionKey, owner) {
      MoveKeepsOwner(first, s, s', encryptionKey, move, owner);
    }
    hide RunAttempts, Part, Next;
    CatalogStaysShaped(first, s', encryptionKey);
  }

  lemma CatalogStaysShaped(first: Items, s: System, encryptionKey: string)
    requires Shaped(first) && OwnerInv(first, s, encryptionKey, TheCatalog)
    ensures Shaped(s.items)
  {
    hide Shaped, Part;
    SameCatalogSameKeys(RunAttempts(first, encryptionKey, MadeBy(s, TheCatalog)), s.items);
  }

  lemma MoveKeepsOwner(first: Items, s: System, s': System, encryptionKey: string, move: Move, owner: Owner)
    requires Shaped(first) && Inv(first, s, encryptionKey) && Next(s, s', encryptionKey, move)
    ensures OwnerInv(first, s', encryptionKey, owner)
  {
    hide RunAttempts, Part, CallPlan, Shaped, Apply, InFlight;
    assert OwnerInv(first, s, encryptionKey, owner);
    match move
    case Begin(call) =>
      if owner == CallOwner(call) {
        BeginKeepsOwn(first, s, s', encryptionKey, call);
      }
    case Write(writer) =>
      assert OwnerInv(first, s, encryptionKey, writer);
      WriteKeepsOwn(first, s, s', encryptionKey, writer);
      if owner != writer {
        OtherWriteKeepsPart(s.items, s.flights[writer].plan[s.flights[writer].done], writer, owner);
      }
    case End(_) =>
  }

  /**
   At every instant of every interleaving each owner's store is exactly what its own calls alone
   would have left, made one after another, each stopped after the writes it has made so far.
   */
  lemma {:induction false} EveryInterleavingIsAlone(
    states: seq<System>, moves: seq<Move>, encryptionKey: string, n: nat, owner: Owner)
    requires Behaviour(states, moves, encryptionKey) && Start(states[0]) && n < |states|
    ensures Shaped(states[n].items)
    ensures Part(states[n].items, owner) ==
            Part(RunAttempts(states[0].items, encryptionKey, MadeBy(states[n], owner)), owner)
  {
    InvThroughout(states, moves, encryptionKey, n);
    hide Part, RunAttempts, Shaped;
    assert OwnerInv(states[0].items, states[n], encryptionKey, owner);
  }

  lemma {:induction false} InvThroughout(states: seq<System>, moves: seq<Move>, encryptionKey: string, n: nat)
    requires Behaviour(states, moves, encryptionKey) && Start(states[0]) && n < |states|
    ensures Inv(states[0].items, states[n], encryptionKey)
  {
    hide Next, Inv;
    if n == 0 {
      NothingMadeYet(states[0], encryptionKey);
    } else {
      InvThroughout(states, moves, encryptionKey, n - 1);
      assert Next(states[n - 1], states[n], encryptionKey, moves[n - 1]);
      MoveKeepsInv(states[0].items, states[n - 1], states[n], encryptionKey, moves[n - 1]);
    }
  }

  lemma NothingMadeYet(s: System, encryptionKey: string)
    requires Start(s)
    ensures Inv(s.items, s, encryptionKey)
  {
  }

  /* ---------- Whole calls ---------- */

  function CallsOf(made: seq<Attempt>): seq<Call> {
    if made == [] then [] else CallsOf(made[..|made| - 1]) + [made[|made| - 1].call]
  }

  /** Each attempt made all of its writes. */
  predicate AllComplete(items: Items, encryptionKey: string, made: seq<Attempt>)
    requires Shaped(items)
  {
    made == [] ||
    var front, last := made[..|made| - 1], made[|made| - 1];
    && AllComplete(items, encryptionKey, front)
    && last.writes >= |CallPlan(RunAttempts(items, encryptionKey, front), encryptionKey, last.call)|
  }

  lemma {:induction false} CompleteAttemptsAreCalls(items: Items, encryptionKey: string, made: seq<Attempt>)
    requires Shaped(items) && AllComplete(items, encryptionKey, made)
    ensures RunAttempts(items, encryptionKey, made) == RunCalls(items, encryptionKey, CallsOf(made))
  {
    hide CallPlan, Shaped, Run;
    if made == [] {
    } else {
      var front, last := made[..|made| - 1], made[|made| - 1];
      CompleteAttemptsAreCalls(items, encryptionKey, front);
      assert CallsOf(made)[..|CallsOf(made)| - 1] == CallsOf(front);
    }
  }

  /** Where no call of an owner stopped short, its store is that of its calls made whole and alone. */
  lemma CompleteCallsInterleaveFreely(
    states: seq<System>, moves: seq<Move>, encryptionKey: string, n: nat, owner: Owner)
    requires Behaviour(states, moves, encryptionKey) && Start(states[0]) && n < |states|
    requires AllComplete(states[0].items, encryptionKey, MadeBy(states[n], owner))
    ensures Part(states[n].items, owner) ==
            Part(RunCalls(states[0].items, encryptionKey, CallsOf(MadeBy(states[n], owner))), owner)
  {
    hide Part, RunCalls, RunAttempts, Next;
    EveryInterleavingIsAlone(states, moves, encryptionKey, n, owner);
    CompleteAttemptsAreCalls(states[0].items, encryptionKey, MadeBy(states[n], owner));
  }
}
