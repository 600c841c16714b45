/**
 Authorizations and deauthorizations over whole runs: operations on one org are serialized, those
 on different orgs interleave freely, and any of them may crash between its two writes.
 */
module Authorization {
  import opened Results
  import opened Store
  import opened TokenStorage

  datatype OrgOp = Authorize(tokens: Tokens, now: string) | Deauthorize(now: string)

  function Plan(encryptionKey: string, orgId: string, op: OrgOp): (r: seq<TableOp>)
    ensures |r| == 2
  {
    match op
    case Authorize(tokens, now) => SetPlan(encryptionKey, orgId, tokens, now)
    case Deauthorize(now) => DeletePlan(orgId, now)
  }

  /** The tokens an org is left with once the operation is complete. */
  function TokensLeft(op: OrgOp): Option<Tokens> {
    match op
    case Authorize(tokens, _) => Some(tokens)
    case Deauthorize(_) => None
  }

  /** An operation in flight, and how many of its writes are done. */
  datatype Flight = Flight(op: OrgOp, done: nat)

  /**
   The table; the operations in flight; for the orgs that an operation has crashed halfway on and
   none has completed on since, the last such operation; and, for every org, the outcome of its last
   completed operation.
   */
  datatype System = System(
    items: Items, flights: map<string, Flight>, torn: map<string, OrgOp>, settled: map<string, Option<Tokens>>)

  datatype Move =
    | Begin(orgId: string, op: OrgOp)
    | Write(orgId: string)
    | Crash(orgId: string)
    | Elsewhere(slot: Slot, item: Option<Item>)

  function SettledTokens(s: System, orgId: string): Option<Tokens> {
    if orgId in s.settled then s.settled[orgId] else None
  }

  /** What is stored for an org: the outcome of the last operation whose first write is done. */
  function StoredTokens(s: System, orgId: string): Option<Tokens> {
    if orgId in s.flights && s.flights[orgId].done > 0 then TokensLeft(s.flights[orgId].op)
    else if orgId in s.torn then TokensLeft(s.torn[orgId])
    else SettledTokens(s, orgId)
  }

  ghost predicate Next(s: System, s': System, encryptionKey: string, move: Move) {
    match move
    case Begin(orgId, op) => orgId !in s.flights && s' == s.(flights := s.flights[orgId := Flight(op, 0)])
    case Write(orgId) =>
      orgId in s.flights && s.flights[orgId].done < 2 &&
      var Flight(op, done) := s.flights[orgId];
      var items' := Apply(s.items, Plan(encryptionKey, orgId, op)[done]);
      s' == if done == 0 then s.(items := items', flights := s.flights[orgId := Flight(op, 1)])
            else System(items', s.flights - {orgId}, s.torn - {orgId}, s.settled[orgId := TokensLeft(op)])
    case Crash(orgId) =>
      orgId in s.flights &&
      var Flight(op, done) := s.flights[orgId];
      s' == s.(flights := s.flights - {orgId}, torn := if done == 0 then s.torn else s.torn[orgId := op])
    case Elsewhere(slot, item) =>
      && !slot.OrgCreds? && !slot.OrgProfile?
      && s' == s.(items := Apply(s.items, if item.None? then Delete(Place(slot)) else Put(Place(slot), item.value)))
  }

  ghost predicate Behaviour(states: seq<System>, moves: seq<Move>, encryptionKey: string) {
    && |states| == |moves| + 1
    && forall i | 0 <= i < |moves| :: Next(states[i], states[i + 1], encryptionKey, moves[i])
  }

  /** No org data, nothing in flight, nothing torn. */
  ghost predicate Start(s: System) {
    && (forall orgId :: OrgCreds(orgId) !in View(s.items) && OrgProfile(orgId) !in View(s.items))
    && s.flights == map[] && s.torn == map[] && s.settled == map[]
  }

  /* ---------- The invariant ---------- */

  /** The credentials item is the sealed tokens, or absent when there are none. */
  ghost predicate HoldsCreds(items: Items, encryptionKey: string, orgId: string, tokens: Option<Tokens>) {
    Lookup(items, Place(OrgCreds(orgId))) ==
    match tokens
    case None => None
    case Some(t) => Some(SealTokens(encryptionKey, t))
  }

  /** The profile says authorized. */
  ghost predicate SaysAuthorized(items: Items, orgId: string) {
    match Lookup(items, Place(OrgProfile(orgId)))
    case Some(ProfileItem(state, _, _)) => state == Authorized
    case _ => false
  }

  ghost predicate Consistent(items: Items, encryptionKey: string, orgId: string, tokens: Option<Tokens>) {
    HoldsCreds(items, encryptionKey, orgId, tokens) && (SaysAuthorized(items, orgId) <==> tokens.Some?)
  }

  /** The credentials follow each operation's first write, the profile its second. */
  ghost predicate OrgInv(s: System, encryptionKey: string, orgId: string) {
    && (orgId in s.flights ==> s.flights[orgId].done <= 1)
    && HoldsCreds(s.items, encryptionKey, orgId, StoredTokens(s, orgId))
    && (SaysAuthorized(s.items, orgId) <==> SettledTokens(s, orgId).Some?)
  }

  ghost predicate Inv(s: System, encryptionKey: string) {
    forall orgId :: OrgInv(s, encryptionKey, orgId)
  }

  /** A write to one slot leaves the lookups of every other slot alone. */
  lemma OtherSlotsKeep(items: Items, op: TableOp, slot: Slot, other: Slot)
    requires op.key == Place(slot) && slot != other
    ensures Lookup(Apply(items, op), Place(other)) == Lookup(items, Place(other))
  {
    PlaceIsInjective(slot, other);
  }

  lemma WriteKeepsInv(s: System, s': System, encryptionKey: string, orgId: string)
    requires Inv(s, encryptionKey) && Next(s, s', encryptionKey, Write(orgId))
    ensures Inv(s', encryptionKey)
  {
    hide OrgInv, Place, SealTokens;
    forall other ensures OrgInv(s', encryptionKey, other) {
      assert OrgInv(s, encryptionKey, other);
      if other == orgId {
        WriteKeepsOwn(s, s', encryptionKey, orgId);
      } else {
        WriteKeepsOther(s, s', encryptionKey, orgId, other);
      }
    }
  }

  lemma WriteKeepsOwn(s: System, s': System, encryptionKey: string, orgId: string)
    requires OrgInv(s, encryptionKey, orgId) && Next(s, s', encryptionKey, Write(orgId))
    ensures OrgInv(s', encryptionKey, orgId)
  {
    hide Place, SealTokens;
    var Flight(op, done) := s.flights[orgId];
    PlaceIsInjective(OrgCreds(orgId), OrgProfile(orgId));
    WritesOfPlan(encryptionKey, orgId, op);
    hide Plan;
  }

  lemma WritesOfPlan(encryptionKey: string, orgId: string, op: OrgOp)
    ensures Plan(encryptionKey, orgId, op)[0] ==
            match TokensLeft(op)
            case None => Delete(Place(OrgCreds(orgId)))
            case Some(t) => Put(Place(OrgCreds(orgId)), SealTokens(encryptionKey, t))
    ensures Plan(encryptionKey, orgId, op)[1] ==
            Put(Place(OrgProfile(orgId)), match op
                                          case Authorize(_, now) => ProfileItem(Authorized, Some(now), None)
                                          case Deauthorize(now) => ProfileItem(Deauthorized, None, Some(now)))
  {
    hide Place, SealTokens;
  }

  lemma WriteKeepsOther(s: System, s': System, encryptionKey: string, orgId: string, other: string)
    requires OrgInv(s, encryptionKey, other) && Next(s, s', encryptionKey, Write(orgId)) && other != orgId
    ensures OrgInv(s', encryptionKey, other)
  {
    hide OrgInv, Place, SealTokens;
    var Flight(op, done) := s.flights[orgId];
    var slot := if done == 0 then OrgCreds(orgId) else OrgProfile(orgId);
    WritesOfPlan(encryptionKey, orgId, op);
    OtherSlotsKeep(s.items, Plan(encryptionKey, orgId, op)[done], slot, OrgCreds(other));
    OtherSlotsKeep(s.items, Plan(encryptionKey, orgId, op)[done], slot, OrgProfile(other));
    SameForOrg(s, s', encryptionKey, other);
  }

  lemma SameForOrg(s: System, s': System, encryptionKey: string, orgId: string)
    requires OrgInv(s, encryptionKey, orgId)
    requires Lookup(s'.items, Place(OrgCreds(orgId))) == Lookup(s.items, Place(OrgCreds(orgId)))
    requires Lookup(s'.items, Place(OrgProfile(orgId))) == Lookup(s.items, Place(OrgProfile(orgId)))
    requires orgId in s'.flights <==> orgId in s.flights
    requires orgId in s.flights ==> s'.flights[orgId] == s.flights[orgId]
    requires StoredTokens(s', orgId) == StoredTokens(s, orgId) && SettledTokens(s', orgId) == SettledTokens(s, orgId)
    ensures OrgInv(s', encryptionKey, orgId)
  {
  }

  lemma EveryMoveKeepsInv(s: System, s': System, encryptionKey: string, move: Move)
    requires Inv(s, encryptionKey) && Next(s, s', encryptionKey, move)
    ensures Inv(s', encryptionKey)
  {
    hide OrgInv, Next;
    if move.Write? {
      WriteKeepsInv(s, s', encryptionKey, move.orgId);
    } else {
      forall orgId ensures OrgInv(s', encryptionKey, orgId) {
        assert OrgInv(s, encryptionKey, orgId);
        OtherMoveKeepsOrg(s, s', encryptionKey, move, orgId);
      }
    }
  }

  lemma OtherMoveKeepsOrg(s: System, s': System, encryptionKey: string, move: Move, orgId: string)
    requires OrgInv(s, encryptionKey, orgId) && Next(s, s', encryptionKey, move) && !move.Write?
    ensures OrgInv(s', encryptionKey, orgId)
  {
    hide Place, SealTokens, Plan;
    match move
    case Elsewhere(slot, item) =>
      var write := if item.None? then Delete(Place(slot)) else Put(Place(slot), item.value);
      OtherSlotsKeep(s.items, write, slot, OrgCreds(orgId));
      OtherSlotsKeep(s.items, write, slot, OrgProfile(orgId));
    case _ =>
  }

  lemma {:induction false} InvHoldsThroughout(states: seq<System>, moves: seq<Move>, encryptionKey: string, n: nat)
    requires Behaviour(states, moves, encryptionKey) && Start(states[0]) && n < |states|
    ensures Inv(states[n], encryptionKey)
  {
    if n == 0 {
      forall orgId ensures OrgInv(states[0], encryptionKey, orgId) {
        assert OrgCreds(orgId) !in View(states[0].items) && OrgProfile(orgId) !in View(states[0].items);
      }
    } else {
      InvHoldsThroughout(states, moves, encryptionKey, n - 1);
      EveryMoveKeepsInv(states[n - 1], states[n], encryptionKey, moves[n - 1]);
    }
  }

  /**
   At every instant of every run, whatever is in flight or has crashed, reading an org's tokens gives
   the outcome of the last operation whose first write is done, and its profile says authorized exactly
   if the last completed operation authorized it; under another encryption key nothing can be read.
   */
  lemma ReadsAtEveryInstant(states: seq<System>, moves: seq<Move>, encryptionKey: string, n: nat, orgId: string)
    requires Behaviour(states, moves, encryptionKey) && Start(states[0]) && n < |states|
    ensures var s := states[n];
            && CredsIfAny(s.items, OrgCreds(orgId))
            && ReadOrgTokens(s.items, encryptionKey, orgId) == Success(StoredTokens(s, orgId))
            && (OrgCreds(orgId) in View(s.items) <==> StoredTokens(s, orgId).Some?)
            && (SaysAuthorized(s.items, orgId) <==> SettledTokens(s, orgId).Some?)
            && forall otherKey | otherKey != encryptionKey && OrgCreds(orgId) in View(s.items) ::
                 ReadOrgTokens(s.items, otherKey, orgId) == Failure(CannotDecrypt)
  {
    InvHoldsThroughout(states, moves, encryptionKey, n);
    var s := states[n];
    assert OrgInv(s, encryptionKey, orgId);
    hide Behaviour, Start, Inv, SealTokens, OpenTokens, SaysAuthorized, StoredTokens, SettledTokens;
    CredsCanBeRead(s.items, encryptionKey, orgId, StoredTokens(s, orgId));
  }

  lemma CredsCanBeRead(items: Items, encryptionKey: string, orgId: string, tokens: Option<Tokens>)
    requires HoldsCreds(items, encryptionKey, orgId, tokens)
    ensures CredsIfAny(items, OrgCreds(orgId))
    ensures ReadOrgTokens(items, encryptionKey, orgId) == Success(tokens)
    ensures OrgCreds(orgId) in View(items) <==> tokens.Some?
    ensures forall otherKey | otherKey != encryptionKey && tokens.Some? ::
              ReadOrgTokens(items, otherKey, orgId) == Failure(CannotDecrypt)
  {
    match tokens
    case None =>
    case Some(t) =>
      SealedTokensOpen(encryptionKey, encryptionKey, t);
      forall otherKey ensures OpenTokens(otherKey, SealTokens(encryptionKey, t)) ==
                              if otherKey == encryptionKey then Success(t) else Failure(CannotDecrypt)
      {
        SealedTokensOpen(encryptionKey, otherKey, t);
      }
  }

  /**
   An org with nothing in flight that no crash has torn has credentials exactly if its profile says
   authorized; reading them gives exactly the tokens of its last completed operation, or none after a
   deauthorization.
   */
  lemma CredentialsMatchTheProfile(states: seq<System>, moves: seq<Move>, encryptionKey: string, n: nat, orgId: string)
    requires Behaviour(states, moves, encryptionKey) && Start(states[0]) && n < |states|
    requires orgId !in states[n].flights && orgId !in states[n].torn
    ensures var s := states[n];
            && CredsIfAny(s.items, OrgCreds(orgId))
            && (OrgCreds(orgId) in View(s.items) <==> SaysAuthorized(s.items, orgId))
            && ReadOrgTokens(s.items, encryptionKey, orgId) == Success(SettledTokens(s, orgId))
            && forall otherKey | otherKey != encryptionKey && OrgCreds(orgId) in View(s.items) ::
                 ReadOrgTokens(s.items, otherKey, orgId) == Failure(CannotDecrypt)
  {
    hide Behaviour, Start, SaysAuthorized, ReadOrgTokens, CredsIfAny, View;
    ReadsAtEveryInstant(states, moves, encryptionKey, n, orgId);
  }

  /**
   A torn org reads the tokens that the crashed operation was to leave; its credentials and its
   profile disagree exactly if that operation was to change whether the org is authorized.
   */
  lemma TornOrgsReadTheCrashedOperation(
    states: seq<System>, moves: seq<Move>, encryptionKey: string, n: nat, orgId: string)
    requires Behaviour(states, moves, encryptionKey) && Start(states[0]) && n < |states|
    requires orgId !in states[n].flights && orgId in states[n].torn
    ensures var (s, left) := (states[n], TokensLeft(states[n].torn[orgId]));
            && CredsIfAny(s.items, OrgCreds(orgId))
            && ReadOrgTokens(s.items, encryptionKey, orgId) == Success(left)
            && ((OrgCreds(orgId) in View(s.items) <==> SaysAuthorized(s.items, orgId)) <==>
                left.Some? == SettledTokens(s, orgId).Some?)
  {
    hide Behaviour, Start, SaysAuthorized, ReadOrgTokens, CredsIfAny, View;
    ReadsAtEveryInstant(states, moves, encryptionKey, n, orgId);
  }

  /* ---------- Crashes ---------- */

  /** Running an operation again after it stopped at any write gives the table of one full run. */
  lemma RerunRepairs(items: Items, encryptionKey: string, orgId: string, op: OrgOp, k: nat)
    requires k <= 2
    ensures var plan := Plan(encryptionKey, orgId, op);
            && Run(Run(items, plan[..k]), plan) == Run(items, plan)
            && Consistent(Run(items, plan), encryptionKey, orgId, TokensLeft(op))
  {
    hide Place, SealTokens, Plan, Run;
    var plan := Plan(encryptionKey, orgId, op);
    WritesOfPlan(encryptionKey, orgId, op);
    PlaceIsInjective(OrgCreds(orgId), OrgProfile(orgId));
    TwiceIsOnce(items, plan, k);
  }

  /** Two writes to different keys, after the first k of them or not. */
  lemma TwiceIsOnce(items: Items, plan: seq<TableOp>, k: nat)
    requires |plan| == 2 && plan[0].key != plan[1].key && k <= 2
    ensures Run(Run(items, plan[..k]), plan) == Run(items, plan) == Apply(Apply(items, plan[0]), plan[1])
  {
    hide Run;
    assert plan == [plan[0], plan[1]];
    RunOfTwo(items, plan[0], plan[1]);
    RunOfTwo(Run(items, plan[..k]), plan[0], plan[1]);
    if k == 0 {
      assert plan[..k] == [];
      NothingRun(items);
    } else if k == 1 {
      assert plan[..k] == [plan[0]];
    } else {
      assert plan[..k] == plan;
    }
  }

  /**
   A crash between the two writes breaks the match exactly when the operation was to change
   whether the org is authorized: the credentials have changed and the profile has not.
   */
  lemma TornExactlyOnChange(items: Items, encryptionKey: string, orgId: string, op: OrgOp, before: Option<Tokens>)
    requires Consistent(items, encryptionKey, orgId, before)
    ensures var torn := Run(items, Plan(encryptionKey, orgId, op)[..1]);
            && HoldsCreds(torn, encryptionKey, orgId, TokensLeft(op))
            && (Consistent(torn, encryptionKey, orgId, TokensLeft(op)) <==> before.Some? == TokensLeft(op).Some?)
  {
    hide Place, SealTokens, Run;
    var plan := Plan(encryptionKey, orgId, op);
    assert plan[..1] == [plan[0]];
    RunOfTwo(items, plan[0], plan[1]);
    PlaceIsInjective(OrgCreds(orgId), OrgProfile(orgId));
  }
}
