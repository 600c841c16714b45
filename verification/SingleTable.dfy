/**
 All repositories share one table. Each of them nevertheless sees only its own writes: the catalog,
 the integration tokens and every single org evolve as if each had a table to itself.
 */
module SingleTable {
  import opened Results
  import opened IsoTime
  import opened Store
  import opened Catalog
  import opened CatalogRepository
  import opened CatalogRefinement
  import CatalogCrash
  import TokenStorage
  import Audit

  /** Whose data a slot is. */
  datatype Owner = TheCatalog | TheIntegration | AnOrg(orgId: string)

  function OwnerOf(slot: Slot): Owner {
    match slot
    case IntegrationCreds => TheIntegration
    case CatalogAgent(_) => TheCatalog
    case CatalogSummary => TheCatalog
    case OrgCreds(orgId) => AnOrg(orgId)
    case OrgProfile(orgId) => AnOrg(orgId)
    case AuditEvent(orgId, _) => AnOrg(orgId)
  }

  /** Slots have one owner exactly if both are of the catalog, of the integration, or of one org. */
  lemma OwnersAreApart(a: Slot, b: Slot)
    ensures OwnerOf(a) == OwnerOf(b) <==>
            || ((a.CatalogAgent? || a.CatalogSummary?) && (b.CatalogAgent? || b.CatalogSummary?))
            || (a.IntegrationCreds? && b.IntegrationCreds?)
            || ((a.OrgCreds? || a.OrgProfile? || a.AuditEvent?) && (b.OrgCreds? || b.OrgProfile? || b.AuditEvent?)
                && a.orgId == b.orgId)
  {
  }

  /** One owner's store, lifted out of the table. */
  function Part(items: Items, owner: Owner): map<Slot, Item> {
    map s | s in OccupiedSlots(items) && OwnerOf(s) == owner :: items[Place(s)]
  }

  /* ---------- Calls of all repositories ---------- */

  datatype Call =
    | OnCatalog(op: CatalogOp)
    | SetIntegrationTokens(tokens: Tokens)
    | SetServiceAppTokens(orgId: string, tokens: Tokens, now: string)
    | DeleteServiceAppTokens(orgId: string, now: string)
    | RecordEvent(orgId: string, eventType: string, outcome: string, requestId: Option<string>,
                  detail: Option<string>, at: Instant, eventId: string, ttlDays: int)
    | Expire(orgId: string, stamp: string, clock: int)

  function CallOwner(call: Call): Owner {
    match call
    case OnCatalog(_) => TheCatalog
    case SetIntegrationTokens(_) => TheIntegration
    case SetServiceAppTokens(orgId, _, _) => AnOrg(orgId)
    case DeleteServiceAppTokens(orgId, _) => AnOrg(orgId)
    case RecordEvent(orgId, _, _, _, _, _, _, _) => AnOrg(orgId)
    case Expire(orgId, _, _) => AnOrg(orgId)
  }

  /** The table operations that a call performs. */
  function CallPlan(items: Items, encryptionKey: string, call: Call): seq<TableOp>
    requires Shaped(items)
  {
    match call
    case OnCatalog(op) => (match DynPlan(items, op) case Success(plan) => plan case Failure(_) => [])
    case SetIntegrationTokens(t) => [Put(Place(IntegrationCreds), TokenStorage.SealTokens(encryptionKey, t))]
    case SetServiceAppTokens(orgId, t, now) => TokenStorage.SetPlan(encryptionKey, orgId, t, now)
    case DeleteServiceAppTokens(orgId, now) => TokenStorage.DeletePlan(orgId, now)
    case RecordEvent(orgId, eventType, outcome, requestId, detail, at, eventId, ttlDays) =>
      (match ExpiresAt(at, ttlDays)
       case None => []
       case Some(expiresAt) =>
         [Put(Place(AuditEvent(orgId, Audit.Stamp(at, eventId))),
              Audit.Event(orgId, eventType, outcome, requestId, detail, at, expiresAt))])
    case Expire(orgId, stamp, clock) =>
      if HasExpired(items, orgId, stamp, clock) then [Delete(Place(AuditEvent(orgId, stamp)))] else []
  }

  /** The table drops an event by itself once the clock, in seconds, has reached its expiry. */
  predicate HasExpired(items: Items, orgId: string, stamp: string, clock: int) {
    match Lookup(items, Place(AuditEvent(orgId, stamp)))
    case Some(event) => event.AuditItem? && event.expiresAt <= clock
    case None => false
  }

  /* ---------- Writes stay at home ---------- */

  ghost predicate AtHome(op: TableOp, owner: Owner) {
    exists slot :: OwnerOf(slot) == owner && op.key == Place(slot)
  }

  ghost predicate AllAtHome(ops: seq<TableOp>, owner: Owner) {
    forall op | op in ops :: AtHome(op, owner)
  }

  lemma CatalogPlanAtHome(items: Items, es: seq<Entry>, seeded: bool)
    ensures AllAtHome(WritePlan(items, es, seeded), TheCatalog)
  {
    forall op | op in Deletes(OldKeys(items)) ensures AtHome(op, TheCatalog) {
      OldKeyAtHome(items, op.key);
    }
    forall op | op in Puts(es) ensures AtHome(op, TheCatalog) {
      var j :| 0 <= j < |es| && op == Puts(es)[j];
      assert op.key == Place(CatalogAgent(es[j].virtualAgentId));
    }
    assert MetaKey() == Place(CatalogSummary);
  }

  lemma OldKeyAtHome(items: Items, key: Key)
    requires key in OldKeys(items)
    ensures exists slot :: OwnerOf(slot) == TheCatalog && key == Place(slot)
  {
    SlotThenPlace(key);
    assert OwnerOf(SlotAt(key).value) == TheCatalog;
  }

  lemma CatalogOpStaysAtHome(items: Items, op: CatalogOp)
    requires Shaped(items)
    ensures AllAtHome(match DynPlan(items, op) case Success(plan) => plan case Failure(_) => [], TheCatalog)
  {
    hide WritePlan, AtHome;
    CatalogCrash.TargetIsPlanned(items, op);
    if CatalogCrash.Target(items, op).Some? {
      var (es, seeded) := CatalogCrash.Target(items, op).value;
      CatalogPlanAtHome(items, es, seeded);
    }
  }

  lemma CallStaysAtHome(items: Items, encryptionKey: string, call: Call)
    requires Shaped(items)
    ensures AllAtHome(CallPlan(items, encryptionKey, call), CallOwner(call))
  {
    if call.OnCatalog? {
      hide DynPlan, AllAtHome;
      CatalogOpStaysAtHome(items, call.op);
    } else {
      OrgCallStaysAtHome(items, encryptionKey, call);
    }
  }

  lemma OrgCallStaysAtHome(items: Items, encryptionKey: string, call: Call)
    requires Shaped(items) && !call.OnCatalog?
    ensures AllAtHome(CallPlan(items, encryptionKey, call), CallOwner(call))
  {
    hide AllAtHome, Shaped, TokenStorage.SealTokens, Audit.Stamp, Audit.Event, ExpiresAt, HasExpired;
    NothingIsAtHome(CallOwner(call));
    match call
    case SetIntegrationTokens(t) =>
      SlotsAtHome([IntegrationCreds], CallPlan(items, encryptionKey, call), TheIntegration);
    case SetServiceAppTokens(orgId, _, _) =>
      SlotsAtHome([OrgCreds(orgId), OrgProfile(orgId)], CallPlan(items, encryptionKey, call), AnOrg(orgId));
    case DeleteServiceAppTokens(orgId, _) =>
      SlotsAtHome([OrgCreds(orgId), OrgProfile(orgId)], CallPlan(items, encryptionKey, call), AnOrg(orgId));
    case RecordEvent(orgId, _, _, _, _, at, eventId, ttlDays) =>
      if ExpiresAt(at, ttlDays).Some? {
        SlotsAtHome([AuditEvent(orgId, Audit.Stamp(at, eventId))], CallPlan(items, encryptionKey, call), AnOrg(orgId));
      }
    case Expire(orgId, stamp, clock) =>
      if HasExpired(items, orgId, stamp, clock) {
        SlotsAtHome([AuditEvent(orgId, stamp)], CallPlan(items, encryptionKey, call), AnOrg(orgId));
      }
  }

  lemma NothingIsAtHome(owner: Owner)
    ensures AllAtHome([], owner)
  {
  }

  lemma SlotsAtHome(slots: seq<Slot>, ops: seq<TableOp>, owner: Owner)
    requires |slots| == |ops|
    requires forall i | 0 <= i < |ops| :: OwnerOf(slots[i]) == owner && ops[i].key == Place(slots[i])
    ensures AllAtHome(ops, owner)
  {
  }

  /** A write at home elsewhere leaves this owner's store alone. */
  lemma OtherWriteKeepsPart(items: Items, op: TableOp, home: Owner, owner: Owner)
    requires AtHome(op, home) && home != owner
    ensures Part(Apply(items, op), owner) == Part(items, owner)
  {
    var slot :| OwnerOf(slot) == home && op.key == Place(slot);
    hide Place, OwnerOf;
    forall s | OwnerOf(s) == owner ensures Lookup(Apply(items, op), Place(s)) == Lookup(items, Place(s)) {
      PlaceIsInjective(s, slot);
    }
    SamePart(Apply(items, op), items, owner);
  }

  lemma SamePart(a: Items, b: Items, owner: Owner)
    ensures Part(a, owner) == Part(b, owner) <==>
            forall s | OwnerOf(s) == owner :: Lookup(a, Place(s)) == Lookup(b, Place(s))
  {
    hide Place, OwnerOf;
    if Part(a, owner) == Part(b, owner) {
      forall s | OwnerOf(s) == owner ensures Lookup(a, Place(s)) == Lookup(b, Place(s)) {
        assert s in Part(a, owner) <==> s in Part(b, owner);
        assert s in Part(a, owner) ==> Part(a, owner)[s] == Part(b, owner)[s];
      }
    }
    if forall s | OwnerOf(s) == owner :: Lookup(a, Place(s)) == Lookup(b, Place(s)) {
      forall s ensures s in Part(a, owner) <==> s in Part(b, owner) {
        assert OwnerOf(s) == owner ==> Lookup(a, Place(s)) == Lookup(b, Place(s));
      }
      forall s | s in Part(a, owner) ensures Part(a, owner)[s] == Part(b, owner)[s] {
        assert Lookup(a, Place(s)) == Lookup(b, Place(s));
      }
    }
  }

  lemma {:induction false} OtherRunKeepsPart(items: Items, ops: seq<TableOp>, home: Owner, owner: Owner)
    requires AllAtHome(ops, home) && home != owner
    ensures Part(Run(items, ops), owner) == Part(items, owner)
  {
    if ops == [] {
    } else {
      OtherRunKeepsPart(items, ops[..|ops| - 1], home, owner);
      OtherWriteKeepsPart(Run(items, ops[..|ops| - 1]), ops[|ops| - 1], home, owner);
    }
  }

  /** The same writes to equal stores leave equal stores. */
  lemma {:induction false} SameRunSamePart(a: Items, b: Items, ops: seq<TableOp>, owner: Owner)
    requires Part(a, owner) == Part(b, owner)
    ensures Part(Run(a, ops), owner) == Part(Run(b, ops), owner)
  {
    hide Place, OwnerOf, Part;
    if ops == [] {
    } else {
      var front, op := ops[..|ops| - 1], ops[|ops| - 1];
      SameRunSamePart(a, b, front, owner);
      SamePart(Run(a, front), Run(b, front), owner);
      SamePart(Run(a, ops), Run(b, ops), owner);
    }
  }

  /* ---------- A call reads its own store only ---------- */

  lemma SameCatalogSameKeys(a: Items, b: Items)
    requires Part(a, TheCatalog) == Part(b, TheCatalog)
    ensures OldKeys(a) == OldKeys(b)
    ensures forall k | k in OldKeys(a) :: k in a && k in b && a[k] == b[k]
    ensures Shaped(a) <==> Shaped(b)
    ensures MetaKey() in a <==> MetaKey() in b
  {
    SamePart(a, b, TheCatalog);
    forall k | IsAgentKey(k) ensures Lookup(a, k) == Lookup(b, k) {
      PrefixThenRest(AGENT_PREFIX, k.sk);
      assert k == Place(CatalogAgent(k.sk[|AGENT_PREFIX|..]));
      assert OwnerOf(CatalogAgent(k.sk[|AGENT_PREFIX|..])) == TheCatalog;
    }
    assert OwnerOf(CatalogSummary) == TheCatalog;
    forall sk
      ensures sk in MatchingSortKeys(a, CATALOG_PK, AGENT_PREFIX) <==>
              sk in MatchingSortKeys(b, CATALOG_PK, AGENT_PREFIX)
    {
      assert AGENT_PREFIX <= sk ==> Lookup(a, Key(CATALOG_PK, sk)) == Lookup(b, Key(CATALOG_PK, sk));
    }
    assert MatchingSortKeys(a, CATALOG_PK, AGENT_PREFIX) == MatchingSortKeys(b, CATALOG_PK, AGENT_PREFIX);
    forall k | k in OldKeys(a) ensures k in a && k in b && a[k] == b[k] {
      assert IsAgentKey(k) && Lookup(a, k) == Lookup(b, k);
    }
    if Shaped(a) {
      ShapedFollows(a, b);
    }
    if Shaped(b) {
      ShapedFollows(b, a);
    }
  }

  lemma ShapedFollows(a: Items, b: Items)
    requires forall k | IsAgentKey(k) :: Lookup(a, k) == Lookup(b, k)
    requires Shaped(a)
    ensures Shaped(b)
  {
    assert forall k | k in b && IsAgentKey(k) :: Lookup(a, k) == Lookup(b, k) && k in a && a[k] == b[k];
  }

  lemma SameCatalogSamePlan(a: Items, b: Items, op: CatalogOp)
    requires Shaped(a) && Part(a, TheCatalog) == Part(b, TheCatalog)
    ensures Shaped(b) && DynPlan(a, op) == DynPlan(b, op)
  {
    SameCatalogSameKeys(a, b);
    SameListing(a, b);
    SameWrites(a, b);
    SameListResult(a, b);
    SamePlanFromParts(a, b, op);
  }

  lemma SameWrites(a: Items, b: Items)
    requires OldKeys(a) == OldKeys(b)
    ensures forall es, seeded :: DynWrite(a, es, seeded) == DynWrite(b, es, seeded)
  {
    hide QueryKeys, Verdict;
  }

  lemma SamePlanFromParts(a: Items, b: Items, op: CatalogOp)
    requires Shaped(a) && Shaped(b) && (MetaKey() in a <==> MetaKey() in b)
    requires DynList(a) == DynList(b)
    requires forall es, seeded :: DynWrite(a, es, seeded) == DynWrite(b, es, seeded)
    ensures DynPlan(a, op) == DynPlan(b, op)
  {
    hide Shaped, DynList, DynWrite, Without, MetaKey;
  }

  lemma SameListResult(a: Items, b: Items)
    requires Shaped(a) && Shaped(b) && Listing(a) == Listing(b)
    ensures DynList(a) == DynList(b)
  {
    hide Verdict, Listing;
  }

  lemma SameListing(a: Items, b: Items)
    requires Shaped(a) && Shaped(b) && OldKeys(a) == OldKeys(b)
    requires forall k | k in OldKeys(a) :: k in a && k in b && a[k] == b[k]
    ensures Listing(a) == Listing(b)
  {
    hide AgentKey, IsAgentKey, Shaped, QueryKeys;
    forall i | 0 <= i < |OldKeys(a)| ensures Listing(a)[i] == Listing(b)[i] {
      assert OldKeys(a)[i] in OldKeys(a);
    }
  }

  lemma SamePartSamePlan(a: Items, b: Items, encryptionKey: string, call: Call)
    requires Shaped(a) && Shaped(b) && Part(a, CallOwner(call)) == Part(b, CallOwner(call))
    ensures CallPlan(a, encryptionKey, call) == CallPlan(b, encryptionKey, call)
  {
    match call
    case OnCatalog(op) => SameCatalogSamePlan(a, b, op);
    case Expire(orgId, stamp, _) =>
      hide Part, Place;
      SamePart(a, b, AnOrg(orgId));
      assert OwnerOf(AuditEvent(orgId, stamp)) == AnOrg(orgId);
    case _ =>
  }

  /* ---------- Whole runs ---------- */

  lemma CallKeepsShape(items: Items, encryptionKey: string, call: Call)
    requires Shaped(items)
    ensures Shaped(Run(items, CallPlan(items, encryptionKey, call)))
  {
    if call.OnCatalog? {
      StepKeepsShape(items, call.op);
    } else {
      hide CallPlan, Part, Shaped;
      CallStaysAtHome(items, encryptionKey, call);
      OtherRunKeepsPart(items, CallPlan(items, encryptionKey, call), CallOwner(call), TheCatalog);
      SameCatalogSameKeys(items, Run(items, CallPlan(items, encryptionKey, call)));
    }
  }

  function RunCalls(items: Items, encryptionKey: string, calls: seq<Call>): (r: Items)
    requires Shaped(items)
    ensures Shaped(r)
  {
    if calls == [] then items
    else
      var before := RunCalls(items, encryptionKey, calls[..|calls| - 1]);
      CallKeepsShape(before, encryptionKey, calls[|calls| - 1]);
      Run(before, CallPlan(before, encryptionKey, calls[|calls| - 1]))
  }

  /** The calls that belong to one owner, in order. */
  function OwnCalls(calls: seq<Call>, owner: Owner): seq<Call> {
    if calls == [] then []
    else
      var last := calls[|calls| - 1];
      OwnCalls(calls[..|calls| - 1], owner) + if CallOwner(last) == owner then [last] else []
  }

  /**
   Over every sequence of calls to all the repositories, each owner's store ends up exactly as if
   only that owner's own calls had been made.
   */
  lemma {:induction false} EachStoreIsAlone(items: Items, encryptionKey: string, calls: seq<Call>, owner: Owner)
    requires Shaped(items)
    ensures Part(RunCalls(items, encryptionKey, calls), owner) ==
            Part(RunCalls(items, encryptionKey, OwnCalls(calls, owner)), owner)
  {
    hide CallPlan, Part, Run, Shaped;
    if calls == [] {
    } else {
      var front, last := calls[..|calls| - 1], calls[|calls| - 1];
      EachStoreIsAlone(items, encryptionKey, front, owner);
      var busy, alone := RunCalls(items, encryptionKey, front), RunCalls(items, encryptionKey, OwnCalls(front, owner));
      if CallOwner(last) == owner {
        assert OwnCalls(calls, owner)[..|OwnCalls(calls, owner)| - 1] == OwnCalls(front, owner);
        SamePartSamePlan(busy, alone, encryptionKey, last);
        SameRunSamePart(busy, alone, CallPlan(busy, encryptionKey, last), owner);
      } else {
        assert OwnCalls(calls, owner) == OwnCalls(front, owner);
        CallStaysAtHome(busy, encryptionKey, last);
        OtherRunKeepsPart(busy, CallPlan(busy, encryptionKey, last), CallOwner(last), owner);
      }
    }
  }

  /** Everything read on behalf of an org depends on that org's own calls only. */
  lemma OrgReadsAreIsolated(items: Items, encryptionKey: string, calls: seq<Call>, orgId: string)
    requires Shaped(items)
    ensures var busy := RunCalls(items, encryptionKey, calls);
            var alone := RunCalls(items, encryptionKey, OwnCalls(calls, AnOrg(orgId)));
            && Lookup(busy, Place(OrgCreds(orgId))) == Lookup(alone, Place(OrgCreds(orgId)))
            && Lookup(busy, Place(OrgProfile(orgId))) == Lookup(alone, Place(OrgProfile(orgId)))
            && Audit.Newest(busy, orgId) == Audit.Newest(alone, orgId)
  {
    hide RunCalls;
    EachStoreIsAlone(items, encryptionKey, calls, AnOrg(orgId));
    var busy := RunCalls(items, encryptionKey, calls);
    var alone := RunCalls(items, encryptionKey, OwnCalls(calls, AnOrg(orgId)));
    SamePart(busy, alone, AnOrg(orgId));
    assert OwnerOf(OrgCreds(orgId)) == OwnerOf(OrgProfile(orgId)) == AnOrg(orgId);
    SameEvents(busy, alone, orgId);
  }

  lemma SameEvents(a: Items, b: Items, orgId: string)
    requires forall s | OwnerOf(s) == AnOrg(orgId) :: Lookup(a, Place(s)) == Lookup(b, Place(s))
    ensures Audit.Newest(a, orgId) == Audit.Newest(b, orgId)
  {
    forall sk | AUDIT_PREFIX <= sk ensures Lookup(a, Key(OrgPk(orgId), sk)) == Lookup(b, Key(OrgPk(orgId), sk)) {
      PrefixThenRest(AUDIT_PREFIX, sk);
      var slot := AuditEvent(orgId, sk[|AUDIT_PREFIX|..]);
      assert OwnerOf(slot) == AnOrg(orgId) && Place(slot) == Key(OrgPk(orgId), sk);
    }
    assert forall sk :: sk in MatchingSortKeys(a, OrgPk(orgId), AUDIT_PREFIX) <==>
                        sk in MatchingSortKeys(b, OrgPk(orgId), AUDIT_PREFIX);
    assert MatchingSortKeys(a, OrgPk(orgId), AUDIT_PREFIX) == MatchingSortKeys(b, OrgPk(orgId), AUDIT_PREFIX);
    var keys := Audit.EventKeys(a, orgId);
    assert keys == Audit.EventKeys(b, orgId);
    forall k | k in keys ensures a[k] == b[k] {
      assert Lookup(a, Key(OrgPk(orgId), k.sk)) == Lookup(b, Key(OrgPk(orgId), k.sk));
    }
  }

  /* ---------- The audit log over whole runs ---------- */

  /** Writes to slots that are no audit events. */
  ghost predicate NoEvents(ops: seq<TableOp>) {
    forall op | op in ops :: exists slot: Slot :: !slot.AuditEvent? && op.key == Place(slot)
  }

  lemma {:induction false} RunWithoutEventsKeepsTheLog(items: Items, ops: seq<TableOp>)
    requires Audit.EventLogged(items) && NoEvents(ops)
    ensures Audit.EventLogged(Run(items, ops))
  {
    hide Audit.EventLogged, Place;
    if ops == [] {
    } else {
      var front, op := ops[..|ops| - 1], ops[|ops| - 1];
      assert forall o | o in front :: o in ops;
      RunWithoutEventsKeepsTheLog(items, front);
      assert op in ops;
      var slot: Slot :| !slot.AuditEvent? && op.key == Place(slot);
      Audit.OtherWritesKeepTheLog(Run(items, front), slot, if op.Put? then Some(op.item) else None);
    }
  }

  lemma NoEventSlots(slots: seq<Slot>, ops: seq<TableOp>)
    requires |slots| == |ops| && forall i | 0 <= i < |ops| :: !slots[i].AuditEvent? && ops[i].key == Place(slots[i])
    ensures NoEvents(ops)
  {
  }

  lemma CallWithoutEvent(items: Items, encryptionKey: string, call: Call)
    requires Shaped(items) && !call.RecordEvent? && !call.Expire?
    ensures NoEvents(CallPlan(items, encryptionKey, call))
  {
    hide Place, DynPlan, Shaped, TokenStorage.SealTokens;
    var plan := CallPlan(items, encryptionKey, call);
    match call
    case OnCatalog(_) => CatalogCallWithoutEvent(items, encryptionKey, call);
    case SetIntegrationTokens(_) => NoEventSlots([IntegrationCreds], plan);
    case SetServiceAppTokens(orgId, _, _) => NoEventSlots([OrgCreds(orgId), OrgProfile(orgId)], plan);
    case DeleteServiceAppTokens(orgId, _) => NoEventSlots([OrgCreds(orgId), OrgProfile(orgId)], plan);
  }

  lemma CatalogCallWithoutEvent(items: Items, encryptionKey: string, call: Call)
    requires Shaped(items) && call.OnCatalog?
    ensures NoEvents(CallPlan(items, encryptionKey, call))
  {
    hide CallPlan, Place, Shaped;
    CallStaysAtHome(items, encryptionKey, call);
    forall op | op in CallPlan(items, encryptionKey, call)
      ensures exists slot: Slot :: !slot.AuditEvent? && op.key == Place(slot)
    {
      var slot :| OwnerOf(slot) == TheCatalog && op.key == Place(slot);
    }
  }

  lemma CallKeepsTheLog(items: Items, encryptionKey: string, call: Call)
    requires Shaped(items) && Audit.EventLogged(items)
    ensures Audit.EventLogged(Run(items, CallPlan(items, encryptionKey, call)))
  {
    hide Audit.EventLogged, Shaped;
    if call.RecordEvent? {
      hide ExpiresAt;
      var expiresAt := ExpiresAt(call.at, call.ttlDays);
      if expiresAt.Some? {
        var plan := CallPlan(items, encryptionKey, call);
        TokenStorage.RunOfTwo(items, plan[0], plan[0]);
        Audit.RecordingKeepsTheLog(items, call.orgId, call.eventType, call.outcome, call.requestId, call.detail,
                                   call.at, call.eventId, expiresAt.value);
      }
    } else if call.Expire? {
      if HasExpired(items, call.orgId, call.stamp, call.clock) {
        var plan := CallPlan(items, encryptionKey, call);
        TokenStorage.RunOfTwo(items, plan[0], plan[0]);
        Audit.ExpiringKeepsTheLog(items, call.orgId, call.stamp);
      }
    } else {
      hide CallPlan, Run;
      CallWithoutEvent(items, encryptionKey, call);
      RunWithoutEventsKeepsTheLog(items, CallPlan(items, encryptionKey, call));
    }
  }

  /**
   From an empty table, after any run of calls to all the repositories, every stored audit event is
   filed under its own org and timestamp and its detail holds no match of the token pattern.
   */
  lemma {:induction false} EveryStoredDetailIsRedacted(encryptionKey: string, calls: seq<Call>)
    ensures Audit.EventLogged(RunCalls(map[], encryptionKey, calls))
  {
    if calls == [] {
    } else {
      var front := calls[..|calls| - 1];
      EveryStoredDetailIsRedacted(encryptionKey, front);
      CallKeepsTheLog(RunCalls(map[], encryptionKey, front), encryptionKey, calls[|calls| - 1]);
    }
  }

  /* ---------- Events stay until they expire ---------- */

  /** A call that records another event under the same stamp, or finds the event expired. */
  predicate Touches(call: Call, orgId: string, stamp: string, event: Item) {
    match call
    case RecordEvent(org, _, _, _, _, at, eventId, _) => org == orgId && Audit.Stamp(at, eventId) == stamp
    case Expire(org, s, clock) => org == orgId && s == stamp && event.AuditItem? && event.expiresAt <= clock
    case _ => false
  }

  /**
   The log is append-only: over every run of calls to all the repositories an event stays as it was
   recorded, unless another is recorded under the very same stamp or it expires.
   */
  lemma {:induction false} EventsStayUntilTheyExpire(
    items: Items, encryptionKey: string, calls: seq<Call>, orgId: string, stamp: string, event: Item)
    requires Shaped(items) && Lookup(items, Place(AuditEvent(orgId, stamp))) == Some(event)
    requires forall call | call in calls :: !Touches(call, orgId, stamp, event)
    ensures Lookup(RunCalls(items, encryptionKey, calls), Place(AuditEvent(orgId, stamp))) == Some(event)
  {
    hide CallPlan, Run, Shaped, Place, Touches;
    if calls == [] {
    } else {
      var front, last := calls[..|calls| - 1], calls[|calls| - 1];
      EventsStayUntilTheyExpire(items, encryptionKey, front, orgId, stamp, event);
      var before := RunCalls(items, encryptionKey, front);
      CallKeepsTheEvent(before, encryptionKey, last, orgId, stamp, event);
    }
  }

  lemma CallKeepsTheEvent(
    items: Items, encryptionKey: string, call: Call, orgId: string, stamp: string, event: Item)
    requires Shaped(items) && Lookup(items, Place(AuditEvent(orgId, stamp))) == Some(event)
    requires !Touches(call, orgId, stamp, event)
    ensures Lookup(Run(items, CallPlan(items, encryptionKey, call)), Place(AuditEvent(orgId, stamp))) == Some(event)
  {
    hide Run, Shaped;
    var slot := AuditEvent(orgId, stamp);
    forall op | op in CallPlan(items, encryptionKey, call) ensures op.key != Place(slot) {
      WritesMissTheEvent(items, encryptionKey, call, op, orgId, stamp, event);
    }
    MissingWritesKeep(items, CallPlan(items, encryptionKey, call), Place(slot));
  }

  lemma WritesMissTheEvent(
    items: Items, encryptionKey: string, call: Call, op: TableOp, orgId: string, stamp: string, event: Item)
    requires Shaped(items) && Lookup(items, Place(AuditEvent(orgId, stamp))) == Some(event)
    requires !Touches(call, orgId, stamp, event) && op in CallPlan(items, encryptionKey, call)
    ensures op.key != Place(AuditEvent(orgId, stamp))
  {
    hide Place, ExpiresAt, Audit.Event, Audit.Stamp;
    var slot := AuditEvent(orgId, stamp);
    match call
    case RecordEvent(org, _, _, _, _, at, eventId, _) =>
      PlaceIsInjective(AuditEvent(org, Audit.Stamp(at, eventId)), slot);
    case Expire(org, s, _) => PlaceIsInjective(AuditEvent(org, s), slot);
    case _ =>
      CallWithoutEvent(items, encryptionKey, call);
      var other: Slot :| !other.AuditEvent? && op.key == Place(other);
      PlaceIsInjective(other, slot);
  }

  lemma {:induction false} MissingWritesKeep(items: Items, ops: seq<TableOp>, key: Key)
    requires forall op | op in ops :: op.key != key
    ensures Lookup(Run(items, ops), key) == Lookup(items, key)
  {
    if ops == [] {
    } else {
      MissingWritesKeep(items, ops[..|ops| - 1], key);
      assert ops[|ops| - 1] in ops;
    }
  }
}
