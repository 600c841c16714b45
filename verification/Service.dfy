/**
 The repositories at work on one table: each call performs exactly its planned writes, and what is read
 back after any run of calls.
 */
module Service {
  import opened Results
  import opened IsoTime
  import opened Store
  import opened CatalogRepository
  import opened TokenStorage
  import opened SingleTable
  import Audit

  /** Make a call of the repository it belongs to, whatever comes of it. */
  method Execute(table: Table, encryptionKey: string, call: Call)
    requires Shaped(table.items)
    modifies table
    ensures table.log == old(table.log) + CallPlan(old(table.items), encryptionKey, call)
    ensures table.items == Run(old(table.items), CallPlan(old(table.items), encryptionKey, call))
    ensures Shaped(table.items)
  {
    CallKeepsShape(table.items, encryptionKey, call);
    hide Shaped, SealTokens, DynPlan, Audit.Event, Audit.EventLogged, ExpiresAt, View;
    NothingRun(table.items);
    if call.OnCatalog? {
      ExecuteOnCatalog(table, encryptionKey, call.op);
    } else if call.RecordEvent? {
      var audit := new Audit.AuditRepository(table, call.ttlDays);
      ghost var plan := CallPlan(table.items, encryptionKey, call);
      if ExpiresAt(call.at, call.ttlDays).Some? {
        RunOfTwo(table.items, plan[0], plan[0]);
      }
      var r := audit.RecordEvent(
        call.orgId, call.eventType, call.outcome, call.requestId, call.detail, call.at, call.eventId);
    } else if call.Expire? {
      var found := table.GetItem(Place(AuditEvent(call.orgId, call.stamp)));
      if found.Some? && found.value.AuditItem? && found.value.expiresAt <= call.clock {
        RunOfTwo(table.items, Delete(Place(AuditEvent(call.orgId, call.stamp))), Delete(Place(CatalogSummary)));
        table.DeleteItem(Place(AuditEvent(call.orgId, call.stamp)));
      }
    } else {
      ExecuteOnTokens(table, encryptionKey, call);
    }
  }

  method ExecuteOnCatalog(table: Table, ghost encryptionKey: string, op: CatalogOp)
    requires Shaped(table.items)
    modifies table
    ensures table.log == old(table.log) + CallPlan(old(table.items), encryptionKey, OnCatalog(op))
    ensures table.items == Run(old(table.items), CallPlan(old(table.items), encryptionKey, OnCatalog(op)))
  {
    hide Shaped, DynPlan;
    NothingRun(table.items);
    PlansOfListAndReplace(table.items);
    var repository := new DynamoDBCatalogRepository(table);
    match op
    case ListAgents => var r := repository.ListAgents();
    case EnsureSeeded(file) => var r := repository.EnsureSeeded(file);
    case SaveAgent(entry) => var r := repository.SaveAgent(entry);
    case RemoveAgent(id) => var r := repository.RemoveAgent(id);
    case ReplaceAll(entries) => var r := repository.ReplaceAll(entries);
  }

  lemma PlansOfListAndReplace(items: Items)
    requires Shaped(items)
    ensures DynPlan(items, ListAgents).Success? ==> DynPlan(items, ListAgents).value == []
    ensures forall es :: DynPlan(items, ReplaceAll(es)) == DynWrite(items, es, false)
  {
    hide DynList;
  }

  method ExecuteOnTokens(table: Table, encryptionKey: string, call: Call)
    requires Shaped(table.items)
    requires call.SetIntegrationTokens? || call.SetServiceAppTokens? || call.DeleteServiceAppTokens?
    modifies table
    ensures table.log == old(table.log) + CallPlan(old(table.items), encryptionKey, call)
    ensures table.items == Run(old(table.items), CallPlan(old(table.items), encryptionKey, call))
  {
    hide Shaped, SealTokens, View, SetPlan, DeletePlan;
    var storage := new DynamoDBTokenStorage(table, encryptionKey);
    match call
    case SetIntegrationTokens(t) =>
      ghost var write := Put(Place(IntegrationCreds), SealTokens(encryptionKey, t));
      RunOfTwo(table.items, write, write);
      storage.SetIntegrationTokens(t);
    case SetServiceAppTokens(orgId, t, now) => storage.SetServiceAppTokens(orgId, t, now);
    case DeleteServiceAppTokens(orgId, now) => storage.DeleteServiceAppTokens(orgId, now);
  }

  /** Make calls one after another. */
  method Serve(table: Table, encryptionKey: string, calls: seq<Call>)
    requires Shaped(table.items)
    modifies table
    ensures table.items == RunCalls(old(table.items), encryptionKey, calls)
    ensures Shaped(table.items)
  {
    for i := 0 to |calls|
      invariant Shaped(table.items)
      invariant table.items == RunCalls(old(table.items), encryptionKey, calls[..i])
    {
      assert calls[..i + 1][..i] == calls[..i];
      Execute(table, encryptionKey, calls[i]);
    }
    assert calls[..|calls|] == calls;
  }

  /* ---------- Integration tokens ---------- */

  /** The integration tokens that were set last. */
  function LastSet(calls: seq<Call>): Option<Tokens> {
    if calls == [] then None
    else match calls[|calls| - 1]
      case SetIntegrationTokens(t) => Some(t)
      case _ => LastSet(calls[..|calls| - 1])
  }

  /** The integration's item is the sealed tokens of the last set, whatever others do. */
  lemma {:induction false} IntegrationItemIsTheLastSet(items: Items, encryptionKey: string, calls: seq<Call>)
    requires Shaped(items)
    ensures Lookup(RunCalls(items, encryptionKey, calls), Key("INTEGRATION", "CREDS")) ==
            match LastSet(calls)
            case Some(t) => Some(SealTokens(encryptionKey, t))
            case None => Lookup(items, Key("INTEGRATION", "CREDS"))
  {
    hide CallPlan, Run, Shaped;
    if calls == [] {
    } else {
      var front, last := calls[..|calls| - 1], calls[|calls| - 1];
      IntegrationItemIsTheLastSet(items, encryptionKey, front);
      IntegrationItemAfter(RunCalls(items, encryptionKey, front), encryptionKey, last);
    }
  }

  lemma IntegrationItemAfter(items: Items, encryptionKey: string, call: Call)
    requires Shaped(items)
    ensures Lookup(Run(items, CallPlan(items, encryptionKey, call)), Key("INTEGRATION", "CREDS")) ==
            match call
            case SetIntegrationTokens(t) => Some(SealTokens(encryptionKey, t))
            case _ => Lookup(items, Key("INTEGRATION", "CREDS"))
  {
    hide Shaped, SealTokens, Part;
    assert Place(IntegrationCreds) == Key("INTEGRATION", "CREDS");
    if call.SetIntegrationTokens? {
      var write := Put(Place(IntegrationCreds), SealTokens(encryptionKey, call.tokens));
      RunOfTwo(items, write, write);
    } else {
      hide CallPlan, Run;
      CallStaysAtHome(items, encryptionKey, call);
      OtherRunKeepsPart(items, CallPlan(items, encryptionKey, call), CallOwner(call), TheIntegration);
      SamePart(Run(items, CallPlan(items, encryptionKey, call)), items, TheIntegration);
      assert OwnerOf(IntegrationCreds) == TheIntegration;
    }
  }

  /**
   After any run of calls from an empty table, reading the integration tokens under the same key gives
   exactly those set last; under another key, and when none were set, it gives none.
   */
  method IntegrationTokensAfter(table: Table, encryptionKey: string, readKey: string, calls: seq<Call>)
    returns (r: Result<Option<Tokens>, TokenError>)
    requires table.items == map[]
    modifies table
    ensures r == Success(if readKey == encryptionKey then LastSet(calls) else None)
  {
    Serve(table, encryptionKey, calls);
    IntegrationItemIsTheLastSet(map[], encryptionKey, calls);
    assert Place(IntegrationCreds) == Key("INTEGRATION", "CREDS");
    if LastSet(calls).Some? {
      SealedTokensOpen(encryptionKey, readKey, LastSet(calls).value);
    }
    var storage := new DynamoDBTokenStorage(table, readKey);
    r := storage.GetIntegrationTokens();
  }

  /* ---------- Org tokens ---------- */

  /** The tokens an org was left with by the last call that set or deleted them. */
  function LastLeft(calls: seq<Call>, orgId: string): Option<Tokens> {
    if calls == [] then None
    else match calls[|calls| - 1]
      case SetServiceAppTokens(org, t, _) => if org == orgId then Some(t) else LastLeft(calls[..|calls| - 1], orgId)
      case DeleteServiceAppTokens(org, _) => if org == orgId then None else LastLeft(calls[..|calls| - 1], orgId)
      case _ => LastLeft(calls[..|calls| - 1], orgId)
  }

  lemma {:induction false} OrgItemIsTheLastLeft(encryptionKey: string, calls: seq<Call>, orgId: string)
    ensures Lookup(RunCalls(map[], encryptionKey, calls), Key("ORG#" + orgId, "CREDS")) ==
            match LastLeft(calls, orgId)
            case Some(t) => Some(SealTokens(encryptionKey, t))
            case None => None
  {
    hide CallPlan, Run, Shaped;
    EmptyIsShaped();
    if calls == [] {
    } else {
      var front, last := calls[..|calls| - 1], calls[|calls| - 1];
      OrgItemIsTheLastLeft(encryptionKey, front, orgId);
      OrgItemAfter(RunCalls(map[], encryptionKey, front), encryptionKey, last, orgId);
    }
  }

  lemma EmptyIsShaped()
    ensures Shaped(map[])
  {
  }

  lemma OrgItemAfter(items: Items, encryptionKey: string, call: Call, orgId: string)
    requires Shaped(items)
    ensures Lookup(Run(items, CallPlan(items, encryptionKey, call)), Key("ORG#" + orgId, "CREDS")) ==
            match call
            case SetServiceAppTokens(org, t, _) =>
              if org == orgId then Some(SealTokens(encryptionKey, t)) else Lookup(items, Key("ORG#" + orgId, "CREDS"))
            case DeleteServiceAppTokens(org, _) =>
              if org == orgId then None else Lookup(items, Key("ORG#" + orgId, "CREDS"))
            case _ => Lookup(items, Key("ORG#" + orgId, "CREDS"))
  {
    assert Place(OrgCreds(orgId)) == Key("ORG#" + orgId, "CREDS");
    hide Shaped, SealTokens, Place;
    var plan := CallPlan(items, encryptionKey, call);
    if (call.SetServiceAppTokens? || call.DeleteServiceAppTokens?) && call.orgId == orgId {
      RunOfTwo(items, plan[0], plan[1]);
      PlaceIsInjective(OrgCreds(orgId), OrgProfile(orgId));
      assert plan == [plan[0], plan[1]];
    } else {
      CredsAreNotTouched(items, encryptionKey, call, orgId);
      hide Run, CallPlan;
      MissingWritesKeep(items, plan, Place(OrgCreds(orgId)));
    }
  }

  lemma CredsAreNotTouched(items: Items, encryptionKey: string, call: Call, orgId: string)
    requires Shaped(items)
    requires !((call.SetServiceAppTokens? || call.DeleteServiceAppTokens?) && call.orgId == orgId)
    ensures forall op | op in CallPlan(items, encryptionKey, call) :: op.key != Place(OrgCreds(orgId))
  {
    forall op | op in CallPlan(items, encryptionKey, call) ensures op.key != Place(OrgCreds(orgId)) {
      OtherWriteMissesCreds(items, encryptionKey, call, op, orgId);
    }
  }

  lemma OtherWriteMissesCreds(items: Items, encryptionKey: string, call: Call, op: TableOp, orgId: string)
    requires Shaped(items) && op in CallPlan(items, encryptionKey, call)
    requires !((call.SetServiceAppTokens? || call.DeleteServiceAppTokens?) && call.orgId == orgId)
    ensures op.key != Place(OrgCreds(orgId))
  {
    hide Place, SealTokens, Audit.Event, ExpiresAt, Shaped, DynPlan, HasExpired;
    match call
    case RecordEvent(org, _, _, _, _, at, eventId, _) =>
      PlaceIsInjective(AuditEvent(org, Audit.Stamp(at, eventId)), OrgCreds(orgId));
    case Expire(org, stamp, _) => PlaceIsInjective(AuditEvent(org, stamp), OrgCreds(orgId));
    case _ =>
      hide CallPlan;
      CallStaysAtHome(items, encryptionKey, call);
      var slot :| OwnerOf(slot) == CallOwner(call) && op.key == Place(slot);
      PlaceIsInjective(slot, OrgCreds(orgId));
  }

  /**
   After any run of calls from an empty table, reading an org's tokens under the same key gives exactly
   those set last, or none after a delete; under another key it raises.
   */
  method OrgTokensAfter(table: Table, encryptionKey: string, readKey: string, calls: seq<Call>, orgId: string)
    returns (r: Result<Option<Tokens>, TokenError>)
    requires table.items == map[]
    modifies table
    ensures r == if LastLeft(calls, orgId).None? then Success(None)
                 else if readKey == encryptionKey then Success(LastLeft(calls, orgId))
                 else Failure(CannotDecrypt)
  {
    Serve(table, encryptionKey, calls);
    OrgItemIsTheLastLeft(encryptionKey, calls, orgId);
    assert Place(OrgCreds(orgId)) == Key("ORG#" + orgId, "CREDS");
    if LastLeft(calls, orgId).Some? {
      SealedTokensOpen(encryptionKey, readKey, LastLeft(calls, orgId).value);
    }
    var storage := new DynamoDBTokenStorage(table, readKey);
    r := storage.GetServiceAppTokens(orgId);
  }
}
