/**
 Encrypted token storage and org profiles
 (`src/persistence/token_storage.py`, `src/persistence/org_repository.py`).
 */
module TokenStorage {
  import opened Results
  import opened Text
  import opened IsoTime
  import opened Store

  /* ---------- Payload and encryption ---------- */

  const CIPHERTEXT_VERSION := 1

  datatype TokenError = CannotDecrypt | BadTimestamp

  function TokensToPayload(t: Tokens): Payload {
    Payload(t.accessToken, t.refreshToken, t.expiresIn, t.tokenType, IsoText(t.obtainedAt), t.refreshTokenExpiresIn)
  }

  function PayloadToTokens(p: Payload): Result<Tokens, TokenError> {
    match ParseIso(p.obtainedAt)
    case None => Failure(BadTimestamp)
    case Some(obtainedAt) =>
      Success(Tokens(p.accessToken, p.expiresIn, p.tokenType, p.refreshToken, p.refreshTokenExpiresIn, obtainedAt))
  }

  /** Encryption under a key: only the same key opens the blob again. */
  function EncryptPayload(encryptionKey: string, payload: Payload): Item {
    CredsItem(Sealed(encryptionKey, payload), CIPHERTEXT_VERSION)
  }

  function DecryptPayload(encryptionKey: string, item: Item): Result<Payload, TokenError>
    requires item.CredsItem?
  {
    if item.ciphertextVersion != CIPHERTEXT_VERSION || item.blob.encryptionKey != encryptionKey then
      Failure(CannotDecrypt)
    else Success(item.blob.payload)
  }

  /** The item that stores tokens under a key. */
  function SealTokens(encryptionKey: string, t: Tokens): Item {
    EncryptPayload(encryptionKey, TokensToPayload(t))
  }

  function OpenTokens(encryptionKey: string, item: Item): Result<Tokens, TokenError>
    requires item.CredsItem?
  {
    match DecryptPayload(encryptionKey, item)
    case Failure(error) => Failure(error)
    case Success(payload) => PayloadToTokens(payload)
  }

  /** Stored tokens come back unchanged under the same key, and not at all under another. */
  lemma SealedTokensOpen(encryptionKey: string, otherKey: string, t: Tokens)
    ensures OpenTokens(otherKey, SealTokens(encryptionKey, t)) ==
            if otherKey == encryptionKey then Success(t) else Failure(CannotDecrypt)
  {
    ParseUndoesIso(t.obtainedAt);
  }

  /* ---------- Reads ---------- */

  /** A credentials slot is empty or holds credentials. */
  predicate CredsIfAny(items: Items, slot: Slot) {
    match Lookup(items, Place(slot))
    case None => true
    case Some(item) => item.CredsItem?
  }

  /** What reading an org's credentials returns: its tokens, nothing, or an error. */
  function ReadOrgTokens(items: Items, encryptionKey: string, orgId: string): Result<Option<Tokens>, TokenError>
    requires CredsIfAny(items, OrgCreds(orgId))
  {
    match Lookup(items, Place(OrgCreds(orgId)))
    case None => Success(None)
    case Some(item) =>
      match OpenTokens(encryptionKey, item)
      case Failure(error) => Failure(error)
      case Success(tokens) => Success(Some(tokens))
  }

  /** Integration tokens read as absent when they cannot be decrypted. */
  function ReadIntegrationTokens(items: Items, encryptionKey: string): Result<Option<Tokens>, TokenError>
    requires CredsIfAny(items, IntegrationCreds)
  {
    match Lookup(items, Place(IntegrationCreds))
    case None => Success(None)
    case Some(item) =>
      match DecryptPayload(encryptionKey, item)
      case Failure(_) => Success(None)
      case Success(payload) =>
        match PayloadToTokens(payload)
        case Failure(error) => Failure(error)
        case Success(tokens) => Success(Some(tokens))
  }

  /* ---------- Writes ---------- */

  /** The two writes of an authorization: credentials first, then the profile. */
  function SetPlan(encryptionKey: string, orgId: string, t: Tokens, now: string): seq<TableOp> {
    [Put(Place(OrgCreds(orgId)), SealTokens(encryptionKey, t)),
     Put(Place(OrgProfile(orgId)), ProfileItem(Authorized, Some(now), None))]
  }

  /** The two writes of a deauthorization: credentials first, then the profile. */
  function DeletePlan(orgId: string, now: string): seq<TableOp> {
    [Delete(Place(OrgCreds(orgId))),
     Put(Place(OrgProfile(orgId)), ProfileItem(Deauthorized, None, Some(now)))]
  }

  lemma RunOfTwo(items: Items, a: TableOp, b: TableOp)
    ensures Run(items, [a]) == Apply(items, a)
    ensures Run(items, [a, b]) == Apply(Apply(items, a), b)
  {
    assert [a][..0] == [] && [a, b][..1] == [a];
  }

  method UpsertAuthorized(table: Table, orgId: string, now: string)
    modifies table
    ensures table.log == old(table.log) + [Put(Place(OrgProfile(orgId)), ProfileItem(Authorized, Some(now), None))]
    ensures View(table.items) == View(old(table.items))[OrgProfile(orgId) := ProfileItem(Authorized, Some(now), None)]
    ensures table.items ==
            Apply(old(table.items), Put(Place(OrgProfile(orgId)), ProfileItem(Authorized, Some(now), None)))
  {
    PutRefinesUpdate(table.items, OrgProfile(orgId), ProfileItem(Authorized, Some(now), None));
    table.PutItem(Key(OrgPk(orgId), PROFILE_SK), ProfileItem(Authorized, Some(now), None));
  }

  method MarkDeauthorized(table: Table, orgId: string, now: string)
    modifies table
    ensures table.log == old(table.log) + [Put(Place(OrgProfile(orgId)), ProfileItem(Deauthorized, None, Some(now)))]
    ensures View(table.items) == View(old(table.items))[OrgProfile(orgId) := ProfileItem(Deauthorized, None, Some(now))]
    ensures table.items ==
            Apply(old(table.items), Put(Place(OrgProfile(orgId)), ProfileItem(Deauthorized, None, Some(now))))
  {
    PutRefinesUpdate(table.items, OrgProfile(orgId), ProfileItem(Deauthorized, None, Some(now)));
    table.PutItem(Key(OrgPk(orgId), PROFILE_SK), ProfileItem(Deauthorized, None, Some(now)));
  }

  /** When the profile says the org was authorized, or deauthorized, if it says so. */
  function ProfileTimes(items: Items, orgId: string): (Option<string>, Option<string>) {
    match Lookup(items, Place(OrgProfile(orgId)))
    case Some(ProfileItem(_, authorizedAt, deauthorizedAt)) => (authorizedAt, deauthorizedAt)
    case _ => (None, None)
  }

  /**
   Each profile write replaces the item: a deauthorization keeps the time of the authorization, and
   the other way round, exactly if there was none to keep.
   */
  lemma ProfileWritesForget(items: Items, orgId: string, now: string)
    ensures var after := Apply(items, Put(Place(OrgProfile(orgId)), ProfileItem(Deauthorized, None, Some(now))));
            && ProfileTimes(after, orgId).1 == Some(now)
            && (ProfileTimes(after, orgId).0 == ProfileTimes(items, orgId).0 <==> ProfileTimes(items, orgId).0 == None)
    ensures var after := Apply(items, Put(Place(OrgProfile(orgId)), ProfileItem(Authorized, Some(now), None)));
            && ProfileTimes(after, orgId).0 == Some(now)
            && (ProfileTimes(after, orgId).1 == ProfileTimes(items, orgId).1 <==> ProfileTimes(items, orgId).1 == None)
  {
  }

  class DynamoDBTokenStorage {
    const table: Table
    const encryptionKey: string

    constructor (table: Table, encryptionKey: string)
      ensures this.table == table && this.encryptionKey == encryptionKey
    {
      this.table := table;
      this.encryptionKey := encryptionKey;
    }

    method GetIntegrationTokens() returns (r: Result<Option<Tokens>, TokenError>)
      requires CredsIfAny(table.items, IntegrationCreds)
      ensures r == ReadIntegrationTokens(table.items, encryptionKey)
    {
      var item := table.GetItem(Key(INTEGRATION_PK, CREDS_SK));
      if item.None? {
        return Success(None);
      }
      var payload := DecryptPayload(encryptionKey, item.value);
      if payload.Failure? {
        return Success(None);
      }
      var tokens :- PayloadToTokens(payload.value);
      return Success(Some(tokens));
    }

    method SetIntegrationTokens(t: Tokens)
      modifies table
      ensures table.log == old(table.log) + [Put(Place(IntegrationCreds), SealTokens(encryptionKey, t))]
      ensures table.items == Apply(old(table.items), Put(Place(IntegrationCreds), SealTokens(encryptionKey, t)))
      ensures View(table.items) == View(old(table.items))[IntegrationCreds := SealTokens(encryptionKey, t)]
    {
      PutRefinesUpdate(table.items, IntegrationCreds, SealTokens(encryptionKey, t));
      table.PutItem(Key(INTEGRATION_PK, CREDS_SK), EncryptPayload(encryptionKey, TokensToPayload(t)));
    }

    method GetServiceAppTokens(orgId: string) returns (r: Result<Option<Tokens>, TokenError>)
      requires CredsIfAny(table.items, OrgCreds(orgId))
      ensures r == ReadOrgTokens(table.items, encryptionKey, orgId)
    {
      var item := table.GetItem(Key(OrgPk(orgId), CREDS_SK));
      if item.None? {
        return Success(None);
      }
      var payload :- DecryptPayload(encryptionKey, item.value);
      var tokens :- PayloadToTokens(payload);
      return Success(Some(tokens));
    }

    method SetServiceAppTokens(orgId: string, t: Tokens, now: string)
      modifies table
      ensures table.log == old(table.log) + SetPlan(encryptionKey, orgId, t, now)
      ensures table.items == Run(old(table.items), SetPlan(encryptionKey, orgId, t, now))
      ensures View(table.items) == View(old(table.items))
                                     [OrgCreds(orgId) := SealTokens(encryptionKey, t)]
                                     [OrgProfile(orgId) := ProfileItem(Authorized, Some(now), None)]
    {
      hide View, Run;
      var plan := SetPlan(encryptionKey, orgId, t, now);
      RunOfTwo(table.items, plan[0], plan[1]);
      PutRefinesUpdate(table.items, OrgCreds(orgId), SealTokens(encryptionKey, t));
      table.PutItem(Key(OrgPk(orgId), CREDS_SK), EncryptPayload(encryptionKey, TokensToPayload(t)));
      UpsertAuthorized(table, orgId, now);
    }

    method DeleteServiceAppTokens(orgId: string, now: string)
      modifies table
      ensures table.log == old(table.log) + DeletePlan(orgId, now)
      ensures table.items == Run(old(table.items), DeletePlan(orgId, now))
      ensures View(table.items) == (View(old(table.items)) - {OrgCreds(orgId)})
                                     [OrgProfile(orgId) := ProfileItem(Deauthorized, None, Some(now))]
    {
      var plan := DeletePlan(orgId, now);
      RunOfTwo(table.items, plan[0], plan[1]);
      DeleteRefinesRemoval(table.items, OrgCreds(orgId));
      table.DeleteItem(Key(OrgPk(orgId), CREDS_SK));
      MarkDeauthorized(table, orgId, now);
    }

    /** The loop over the items of one page. */
    method CollectOrgs(soFar: seq<string>, page: seq<Key>) returns (found: seq<string>)
      ensures found == soFar + OrgsAmong(page)
    {
      hide OrgsAmong;
      found := soFar;
      NoOrgsAmongNone();
      for i := 0 to |page|
        invariant found == soFar + OrgsAmong(page[..i])
      {
        assert page[..i + 1] == page[..i] + [page[i]];
        OneMoreKey(page[..i], page[i]);
        Regroup(soFar, OrgsAmong(page[..i]), OrgOf(page[i]));
        if ORG_PREFIX <= page[i].pk {
          found := found + [page[i].pk[|ORG_PREFIX|..]];
        }
      }
      assert page[..|page|] == page;
    }

    /** Pages until no last evaluated position comes back; `order` is the scan's own order. */
    method ListRegisteredOrgs(order: seq<Key>) returns (orgIds: seq<string>)
      requires ScanOrder(order, table.items)
      ensures Ascending(orgIds)
      ensures forall orgId :: orgId in orgIds <==> OrgCreds(orgId) in View(table.items)
    {
      hide OrgsAmong, WithSortKey;
      var found: seq<string> := [];
      var start: nat := 0;
      NothingFoundYet(order);
      while true
        invariant start <= |order|
        invariant found == OrgsAmong(WithSortKey(order[..start], CREDS_SK))
        decreases |order| - start
      {
        var page, lastEvaluated := ScanPage(order, CREDS_SK, start);
        ghost var to := if lastEvaluated.None? then |order| else lastEvaluated.value;
        assert order[..to] == order[..start] + order[start..to];
        WithSortKeyInParts(order[..start], order[start..to], CREDS_SK);
        OrgsAmongInParts(WithSortKey(order[..start], CREDS_SK), page);
        found := CollectOrgs(found, page);
        if lastEvaluated.None? {
          break;
        }
        start := lastEvaluated.value;
      }
      assert found == OrgsAmong(WithSortKey(order, CREDS_SK)) by {
        assert order[..|order|] == order;
      }
      FoundExactlyTheOrgs(table.items, order);
      SortedIsAscending(found);
      return Sorted(found);
    }
  }

  /* ---------- Registered orgs ---------- */

  /** The org ids behind the keys that carry the org prefix. */
  function OrgsAmong(keys: seq<Key>): seq<string> {
    if keys == [] then [] else OrgsAmong(keys[..|keys| - 1]) + OrgOf(keys[|keys| - 1])
  }

  function OrgOf(key: Key): seq<string> {
    if ORG_PREFIX <= key.pk then [key.pk[|ORG_PREFIX|..]] else []
  }

  lemma {:induction false} OrgsAmongInParts(a: seq<Key>, b: seq<Key>)
    ensures OrgsAmong(a + b) == OrgsAmong(a) + OrgsAmong(b)
  {
    hide OrgsAmong, OrgOf;
    if b == [] {
      assert a + b == a;
      NoOrgsAmongNone();
    } else {
      var front, last := b[..|b| - 1], b[|b| - 1];
      OrgsAmongInParts(a, front);
      OneMoreKey(front, last);
      OneMoreKey(a + front, last);
      assert b == front + [last];
      Regroup(a, front, [last]);
      Regroup(OrgsAmong(a), OrgsAmong(front), OrgOf(last));
    }
  }

  lemma NoOrgsAmongNone()
    ensures OrgsAmong([]) == []
  {
  }

  lemma OneMoreKey(keys: seq<Key>, key: Key)
    ensures OrgsAmong(keys + [key]) == OrgsAmong(keys) + OrgOf(key)
  {
    assert (keys + [key])[..|keys|] == keys;
  }

  /** The org id that one scanned key contributes, if any. */
  lemma OrgsOfOne(key: Key)
    ensures var orgs := OrgsAmong(WithSortKey([key], CREDS_SK));
            && |orgs| <= 1
            && forall orgId :: orgId in orgs <==> Place(OrgCreds(orgId)) == key
  {
    assert [key][..0] == [];
    PrefixThenRest(ORG_PREFIX, key.pk);
    forall orgId ensures Place(OrgCreds(orgId)) == key <==>
                         key.sk == CREDS_SK && ORG_PREFIX <= key.pk && key.pk[|ORG_PREFIX|..] == orgId
    {
      PrefixThenRest(ORG_PREFIX, orgId);
    }
  }

  lemma {:induction false} OrgsFound(keys: seq<Key>)
    requires NoRepeats(keys)
    ensures var orgs := OrgsAmong(WithSortKey(keys, CREDS_SK));
            && (forall orgId :: orgId in orgs <==> Place(OrgCreds(orgId)) in keys)
            && NoRepeats(orgs)
  {
    if keys == [] {
    } else {
      hide OrgsAmong, WithSortKey, Place;
      var front, last := keys[..|keys| - 1], keys[|keys| - 1];
      OrgsFound(front);
      assert keys == front + [last] && last !in front;
      assert forall k :: k in keys <==> k in front || k == last;
      OrgsOfOne(last);
      WithSortKeyInParts(front, [last], CREDS_SK);
      OrgsAmongInParts(WithSortKey(front, CREDS_SK), WithSortKey([last], CREDS_SK));
      var before, latest := OrgsAmong(WithSortKey(front, CREDS_SK)), OrgsAmong(WithSortKey([last], CREDS_SK));
      assert NoRepeats(before);
      hide NoRepeats;
      assert forall orgId | orgId in latest :: orgId !in before;
      DistinctUnion(before, latest);
    }
  }

  lemma DistinctUnion(a: seq<string>, b: seq<string>)
    requires NoRepeats(a) && |b| <= 1 && forall x | x in b :: x !in a
    ensures NoRepeats(a + b)
    ensures forall x :: x in a + b <==> x in a || x in b
  {
    forall i, j | 0 <= i < j < |a + b| ensures (a + b)[i] != (a + b)[j] {
      assert i < |a| && (a + b)[i] in a;
      if j >= |a| {
        assert (a + b)[j] in b;
      }
    }
  }

  lemma NothingFoundYet(order: seq<Key>)
    ensures OrgsAmong(WithSortKey(order[..0], CREDS_SK)) == []
  {
    assert order[..0] == [];
    assert WithSortKey(order[..0], CREDS_SK) == [];
  }

  lemma FoundExactlyTheOrgs(items: Items, order: seq<Key>)
    requires ScanOrder(order, items)
    ensures var orgs := OrgsAmong(WithSortKey(order, CREDS_SK));
            && (forall orgId :: orgId in orgs <==> OrgCreds(orgId) in View(items))
            && NoRepeats(orgs)
  {
    OrgsFound(order);
    forall orgId ensures Place(OrgCreds(orgId)) in order <==> OrgCreds(orgId) in View(items) {
      assert Place(OrgCreds(orgId)) in order <==> Place(OrgCreds(orgId)) in items;
    }
  }

  /** Only items of the current version open, and tokens without a readable time raise. */
  lemma WhatDoesNotOpen(encryptionKey: string, blob: Blob, version: int, payload: Payload)
    ensures version != 1 ==> OpenTokens(encryptionKey, CredsItem(blob, version)) == Failure(CannotDecrypt)
    ensures ParseIso(payload.obtainedAt) == None ==>
              OpenTokens(encryptionKey, CredsItem(Sealed(encryptionKey, payload), 1)) == Failure(BadTimestamp)
  {
    hide ParseIso;
  }
}
