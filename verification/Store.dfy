/**
 The one DynamoDB table behind every repository: its items, its string keys, its atomic
 operations, and the layout that packs six logical stores into it.
 */
module Store {
  import opened Results
  import opened Text
  import opened IsoTime
  import opened Catalog

  /* ---------- Items ---------- */

  /** OAuth or service app tokens, as the SDK holds them. */
  datatype Tokens = Tokens(
    accessToken: string, expiresIn: int, tokenType: string,
    refreshToken: Option<string>, refreshTokenExpiresIn: Option<int>, obtainedAt: Timestamp)

  /** The JSON object that is encrypted at rest. */
  datatype Payload = Payload(
    accessToken: string, refreshToken: Option<string>, expiresIn: int, tokenType: string,
    obtainedAt: string, refreshTokenExpiresIn: Option<int>)

  /** A ciphertext: what was encrypted, and under which key. */
  datatype Blob = Sealed(encryptionKey: string, payload: Payload)

  datatype AuthorizationState = Authorized | Deauthorized

  datatype Item =
    | AgentItem(entry: Entry)
    | CatalogMeta(entryCount: nat, seededFromFile: bool)
    | CredsItem(blob: Blob, ciphertextVersion: int)
    | ProfileItem(state: AuthorizationState, authorizedAt: Option<string>, deauthorizedAt: Option<string>)
    | AuditItem(orgId: string, eventType: string, outcome: string, timestamp: string,
                requestId: Option<string>, detail: Option<string>, expiresAt: int)

  datatype Key = Key(pk: string, sk: string)

  type Items = map<Key, Item>

  /* ---------- Table operations ---------- */

  datatype TableOp = Put(key: Key, item: Item) | Delete(key: Key)

  function Apply(items: Items, op: TableOp): Items {
    match op
    case Put(key, item) => items[key := item]
    case Delete(key) => items - {key}
  }

  /** The table after a sequence of writes, oldest first. */
  function Run(items: Items, ops: seq<TableOp>): Items {
    if ops == [] then items else Apply(Run(items, ops[..|ops| - 1]), ops[|ops| - 1])
  }

  lemma {:induction false} RunInParts(items: Items, first: seq<TableOp>, second: seq<TableOp>)
    ensures Run(items, first + second) == Run(Run(items, first), second)
  {
    if second == [] {
      assert first + second == first;
    } else {
      RunInParts(items, first, second[..|second| - 1]);
      assert (first + second)[..|first + second| - 1] == first + second[..|second| - 1];
    }
  }

  lemma NothingRun(items: Items)
    ensures Run(items, []) == items
  {
  }

  lemma RunOneMore(items: Items, ops: seq<TableOp>, k: nat)
    requires k < |ops|
    ensures Run(items, ops[..k + 1]) == Apply(Run(items, ops[..k]), ops[k])
  {
    assert ops[..k + 1][..k] == ops[..k];
  }

  function Lookup(items: Items, key: Key): Option<Item> {
    if key in items then Some(items[key]) else None
  }

  /** The sort keys under a partition key that begin with a prefix. */
  function MatchingSortKeys(items: Items, pk: string, prefix: string): (r: set<string>)
    ensures forall sk :: sk in r <==> Key(pk, sk) in items && prefix <= sk
  {
    set k | k in items && k.pk == pk && prefix <= k.sk :: k.sk
  }

  /** The keys a one-page query returns, in ascending sort-key order. */
  function QueryKeys(items: Items, pk: string, prefix: string): (r: seq<Key>)
    ensures forall k :: k in r <==> k in items && k.pk == pk && prefix <= k.sk
    ensures forall i, j | 0 <= i < j < |r| :: Before(r[i].sk, r[j].sk)
  {
    var sks := InOrder(MatchingSortKeys(items, pk, prefix));
    var r := seq(|sks|, i requires 0 <= i < |sks| => Key(pk, sks[i]));
    assert forall i | 0 <= i < |r| :: r[i].sk in MatchingSortKeys(items, pk, prefix) by {
      assert forall i | 0 <= i < |r| :: r[i].sk == sks[i] && sks[i] in sks;
    }
    assert forall k | k in items && k.pk == pk && prefix <= k.sk :: k in r by {
      forall k | k in items && k.pk == pk && prefix <= k.sk ensures k in r {
        assert k.sk in sks;
        var i :| 0 <= i < |sks| && sks[i] == k.sk;
        assert r[i] == k;
      }
    }
    r
  }

  function Reversed<T>(s: seq<T>): (r: seq<T>)
    ensures |r| == |s|
    ensures forall i | 0 <= i < |s| :: r[i] == s[|s| - 1 - i]
  {
    seq(|s|, i requires 0 <= i < |s| => s[|s| - 1 - i])
  }

  /** Items under keys that are all present. */
  function ItemsAt(items: Items, keys: seq<Key>): (r: seq<Item>)
    requires forall k | k in keys :: k in items
    ensures |r| == |keys| && forall i | 0 <= i < |keys| :: r[i] == items[keys[i]]
  {
    seq(|keys|, i requires 0 <= i < |keys| => items[keys[i]])
  }

  /** Each operation is atomic; `log` remembers every write, oldest first. */
  class Table {
    var items: Items
    ghost var log: seq<TableOp>

    method GetItem(key: Key) returns (r: Option<Item>)
      ensures r == Lookup(items, key)
    {
      r := if key in items then Some(items[key]) else None;
    }

    method PutItem(key: Key, item: Item)
      modifies this
      ensures items == Apply(old(items), Put(key, item))
      ensures log == old(log) + [Put(key, item)]
    {
      items := items[key := item];
      log := log + [Put(key, item)];
    }

    method DeleteItem(key: Key)
      modifies this
      ensures items == Apply(old(items), Delete(key))
      ensures log == old(log) + [Delete(key)]
    {
      items := items - {key};
      log := log + [Delete(key)];
    }

    /** `PK = :pk AND begins_with(SK, :sk)`, ascending. */
    method Query(pk: string, prefix: string) returns (keys: seq<Key>)
      ensures keys == QueryKeys(items, pk, prefix)
    {
      keys := QueryKeys(items, pk, prefix);
    }

    /** The same query with `ScanIndexForward=False` and a `Limit`. */
    method QueryNewest(pk: string, prefix: string, limit: nat) returns (keys: seq<Key>)
      ensures var all := Reversed(QueryKeys(items, pk, prefix));
              keys == if limit < |all| then all[..limit] else all
    {
      keys := Reversed(QueryKeys(items, pk, prefix));
      if limit < |keys| {
        keys := keys[..limit];
      }
    }
  }

  /* ---------- Scans ---------- */

  /** A table's keys in the order a scan visits them, whatever that order is. */
  ghost predicate ScanOrder(order: seq<Key>, items: Items) {
    && (forall k :: k in order <==> k in items)
    && NoRepeats(order)
  }

  /** The keys that pass the filter `SK = :sk`. */
  function WithSortKey(keys: seq<Key>, sk: string): seq<Key> {
    if keys == [] then []
    else WithSortKey(keys[..|keys| - 1], sk) + if keys[|keys| - 1].sk == sk then [keys[|keys| - 1]] else []
  }

  lemma {:induction false} WithSortKeyInParts(a: seq<Key>, b: seq<Key>, sk: string)
    ensures WithSortKey(a + b, sk) == WithSortKey(a, sk) + WithSortKey(b, sk)
  {
    hide WithSortKey;
    if b == [] {
      assert a + b == a;
      NoneWithSortKey(sk);
    } else {
      var front, last := b[..|b| - 1], b[|b| - 1];
      WithSortKeyInParts(a, front, sk);
      WithSortKeyOfOneMore(front, last, sk);
      WithSortKeyOfOneMore(a + front, last, sk);
      assert b == front + [last];
      Regroup(a, front, [last]);
      Regroup(WithSortKey(a, sk), WithSortKey(front, sk), if last.sk == sk then [last] else []);
    }
  }

  lemma NoneWithSortKey(sk: string)
    ensures WithSortKey([], sk) == []
  {
  }

  lemma WithSortKeyOfOneMore(keys: seq<Key>, key: Key, sk: string)
    ensures WithSortKey(keys + [key], sk) == WithSortKey(keys, sk) + if key.sk == sk then [key] else []
  {
    assert (keys + [key])[..|keys|] == keys;
  }

  /**
   One page of a scan that starts after position `from`: the service evaluates any number of items,
   filters them, and gives back the last evaluated position unless it knows the scan is complete.
   It may give one back even when nothing is left, and a page may be empty after filtering.
   */
  method ScanPage(order: seq<Key>, sk: string, from: nat) returns (page: seq<Key>, lastEvaluated: Option<nat>)
    requires from <= |order|
    ensures lastEvaluated.None? ==> page == WithSortKey(order[from..], sk)
    ensures lastEvaluated.Some? ==> from < lastEvaluated.value <= |order| &&
                                    page == WithSortKey(order[from..lastEvaluated.value], sk)
  {
    var complete: bool := *;
    if complete || from == |order| {
      page, lastEvaluated := WithSortKey(order[from..], sk), None;
    } else {
      var to: nat :| from < to <= |order|;
      page, lastEvaluated := WithSortKey(order[from..to], sk), Some(to);
    }
  }

  /* ---------- Layout ---------- */

  const CATALOG_PK := "CATALOG"
  const AGENT_PREFIX := "AGENT#"
  const META_SK := "META"
  const INTEGRATION_PK := "INTEGRATION"
  const CREDS_SK := "CREDS"
  const PROFILE_SK := "PROFILE"
  const AUDIT_PREFIX := "AUDIT#"
  const ORG_PREFIX := "ORG#"

  function OrgPk(orgId: string): (r: string)
    ensures ORG_PREFIX <= r && r[0] == 'O' && r[|ORG_PREFIX|..] == orgId
  {
    ORG_PREFIX + orgId
  }

  /** One place in one of the logical stores. */
  datatype Slot =
    | IntegrationCreds
    | OrgCreds(orgId: string)
    | OrgProfile(orgId: string)
    | CatalogAgent(virtualAgentId: string)
    | CatalogSummary
    | AuditEvent(orgId: string, stamp: string)

  /** The string key of a slot. */
  function Place(slot: Slot): Key {
    match slot
    case IntegrationCreds => Key(INTEGRATION_PK, CREDS_SK)
    case OrgCreds(orgId) => Key(OrgPk(orgId), CREDS_SK)
    case OrgProfile(orgId) => Key(OrgPk(orgId), PROFILE_SK)
    case CatalogAgent(id) => Key(CATALOG_PK, AGENT_PREFIX + id)
    case CatalogSummary => Key(CATALOG_PK, META_SK)
    case AuditEvent(orgId, stamp) => Key(OrgPk(orgId), AUDIT_PREFIX + stamp)
  }

  /** The slot a string key belongs to, if any. */
  function SlotAt(key: Key): Option<Slot> {
    if key == Key(INTEGRATION_PK, CREDS_SK) then Some(IntegrationCreds)
    else if key == Key(CATALOG_PK, META_SK) then Some(CatalogSummary)
    else if key.pk == CATALOG_PK && AGENT_PREFIX <= key.sk then Some(CatalogAgent(key.sk[|AGENT_PREFIX|..]))
    else if ORG_PREFIX <= key.pk then
      var orgId := key.pk[|ORG_PREFIX|..];
      if key.sk == CREDS_SK then Some(OrgCreds(orgId))
      else if key.sk == PROFILE_SK then Some(OrgProfile(orgId))
      else if AUDIT_PREFIX <= key.sk then Some(AuditEvent(orgId, key.sk[|AUDIT_PREFIX|..]))
      else None
    else None
  }

  lemma PrefixThenRest(p: string, s: string)
    ensures p <= p + s && (p + s)[|p|..] == s
    ensures p <= s ==> p + s[|p|..] == s
  {
  }

  /** Reading a slot's key gives the slot back, for every org id, agent id and stamp. */
  lemma PlaceThenSlot(slot: Slot)
    ensures SlotAt(Place(slot)) == Some(slot)
  {
    match slot
    case IntegrationCreds =>
    case CatalogSummary =>
    case OrgCreds(orgId) => PrefixThenRest(ORG_PREFIX, orgId);
    case OrgProfile(orgId) => PrefixThenRest(ORG_PREFIX, orgId);
    case CatalogAgent(id) => PrefixThenRest(AGENT_PREFIX, id);
    case AuditEvent(orgId, stamp) =>
      PrefixThenRest(AUDIT_PREFIX, stamp);
      assert Place(slot).sk[0] == 'A' != CREDS_SK[0] && 'A' != PROFILE_SK[0];
  }

  lemma SlotThenPlace(key: Key)
    requires SlotAt(key).Some?
    ensures Place(SlotAt(key).value) == key
  {
    PrefixThenRest(ORG_PREFIX, key.pk);
    PrefixThenRest(AGENT_PREFIX, key.sk);
    PrefixThenRest(AUDIT_PREFIX, key.sk);
  }

  /** No two slots share a key, over all strings. */
  lemma PlaceIsInjective(a: Slot, b: Slot)
    ensures Place(a) == Place(b) <==> a == b
  {
    PlaceThenSlot(a);
    PlaceThenSlot(b);
  }

  /** The logical stores that the table encodes, keyed by slot. */
  function View(items: Items): map<Slot, Item> {
    map s | s in OccupiedSlots(items) :: items[Place(s)]
  }

  function OccupiedSlots(items: Items): (r: set<Slot>)
    ensures forall s :: s in r <==> Place(s) in items
  {
    var r := set k | k in items && SlotAt(k).Some? :: SlotAt(k).value;
    assert forall s :: s in r <==> Place(s) in items by {
      forall s ensures s in r <==> Place(s) in items {
        PlaceThenSlot(s);
        if s in r {
          var k :| k in items && SlotAt(k).Some? && SlotAt(k).value == s;
          SlotThenPlace(k);
        }
      }
    }
    r
  }

  /** Writing a slot's key changes that slot of that store and nothing else. */
  lemma PutRefinesUpdate(items: Items, slot: Slot, item: Item)
    ensures View(Apply(items, Put(Place(slot), item))) == View(items)[slot := item]
  {
    var items' := Apply(items, Put(Place(slot), item));
    forall s ensures s in View(items') <==> s in View(items)[slot := item] {
      PlaceIsInjective(s, slot);
    }
    forall s | s in View(items') ensures View(items')[s] == View(items)[slot := item][s] {
      PlaceIsInjective(s, slot);
    }
  }

  lemma DeleteRefinesRemoval(items: Items, slot: Slot)
    ensures View(Apply(items, Delete(Place(slot)))) == View(items) - {slot}
  {
    var items' := Apply(items, Delete(Place(slot)));
    forall s ensures s in View(items') <==> s in View(items) - {slot} {
      PlaceIsInjective(s, slot);
    }
    forall s | s in View(items') ensures View(items')[s] == (View(items) - {slot})[s] {
      PlaceIsInjective(s, slot);
    }
  }

  /** The `AGENT#` query returns the keys of exactly the catalog agents. */
  lemma AgentQueryIsExact(items: Items, key: Key)
    ensures key in QueryKeys(items, CATALOG_PK, AGENT_PREFIX) <==>
            exists id :: CatalogAgent(id) in View(items) && key == Place(CatalogAgent(id))
  {
    if key in QueryKeys(items, CATALOG_PK, AGENT_PREFIX) {
      assert SlotAt(key) == Some(CatalogAgent(key.sk[|AGENT_PREFIX|..]));
      SlotThenPlace(key);
      assert CatalogAgent(key.sk[|AGENT_PREFIX|..]) in View(items);
    }
    if id :| CatalogAgent(id) in View(items) && key == Place(CatalogAgent(id)) {
      PrefixThenRest(AGENT_PREFIX, id);
    }
  }

  lemma SlotOfEvent(orgId: string, key: Key)
    requires key.pk == OrgPk(orgId) && AUDIT_PREFIX <= key.sk
    ensures SlotAt(key) == Some(AuditEvent(orgId, key.sk[|AUDIT_PREFIX|..]))
  {
    PrefixThenRest(ORG_PREFIX, orgId);
    assert key.sk[0] == 'A';
  }

  /** The `AUDIT#` query on an org returns the keys of exactly that org's audit events. */
  lemma AuditQueryIsExact(items: Items, orgId: string, key: Key)
    ensures key in QueryKeys(items, OrgPk(orgId), AUDIT_PREFIX) <==>
            exists stamp :: AuditEvent(orgId, stamp) in View(items) && key == Place(AuditEvent(orgId, stamp))
  {
    if key in QueryKeys(items, OrgPk(orgId), AUDIT_PREFIX) {
      SlotOfEvent(orgId, key);
      SlotThenPlace(key);
      assert AuditEvent(orgId, key.sk[|AUDIT_PREFIX|..]) in View(items);
    }
    hide SlotAt;
    if stamp :| AuditEvent(orgId, stamp) in View(items) && key == Place(AuditEvent(orgId, stamp)) {
      PrefixThenRest(AUDIT_PREFIX, stamp);
    }
  }

  /* ---------- The keys as they are written ---------- */

  /** The layout of the table, key by key. */
  lemma KeysAsWritten(orgId: string, agentId: string, stamp: string)
    ensures Place(IntegrationCreds) == Key("INTEGRATION", "CREDS")
    ensures Place(OrgCreds(orgId)) == Key("ORG#" + orgId, "CREDS")
    ensures Place(OrgProfile(orgId)) == Key("ORG#" + orgId, "PROFILE")
    ensures Place(CatalogAgent(agentId)) == Key("CATALOG", "AGENT#" + agentId)
    ensures Place(CatalogSummary) == Key("CATALOG", "META")
    ensures Place(AuditEvent(orgId, stamp)) == Key("ORG#" + orgId, "AUDIT#" + stamp)
  {
  }
}
