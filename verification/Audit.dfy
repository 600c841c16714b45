/** The append-only audit log (`AuditRepository` in `src/persistence/audit_repository.py`). */
module Audit {
  import opened Results
  import opened Text
  import opened IsoTime
  import opened Store
  import Redaction

  const MAX_DETAIL := 500

  datatype AuditError = DateOutOfRange

  /** The sort key of an event, after its prefix. */
  function Stamp(now: Instant, eventId: string): string {
    Iso(now) + "#" + eventId
  }

  function Event(orgId: string, eventType: string, outcome: string, requestId: Option<string>,
                 detail: Option<string>, now: Instant, expiresAt: int): Item
  {
    AuditItem(orgId, eventType, outcome, Iso(now), requestId, Redaction.SanitizeDetail(detail, MAX_DETAIL), expiresAt)
  }

  function EventKeys(items: Items, orgId: string): seq<Key> {
    QueryKeys(items, OrgPk(orgId), AUDIT_PREFIX)
  }

  /** All of an org's events, newest key first. */
  function Newest(items: Items, orgId: string): (r: seq<Item>) {
    ItemsAt(items, Reversed(EventKeys(items, orgId)))
  }

  predicate IsSince(event: Item, since: string) {
    event.AuditItem? && !Before(event.timestamp, since)
  }

  /** `[i for i in items if i["timestamp"] >= since]`. */
  function Since(events: seq<Item>, since: Option<string>): (r: seq<Item>)
    ensures |r| <= |events|
  {
    if since.None? || events == [] then events
    else (if IsSince(events[0], since.value) then [events[0]] else []) + Since(events[1..], since)
  }

  function Take<T>(s: seq<T>, n: nat): (r: seq<T>)
    ensures |r| <= n
  {
    if n < |s| then s[..n] else s
  }

  class AuditRepository {
    const table: Table
    const ttlDays: int

    constructor (table: Table, ttlDays: int)
      ensures this.table == table && this.ttlDays == ttlDays
    {
      this.table := table;
      this.ttlDays := ttlDays;
    }

    method RecordEvent(orgId: string, eventType: string, outcome: string, requestId: Option<string>,
                       detail: Option<string>, now: Instant, eventId: string) returns (r: Outcome<AuditError>)
      modifies table
      ensures match ExpiresAt(now, ttlDays)
              case None => r == Fail(DateOutOfRange) && table.log == old(table.log) && table.items == old(table.items)
              case Some(expiresAt) =>
                var slot := AuditEvent(orgId, Stamp(now, eventId));
                var event := Event(orgId, eventType, outcome, requestId, detail, now, expiresAt);
                && r == Pass
                && table.log == old(table.log) + [Put(Place(slot), event)]
                && table.items == Apply(old(table.items), Put(Place(slot), event))
                && View(table.items) == View(old(table.items))[slot := event]
      ensures EventLogged(old(table.items)) ==> EventLogged(table.items)
    {
      hide EventLogged, View, ExpiresAt;
      var expiresAt := ExpiresAt(now, ttlDays);
      if expiresAt.None? {
        return Fail(DateOutOfRange);
      }
      var event := Event(orgId, eventType, outcome, requestId, detail, now, expiresAt.value);
      PutRefinesUpdate(table.items, AuditEvent(orgId, Stamp(now, eventId)), event);
      if EventLogged(table.items) {
        RecordingKeepsTheLog(table.items, orgId, eventType, outcome, requestId, detail, now, eventId, expiresAt.value);
      }
      table.PutItem(Key(OrgPk(orgId), AUDIT_PREFIX + Stamp(now, eventId)), event);
      return Pass;
    }

    method ListEvents(orgId: string, limit: nat, since: Option<string>) returns (events: seq<Item>)
      requires EventLogged(table.items)
      ensures events == Since(Take(Newest(table.items, orgId), limit), since)
    {
      var keys := table.QueryNewest(OrgPk(orgId), AUDIT_PREFIX, limit);
      TakeCommutesWithItems(table.items, Reversed(EventKeys(table.items, orgId)), limit);
      var items := ItemsAt(table.items, keys);
      events := FilterSince(items, since);
    }

    method FilterSince(items: seq<Item>, since: Option<string>) returns (events: seq<Item>)
      ensures events == Since(items, since)
    {
      if since.None? {
        return items;
      }
      events := [];
      for i := 0 to |items|
        invariant events + Since(items[i..], since) == Since(items, since)
      {
        assert items[i..][1..] == items[i + 1..];
        if IsSince(items[i], since.value) {
          events := events + [items[i]];
        }
      }
      assert items[|items|..] == [];
    }
  }

  lemma TakeCommutesWithItems(items: Items, keys: seq<Key>, n: nat)
    requires forall k | k in keys :: k in items
    ensures forall k | k in Take(keys, n) :: k in items
    ensures ItemsAt(items, Take(keys, n)) == Take(ItemsAt(items, keys), n)
  {
  }

  /* ---------- What every stored event satisfies ---------- */

  /** A stored event: its key is built from its own org and timestamp, and its detail is redacted. */
  ghost predicate WellStamped(orgId: string, stamp: string, event: Item) {
    && event.AuditItem?
    && event.orgId == orgId
    && (exists t: Instant, eventId :: stamp == Stamp(t, eventId) && event.timestamp == Iso(t))
    && (event.detail.Some? ==> Redaction.Clean(event.detail.value) && |event.detail.value| <= MAX_DETAIL)
  }

  ghost predicate EventLogged(items: Items) {
    forall s | s in View(items) && s.AuditEvent? :: WellStamped(s.orgId, s.stamp, View(items)[s])
  }

  /** Recording an event keeps the log well formed: in particular every stored detail is redacted. */
  lemma RecordingKeepsTheLog(items: Items, orgId: string, eventType: string, outcome: string, requestId: Option<string>,
                             detail: Option<string>, now: Instant, eventId: string, expiresAt: int)
    requires EventLogged(items)
    ensures EventLogged(Apply(items, Put(Place(AuditEvent(orgId, Stamp(now, eventId))),
                                         Event(orgId, eventType, outcome, requestId, detail, now, expiresAt))))
  {
    var slot := AuditEvent(orgId, Stamp(now, eventId));
    var event := Event(orgId, eventType, outcome, requestId, detail, now, expiresAt);
    PutRefinesUpdate(items, slot, event);
    if detail.Some? && detail.value != "" {
      Redaction.SanitizedIsClean(detail.value, MAX_DETAIL);
    }
    assert WellStamped(orgId, Stamp(now, eventId), event);
  }

  /** Neither does an expired event that is deleted. */
  lemma ExpiringKeepsTheLog(items: Items, orgId: string, stamp: string)
    requires EventLogged(items)
    ensures EventLogged(Apply(items, Delete(Place(AuditEvent(orgId, stamp)))))
  {
    DeleteRefinesRemoval(items, AuditEvent(orgId, stamp));
  }

  /** No write to any other store disturbs the log. */
  lemma OtherWritesKeepTheLog(items: Items, slot: Slot, item: Option<Item>)
    requires EventLogged(items) && !slot.AuditEvent?
    ensures EventLogged(Apply(items, if item.None? then Delete(Place(slot)) else Put(Place(slot), item.value)))
  {
    if item.Some? {
      PutRefinesUpdate(items, slot, item.value);
    } else {
      DeleteRefinesRemoval(items, slot);
    }
  }

  /* ---------- Expiry ---------- */

  /**
   An event recorded since 1970 is kept for the days of the setting, to the second; of two events the
   later one does not expire first; and recording raises exactly when the last day kept would lie
   outside the years 1 to 9999.
   */
  lemma EventsExpireInOrder(t: Instant, u: Instant, days: int)
    ensures ExpiresAt(t, days).None? <==> DayNumber(t) + days < 1 || DayNumber(t) + days > LAST_DAY
    ensures ExpiresAt(t, days).Some? && DayNumber(t) + days >= EPOCH_DAY ==>
              var sinceEpoch := Micros(t) + days * DAY - EPOCH_DAY * DAY;
              ExpiresAt(t, days).value * 1_000_000 <= sinceEpoch < (ExpiresAt(t, days).value + 1) * 1_000_000
    ensures ExpiresAt(t, days).Some? && DayNumber(t) + days < EPOCH_DAY ==>
              var sinceEpoch := Micros(t) + days * DAY - EPOCH_DAY * DAY;
              (ExpiresAt(t, days).value - 1) * 1_000_000 < sinceEpoch <= ExpiresAt(t, days).value * 1_000_000
    ensures ExpiresAt(t, days).Some? && ExpiresAt(u, days).Some? && !Earlier(u, t) ==>
              ExpiresAt(t, days).value <= ExpiresAt(u, days).value
  {
    hide Earlier, DayNumber, TimeOfDay;
    TimeFitsTheDay(t);
    EarlierMeansBeforeInTime(u, t);
  }

  /* ---------- Key order is time order ---------- */

  /** Whenever one stored event's key sorts before another's, its timestamp does not sort after. */
  lemma KeyOrderIsTimeOrder(orgId: string, a: string, b: string, x: Item, y: Item)
    requires WellStamped(orgId, a, x) && WellStamped(orgId, b, y)
    requires Before(AUDIT_PREFIX + a, AUDIT_PREFIX + b)
    ensures !Before(y.timestamp, x.timestamp)
  {
    hide Iso, Redaction.Clean, Before, Earlier;
    var t: Instant, i :| a == Stamp(t, i) && x.timestamp == Iso(t);
    var u: Instant, j :| b == Stamp(u, j) && y.timestamp == Iso(u);
    BeforeByHead(AUDIT_PREFIX, AUDIT_PREFIX, a, b);
    BeforeIsStrict(AUDIT_PREFIX, AUDIT_PREFIX);
    BeforeIsStrict(Iso(t), Iso(u));
    if t != u {
      Regroup(Iso(t), "#", i);
      Regroup(Iso(u), "#", j);
      IsoKeepsTheOrder(t, u, "#" + i, "#" + j);
      IsoKeepsTheOrder(u, t, "", "");
      assert Iso(t) + "" == Iso(t) && Iso(u) + "" == Iso(u);
      EarlierIsTotal(t, u);
    }
  }

  ghost predicate NewestFirst(events: seq<Item>) {
    && (forall i | 0 <= i < |events| :: events[i].AuditItem?)
    && forall i, j | 0 <= i < j < |events| :: !Before(events[i].timestamp, events[j].timestamp)
  }

  lemma EventOfTheOrg(items: Items, orgId: string, k: Key)
    requires EventLogged(items) && k in EventKeys(items, orgId)
    ensures AUDIT_PREFIX + k.sk[|AUDIT_PREFIX|..] == k.sk
    ensures WellStamped(orgId, k.sk[|AUDIT_PREFIX|..], items[k])
  {
    hide WellStamped;
    AuditQueryIsExact(items, orgId, k);
    var stamp :| AuditEvent(orgId, stamp) in View(items) && k == Place(AuditEvent(orgId, stamp));
    PrefixThenRest(AUDIT_PREFIX, stamp);
  }

  /** The descending query returns events in descending time order, with or without microseconds. */
  lemma QueryIsNewestFirst(items: Items, orgId: string)
    requires EventLogged(items)
    ensures NewestFirst(Newest(items, orgId))
    ensures forall e | e in Newest(items, orgId) :: e.AuditItem? && e.orgId == orgId
  {
    hide View, EventLogged, QueryKeys, WellStamped;
    var ascending, events := EventKeys(items, orgId), Newest(items, orgId);
    var n := |ascending|;
    assert forall i | 0 <= i < n :: ascending[i] in ascending;
    assert forall i | 0 <= i < n :: events[i] == items[ascending[n - 1 - i]];
    assert forall i, j | 0 <= i < j < n :: Before(ascending[i].sk, ascending[j].sk);
    hide Newest;
    forall i | 0 <= i < n ensures events[i].AuditItem? && events[i].orgId == orgId {
      IsEventOfTheOrg(items, orgId, ascending[n - 1 - i]);
    }
    forall i, j | 0 <= i < j < n ensures !Before(events[i].timestamp, events[j].timestamp) {
      assert events[i] == items[ascending[n - 1 - i]] && events[j] == items[ascending[n - 1 - j]];
      LaterKeyNotEarlier(items, orgId, ascending[n - 1 - j], ascending[n - 1 - i]);
    }
  }

  lemma IsEventOfTheOrg(items: Items, orgId: string, k: Key)
    requires EventLogged(items) && k in EventKeys(items, orgId)
    ensures items[k].AuditItem? && items[k].orgId == orgId
  {
    EventOfTheOrg(items, orgId, k);
  }

  lemma LaterKeyNotEarlier(items: Items, orgId: string, x: Key, y: Key)
    requires EventLogged(items) && x in EventKeys(items, orgId) && y in EventKeys(items, orgId)
    requires Before(x.sk, y.sk) && items[x].AuditItem? && items[y].AuditItem?
    ensures !Before(items[y].timestamp, items[x].timestamp)
  {
    EventOfTheOrg(items, orgId, x);
    EventOfTheOrg(items, orgId, y);
    KeyOrderIsTimeOrder(orgId, x.sk[|AUDIT_PREFIX|..], y.sk[|AUDIT_PREFIX|..], items[x], items[y]);
  }

  /* ---------- Limit and filter ---------- */

  /** Among events in descending time order those since a moment form a prefix. */
  lemma {:induction false} SinceIsPrefix(events: seq<Item>, since: string)
    requires NewestFirst(events)
    ensures var kept := Since(events, Some(since));
            && kept == events[..|kept|]
            && (forall i | 0 <= i < |kept| :: IsSince(events[i], since))
            && forall i | |kept| <= i < |events| :: !IsSince(events[i], since)
  {
    if events == [] {
    } else {
      var rest := events[1..];
      SinceIsPrefix(rest, since);
      var kept := Since(rest, Some(since));
      assert events == [events[0]] + rest;
      if !IsSince(events[0], since) {
        forall i | 0 <= i < |rest| ensures !IsSince(rest[i], since) {
          assert !Before(events[0].timestamp, events[i + 1].timestamp);
          NotLaterThanAnOldEvent(events[0].timestamp, rest[i].timestamp, since);
        }
        assert kept == [];
      }
    }
  }

  lemma NotLaterThanAnOldEvent(old': string, other: string, since: string)
    requires Before(old', since) && !Before(old', other)
    ensures Before(other, since)
  {
    BeforeIsTotal(old', other);
    if other != old' {
      BeforeIsTransitive(other, old', since);
    }
  }

  /** Limiting before filtering returns the same events as filtering before limiting. */
  lemma LimitCommutesWithSince(events: seq<Item>, limit: nat, since: Option<string>)
    requires NewestFirst(events)
    ensures Since(Take(events, limit), since) == Take(Since(events, since), limit)
  {
    if since.Some? && limit < |events| {
      var cut := events[..limit];
      SinceIsPrefix(events, since.value);
      SinceIsPrefix(cut, since.value);
      var all, few := Since(events, since), Since(cut, since);
      assert |few| < limit ==> cut[|few|] == events[|few|];
      assert |all| < limit ==> cut[|all|] == events[|all|];
      assert |few| == if |all| < limit then |all| else limit;
    }
  }

  /**
   What `list_events` returns, for every limit and every `since` text: events of the org only, none
   older than `since`, newest first, at most `limit` of them; and an event of the org that is not
   older than `since` is missing only if `limit` others at least as new are there.
   */
  lemma ListedEventsAreTheNewest(items: Items, orgId: string, limit: nat, since: string, event: Item)
    requires EventLogged(items) && event in Newest(items, orgId) && IsSince(event, since)
    ensures var r := Since(Take(Newest(items, orgId), limit), Some(since));
            && r == Take(Since(Newest(items, orgId), Some(since)), limit)
            && |r| <= limit && NewestFirst(r)
            && (forall e | e in r :: e.orgId == orgId && IsSince(e, since))
            && (event in r || (|r| == limit && forall e | e in r :: !Before(e.timestamp, event.timestamp)))
  {
    hide EventLogged, Newest, Since;
    var events := Newest(items, orgId);
    QueryIsNewestFirst(items, orgId);
    LimitCommutesWithSince(events, limit, Some(since));
    SinceIsPrefix(events, since);
    var r, kept := Since(Take(events, limit), Some(since)), Since(events, Some(since));
    assert |r| <= |kept| && forall i | 0 <= i < |r| :: r[i] == kept[i] && kept[i] == events[i] && events[i] in events;
    var k :| 0 <= k < |events| && events[k] == event;
    assert k < |kept| && kept[k] == event;
  }

  /**
   Whatever its offset, `since` is compared by its wall clock: an event is kept exactly if it is
   later than that reading taken as UTC, or is the same and the offset is zero or missing.
   */
  lemma SinceComparesWallClocks(t: Instant, since: Timestamp)
    ensures !Before(Iso(t), IsoText(since)) <==>
            Earlier(since.local, t) || (since.local == t && (since.offset == None || since.offset == Some(0)))
  {
    hide LocalIso, OffsetText, Earlier, Before;
    UtcIsTheLowestOffset(since.offset);
    EarlierIsTotal(t, since.local);
    if t == since.local {
      BeforeByHead(LocalIso(t), LocalIso(t), UTC, OffsetText(since.offset));
      BeforeIsStrict(LocalIso(t), LocalIso(t));
    } else {
      LocalIsoKeepsTheOrder(t, since.local, UTC, OffsetText(since.offset));
    }
  }

  /**
   A bound with an offset errs on exactly the events between its instant and its wall clock: east of
   UTC it drops those, from its instant to its wall clock, west of UTC it keeps those from its wall clock on.
   */
  lemma SinceErrsByTheOffset(t: Instant, since: Timestamp)
    requires since.offset.Some?
    ensures var (at, wall, bound) := (Micros(t), Micros(since.local), UtcMicros(since));
            var kept := !Before(Iso(t), IsoText(since));
            && (kept && at < bound <==> wall < at < bound)
            && (!kept && bound <= at <==> bound <= at <= wall && since.offset != Some(0))
  {
    hide Earlier, Micros, Iso, IsoText, Before;
    SinceComparesWallClocks(t, since);
    EarlierMeansBeforeInTime(since.local, t);
    EarlierMeansBeforeInTime(t, since.local);
    EarlierIsTotal(t, since.local);
  }

  /** With a UTC `since`, text comparison keeps exactly the events that are not earlier. */
  lemma SinceIsChronological(t: Instant, since: Instant)
    ensures Before(Iso(t), Iso(since)) <==> Earlier(t, since)
  {
    hide LocalIso, OffsetText, Earlier, Before, Iso;
    UtcText(since);
    SinceComparesWallClocks(t, Timestamp(since, Some(0)));
    EarlierIsTotal(t, since);
  }

  lemma UtcText(t: Instant)
    ensures IsoText(Timestamp(t, Some(0))) == Iso(t)
  {
    hide LocalIso;
    TwoDigits();
    assert OffsetText(Some(0)) == UTC;
  }

  /* ---------- The event as it is stored and listed ---------- */

  /** A recorded event, field by field. */
  lemma EventAsRecorded(orgId: string, eventType: string, outcome: string, requestId: Option<string>,
                        detail: Option<string>, now: Instant, eventId: string, expiresAt: int)
    ensures Place(AuditEvent(orgId, Stamp(now, eventId))) == Key("ORG#" + orgId, "AUDIT#" + (Iso(now) + "#" + eventId))
    ensures Event(orgId, eventType, outcome, requestId, detail, now, expiresAt) ==
            AuditItem(orgId, eventType, outcome, Iso(now), requestId, Redaction.SanitizeDetail(detail, 500), expiresAt)
  {
    KeysAsWritten(orgId, "", Stamp(now, eventId));
  }

  /** All listed events are stored events of the org, and without limit and bound all of these are listed. */
  lemma ListedEventsAreStored(items: Items, orgId: string)
    ensures forall e | e in Newest(items, orgId) ::
              exists stamp :: Lookup(items, Place(AuditEvent(orgId, stamp))) == Some(e)
    ensures forall stamp | Lookup(items, Place(AuditEvent(orgId, stamp))).Some? ::
              Lookup(items, Place(AuditEvent(orgId, stamp))).value in Newest(items, orgId)
    ensures Since(Newest(items, orgId), None) == Newest(items, orgId)
  {
    hide Newest, Place;
    forall e | e in Newest(items, orgId)
      ensures exists stamp :: Lookup(items, Place(AuditEvent(orgId, stamp))) == Some(e)
    {
      var i :| 0 <= i < |Newest(items, orgId)| && Newest(items, orgId)[i] == e;
      ListedIsStored(items, orgId, i);
    }
    forall stamp | Lookup(items, Place(AuditEvent(orgId, stamp))).Some?
      ensures Lookup(items, Place(AuditEvent(orgId, stamp))).value in Newest(items, orgId)
    {
      StoredIsListed(items, orgId, stamp);
    }
  }

  lemma ListedIsStored(items: Items, orgId: string, i: nat)
    requires i < |Newest(items, orgId)|
    ensures exists stamp :: Lookup(items, Place(AuditEvent(orgId, stamp))) == Some(Newest(items, orgId)[i])
  {
    hide QueryKeys, Place, View;
    var keys := EventKeys(items, orgId);
    var k := keys[|keys| - 1 - i];
    assert Reversed(keys)[i] == k && k in keys;
    StampOfKey(items, orgId, k);
    assert Newest(items, orgId)[i] == items[k];
  }

  lemma StoredIsListed(items: Items, orgId: string, stamp: string)
    requires Lookup(items, Place(AuditEvent(orgId, stamp))).Some?
    ensures Lookup(items, Place(AuditEvent(orgId, stamp))).value in Newest(items, orgId)
  {
    hide QueryKeys, Place;
    var (keys, k) := (EventKeys(items, orgId), Place(AuditEvent(orgId, stamp)));
    StoredIsQueried(items, orgId, stamp);
    var i :| 0 <= i < |keys| && keys[i] == k;
    assert Newest(items, orgId)[|keys| - 1 - i] == items[k];
  }

  lemma StoredIsQueried(items: Items, orgId: string, stamp: string)
    requires Place(AuditEvent(orgId, stamp)) in items
    ensures Place(AuditEvent(orgId, stamp)) in EventKeys(items, orgId)
  {
    PrefixThenRest(AUDIT_PREFIX, stamp);
  }

  lemma StampOfKey(items: Items, orgId: string, k: Key)
    requires k in EventKeys(items, orgId)
    ensures k in items
    ensures exists stamp :: Lookup(items, Place(AuditEvent(orgId, stamp))) == Some(items[k])
  {
    hide QueryKeys, Place;
    AuditQueryIsExact(items, orgId, k);
    var stamp :| AuditEvent(orgId, stamp) in View(items) && k == Place(AuditEvent(orgId, stamp));
  }

  /** What a bound keeps: in wall-clock terms, and in order. */
  lemma SinceKeepsByWallClock(t: Instant, event: Item, since: Timestamp)
    requires event.AuditItem? && event.timestamp == Iso(t)
    ensures IsSince(event, IsoText(since)) <==>
            Earlier(since.local, t) || (since.local == t && (since.offset == None || since.offset == Some(0)))
    ensures Since([event], Some(IsoText(since))) == if IsSince(event, IsoText(since)) then [event] else []
  {
    hide Iso, IsoText, Earlier, Before;
    SinceComparesWallClocks(t, since);
    assert [event][1..] == [];
  }

  lemma {:induction false} SinceInParts(a: seq<Item>, b: seq<Item>, since: string)
    ensures Since(a + b, Some(since)) == Since(a, Some(since)) + Since(b, Some(since))
  {
    if a == [] {
      assert a + b == b;
    } else {
      assert (a + b)[1..] == a[1..] + b;
      SinceInParts(a[1..], b, since);
      Regroup(if IsSince(a[0], since) then [a[0]] else [], Since(a[1..], Some(since)), Since(b, Some(since)));
    }
  }
}
