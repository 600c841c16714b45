/**
 One catalog writer at a time, which may crash between any two table operations, and readers
 that may query in the middle of a rewrite.
 */
module CatalogCrash {
  import opened Results
  import opened Text
  import opened Catalog
  import opened Store
  import opened CatalogRepository
  import opened CatalogRefinement

  /* ---------- An attempt at an operation ---------- */

  /** The entries an operation sets out to store, if it gets as far as writing. */
  function Target(items: Items, op: CatalogOp): Option<(seq<Entry>, bool)>
    requires Shaped(items)
  {
    var plan := DynPlan(items, op);
    if plan.Failure? || plan.value == [] then None
    else match op
      case EnsureSeeded(file) => Some((file.value, true))
      case SaveAgent(entry) => Some((Without(Listing(items), entry.virtualAgentId) + [entry], false))
      case RemoveAgent(id) => Some((Without(Listing(items), id), false))
      case ReplaceAll(entries) => Some((entries, false))
  }

  /** The table once the writer has stopped after k writes; a k past the end lets it finish. */
  function Attempt(items: Items, op: CatalogOp, k: nat): Items
    requires Shaped(items)
  {
    match DynPlan(items, op)
    case Failure(_) => items
    case Success(plan) => Run(items, if k < |plan| then plan[..k] else plan)
  }

  lemma TargetIsPlanned(items: Items, op: CatalogOp)
    requires Shaped(items)
    ensures Target(items, op).Some? ==>
              var (es, seeded) := Target(items, op).value;
              ValidCatalog(es) && DynPlan(items, op) == Success(WritePlan(items, es, seeded))
    ensures Target(items, op).None? ==> forall k: nat :: Attempt(items, op, k) == items
  {
    hide ValidCatalog, Verdict, QueryKeys;
    if Target(items, op).Some? {
      VerdictIsValidity(Target(items, op).value.0);
    }
  }

  lemma NoTargetNoWrites(items: Items, op: CatalogOp)
    requires Shaped(items) && Target(items, op).None?
    ensures DynPlan(items, op).Success? ==> DynPlan(items, op).value == []
  {
    hide DynPlan;
  }

  /** Cut down to the first k of the query's keys. */
  function LessFirstKeys(items: Items, k: nat): Items
    requires k <= |OldKeys(items)|
  {
    items - (set i | 0 <= i < k :: OldKeys(items)[i])
  }

  /**
   At whatever write the operation stops, the agent items are what is left of the old catalog
   or the first j new entries: never a mix of the two. META follows only a complete rewrite.
   */
  lemma OldOrPrefixOfNew(items: Items, op: CatalogOp, k: nat)
    requires Shaped(items)
    ensures var after := Attempt(items, op, k);
            match Target(items, op)
            case None => after == items
            case Some((es, seeded)) =>
              var n := |OldKeys(items)|;
              && (k <= n ==> after == LessFirstKeys(items, k))
              && (n <= k <= n + |es| ==> after == WithoutAgents(items) + EntryItems(es[..k - n]))
              && (k > n + |es| ==>
                    after == (WithoutAgents(items) + EntryItems(es))[MetaKey() := CatalogMeta(|es|, seeded)])
  {
    hide ValidCatalog, QueryKeys, EntryItems, DynPlan, Target, Attempt, Run, WritePlan, WithoutAgents, MetaKey, OldKeys;
    TargetIsPlanned(items, op);
    match Target(items, op)
    case None =>
    case Some((es, seeded)) =>
      var n := |OldKeys(items)|;
      AttemptOfPlan(items, op, es, seeded, k);
      if k <= n {
        StoppedInDeletes(items, es, seeded, k);
      }
      if n <= k <= n + |es| {
        StoppedInPuts(items, es, seeded, k - n);
      }
      FinishedRewrite(items, es, seeded);
  }

  lemma AttemptOfPlan(items: Items, op: CatalogOp, es: seq<Entry>, seeded: bool, k: nat)
    requires Shaped(items) && DynPlan(items, op) == Success(WritePlan(items, es, seeded))
    ensures |WritePlan(items, es, seeded)| == |OldKeys(items)| + |es| + 1
    ensures k <= |OldKeys(items)| + |es| ==> Attempt(items, op, k) == Run(items, WritePlan(items, es, seeded)[..k])
    ensures k > |OldKeys(items)| + |es| ==> Attempt(items, op, k) == Run(items, WritePlan(items, es, seeded))
  {
    hide DynPlan, Run;
  }

  /* ---------- What readers can see over a whole run ---------- */

  /** All agent items come from one valid catalog. */
  ghost predicate DrawnFrom(items: Items, es: seq<Entry>) {
    ValidCatalog(es) && forall k | k in CatalogPart(items) :: k in EntryItems(es) && EntryItems(es)[k] == items[k]
  }

  ghost predicate Coherent(items: Items) {
    CatalogPart(items) == map[] || exists es :: DrawnFrom(items, es)
  }

  lemma CoherentIsShaped(items: Items)
    requires Coherent(items)
    ensures Shaped(items)
  {
    if CatalogPart(items) != map[] {
      var es :| DrawnFrom(items, es);
      EntryItemsAreTheEntries(es);
    }
    forall k | k in items && IsAgentKey(k)
      ensures items[k].AgentItem? && k == AgentKey(items[k].entry.virtualAgentId)
    {
      assert k in CatalogPart(items);
    }
  }

  lemma PrefixIsDrawnFromWhole(items: Items, es: seq<Entry>, j: nat)
    requires ValidCatalog(es) && j <= |es| && CatalogPart(items) == EntryItems(es[..j])
    ensures DrawnFrom(items, es)
  {
    EntryItemsAreTheEntries(es);
    EntryItemsAreTheEntries(es[..j]);
    forall k | k in CatalogPart(items) ensures k in EntryItems(es) && EntryItems(es)[k] == items[k] {
      assert items[k] == EntryItems(es[..j])[k];
      assert items[k].entry in es[..j] && items[k].entry in es;
    }
  }

  lemma AttemptStaysCoherent(items: Items, op: CatalogOp, k: nat)
    requires Coherent(items)
    ensures Shaped(items) && Coherent(Attempt(items, op, k))
  {
    hide ValidCatalog, QueryKeys, EntryItems, DynPlan, Attempt, Shaped;
    CoherentIsShaped(items);
    OldOrPrefixOfNew(items, op, k);
    TargetIsPlanned(items, op);
    var after := Attempt(items, op, k);
    match Target(items, op)
    case None =>
    case Some((es, seeded)) =>
      hide DrawnFrom, Coherent;
      var n := |OldKeys(items)|;
      if k <= n {
        FewerItemsStayCoherent(items, after);
      } else {
        var j := if k <= n + |es| then k - n else |es|;
        assert es[..|es|] == es;
        NewItemsAreCoherent(items, es, j, CatalogMeta(|es|, seeded));
      }
  }

  lemma FewerItemsStayCoherent(items: Items, after: Items)
    requires Coherent(items)
    requires forall x | x in after :: x in items && after[x] == items[x]
    ensures Coherent(after)
  {
    hide EntryItems, ValidCatalog;
    if CatalogPart(items) != map[] {
      var es :| DrawnFrom(items, es);
      assert forall x | x in CatalogPart(after) :: x in CatalogPart(items);
      assert DrawnFrom(after, es);
    } else {
      assert forall x :: x !in CatalogPart(items);
      assert forall x | x in CatalogPart(after) :: x in CatalogPart(items);
    }
  }

  lemma NewItemsAreCoherent(items: Items, es: seq<Entry>, j: nat, summary: Item)
    requires ValidCatalog(es) && j <= |es|
    ensures var after := WithoutAgents(items) + EntryItems(es[..j]);
            Coherent(after) && Coherent(after[MetaKey() := summary])
  {
    hide EntryItems, ValidCatalog, CatalogPart, DrawnFrom, WithoutAgents, MetaKey, DistinctIds, IsAgentKey;
    PrefixIsDistinct(es, j);
    EntryItemsAreTheEntries(es[..j]);
    var after := WithoutAgents(items) + EntryItems(es[..j]);
    NoAgentsIn(items);
    PartsOfUnion(WithoutAgents(items), EntryItems(es[..j]), summary);
    AgentsOfUnion(WithoutAgents(items), EntryItems(es[..j]));
    PrefixIsDrawnFromWhole(after, es, j);
    PrefixIsDrawnFromWhole(after[MetaKey() := summary], es, j);
  }

  lemma NoAgentsIn(items: Items)
    ensures forall k | k in WithoutAgents(items) :: !IsAgentKey(k)
  {
  }

  lemma AgentsOfUnion(base: Items, agents: Items)
    requires forall k | k in base :: !IsAgentKey(k)
    requires forall k | k in agents :: IsAgentKey(k)
    ensures CatalogPart(base + agents) == agents
  {
  }

  lemma PrefixIsDistinct(es: seq<Entry>, j: nat)
    requires ValidCatalog(es) && j <= |es|
    ensures DistinctIds(es[..j])
  {
  }

  /** A crashed or finished attempt after another: operation and number of writes done. */
  type History = seq<(CatalogOp, nat)>

  ghost function After(items: Items, history: History): Items
    requires Coherent(items)
    decreases |history|
  {
    if history == [] then items
    else
      AttemptStaysCoherent(items, history[0].0, history[0].1);
      After(Attempt(items, history[0].0, history[0].1), history[1..])
  }

  /**
   Over every run, at every instant, a listing raises exactly when no agent item exists, and
   otherwise returns a valid catalog.
   */
  lemma {:induction false} ReadersSeeAValidCatalogOrNone(items: Items, history: History)
    requires Coherent(items)
    ensures var now := After(items, history);
            && Coherent(now) && Shaped(now)
            && (CatalogPart(now) == map[] ==> DynList(now) == Failure(EmptyTable))
            && (CatalogPart(now) != map[] ==> DynList(now) == Success(Listing(now)) && ValidCatalog(Listing(now)))
    decreases |history|
  {
    if history == [] {
      CoherentIsShaped(items);
      CoherentListing(items);
    } else {
      AttemptStaysCoherent(items, history[0].0, history[0].1);
      ReadersSeeAValidCatalogOrNone(Attempt(items, history[0].0, history[0].1), history[1..]);
    }
  }

  lemma CoherentListing(items: Items)
    requires Coherent(items) && Shaped(items)
    ensures CatalogPart(items) == map[] ==> DynList(items) == Failure(EmptyTable)
    ensures CatalogPart(items) != map[] ==> DynList(items) == Success(Listing(items)) && ValidCatalog(Listing(items))
  {
    var l, keys := Listing(items), OldKeys(items);
    assert forall k :: k in keys <==> k in CatalogPart(items);
    if CatalogPart(items) != map[] {
      var es :| DrawnFrom(items, es);
      EntryItemsAreTheEntries(es);
      forall e | e in l ensures e in es {
        var i :| 0 <= i < |l| && l[i] == e;
        assert keys[i] in keys && keys[i] in CatalogPart(items);
      }
      assert l != [] by {
        var k :| k in CatalogPart(items);
        assert k in keys;
      }
      ListingIsSorted(items);
      TwoDefaultsAsMembers(l);
      TwoDefaultsAsMembers(es);
      VerdictIsValidity(l);
    }
  }

  /* ---------- Recovery ---------- */

  /** An interrupted seed leaves META absent and the rest of the table as it was. */
  lemma InterruptedSeed(items: Items, file: SeedFile, k: nat)
    requires Shaped(items) && MetaKey() !in items
    requires DynPlan(items, EnsureSeeded(file)).Success? && k < |DynPlan(items, EnsureSeeded(file)).value|
    ensures var after := Attempt(items, EnsureSeeded(file), k);
            Shaped(after) && MetaKey() !in after && WithoutAgents(after) == WithoutAgents(items)
  {
    hide ValidCatalog, QueryKeys, EntryItems, Verdict, Run, Shaped;
    var op := EnsureSeeded(file);
    OldOrPrefixOfNew(items, op, k);
    TargetIsPlanned(items, op);
    var (es, n) := (file.value, |OldKeys(items)|);
    if k <= n {
      FewerAgents(items, k);
    } else {
      PrefixIsDistinct(es, k - n);
      SomeAgents(items, es[..k - n]);
    }
  }

  lemma FewerAgents(items: Items, k: nat)
    requires Shaped(items) && k <= |OldKeys(items)|
    ensures Shaped(LessFirstKeys(items, k)) && WithoutAgents(LessFirstKeys(items, k)) == WithoutAgents(items)
    ensures MetaKey() !in items ==> MetaKey() !in LessFirstKeys(items, k)
  {
    assert forall i | 0 <= i < k :: OldKeys(items)[i] in OldKeys(items);
  }

  lemma SomeAgents(items: Items, es: seq<Entry>)
    requires DistinctIds(es)
    ensures var after := WithoutAgents(items) + EntryItems(es);
            && Shaped(after) && WithoutAgents(after) == WithoutAgents(items)
            && (MetaKey() !in items ==> MetaKey() !in after)
  {
    EntryItemsAreTheEntries(es);
  }

  /** Starts of the service, each of which crashed while seeding from its own file. */
  ghost predicate CrashedSeeds(items: Items, crashes: seq<(SeedFile, nat)>)
    decreases |crashes|
  {
    crashes == [] ||
    (&& Shaped(items)
     && var (op, k) := (EnsureSeeded(crashes[0].0), crashes[0].1);
     && DynPlan(items, op).Success?
     && k < |DynPlan(items, op).value|
     && CrashedSeeds(Attempt(items, op, k), crashes[1..]))
  }

  ghost function AfterCrashedSeeds(items: Items, crashes: seq<(SeedFile, nat)>): Items
    requires CrashedSeeds(items, crashes)
    decreases |crashes|
  {
    if crashes == [] then items
    else AfterCrashedSeeds(Attempt(items, EnsureSeeded(crashes[0].0), crashes[0].1), crashes[1..])
  }

  /**
   A first seed interrupted any number of times, at any writes, and then run to the end reaches
   the very table an uninterrupted seed reaches; running it again changes nothing.
   */
  lemma {:induction false} SeedingSurvivesCrashes(items: Items, crashes: seq<(SeedFile, nat)>, file: SeedFile)
    requires Shaped(items) && MetaKey() !in items && file.Success?
    requires CrashedSeeds(items, crashes)
    ensures var crashed := AfterCrashedSeeds(items, crashes);
            && Shaped(crashed)
            && DynStep(crashed, EnsureSeeded(file)) == DynStep(items, EnsureSeeded(file))
            && DynStep(items, EnsureSeeded(file)).1 == Done
            && CatalogPart(DynStep(items, EnsureSeeded(file)).0) == EntryItems(file.value)
    decreases |crashes|
  {
    if crashes == [] {
      VerdictIsValidity(file.value);
      RewriteStoresTheEntries(items, file.value, true);
    } else {
      hide DynStep, DynPlan, Attempt, Shaped, EntryItems, WithoutAgents, Run;
      var (op, k) := (EnsureSeeded(crashes[0].0), crashes[0].1);
      var after := Attempt(items, op, k);
      InterruptedSeed(items, crashes[0].0, k);
      SeedingSurvivesCrashes(after, crashes[1..], file);
      SeedDependsOnTheRestOnly(items, after, file);
    }
  }

  lemma SeedDependsOnTheRestOnly(items: Items, other: Items, file: SeedFile)
    requires Shaped(items) && Shaped(other) && file.Success?
    requires MetaKey() !in items && MetaKey() !in other && WithoutAgents(items) == WithoutAgents(other)
    ensures DynStep(items, EnsureSeeded(file)) == DynStep(other, EnsureSeeded(file))
  {
    hide EntryItems, ValidCatalog, QueryKeys, WithoutAgents, Run, Verdict;
    VerdictIsValidity(file.value);
    FinishedRewrite(items, file.value, true);
    FinishedRewrite(other, file.value, true);
  }

  /** After any attempt `ensure_seeded` writes again exactly if META is still absent. */
  lemma SeedsAgainUnlessMeta(items: Items, file: SeedFile)
    requires Shaped(items) && file.Success?
    ensures DynPlan(items, EnsureSeeded(file)) == Success([]) <==> MetaKey() in items
    ensures MetaKey() in items ==> DynStep(items, EnsureSeeded(file)) == (items, Done)
  {
    VerdictIsValidity(file.value);
  }

  /** A rewrite of a non-empty catalog leaves it empty exactly when it stops behind its deletes. */
  lemma EmptiedBehindTheDeletes(items: Items, op: CatalogOp, k: nat)
    requires Shaped(items) && CatalogPart(items) != map[] && Target(items, op).Some?
    ensures CatalogPart(Attempt(items, op, k)) == map[] <==> k == |OldKeys(items)|
  {
    hide DynPlan, Attempt, Target, WellNamed, TwoDefaults, DistinctIds, MetaKey, EntryItems, LessFirstKeys;
    hide OldKeys, CatalogPart, WithoutAgents, Shaped;
    OldOrPrefixOfNew(items, op, k);
    TargetIsPlanned(items, op);
    var (after, n, es) := (Attempt(items, op, k), |OldKeys(items)|, Target(items, op).value.0);
    if k < n {
      NextKeyIsLeft(items, k);
    } else if k == n {
      NothingIsLeft(items, es);
    } else {
      SomeEntryIsStored(items, es, if k <= n + |es| then k - n else |es|, CatalogMeta(|es|, Target(items, op).value.1));
      assert es[..|es|] == es;
    }
  }

  lemma NothingIsLeft(items: Items, es: seq<Entry>)
    ensures CatalogPart(WithoutAgents(items) + EntryItems(es[..0])) == map[]
  {
  }

  lemma SomeEntryIsStored(items: Items, es: seq<Entry>, j: nat, meta: Item)
    requires ValidCatalog(es) && 0 < j <= |es|
    ensures var after := WithoutAgents(items) + EntryItems(es[..j]);
            CatalogPart(after) != map[] && CatalogPart(after[MetaKey() := meta]) != map[]
  {
    hide ValidCatalog, EntryItems, AgentKey, MetaKey, IsAgentKey, WithoutAgents;
    FirstEntryIsStored(es, j);
    var after, key := WithoutAgents(items) + EntryItems(es[..j]), AgentKey(es[0].virtualAgentId);
    assert key in CatalogPart(after) && key in CatalogPart(after[MetaKey() := meta]);
  }

  lemma NextKeyIsLeft(items: Items, k: nat)
    requires k < |OldKeys(items)|
    ensures OldKeys(items)[k] in CatalogPart(LessFirstKeys(items, k))
  {
    var keys := OldKeys(items);
    forall i | 0 <= i < k ensures keys[i] != keys[k] {
      BeforeIsStrict(keys[i].sk, keys[k].sk);
    }
    assert keys[k] in keys;
  }

  lemma FirstEntryIsStored(es: seq<Entry>, j: nat)
    requires ValidCatalog(es) && 0 < j <= |es|
    ensures AgentKey(es[0].virtualAgentId) in EntryItems(es[..j])
    ensures IsAgentKey(AgentKey(es[0].virtualAgentId)) && AgentKey(es[0].virtualAgentId) != MetaKey()
  {
    PrefixIsDistinct(es, j);
    assert es[0] == es[..j][0] && es[0] in es[..j];
    EntryItemsAreTheEntries(es[..j]);
  }

  /**
   Recovery stops at the first META. Any rewrite of a seeded catalog that stops once the old items
   are deleted leaves a table on which no operation but a full replacement has any effect:
   restarts do not reseed it, and listing, saving and removing raise.
   */
  lemma CrashedRewriteStaysEmpty(items: Items, op: CatalogOp, next: CatalogOp)
    requires Shaped(items) && MetaKey() in items && Target(items, op).Some? && !next.ReplaceAll?
    ensures var crashed := Attempt(items, op, |OldKeys(items)|);
            && Shaped(crashed)
            && CatalogPart(crashed) == map[]
            && DynStep(crashed, next) == (crashed, if next.EnsureSeeded? then Done else Raised(EmptyTable))
  {
    hide DynStep, DynPlan, DynList, Attempt, Target, ValidCatalog, Verdict, OldKeys, WritePlan, EntryItems;
    OldOrPrefixOfNew(items, op, |OldKeys(items)|);
    AllDeleted(items);
    var crashed := Attempt(items, op, |OldKeys(items)|);
    assert crashed == WithoutAgents(items);
    assert CatalogPart(crashed) == map[];
    CoherentIsShaped(crashed);
    CoherentListing(crashed);
    NothingToWorkOn(crashed, next);
  }

  /**
   Stopped anywhere else, a rewrite of a seeded and stored catalog leaves one stored: what is left
   of the old or the first of the new entries, which is valid as it is.
   */
  lemma OtherCrashesLeaveACatalog(items: Items, es: seq<Entry>, op: CatalogOp, k: nat)
    requires Agree(Some(es), items) && Shaped(items) && Target(items, op).Some? && k != |OldKeys(items)|
    ensures var crashed := Attempt(items, op, k);
            Shaped(crashed) && Agree(Some(Listing(crashed)), crashed)
  {
    hide DynList, Attempt, Target, ValidCatalog, OldKeys, EntryItems, Listing, CatalogPart, Shaped;
    StoredIsCoherent(items, es);
    CatalogIsNotEmpty(es);
    EmptiedBehindTheDeletes(items, op, k);
    AttemptStaysCoherent(items, op, k);
    CoherentIsShaped(Attempt(items, op, k));
    CoherentListing(Attempt(items, op, k));
    MetaStays(items, op, k);
    ListingIsWhatIsStored(Attempt(items, op, k));
  }

  lemma StoredIsCoherent(items: Items, es: seq<Entry>)
    requires ValidCatalog(es) && CatalogPart(items) == EntryItems(es)
    ensures Coherent(items)
  {
    assert DrawnFrom(items, es);
  }

  lemma CatalogIsNotEmpty(es: seq<Entry>)
    requires ValidCatalog(es)
    ensures EntryItems(es) != map[]
  {
    FirstEntryIsStored(es, |es|);
    assert es[..|es|] == es;
  }

  lemma MetaStays(items: Items, op: CatalogOp, k: nat)
    requires Shaped(items) && MetaKey() in items
    ensures MetaKey() in Attempt(items, op, k)
  {
    hide Attempt, Target, ValidCatalog, EntryItems, DynPlan;
    OldOrPrefixOfNew(items, op, k);
    if k <= |OldKeys(items)| {
      assert forall i | 0 <= i < k :: OldKeys(items)[i] in OldKeys(items);
    }
    assert MetaKey() in WithoutAgents(items);
  }

  lemma OldKeysAreTheAgents(items: Items)
    ensures forall k :: k in OldKeys(items) <==> k in CatalogPart(items)
  {
  }

  lemma ListingIsWhatIsStored(items: Items)
    requires Shaped(items)
    ensures CatalogPart(items) == EntryItems(Listing(items))
  {
    hide Shaped, Listing, CatalogPart, EntryItems, IsAgentKey, AgentKey, SortedById;
    var l := Listing(items);
    ListingIsSorted(items);
    EntryItemsAreTheEntries(l);
    forall k ensures k in CatalogPart(items) <==> k in EntryItems(l) {
      ListedExactlyIfStored(items, k);
    }
    forall k | k in CatalogPart(items) ensures EntryItems(l)[k] == CatalogPart(items)[k] {
      ListedExactlyIfStored(items, k);
    }
  }

  lemma ListedExactlyIfStored(items: Items, k: Key)
    requires Shaped(items) && DistinctIds(Listing(items))
    ensures k in CatalogPart(items) <==> k in EntryItems(Listing(items))
    ensures k in CatalogPart(items) ==> EntryItems(Listing(items))[k] == CatalogPart(items)[k]
  {
    hide EntryItems, DistinctIds, IsAgentKey, AgentKey, Shaped;
    var l, keys := Listing(items), OldKeys(items);
    EntryItemsAreTheEntries(l);
    OldKeysAreTheAgents(items);
    if k in CatalogPart(items) {
      var i :| 0 <= i < |keys| && keys[i] == k;
      assert l[i] in l && items[k] == AgentItem(l[i]);
    }
    if k in EntryItems(l) {
      var i :| 0 <= i < |l| && l[i] == EntryItems(l)[k].entry;
      assert keys[i] == k && keys[i] in keys;
    }
  }

  lemma NothingToWorkOn(items: Items, op: CatalogOp)
    requires Shaped(items) && MetaKey() in items && DynList(items) == Failure(EmptyTable) && !op.ReplaceAll?
    ensures DynStep(items, op) == (items, if op.EnsureSeeded? then Done else Raised(EmptyTable))
  {
    hide DynList;
  }
}
