/** The table-backed catalog repository refines the in-memory one. */
module CatalogRefinement {
  import opened Results
  import opened Text
  import opened Catalog
  import opened Store
  import opened CatalogRepository

  ghost predicate SortedById(es: seq<Entry>) {
    forall i, j | 0 <= i < j < |es| :: Before(es[i].virtualAgentId, es[j].virtualAgentId)
  }

  /** The table holds the cached catalog, and has been seeded. */
  ghost predicate Agree(cache: Option<seq<Entry>>, items: Items) {
    && cache.Some?
    && ValidCatalog(cache.value)
    && CatalogPart(items) == EntryItems(cache.value)
    && MetaKey() in items
  }

  /** Equal replies, except that the table lists the same entries ordered by id. */
  ghost predicate SameReply(mem: Reply, dyn: Reply) {
    || mem == dyn
    || (mem.Listed? && dyn.Listed? && multiset(mem.entries) == multiset(dyn.entries) && SortedById(dyn.entries))
  }

  ghost predicate OnlyCatalogTouched(before: Items, after: Items) {
    forall k | !IsAgentKey(k) && k != MetaKey() :: Lookup(after, k) == Lookup(before, k)
  }

  /* ---------- Listing a stored catalog ---------- */

  lemma StoredCatalogIsShaped(items: Items, es: seq<Entry>)
    requires DistinctIds(es) && CatalogPart(items) == EntryItems(es)
    ensures Shaped(items)
  {
    EntryItemsAreTheEntries(es);
    forall k | k in items && IsAgentKey(k)
      ensures items[k].AgentItem? && k == AgentKey(items[k].entry.virtualAgentId)
    {
      assert k in CatalogPart(items) && items[k] == EntryItems(es)[k];
    }
  }

  lemma ListingIsSorted(items: Items)
    requires Shaped(items)
    ensures SortedById(Listing(items)) && DistinctIds(Listing(items))
  {
    var l, keys := Listing(items), OldKeys(items);
    forall i, j | 0 <= i < j < |l|
      ensures Before(l[i].virtualAgentId, l[j].virtualAgentId) && l[i].virtualAgentId != l[j].virtualAgentId
    {
      assert Before(keys[i].sk, keys[j].sk);
      BeforeByHead(AGENT_PREFIX, AGENT_PREFIX, l[i].virtualAgentId, l[j].virtualAgentId);
      BeforeIsStrict(AGENT_PREFIX, AGENT_PREFIX);
      BeforeIsStrict(l[i].virtualAgentId, l[j].virtualAgentId);
    }
  }

  lemma ListingHoldsTheEntries(items: Items, es: seq<Entry>)
    requires Shaped(items) && DistinctIds(es) && CatalogPart(items) == EntryItems(es)
    ensures forall e :: e in Listing(items) <==> e in es
  {
    var l, keys := Listing(items), OldKeys(items);
    EntryItemsAreTheEntries(es);
    forall e | e in l ensures e in es {
      var i :| 0 <= i < |l| && l[i] == e;
      assert keys[i] in keys && keys[i] in CatalogPart(items);
    }
    forall e | e in es ensures e in l {
      var k := AgentKey(e.virtualAgentId);
      assert k in CatalogPart(items) && k in keys;
      var i :| 0 <= i < |keys| && keys[i] == k;
      assert l[i] == e;
    }
  }

  /** Listing a stored catalog returns a sorted permutation of it, and validates. */
  lemma ListingOfStoredCatalog(items: Items, es: seq<Entry>)
    requires ValidCatalog(es) && CatalogPart(items) == EntryItems(es)
    ensures Shaped(items)
    ensures DynList(items) == Success(Listing(items))
    ensures SortedById(Listing(items)) && multiset(Listing(items)) == multiset(es)
    ensures ValidCatalog(Listing(items))
  {
    StoredCatalogIsShaped(items, es);
    ListingIsSorted(items);
    ListingHoldsTheEntries(items, es);
    SameElementsSameMultiset(Listing(items), es);
    ValidCatalogIgnoresOrder(es, Listing(items));
    VerdictIsValidity(Listing(items));
  }

  lemma StoredItemsIgnoreOrder(a: seq<Entry>, b: seq<Entry>)
    requires DistinctIds(a) && DistinctIds(b)
    requires forall e :: e in a <==> e in b
    ensures EntryItems(a) == EntryItems(b)
  {
    hide EntryItems, AgentKey, IsAgentKey, DistinctIds;
    EntryItemsAreTheEntries(a);
    EntryItemsAreTheEntries(b);
    forall k ensures k in EntryItems(a) <==> k in EntryItems(b) {
      if k in EntryItems(a) {
        assert EntryItems(a)[k].entry in b;
      }
      if k in EntryItems(b) {
        assert EntryItems(b)[k].entry in a;
      }
    }
    forall k | k in EntryItems(a) ensures EntryItems(a)[k] == EntryItems(b)[k] {
      assert EntryItems(a)[k].entry in b;
    }
  }

  /* ---------- One rewrite ---------- */

  lemma PartsOfUnion(base: Items, agents: Items, summary: Item)
    requires forall k | k in base :: !IsAgentKey(k)
    requires forall k | k in agents :: IsAgentKey(k)
    ensures var after := (base + agents)[MetaKey() := summary];
            && CatalogPart(after) == agents
            && Lookup(after, MetaKey()) == Some(summary)
            && forall k | !IsAgentKey(k) && k != MetaKey() :: Lookup(after, k) == Lookup(base, k)
  {
  }

  lemma RewriteStoresTheEntries(items: Items, es: seq<Entry>, seeded: bool)
    requires DistinctIds(es)
    ensures var after := Run(items, WritePlan(items, es, seeded));
            && CatalogPart(after) == EntryItems(es)
            && Lookup(after, MetaKey()) == Some(CatalogMeta(|es|, seeded))
            && OnlyCatalogTouched(items, after)
  {
    FinishedRewrite(items, es, seeded);
    EntryItemsAreTheEntries(es);
    PartsOfUnion(WithoutAgents(items), EntryItems(es), CatalogMeta(|es|, seeded));
  }

  /** What a checked rewrite leaves on each side, or the one error both raise. */
  ghost predicate WritesAgree(es: seq<Entry>, items: Items, mem: seq<Entry>, dyn: seq<Entry>) {
    var (cache', reply) := MemReplace(Some(es), mem);
    match DynWrite(items, dyn, false)
    case Failure(error) => cache' == Some(es) && reply == Raised(error)
    case Success(plan) =>
      reply == Done && Agree(cache', Run(items, plan)) && OnlyCatalogTouched(items, Run(items, plan))
  }

  /** Rewriting the table with a permutation of what the cache becomes keeps the two in agreement. */
  lemma RewriteAgrees(es: seq<Entry>, items: Items, mem: seq<Entry>, dyn: seq<Entry>)
    requires Verdict(mem) == Verdict(dyn)
    requires Verdict(mem).Pass? ==> forall e :: e in mem <==> e in dyn
    ensures WritesAgree(es, items, mem, dyn)
  {
    VerdictIsValidity(mem);
    VerdictIsValidity(dyn);
    if ValidCatalog(mem) {
      RewriteStoresTheEntries(items, dyn, false);
      StoredItemsIgnoreOrder(mem, dyn);
    }
  }

  /* ---------- One operation ---------- */

  lemma SaveAgrees(es: seq<Entry>, items: Items, entry: Entry)
    requires Agree(Some(es), items) && Shaped(items)
    ensures WritesAgree(es, items, Without(es, entry.virtualAgentId) + [entry],
                        Without(Listing(items), entry.virtualAgentId) + [entry])
  {
    hide ValidCatalog, Verdict, EntryItems, CatalogPart, QueryKeys, WritesAgree;
    var l := Listing(items);
    ListingOfStoredCatalog(items, es);
    SameMembers(l, es);
    UpsertOfValidCatalog(es, entry);
    UpsertOfValidCatalog(l, entry);
    RewriteAgrees(es, items, Without(es, entry.virtualAgentId) + [entry], Without(l, entry.virtualAgentId) + [entry]);
  }

  lemma RemoveAgrees(es: seq<Entry>, items: Items, id: string)
    requires Agree(Some(es), items) && Shaped(items)
    ensures var l := Listing(items);
            |Without(es, id)| == |es| <==> |Without(l, id)| == |l|
    ensures WritesAgree(es, items, Without(es, id), Without(Listing(items), id))
  {
    hide ValidCatalog, Verdict, EntryItems, CatalogPart, QueryKeys, WritesAgree;
    var l := Listing(items);
    ListingOfStoredCatalog(items, es);
    SameMembers(l, es);
    WithoutDropsOnlyTheId(es, id);
    WithoutDropsOnlyTheId(l, id);
    assert HasId(es, id) <==> HasId(l, id);
    RemovalFromValidCatalog(es, id);
    RemovalFromValidCatalog(l, id);
    var (mem, dyn) := (Without(es, id), Without(l, id));
    assert mem != [] ==> mem[0] in dyn;
    assert dyn != [] ==> dyn[0] in mem;
    RewriteAgrees(es, items, mem, dyn);
  }

  ghost predicate StepAgrees(cache: Option<seq<Entry>>, config: SeedFile, items: Items, op: CatalogOp)
    requires Shaped(items)
  {
    var (cache', mem) := MemStep(cache, config, op);
    var (items', dyn) := DynStep(items, op);
    && Agree(cache', items')
    && SameReply(mem, dyn)
    && (mem.Raised? ==> cache' == cache && items' == items)
    && OnlyCatalogTouched(items, items')
  }

  /**
   From agreeing states every operation succeeds on both or raises the same error on both; a
   failure changes neither; listings hold the same entries; the rest of the table is untouched.
   */
  lemma EveryStepAgrees(cache: Option<seq<Entry>>, config: SeedFile, items: Items, op: CatalogOp)
    requires Agree(cache, items)
    ensures Shaped(items)
    ensures StepAgrees(cache, config, items, op)
  {
    hide ValidCatalog, Verdict, EntryItems, CatalogPart, QueryKeys, WritePlan, Without, SortedById, Listing;
    var es := cache.value;
    ListingOfStoredCatalog(items, es);
    match op
    case ListAgents =>
    case EnsureSeeded(file) =>
    case SaveAgent(entry) => SaveAgrees(es, items, entry);
    case RemoveAgent(id) => RemoveAgrees(es, items, id);
    case ReplaceAll(entries) => RewriteAgrees(es, items, entries, entries);
  }

  /* ---------- Whole runs ---------- */

  lemma StepKeepsShape(items: Items, op: CatalogOp)
    requires Shaped(items)
    ensures Shaped(DynStep(items, op).0)
  {
    hide Verdict, WritePlan, Run, EntryItems, CatalogPart, DynList, Shaped, WellNamed, TwoDefaults;
    var plan := DynPlan(items, op);
    if plan.Success? && plan.value != [] {
      var (es, seeded) := match op
        case EnsureSeeded(file) => (file.value, true)
        case SaveAgent(entry) => (Without(DynList(items).value, entry.virtualAgentId) + [entry], false)
        case RemoveAgent(id) => (Without(DynList(items).value, id), false)
        case ReplaceAll(entries) => (entries, false);
      VerdictIsValidity(es);
      RewriteStoresTheEntries(items, es, seeded);
      StoredCatalogIsShaped(DynStep(items, op).0, es);
    } else {
      NothingRun(items);
    }
  }

  function MemRun(cache: Option<seq<Entry>>, config: SeedFile, ops: seq<CatalogOp>): (Option<seq<Entry>>, seq<Reply>)
    decreases |ops|
  {
    if ops == [] then (cache, [])
    else
      var (next, reply) := MemStep(cache, config, ops[0]);
      var (last, replies) := MemRun(next, config, ops[1..]);
      (last, [reply] + replies)
  }

  function DynRun(items: Items, ops: seq<CatalogOp>): (Items, seq<Reply>)
    requires Shaped(items)
    decreases |ops|
  {
    if ops == [] then (items, [])
    else
      StepKeepsShape(items, ops[0]);
      var (next, reply) := DynStep(items, ops[0]);
      var (last, replies) := DynRun(next, ops[1..]);
      (last, [reply] + replies)
  }

  /** For every sequence of operations the two repositories reply alike, call by call. */
  lemma {:induction false} EveryRunAgrees(
    cache: Option<seq<Entry>>, config: SeedFile, items: Items, ops: seq<CatalogOp>)
    requires Agree(cache, items)
    ensures Shaped(items)
    ensures var (cache', mem) := MemRun(cache, config, ops);
            var (items', dyn) := DynRun(items, ops);
            && Agree(cache', items')
            && |mem| == |dyn| == |ops|
            && (forall i | 0 <= i < |ops| :: SameReply(mem[i], dyn[i]))
            && OnlyCatalogTouched(items, items')
    decreases |ops|
  {
    hide ValidCatalog, Verdict, EntryItems, CatalogPart, QueryKeys, WritePlan, MemStep, DynStep;
    ListingOfStoredCatalog(items, cache.value);
    if ops == [] {
    } else {
      EveryStepAgrees(cache, config, items, ops[0]);
      StepKeepsShape(items, ops[0]);
      EveryRunAgrees(MemStep(cache, config, ops[0]).0, config, DynStep(items, ops[0]).0, ops[1..]);
    }
  }

  /**
   Seeding a fresh in-memory repository and a table without META from one file makes them agree,
   whatever agent items an interrupted seed may have left behind.
   */
  lemma SeedingAgrees(config: SeedFile, items: Items, file: SeedFile)
    requires Shaped(items) && MetaKey() !in items && file.Success?
    ensures var (cache', mem) := MemStep(None, config, EnsureSeeded(file));
            var (items', dyn) := DynStep(items, EnsureSeeded(file));
            Agree(cache', items') && mem == dyn == Done && OnlyCatalogTouched(items, items')
  {
    hide Verdict, WritePlan, Run, EntryItems, CatalogPart, DynList, Listing, WellNamed, TwoDefaults, DistinctIds;
    VerdictIsValidity(file.value);
    RewriteStoresTheEntries(items, file.value, true);
  }

  /**
   The two reply alike to `ensure_seeded` exactly if something is cached or the file is readable.
   Otherwise the in-memory repository raises, while the table-backed one only warns and leaves the
   table as it is; without agent items its next listing raises instead.
   */
  lemma UnreadableSeedDiffers(cache: Option<seq<Entry>>, config: SeedFile, items: Items, file: SeedFile)
    requires Shaped(items)
    ensures MemStep(cache, config, EnsureSeeded(file)).1 == DynStep(items, EnsureSeeded(file)).1 <==>
            cache.Some? || file.Success?
    ensures cache.None? && file.Failure? ==>
              && MemStep(cache, config, EnsureSeeded(file)) == (None, Raised(file.error))
              && DynStep(items, EnsureSeeded(file)) == (items, Done)
    ensures CatalogPart(items) == map[] ==> DynStep(items, ListAgents) == (items, Raised(EmptyTable))
  {
    if file.Success? {
      VerdictIsValidity(file.value);
    }
    if CatalogPart(items) == map[] {
      assert forall k :: k in OldKeys(items) <==> k in CatalogPart(items);
    }
  }
}
