/** The two catalog repositories (`src/persistence/catalog_repository.py`). */
module CatalogRepository {
  import opened Results
  import opened Catalog
  import opened Store

  /* ---------- The catalog's part of the table ---------- */

  function AgentKey(id: string): (k: Key)
    ensures IsAgentKey(k) && k.sk[|AGENT_PREFIX|..] == id && k != MetaKey()
  {
    PrefixThenRest(AGENT_PREFIX, id);
    assert (AGENT_PREFIX + id)[0] == 'A';
    Place(CatalogAgent(id))
  }

  function MetaKey(): Key {
    Place(CatalogSummary)
  }

  predicate IsAgentKey(k: Key) {
    k.pk == CATALOG_PK && AGENT_PREFIX <= k.sk
  }

  /** The agent items alone. */
  function CatalogPart(items: Items): Items {
    map k | k in items && IsAgentKey(k) :: items[k]
  }

  /** Every agent item carries the id that its key is built from. */
  predicate Shaped(items: Items) {
    forall k | k in items && IsAgentKey(k) :: items[k].AgentItem? && k == AgentKey(items[k].entry.virtualAgentId)
  }

  /** The agent items of a list of entries; a later namesake wins. */
  function EntryItems(es: seq<Entry>): Items {
    if es == [] then map[]
    else
      var last := es[|es| - 1];
      EntryItems(es[..|es| - 1])[AgentKey(last.virtualAgentId) := AgentItem(last)]
  }

  /** What the agent query reads, in ascending key order. */
  function Listing(items: Items): (r: seq<Entry>)
    requires Shaped(items)
    ensures |r| == |QueryKeys(items, CATALOG_PK, AGENT_PREFIX)|
    ensures forall i | 0 <= i < |r| ::
              var k := QueryKeys(items, CATALOG_PK, AGENT_PREFIX)[i];
              k in items && items[k] == AgentItem(r[i]) && k == AgentKey(r[i].virtualAgentId)
  {
    var keys := QueryKeys(items, CATALOG_PK, AGENT_PREFIX);
    assert forall i | 0 <= i < |keys| :: keys[i] in keys;
    seq(|keys|, i requires 0 <= i < |keys| => items[keys[i]].entry)
  }

  /* ---------- Operations and replies ---------- */

  /** What `load_catalog` returns: a catalog it has validated, or an error. */
  type SeedFile = f: Result<seq<Entry>, CatalogError> | f.Success? ==> ValidCatalog(f.value)
    witness Failure(UnreadableFile)

  datatype CatalogOp =
    | ListAgents
    | EnsureSeeded(file: SeedFile)
    | SaveAgent(entry: Entry)
    | RemoveAgent(id: string)
    | ReplaceAll(entries: seq<Entry>)

  datatype Reply = Listed(entries: seq<Entry>) | Done | Raised(error: CatalogError)

  function ReplyOf(r: Outcome<CatalogError>): Reply {
    match r
    case Pass => Done
    case Fail(error) => Raised(error)
  }

  /* ---------- In memory ---------- */

  /** The cached entries, loaded from the configured file on first use. */
  function MemLoad(cache: Option<seq<Entry>>, config: SeedFile): Result<seq<Entry>, CatalogError> {
    match cache
    case Some(es) => Success(es)
    case None => config
  }

  /** A checked replacement of the cached entries. */
  function MemReplace(cache: Option<seq<Entry>>, es: seq<Entry>): (Option<seq<Entry>>, Reply) {
    match Verdict(es)
    case Pass => (Some(es), Done)
    case Fail(error) => (cache, Raised(error))
  }

  function MemStep(cache: Option<seq<Entry>>, config: SeedFile, op: CatalogOp): (Option<seq<Entry>>, Reply) {
    match op
    case EnsureSeeded(file) =>
      (match MemLoad(cache, file)
       case Failure(error) => (cache, Raised(error))
       case Success(es) => (Some(es), Done))
    case ReplaceAll(entries) => MemReplace(cache, entries)
    case _ =>
      match MemLoad(cache, config)
      case Failure(error) => (cache, Raised(error))
      case Success(es) =>
        match op
        case SaveAgent(entry) => MemReplace(Some(es), Without(es, entry.virtualAgentId) + [entry])
        case RemoveAgent(id) =>
          if |Without(es, id)| == |es| then (Some(es), Raised(AgentNotFound(id)))
          else MemReplace(Some(es), Without(es, id))
        case _ => (Some(es), Listed(es))
  }

  class InMemoryCatalogRepository {
    const config: SeedFile
    var entries: Option<seq<Entry>>

    constructor (config: SeedFile)
      ensures entries == None && this.config == config
    {
      this.config := config;
      entries := None;
    }

    method ListAgents() returns (r: Result<seq<Entry>, CatalogError>)
      modifies this
      ensures (entries, if r.Success? then Listed(r.value) else Raised(r.error)) ==
              MemStep(old(entries), config, CatalogOp.ListAgents)
      ensures r == MemLoad(old(entries), config)
      ensures r.Success? ==> entries == Some(r.value)
    {
      if entries.None? {
        if config.Failure? {
          return Failure(config.error);
        }
        entries := Some(config.value);
      }
      return Success(entries.value);
    }

    method EnsureSeeded(file: SeedFile) returns (r: Outcome<CatalogError>)
      modifies this
      ensures (entries, ReplyOf(r)) == MemStep(old(entries), config, CatalogOp.EnsureSeeded(file))
    {
      if entries.None? {
        if file.Failure? {
          return Fail(file.error);
        }
        entries := Some(file.value);
      }
      return Pass;
    }

    method SaveAgent(entry: Entry) returns (r: Outcome<CatalogError>)
      modifies this
      ensures (entries, ReplyOf(r)) == MemStep(old(entries), config, CatalogOp.SaveAgent(entry))
    {
      var current := ListAgents();
      if current.Failure? {
        return Fail(current.error);
      }
      var updated := Without(current.value, entry.virtualAgentId) + [entry];
      :- ValidateCatalogEntries(updated);
      entries := Some(updated);
      return Pass;
    }

    method RemoveAgent(id: string) returns (r: Outcome<CatalogError>)
      modifies this
      ensures (entries, ReplyOf(r)) == MemStep(old(entries), config, CatalogOp.RemoveAgent(id))
    {
      var current := ListAgents();
      if current.Failure? {
        return Fail(current.error);
      }
      var updated := Without(current.value, id);
      if |updated| == |current.value| {
        return Fail(AgentNotFound(id));
      }
      :- ValidateCatalogEntries(updated);
      entries := Some(updated);
      return Pass;
    }

    method ReplaceAll(es: seq<Entry>) returns (r: Outcome<CatalogError>)
      modifies this
      ensures (entries, ReplyOf(r)) == MemStep(old(entries), config, CatalogOp.ReplaceAll(es))
    {
      var verdict := ValidateCatalogEntries(es);
      if verdict.Pass? {
        entries := Some(es);
      }
      return verdict;
    }
  }

  /* ---------- In the table ---------- */

  function Deletes(keys: seq<Key>): (r: seq<TableOp>)
    ensures |r| == |keys| && forall i | 0 <= i < |keys| :: r[i] == Delete(keys[i])
  {
    seq(|keys|, i requires 0 <= i < |keys| => Delete(keys[i]))
  }

  function Puts(es: seq<Entry>): (r: seq<TableOp>)
    ensures |r| == |es| && forall i | 0 <= i < |es| :: r[i] == Put(AgentKey(es[i].virtualAgentId), AgentItem(es[i]))
  {
    seq(|es|, i requires 0 <= i < |es| => Put(AgentKey(es[i].virtualAgentId), AgentItem(es[i])))
  }

  /** Every write of one catalog rewrite, in order: drop the old items, put the new, put META. */
  function WritePlan(items: Items, es: seq<Entry>, seeded: bool): seq<TableOp> {
    Deletes(QueryKeys(items, CATALOG_PK, AGENT_PREFIX)) + Puts(es) + [Put(MetaKey(), CatalogMeta(|es|, seeded))]
  }

  function DynList(items: Items): Result<seq<Entry>, CatalogError>
    requires Shaped(items)
  {
    var es := Listing(items);
    if es == [] then Failure(EmptyTable)
    else match Verdict(es)
      case Fail(error) => Failure(error)
      case Pass => Success(es)
  }

  /** The writes of a rewrite, once validation has passed. */
  function DynWrite(items: Items, es: seq<Entry>, seeded: bool): Result<seq<TableOp>, CatalogError> {
    match Verdict(es)
    case Fail(error) => Failure(error)
    case Pass => Success(WritePlan(items, es, seeded))
  }

  /** The writes an operation performs on the table, or what it raises instead of writing. */
  function DynPlan(items: Items, op: CatalogOp): Result<seq<TableOp>, CatalogError>
    requires Shaped(items)
  {
    match op
    case ReplaceAll(entries) => DynWrite(items, entries, false)
    case EnsureSeeded(file) =>
      if MetaKey() in items || file.Failure? then Success([]) else DynWrite(items, file.value, true)
    case _ =>
      match DynList(items)
      case Failure(error) => Failure(error)
      case Success(es) =>
        match op
        case SaveAgent(entry) => DynWrite(items, Without(es, entry.virtualAgentId) + [entry], false)
        case RemoveAgent(id) =>
          if |Without(es, id)| == |es| then Failure(AgentNotFound(id)) else DynWrite(items, Without(es, id), false)
        case _ => Success([])
  }

  function DynStep(items: Items, op: CatalogOp): (Items, Reply)
    requires Shaped(items)
  {
    match DynPlan(items, op)
    case Failure(error) => (items, Raised(error))
    case Success(plan) => (Run(items, plan), if op.ListAgents? then Listed(Listing(items)) else Done)
  }

  /** A call did exactly the planned writes, in order, or raised and wrote nothing. */
  ghost predicate Performed(plan: Result<seq<TableOp>, CatalogError>, before: Items, logBefore: seq<TableOp>,
                            after: Items, logAfter: seq<TableOp>, r: Outcome<CatalogError>)
  {
    match plan
    case Success(ops) => r == Pass && logAfter == logBefore + ops && after == Run(before, ops)
    case Failure(error) => r == Fail(error) && logAfter == logBefore && after == before
  }

  class DynamoDBCatalogRepository {
    const table: Table

    constructor (table: Table)
      ensures this.table == table
    {
      this.table := table;
    }

    method ListFromTable() returns (r: Result<seq<Entry>, CatalogError>)
      requires Shaped(table.items)
      ensures r == DynList(table.items)
    {
      hide Shaped, AgentKey, IsAgentKey, Verdict;
      var keys := table.Query(CATALOG_PK, AGENT_PREFIX);
      var es: seq<Entry> := [];
      for i := 0 to |keys|
        invariant |es| == i && forall j | 0 <= j < i :: es[j] == Listing(table.items)[j]
      {
        assert table.items[keys[i]] == AgentItem(Listing(table.items)[i]);
        es := es + [table.items[keys[i]].entry];
      }
      assert es == Listing(table.items);
      if es == [] {
        return Failure(EmptyTable);
      }
      var verdict := ValidateCatalogEntries(es);
      return match verdict case Fail(error) => Failure(error) case Pass => Success(es);
    }

    method ListAgents() returns (r: Result<seq<Entry>, CatalogError>)
      requires Shaped(table.items)
      ensures r == DynList(table.items)
    {
      r := ListFromTable();
    }

    /** First loop of `_write_entries`: one delete per snapshot key. */
    method DropAgents(keys: seq<Key>)
      modifies table
      ensures table.log == old(table.log) + Deletes(keys)
      ensures table.items == Run(old(table.items), Deletes(keys))
    {
      ghost var ops := Deletes(keys);
      for i := 0 to |keys|
        invariant table.log == old(table.log) + ops[..i]
        invariant table.items == Run(old(table.items), ops[..i])
      {
        RunOneMore(old(table.items), ops, i);
        table.DeleteItem(keys[i]);
        assert ops[..i + 1] == ops[..i] + [ops[i]];
      }
      assert ops[..|keys|] == ops;
    }

    /** Second loop of `_write_entries`: one put per new entry. */
    method PutAgents(es: seq<Entry>)
      modifies table
      ensures table.log == old(table.log) + Puts(es)
      ensures table.items == Run(old(table.items), Puts(es))
    {
      ghost var ops := Puts(es);
      for j := 0 to |es|
        invariant table.log == old(table.log) + ops[..j]
        invariant table.items == Run(old(table.items), ops[..j])
      {
        RunOneMore(old(table.items), ops, j);
        table.PutItem(AgentKey(es[j].virtualAgentId), AgentItem(es[j]));
        assert ops[..j + 1] == ops[..j] + [ops[j]];
      }
      assert ops[..|es|] == ops;
    }

    method WriteEntries(es: seq<Entry>, seeded: bool) returns (r: Outcome<CatalogError>)
      modifies table
      ensures Performed(DynWrite(old(table.items), es, seeded),
                        old(table.items), old(table.log), table.items, table.log, r)
    {
      r := ValidateCatalogEntries(es);
      if r.Fail? {
        return;
      }
      var existing := table.Query(CATALOG_PK, AGENT_PREFIX);
      DropAgents(existing);
      PutAgents(es);
      table.PutItem(MetaKey(), CatalogMeta(|es|, seeded));
      PlanInParts(old(table.items), es, seeded);
      RegroupLog(old(table.log), Deletes(existing), Puts(es), [Put(MetaKey(), CatalogMeta(|es|, seeded))]);
    }

    method EnsureSeeded(file: SeedFile) returns (r: Outcome<CatalogError>)
      requires Shaped(table.items)
      modifies table
      ensures Performed(DynPlan(old(table.items), CatalogOp.EnsureSeeded(file)),
                        old(table.items), old(table.log), table.items, table.log, r)
    {
      var meta := table.GetItem(MetaKey());
      if meta.Some? {
        return Pass;
      }
      if file.Failure? {
        return Pass;
      }
      r := WriteEntries(file.value, true);
    }

    method SaveAgent(entry: Entry) returns (r: Outcome<CatalogError>)
      requires Shaped(table.items)
      modifies table
      ensures Performed(DynPlan(old(table.items), CatalogOp.SaveAgent(entry)),
                        old(table.items), old(table.log), table.items, table.log, r)
    {
      var current := ListFromTable();
      if current.Failure? {
        return Fail(current.error);
      }
      r := WriteEntries(Without(current.value, entry.virtualAgentId) + [entry], false);
    }

    method RemoveAgent(id: string) returns (r: Outcome<CatalogError>)
      requires Shaped(table.items)
      modifies table
      ensures Performed(DynPlan(old(table.items), CatalogOp.RemoveAgent(id)),
                        old(table.items), old(table.log), table.items, table.log, r)
    {
      var current := ListFromTable();
      if current.Failure? {
        return Fail(current.error);
      }
      var updated := Without(current.value, id);
      if |updated| == |current.value| {
        return Fail(AgentNotFound(id));
      }
      r := WriteEntries(updated, false);
    }

    method ReplaceAll(es: seq<Entry>) returns (r: Outcome<CatalogError>)
      modifies table
      ensures Performed(DynWrite(old(table.items), es, false),
                        old(table.items), old(table.log), table.items, table.log, r)
    {
      r := WriteEntries(es, false);
    }
  }

  /* ---------- What the plan leaves in the table ---------- */

  lemma RegroupLog<T>(a: seq<T>, b: seq<T>, c: seq<T>, d: seq<T>)
    ensures a + b + c + d == a + (b + c + d)
  {
  }

  lemma PlanInParts(items: Items, es: seq<Entry>, seeded: bool)
    ensures var drops := Deletes(QueryKeys(items, CATALOG_PK, AGENT_PREFIX));
            Run(items, WritePlan(items, es, seeded)) ==
            Apply(Run(Run(items, drops), Puts(es)), Put(MetaKey(), CatalogMeta(|es|, seeded)))
  {
    var drops := Deletes(QueryKeys(items, CATALOG_PK, AGENT_PREFIX));
    var plan := WritePlan(items, es, seeded);
    assert plan[..|plan| - 1] == drops + Puts(es);
    RunInParts(items, drops, Puts(es));
  }

  lemma {:induction false} EntryItemsAreTheEntries(es: seq<Entry>)
    requires DistinctIds(es)
    ensures forall k :: k in EntryItems(es) ==> IsAgentKey(k)
    ensures forall k | k in EntryItems(es) :: EntryItems(es)[k].AgentItem? && EntryItems(es)[k].entry in es &&
                                              k == AgentKey(EntryItems(es)[k].entry.virtualAgentId)
    ensures forall e | e in es :: AgentKey(e.virtualAgentId) in EntryItems(es) &&
                                  EntryItems(es)[AgentKey(e.virtualAgentId)] == AgentItem(e)
  {
    hide AgentKey, IsAgentKey, EntryItems;
    if es == [] {
      NoEntryItems();
    } else {
      var front, last := es[..|es| - 1], es[|es| - 1];
      EntryItemsOfOneMore(front, last);
      EntryItemsAreTheEntries(front);
      assert es == front + [last];
      assert forall e | e in front :: e.virtualAgentId != last.virtualAgentId;
      KeysTellAgentsApart();
    }
  }

  lemma NoEntryItems()
    ensures EntryItems([]) == map[]
  {
  }

  lemma EntryItemsOfOneMore(es: seq<Entry>, last: Entry)
    ensures EntryItems(es + [last]) == EntryItems(es)[AgentKey(last.virtualAgentId) := AgentItem(last)]
  {
    hide AgentKey;
    assert (es + [last])[..|es|] == es;
  }

  lemma KeysTellAgentsApart()
    ensures forall id :: IsAgentKey(AgentKey(id))
    ensures forall id, other | AgentKey(id) == AgentKey(other) :: id == other
  {
    forall id ensures IsAgentKey(AgentKey(id)) && AgentKey(id).sk[|AGENT_PREFIX|..] == id {
    }
  }

  lemma {:induction false} AfterDeletes(items: Items, keys: seq<Key>, k: nat)
    requires k <= |keys|
    ensures Run(items, Deletes(keys)[..k]) == items - (set i | 0 <= i < k :: keys[i])
  {
    if k == 0 {
    } else {
      AfterDeletes(items, keys, k - 1);
      RunOneMore(items, Deletes(keys), k - 1);
      assert (set i | 0 <= i < k :: keys[i]) == (set i | 0 <= i < k - 1 :: keys[i]) + {keys[k - 1]};
    }
  }

  lemma {:induction false} AfterPuts(items: Items, es: seq<Entry>, j: nat)
    requires j <= |es|
    ensures Run(items, Puts(es)[..j]) == items + EntryItems(es[..j])
  {
    hide AgentKey, Run, EntryItems;
    if j == 0 {
      assert Puts(es)[..0] == [] && es[..0] == [];
      NothingRun(items);
      NoEntryItems();
    } else {
      AfterPuts(items, es, j - 1);
      RunOneMore(items, Puts(es), j - 1);
      OneMoreEntry(es, j);
    }
  }

  lemma OneMoreEntry(es: seq<Entry>, j: nat)
    requires 0 < j <= |es|
    ensures EntryItems(es[..j]) ==
            EntryItems(es[..j - 1])[AgentKey(es[j - 1].virtualAgentId) := AgentItem(es[j - 1])]
  {
    assert es[..j][..j - 1] == es[..j - 1] && es[..j][j - 1] == es[j - 1];
  }

  /** Everything but the agent items. */
  function WithoutAgents(items: Items): Items {
    map k | k in items && !IsAgentKey(k) :: items[k]
  }

  function OldKeys(items: Items): seq<Key> {
    QueryKeys(items, CATALOG_PK, AGENT_PREFIX)
  }

  lemma MetaIsNoAgent()
    ensures !IsAgentKey(MetaKey())
  {
    assert MetaKey().sk[0] == 'M';
  }

  lemma AllDeleted(items: Items)
    ensures items - (set i | 0 <= i < |OldKeys(items)| :: OldKeys(items)[i]) == WithoutAgents(items)
  {
    var keys := OldKeys(items);
    var gone := set i | 0 <= i < |keys| :: keys[i];
    forall x | x in items ensures x in gone <==> IsAgentKey(x) {
      assert x in keys <==> IsAgentKey(x);
      assert x in keys <==> exists i :: 0 <= i < |keys| && keys[i] == x;
    }
  }

  /** A rewrite stopped after k deletes has lost k old agent items and changed nothing else. */
  lemma StoppedInDeletes(items: Items, es: seq<Entry>, seeded: bool, k: nat)
    requires k <= |OldKeys(items)|
    ensures Run(items, WritePlan(items, es, seeded)[..k]) ==
            items - (set i | 0 <= i < k :: OldKeys(items)[i])
  {
    assert WritePlan(items, es, seeded)[..k] == Deletes(OldKeys(items))[..k];
    AfterDeletes(items, OldKeys(items), k);
  }

  /** A rewrite stopped after j puts holds the first j new entries and no old one. */
  lemma StoppedInPuts(items: Items, es: seq<Entry>, seeded: bool, j: nat)
    requires j <= |es|
    ensures Run(items, WritePlan(items, es, seeded)[..|OldKeys(items)| + j]) ==
            WithoutAgents(items) + EntryItems(es[..j])
  {
    var keys := OldKeys(items);
    assert WritePlan(items, es, seeded)[..|keys| + j] == Deletes(keys)[..|keys|] + Puts(es)[..j];
    RunInParts(items, Deletes(keys)[..|keys|], Puts(es)[..j]);
    AfterDeletes(items, keys, |keys|);
    AllDeleted(items);
    AfterPuts(WithoutAgents(items), es, j);
  }

  /** A finished rewrite holds exactly the new entries, and META counts them. */
  lemma FinishedRewrite(items: Items, es: seq<Entry>, seeded: bool)
    ensures Run(items, WritePlan(items, es, seeded)) ==
            (WithoutAgents(items) + EntryItems(es))[MetaKey() := CatalogMeta(|es|, seeded)]
  {
    PlanInParts(items, es, seeded);
    AfterDeletes(items, OldKeys(items), |OldKeys(items)|);
    AllDeleted(items);
    AfterPuts(WithoutAgents(items), es, |es|);
    assert es[..|es|] == es && Puts(es)[..|es|] == Puts(es);
    assert Deletes(OldKeys(items))[..|OldKeys(items)|] == Deletes(OldKeys(items));
  }
}
