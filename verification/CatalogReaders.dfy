/** What readers can see while any number of tasks seed the catalog at once. */
module CatalogReaders {
  import opened Results
  import opened Catalog
  import opened Store
  import opened CatalogRepository
  import opened CatalogSeeding
  import CatalogCrash

  /**
   No task has put an agent yet: the agent items are leftovers, and every writing task still has
   all of them to delete.
   */
  ghost predicate LeftoversOnly(s: System, first: Items, file: seq<Entry>) {
    && (forall k | k in CatalogPart(s.items) :: k in first && first[k] == s.items[k])
    && forall t | 0 <= t < |s.tasks| && s.tasks[t].Writing? :: StillInDeletes(s.items, s.tasks[t], file)
  }

  ghost predicate StillInDeletes(items: Items, task: Task, file: seq<Entry>)
    requires task.Writing?
  {
    task.k <= Drops(task.plan, file) && forall key | key in CatalogPart(items) :: WillDrop(task, file, key)
  }

  /** Every agent item is one of the file's. */
  ghost predicate FileOnly(items: Items, file: seq<Entry>) {
    forall k | k in CatalogPart(items) :: k in EntryItems(file) && EntryItems(file)[k] == items[k]
  }

  ghost predicate ReadersInv(s: System, first: Items, file: seq<Entry>) {
    LeftoversOnly(s, first, file) || FileOnly(s.items, file)
  }

  /** A move that writes nothing leaves the agent items alone and at most takes a snapshot of them. */
  lemma QuietMove(s: System, s': System, first: Items, file: seq<Entry>, move: Move)
    requires PlansInv(s, file) && Next(s, s', file, move) && WriteOf(s, move) == None
    requires ReadersInv(s, first, file)
    ensures ReadersInv(s', first, file)
  {
    hide EntryItems, IsAgentKey;
    assert CatalogPart(s'.items) == CatalogPart(s.items);
    assert forall k | k in CatalogPart(s.items) :: s.items[k] == CatalogPart(s'.items)[k] == s'.items[k];
    if move.Advance? && s.tasks[move.t].Snapshotting? {
      SnapshotHasAllToDelete(s.items, file);
    }
    if LeftoversOnly(s, first, file) {
      forall t | 0 <= t < |s'.tasks| && s'.tasks[t].Writing? ensures StillInDeletes(s'.items, s'.tasks[t], file) {
        assert s.tasks[t].Writing? ==> StillInDeletes(s.items, s.tasks[t], file);
      }
    }
  }

  lemma SnapshotHasAllToDelete(items: Items, file: seq<Entry>)
    ensures StillInDeletes(items, Writing(WritePlan(items, file, true), 0), file)
  {
    var (plan, keys) := (WritePlan(items, file, true), OldKeys(items));
    PlanHasShape(items, file);
    forall key | key in CatalogPart(items) ensures WillDrop(Writing(plan, 0), file, key) {
      assert key in keys;
      var i :| 0 <= i < |keys| && keys[i] == key;
      assert plan[i] == Deletes(keys)[i];
    }
  }

  lemma DeleteMove(s: System, s': System, first: Items, file: seq<Entry>, t: nat)
    requires PlansInv(s, file) && Next(s, s', file, Advance(t))
    requires WriteOf(s, Advance(t)).Some? && WriteOf(s, Advance(t)).value.Delete?
    requires ReadersInv(s, first, file)
    ensures ReadersInv(s', first, file)
  {
    hide EntryItems, IsAgentKey;
    var (plan, k) := (s.tasks[t].plan, s.tasks[t].k);
    WriteInPlan(plan, file, k);
    assert forall key :: key in CatalogPart(s'.items) <==> key in CatalogPart(s.items) && key != plan[k].key;
    if LeftoversOnly(s, first, file) {
      forall u | 0 <= u < |s'.tasks| && s'.tasks[u].Writing? ensures StillInDeletes(s'.items, s'.tasks[u], file) {
        assert StillInDeletes(s.items, s.tasks[u], file);
        if u == t {
          MoverStillInDeletes(s.items, s'.items, plan, k, file);
        } else {
          hide Drops, PlanShape, WillDrop;
        }
      }
    }
  }

  lemma MoverStillInDeletes(items: Items, items': Items, plan: seq<TableOp>, k: nat, file: seq<Entry>)
    requires k < |plan| && k < Drops(plan, file) && plan[k].Delete?
    requires StillInDeletes(items, Writing(plan, k), file)
    requires forall key | key in CatalogPart(items') :: key in CatalogPart(items) && key != plan[k].key
    ensures StillInDeletes(items', Writing(plan, k + 1), file)
  {
    hide CatalogPart, PlanShape;
    forall key | key in CatalogPart(items') ensures WillDrop(Writing(plan, k + 1), file, key) {
      assert WillDrop(Writing(plan, k), file, key);
    }
  }

  /** The first task to put an agent has deleted every leftover before. */
  lemma PutMove(s: System, s': System, first: Items, file: seq<Entry>, t: nat)
    requires ValidCatalog(file) && PlansInv(s, file) && Next(s, s', file, Advance(t))
    requires WriteOf(s, Advance(t)).Some? && WriteOf(s, Advance(t)).value.Put?
    requires ReadersInv(s, first, file)
    ensures FileOnly(s'.items, file)
  {
    hide EntryItems, WellNamed, TwoDefaults, KeyOf, AgentKey;
    var (plan, k) := (s.tasks[t].plan, s.tasks[t].k);
    WriteInPlan(plan, file, k);
    EntryItemsAreTheEntries(file);
    var op := plan[k];
    if LeftoversOnly(s, first, file) {
      assert StillInDeletes(s.items, s.tasks[t], file);
      forall key ensures key !in CatalogPart(s.items) {
        assert !WillDrop(s.tasks[t], file, key);
      }
    }
    assert FileOnly(s.items, file);
    StoresTheFile(file, op, k - Drops(plan, file));
  }

  lemma StoresTheFile(file: seq<Entry>, op: TableOp, j: int)
    requires DistinctIds(file) && op.Put?
    requires 0 <= j <= |file|
    requires j < |file| ==> op == Put(KeyOf(file[j]), AgentItem(file[j]))
    requires j == |file| ==> op.key == MetaKey()
    ensures IsAgentKey(op.key) ==> op.key in EntryItems(file) && EntryItems(file)[op.key] == op.item
  {
    hide EntryItems, AgentKey, MetaKey, IsAgentKey, DistinctIds;
    EntryItemsAreTheEntries(file);
    if j < |file| {
      assert file[j] in file;
    } else {
      MetaIsNoAgent();
    }
  }

  lemma MoveKeepsReaders(s: System, s': System, first: Items, file: seq<Entry>, move: Move)
    requires ValidCatalog(file) && PlansInv(s, file) && Next(s, s', file, move)
    requires ReadersInv(s, first, file)
    ensures ReadersInv(s', first, file)
  {
    hide PlansInv, Next, LeftoversOnly, FileOnly, ValidCatalog;
    match WriteOf(s, move)
    case None => QuietMove(s, s', first, file, move);
    case Some(Delete(_)) => DeleteMove(s, s', first, file, move.t);
    case Some(Put(_, _)) => PutMove(s, s', first, file, move.t);
  }

  lemma {:induction false} ReadersInvThroughout(states: seq<System>, moves: seq<Move>, file: seq<Entry>, n: nat)
    requires ValidCatalog(file)
    requires Behaviour(states, moves, file) && Start(states[0]) && n < |states|
    ensures ReadersInv(states[n], states[0].items, file)
  {
    hide ValidCatalog, FileOnly, ReadersInv;
    if n == 0 {
      NothingWrittenYet(states[0], file);
    } else {
      ReadersInvThroughout(states, moves, file, n - 1);
      ReadyForMove(states, moves, file, n - 1);
      MoveKeepsReaders(states[n - 1], states[n], states[0].items, file, moves[n - 1]);
    }
  }

  lemma NothingWrittenYet(s: System, file: seq<Entry>)
    requires Start(s)
    ensures ReadersInv(s, s.items, file)
  {
    assert forall t | 0 <= t < |s.tasks| :: s.tasks[t] in s.tasks;
  }

  lemma ReadyForMove(states: seq<System>, moves: seq<Move>, file: seq<Entry>, n: nat)
    requires ValidCatalog(file)
    requires Behaviour(states, moves, file) && Start(states[0]) && n < |moves|
    ensures PlansInv(states[n], file) && Next(states[n], states[n + 1], file, moves[n])
  {
    InvHoldsThroughout(states, moves, file, n);
  }

  /**
   While any number of tasks seed over the leftovers of one catalog, in any interleaving and with any
   crashes, a listing at any instant raises exactly when no agent item exists, and otherwise returns
   a valid catalog.
   */
  lemma ReadersSeeAValidCatalogOrNone(states: seq<System>, moves: seq<Move>, file: seq<Entry>, n: nat)
    requires ValidCatalog(file) && Behaviour(states, moves, file) && n < |states|
    requires Start(states[0]) && CatalogCrash.Coherent(states[0].items)
    ensures var now := states[n].items;
            && CatalogCrash.Coherent(now) && Shaped(now)
            && (CatalogPart(now) == map[] ==> DynList(now) == Failure(EmptyTable))
            && (CatalogPart(now) != map[] ==> DynList(now) == Success(Listing(now)) && ValidCatalog(Listing(now)))
  {
    hide ValidCatalog, DynList, Listing, Shaped, EntryItems;
    ReadersInvThroughout(states, moves, file, n);
    var now := states[n].items;
    if FileOnly(now, file) {
      assert CatalogCrash.DrawnFrom(now, file);
    } else {
      LeftoversAreCoherent(states[0].items, now);
    }
    CatalogCrash.CoherentIsShaped(now);
    CatalogCrash.CoherentListing(now);
  }

  lemma LeftoversAreCoherent(first: Items, now: Items)
    requires CatalogCrash.Coherent(first)
    requires forall k | k in CatalogPart(now) :: k in first && first[k] == now[k]
    ensures CatalogCrash.Coherent(now)
  {
    hide EntryItems, ValidCatalog;
    assert forall k | k in CatalogPart(now) :: k in CatalogPart(first);
    if CatalogPart(first) != map[] {
      var es :| CatalogCrash.DrawnFrom(first, es);
      assert CatalogCrash.DrawnFrom(now, es);
    } else {
      assert forall k :: k !in CatalogPart(first);
    }
  }
}
