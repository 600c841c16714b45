/**
 Several service tasks start at once and all run `ensure_seeded` with the same file; their table
 operations interleave in any way, together with anything the other repositories do.
 */
module CatalogSeeding {
  import opened Results
  import Text
  import opened Catalog
  import opened Store
  import opened CatalogRepository

  /** Where a task stands: about to read META, to query, to do write k of its plan, or over. */
  datatype Task = Checking | Snapshotting | Writing(plan: seq<TableOp>, k: nat) | Finished | Crashed

  datatype System = System(items: Items, tasks: seq<Task>)

  datatype Move = Advance(t: nat) | Crash(t: nat) | Elsewhere

  /** The next table operation of one task. */
  function Step(items: Items, task: Task, file: seq<Entry>): (Items, Task) {
    match task
    case Checking => (items, if MetaKey() in items then Finished else Snapshotting)
    case Snapshotting => (items, Writing(WritePlan(items, file, true), 0))
    case Writing(plan, k) =>
      if k < |plan| then
        (Apply(items, plan[k]), if k + 1 < |plan| then Writing(plan, k + 1) else Finished)
      else (items, task)
    case _ => (items, task)
  }

  /** A task writes what a lone call of `EnsureSeeded` would write at its snapshot. */
  lemma TasksFollowTheRepository(items: Items, file: seq<Entry>)
    requires ValidCatalog(file) && Shaped(items)
    ensures var checked := Step(items, Checking, file).1;
            var planned := Step(items, checked, file).1;
            DynPlan(items, EnsureSeeded(Success(file))) == Success(if checked == Finished then [] else planned.plan)
  {
    VerdictIsValidity(file);
  }

  /** One move of the system: a task's operation, a task's crash, or a write outside the catalog. */
  ghost predicate Next(s: System, s': System, file: seq<Entry>, move: Move) {
    match move
    case Advance(t) =>
      t < |s.tasks| &&
      var (items, task) := Step(s.items, s.tasks[t], file);
      s' == System(items, s.tasks[t := task])
    case Crash(t) => t < |s.tasks| && s.tasks[t] != Finished && s' == s.(tasks := s.tasks[t := Crashed])
    case Elsewhere =>
      && s'.tasks == s.tasks
      && CatalogPart(s'.items) == CatalogPart(s.items)
      && Lookup(s'.items, MetaKey()) == Lookup(s.items, MetaKey())
  }

  ghost predicate Behaviour(states: seq<System>, moves: seq<Move>, file: seq<Entry>) {
    && |states| == |moves| + 1
    && forall i | 0 <= i < |moves| :: Next(states[i], states[i + 1], file, moves[i])
  }

  /** No META yet, and every task still before its first operation; any agent items. */
  ghost predicate Start(s: System) {
    MetaKey() !in s.items && forall task | task in s.tasks :: task == Checking
  }

  /* ---------- What a task still has to do ---------- */

  /** How many deletes the plan begins with. */
  function Drops(plan: seq<TableOp>, file: seq<Entry>): int {
    |plan| - |file| - 1
  }

  ghost predicate PlanShape(plan: seq<TableOp>, file: seq<Entry>) {
    var d := Drops(plan, file);
    && d >= 0
    && (forall i | 0 <= i < d :: plan[i].Delete? && IsAgentKey(plan[i].key))
    && (forall j | 0 <= j < |file| :: plan[d + j] == Puts(file)[j])
    && plan[d + |file|] == Put(MetaKey(), CatalogMeta(|file|, true))
  }

  /** The task has deleted the agent's key and has yet to put it back. */
  ghost predicate Owes(task: Task, file: seq<Entry>, j: nat)
    requires j < |file|
  {
    && task.Writing?
    && task.k <= Drops(task.plan, file) + j
    && exists i :: 0 <= i < task.k && i < |task.plan| && task.plan[i] == Delete(AgentKey(file[j].virtualAgentId))
  }

  ghost predicate OwesNothing(task: Task, file: seq<Entry>) {
    forall j | 0 <= j < |file| :: !Owes(task, file, j)
  }

  ghost predicate HasPut(task: Task, file: seq<Entry>, j: nat) {
    task.Writing? && task.k > Drops(task.plan, file) + j
  }

  ghost predicate Stored(items: Items, entry: Entry) {
    Lookup(items, AgentKey(entry.virtualAgentId)) == Some(AgentItem(entry))
  }

  ghost predicate Stale(items: Items, file: seq<Entry>, key: Key) {
    key in items && IsAgentKey(key) && key !in EntryItems(file)
  }

  ghost predicate WillDrop(task: Task, file: seq<Entry>, key: Key)
    requires task.Writing?
  {
    exists i :: task.k <= i < Drops(task.plan, file) && i < |task.plan| && task.plan[i] == Delete(key)
  }

  /* ---------- The invariant ---------- */

  ghost predicate PlansInv(s: System, file: seq<Entry>) {
    forall t | 0 <= t < |s.tasks| && s.tasks[t].Writing? ::
      PlanShape(s.tasks[t].plan, file) && s.tasks[t].k < |s.tasks[t].plan|
  }

  /** Every writing task still has each stale key ahead of it. */
  ghost predicate StaleInv(s: System, file: seq<Entry>) {
    forall t, key | 0 <= t < |s.tasks| && s.tasks[t].Writing? && Stale(s.items, file, key) ::
      WillDrop(s.tasks[t], file, key)
  }

  ghost predicate MetaInv(s: System, file: seq<Entry>) {
    && (MetaKey() in s.items ==>
          s.items[MetaKey()] == CatalogMeta(|file|, true) && forall key :: !Stale(s.items, file, key))
    && (Finished in s.tasks ==> MetaKey() in s.items)
  }

  ghost predicate Inv(s: System, file: seq<Entry>) {
    PlansInv(s, file) && StaleInv(s, file) && MetaInv(s, file)
  }

  lemma PlanHasShape(items: Items, file: seq<Entry>)
    ensures PlanShape(WritePlan(items, file, true), file)
    ensures Drops(WritePlan(items, file, true), file) == |OldKeys(items)|
  {
    hide QueryKeys, IsAgentKey, PlanShape, Drops;
    OldKeysAreAgentKeys(items);
    ShapeFromParts(OldKeys(items), file);
  }

  lemma ShapeFromParts(keys: seq<Key>, file: seq<Entry>)
    requires forall i | 0 <= i < |keys| :: IsAgentKey(keys[i])
    ensures var plan := Deletes(keys) + Puts(file) + [Put(MetaKey(), CatalogMeta(|file|, true))];
            PlanShape(plan, file) && Drops(plan, file) == |keys|
  {
    hide AgentKey, MetaKey, IsAgentKey, Deletes, Puts;
    var (drops, puts) := (Deletes(keys), Puts(file));
    var plan := drops + puts + [Put(MetaKey(), CatalogMeta(|file|, true))];
    assert |plan| == |keys| + |file| + 1;
    forall i | 0 <= i < |keys| ensures plan[i].Delete? && IsAgentKey(plan[i].key) {
      assert plan[i] == drops[i] == Delete(keys[i]);
    }
    forall j | 0 <= j < |file| ensures plan[|keys| + j] == Puts(file)[j] {
    }
  }

  lemma OldKeysAreAgentKeys(items: Items)
    ensures forall i | 0 <= i < |OldKeys(items)| :: IsAgentKey(OldKeys(items)[i])
  {
    assert forall i | 0 <= i < |OldKeys(items)| :: OldKeys(items)[i] in OldKeys(items);
  }

  lemma SnapshotStep(s: System, s': System, file: seq<Entry>, t: nat)
    requires Inv(s, file) && t < |s.tasks| && s.tasks[t] == Snapshotting && Next(s, s', file, Advance(t))
    ensures Inv(s', file)
  {
    hide EntryItems, QueryKeys;
    PlanHasShape(s.items, file);
    var mine := s'.tasks[t];
    forall key | Stale(s.items, file, key) ensures WillDrop(mine, file, key) {
      assert key in OldKeys(s.items);
      var i :| 0 <= i < |OldKeys(s.items)| && OldKeys(s.items)[i] == key;
      assert mine.plan[i] == Deletes(OldKeys(s.items))[i];
    }
  }

  lemma DropStep(s: System, s': System, file: seq<Entry>, t: nat)
    requires Inv(s, file) && t < |s.tasks| && s.tasks[t].Writing? && Next(s, s', file, Advance(t))
    requires s.tasks[t].k < Drops(s.tasks[t].plan, file)
    ensures Inv(s', file)
  {
    hide EntryItems;
    var (plan, k) := (s.tasks[t].plan, s.tasks[t].k);
    assert plan[k].Delete? && s'.tasks[t] == Writing(plan, k + 1);
    forall u, key | 0 <= u < |s'.tasks| && s'.tasks[u].Writing? && Stale(s'.items, file, key)
      ensures WillDrop(s'.tasks[u], file, key)
    {
      assert Stale(s.items, file, key) && WillDrop(s.tasks[u], file, key);
    }
    assert forall key | Stale(s'.items, file, key) :: Stale(s.items, file, key);
  }

  lemma PutStep(s: System, s': System, file: seq<Entry>, t: nat)
    requires DistinctIds(file)
    requires Inv(s, file) && t < |s.tasks| && s.tasks[t].Writing? && Next(s, s', file, Advance(t))
    requires 0 <= s.tasks[t].k - Drops(s.tasks[t].plan, file) < |file|
    ensures Inv(s', file)
  {
    hide EntryItems, Stale, WillDrop, AgentKey;
    var j := s.tasks[t].k - Drops(s.tasks[t].plan, file);
    PutStepEffect(s, s', file, t);
    StaleAfterPut(s, s', file, file[j]);
  }

  lemma PutStepEffect(s: System, s': System, file: seq<Entry>, t: nat)
    requires PlansInv(s, file) && t < |s.tasks| && s.tasks[t].Writing? && Next(s, s', file, Advance(t))
    requires 0 <= s.tasks[t].k - Drops(s.tasks[t].plan, file) < |file|
    ensures var e := file[s.tasks[t].k - Drops(s.tasks[t].plan, file)];
            s'.items == s.items[AgentKey(e.virtualAgentId) := AgentItem(e)]
    ensures s'.tasks == s.tasks[t := Writing(s.tasks[t].plan, s.tasks[t].k + 1)]
  {
    var (plan, k) := (s.tasks[t].plan, s.tasks[t].k);
    assert plan[k] == Puts(file)[k - Drops(plan, file)];
  }

  lemma StaleAfterPut(s: System, s': System, file: seq<Entry>, entry: Entry)
    requires DistinctIds(file) && entry in file && StaleInv(s, file) && |s'.tasks| == |s.tasks|
    requires s'.items == s.items[AgentKey(entry.virtualAgentId) := AgentItem(entry)]
    requires forall u | 0 <= u < |s.tasks| ::
               s'.tasks[u] == s.tasks[u] ||
               (s.tasks[u].Writing? && s'.tasks[u] == Writing(s.tasks[u].plan, s.tasks[u].k + 1) &&
                s.tasks[u].k >= Drops(s.tasks[u].plan, file))
    ensures StaleInv(s', file)
    ensures forall key | Stale(s'.items, file, key) :: Stale(s.items, file, key)
  {
    EntryItemsAreTheEntries(file);
    forall key | Stale(s'.items, file, key) ensures Stale(s.items, file, key) {
      assert key != AgentKey(entry.virtualAgentId);
    }
    forall u, key | 0 <= u < |s'.tasks| && s'.tasks[u].Writing? && Stale(s'.items, file, key)
      ensures WillDrop(s'.tasks[u], file, key)
    {
      assert WillDrop(s.tasks[u], file, key);
    }
  }

  lemma MetaStep(s: System, s': System, file: seq<Entry>, t: nat)
    requires Inv(s, file) && t < |s.tasks| && s.tasks[t].Writing? && Next(s, s', file, Advance(t))
    requires s.tasks[t].k == Drops(s.tasks[t].plan, file) + |file|
    ensures Inv(s', file)
  {
    hide EntryItems;
    assert s'.items == s.items[MetaKey() := CatalogMeta(|file|, true)] && s'.tasks[t] == Finished;
    forall key ensures !Stale(s.items, file, key) {
      assert Stale(s.items, file, key) ==> WillDrop(s.tasks[t], file, key);
    }
    assert forall key :: Stale(s'.items, file, key) ==> Stale(s.items, file, key);
  }

  lemma QuietStep(s: System, s': System, file: seq<Entry>, move: Move)
    requires Inv(s, file) && Next(s, s', file, move)
    requires match move
             case Advance(t) => s.tasks[t].Checking? || s.tasks[t].Finished? || s.tasks[t].Crashed?
             case _ => true
    ensures Inv(s', file)
  {
    hide EntryItems;
    assert forall key | IsAgentKey(key) :: Lookup(s'.items, key) == Lookup(s.items, key) by {
      assert forall key | IsAgentKey(key) && key in s'.items :: key in CatalogPart(s'.items);
      assert forall key | IsAgentKey(key) && key in s.items :: key in CatalogPart(s.items);
      assert move.Elsewhere? ==> forall key | key in CatalogPart(s.items) :: s.items[key] == CatalogPart(s'.items)[key];
    }
    assert forall key :: Stale(s'.items, file, key) <==> Stale(s.items, file, key) by {
      assert forall key | IsAgentKey(key) :: key in s.items <==> Lookup(s.items, key).Some?;
      assert forall key | IsAgentKey(key) :: key in s'.items <==> Lookup(s'.items, key).Some?;
    }
    assert MetaKey() in s'.items <==> MetaKey() in s.items by {
      assert Lookup(s'.items, MetaKey()) == Lookup(s.items, MetaKey());
    }
    if move.Elsewhere? {
      assert StaleInv(s', file);
    }
  }

  lemma EveryMoveKeepsInv(s: System, s': System, file: seq<Entry>, move: Move)
    requires DistinctIds(file)
    requires Inv(s, file) && Next(s, s', file, move)
    ensures Inv(s', file)
  {
    hide EntryItems;
    match move
    case Advance(t) =>
      if s.tasks[t].Snapshotting? {
        SnapshotStep(s, s', file, t);
      } else if s.tasks[t].Writing? {
        var (plan, k) := (s.tasks[t].plan, s.tasks[t].k);
        if k < Drops(plan, file) {
          DropStep(s, s', file, t);
        } else if k < Drops(plan, file) + |file| {
          PutStep(s, s', file, t);
        } else {
          MetaStep(s, s', file, t);
        }
      } else {
        QuietStep(s, s', file, move);
      }
    case _ => QuietStep(s, s', file, move);
  }

  lemma {:induction false} InvHoldsThroughout(states: seq<System>, moves: seq<Move>, file: seq<Entry>, n: nat)
    requires DistinctIds(file)
    requires Behaviour(states, moves, file) && Start(states[0]) && n < |states|
    ensures Inv(states[n], file)
  {
    if n == 0 {
      var s := states[0];
      assert forall t | 0 <= t < |s.tasks| :: s.tasks[t] in s.tasks && s.tasks[t] == Checking;
    } else {
      InvHoldsThroughout(states, moves, file, n - 1);
      EveryMoveKeepsInv(states[n - 1], states[n], file, moves[n - 1]);
    }
  }

  /* ---------- Deletes that nobody makes good ---------- */

  /** The write that a move makes, if it makes one. */
  ghost function WriteOf(s: System, move: Move): Option<TableOp> {
    if !move.Advance? || move.t >= |s.tasks| then None
    else match s.tasks[move.t]
      case Writing(plan, k) => if k < |plan| then Some(plan[k]) else None
      case _ => None
  }

  ghost predicate Removes(states: seq<System>, moves: seq<Move>, i: nat, key: Key) {
    i < |moves| && i < |states| && WriteOf(states[i], moves[i]) == Some(Delete(key))
  }

  ghost predicate Restores(states: seq<System>, moves: seq<Move>, i: nat, key: Key) {
    && i < |moves| && i < |states|
    && match WriteOf(states[i], moves[i])
       case Some(Put(k, _)) => k == key
       case _ => false
  }

  /** Move i deletes the key, and no later one of the first n moves puts it back. */
  ghost predicate Lost(states: seq<System>, moves: seq<Move>, i: nat, n: nat, key: Key) {
    i < n && Removes(states, moves, i, key) && forall c | i < c < n :: !Restores(states, moves, c, key)
  }

  ghost predicate AnyLost(states: seq<System>, moves: seq<Move>, n: nat, key: Key) {
    exists i: nat :: Lost(states, moves, i, n, key)
  }

  ghost predicate AnyRestored(states: seq<System>, moves: seq<Move>, n: nat, key: Key) {
    exists c: nat :: c < n && Restores(states, moves, c, key)
  }

  /** Between moves i and n the task of move i crashed while it owed agent j. */
  ghost predicate CrashedOwing(states: seq<System>, moves: seq<Move>, file: seq<Entry>, i: nat, n: nat, j: nat)
    requires i < |moves| && moves[i].Advance? && j < |file|
  {
    exists c: nat :: i < c < n && OwingCrash(states, moves, file, c, moves[i].t, j)
  }

  ghost predicate OwingCrash(states: seq<System>, moves: seq<Move>, file: seq<Entry>, c: nat, t: nat, j: nat)
    requires j < |file|
  {
    && c < |moves| && c < |states|
    && moves[c] == Crash(t) && t < |states[c].tasks| && Owes(states[c].tasks[t], file, j)
  }

  ghost function KeyOf(entry: Entry): Key {
    AgentKey(entry.virtualAgentId)
  }

  ghost predicate PutBefore(s: System, file: seq<Entry>, j: nat) {
    MetaKey() in s.items || exists t :: 0 <= t < |s.tasks| && HasPut(s.tasks[t], file, j)
  }

  /**
   What the first n moves have made of agent j: a lost key is absent; a key that was put and not lost
   is stored; once META or a task says it was put, it was; and whoever lost it owes it still,
   or crashed owing it.
   */
  ghost predicate AgentInv(states: seq<System>, moves: seq<Move>, file: seq<Entry>, n: nat, j: nat)
    requires n < |states| && j < |file|
  {
    var key := KeyOf(file[j]);
    && (AnyLost(states, moves, n, key) ==> key !in states[n].items)
    && (AnyRestored(states, moves, n, key) && !AnyLost(states, moves, n, key) ==> Stored(states[n].items, file[j]))
    && (PutBefore(states[n], file, j) ==> AnyRestored(states, moves, n, key))
    && forall i: nat | Lost(states, moves, i, n, key) ::
         && moves[i].t < |states[n].tasks|
         && (Owes(states[n].tasks[moves[i].t], file, j) || CrashedOwing(states, moves, file, i, n, j))
  }

  lemma OneMoreMove(states: seq<System>, moves: seq<Move>, n: nat, key: Key)
    requires n < |moves| && n < |states|
    ensures AnyRestored(states, moves, n + 1, key) <==>
            AnyRestored(states, moves, n, key) || Restores(states, moves, n, key)
    ensures Restores(states, moves, n, key) ==> !AnyLost(states, moves, n + 1, key)
    ensures !Restores(states, moves, n, key) ==>
              (AnyLost(states, moves, n + 1, key) <==> AnyLost(states, moves, n, key) || Removes(states, moves, n, key))
    ensures forall i: nat | Lost(states, moves, i, n + 1, key) ::
              (i < n && Lost(states, moves, i, n, key)) || (i == n && Removes(states, moves, n, key))
  {
    hide WriteOf;
    if AnyRestored(states, moves, n, key) {
      var c: nat :| c < n && Restores(states, moves, c, key);
      assert c < n + 1;
    }
    forall i: nat | Lost(states, moves, i, n + 1, key)
      ensures (i < n && Lost(states, moves, i, n, key)) || (i == n && Removes(states, moves, n, key))
      ensures !Restores(states, moves, n, key)
    {
      assert i == n ==> !Restores(states, moves, n, key);
    }
    if AnyLost(states, moves, n, key) && !Restores(states, moves, n, key) {
      var i: nat :| Lost(states, moves, i, n, key);
      assert Lost(states, moves, i, n + 1, key);
    }
    if Removes(states, moves, n, key) {
      assert Lost(states, moves, n, n + 1, key);
    }
    if AnyLost(states, moves, n + 1, key) {
      var i: nat :| Lost(states, moves, i, n + 1, key);
      assert i < n ==> Lost(states, moves, i, n, key);
    }
  }

  /** What one move does to agent j. */
  lemma EffectOnAgent(s: System, s': System, file: seq<Entry>, move: Move, j: nat)
    requires DistinctIds(file) && PlansInv(s, file) && Next(s, s', file, move) && j < |file|
    ensures var (key, write) := (KeyOf(file[j]), WriteOf(s, move));
            && (write == Some(Delete(key)) ==>
                  key !in s'.items && move.t < |s'.tasks| && Owes(s'.tasks[move.t], file, j))
            && (write.Some? && write.value.Put? && write.value.key == key ==> Stored(s'.items, file[j]))
            && (!(write.Some? && write.value.key == key) ==> Lookup(s'.items, key) == Lookup(s.items, key))
  {
    var key := KeyOf(file[j]);
    match WriteOf(s, move)
    case Some(write) =>
      var (plan, k) := (s.tasks[move.t].plan, s.tasks[move.t].k);
      WriteInPlan(plan, file, k);
      hide AgentKey, MetaKey, IsAgentKey;
      if write == Delete(key) {
        assert s'.tasks[move.t] == Writing(plan, k + 1) && plan[k] == Delete(key);
      }
      SameKeySameAgent(file, j);
    case None =>
      assert key in s.items <==> key in CatalogPart(s.items);
      assert key in s'.items <==> key in CatalogPart(s'.items);
  }

  lemma WriteInPlan(plan: seq<TableOp>, file: seq<Entry>, k: nat)
    requires PlanShape(plan, file) && k < |plan|
    ensures plan[k].Delete? <==> k < Drops(plan, file)
    ensures 0 <= k - Drops(plan, file) < |file| ==>
              var e := file[k - Drops(plan, file)]; plan[k] == Put(KeyOf(e), AgentItem(e))
    ensures k == Drops(plan, file) + |file| ==> plan[k].Put? && plan[k].key == MetaKey()
  {
    var d := Drops(plan, file);
    assert 0 <= k - d < |file| ==> plan[d + (k - d)] == Puts(file)[k - d];
  }

  lemma SameKeySameAgent(file: seq<Entry>, j: nat)
    requires DistinctIds(file) && j < |file|
    ensures KeyOf(file[j]) != MetaKey()
    ensures forall i | 0 <= i < |file| && i != j :: KeyOf(file[i]) != KeyOf(file[j])
  {
  }

  ghost predicate PutsBack(s: System, move: Move, key: Key) {
    match WriteOf(s, move)
    case Some(Put(k, _)) => k == key
    case _ => false
  }

  /** What one move does to what the tasks have put and still owe of agent j. */
  lemma EffectOnDebts(s: System, s': System, file: seq<Entry>, move: Move, j: nat)
    requires DistinctIds(file) && PlansInv(s, file) && Next(s, s', file, move) && j < |file|
    ensures |s'.tasks| == |s.tasks|
    ensures PutBefore(s', file, j) ==> PutBefore(s, file, j) || PutsBack(s, move, KeyOf(file[j]))
    ensures forall t | 0 <= t < |s.tasks| && Owes(s.tasks[t], file, j) ::
              Owes(s'.tasks[t], file, j) || move == Crash(t) || PutsBack(s, move, KeyOf(file[j]))
  {
    SameKeySameAgent(file, j);
    if move.Advance? && s.tasks[move.t].Writing? {
      var (plan, k) := (s.tasks[move.t].plan, s.tasks[move.t].k);
      WriteInPlan(plan, file, k);
      hide AgentKey, MetaKey, IsAgentKey, KeyOf;
      PutBeforeWrite(s, s', file, move.t, j);
    } else {
      hide AgentKey, MetaKey, IsAgentKey, KeyOf;
      assert MetaKey() in s'.items <==> MetaKey() in s.items by {
        assert Lookup(s'.items, MetaKey()) == Lookup(s.items, MetaKey());
      }
      assert forall t | 0 <= t < |s.tasks| :: HasPut(s'.tasks[t], file, j) ==> HasPut(s.tasks[t], file, j);
    }
  }

  lemma PutBeforeWrite(s: System, s': System, file: seq<Entry>, t: nat, j: nat)
    requires PlansInv(s, file) && Next(s, s', file, Advance(t)) && j < |file|
    requires t < |s.tasks| && s.tasks[t].Writing?
    ensures PutBefore(s', file, j) ==> PutBefore(s, file, j) || PutsBack(s, Advance(t), KeyOf(file[j]))
  {
    var (plan, k) := (s.tasks[t].plan, s.tasks[t].k);
    WriteInPlan(plan, file, k);
    hide AgentKey, MetaKey, IsAgentKey, KeyOf;
    assert forall u | 0 <= u < |s.tasks| && u != t :: s'.tasks[u] == s.tasks[u];
    if k == Drops(plan, file) + |file| {
      assert HasPut(s.tasks[t], file, j);
    } else if HasPut(s'.tasks[t], file, j) && !HasPut(s.tasks[t], file, j) {
      assert k == Drops(plan, file) + j;
    }
  }

  lemma AgentStep(states: seq<System>, moves: seq<Move>, file: seq<Entry>, n: nat, j: nat)
    requires DistinctIds(file) && Behaviour(states, moves, file) && n < |moves| && j < |file|
    requires PlansInv(states[n], file) && AgentInv(states, moves, file, n, j)
    ensures AgentInv(states, moves, file, n + 1, j)
  {
    var (s, s', key) := (states[n], states[n + 1], KeyOf(file[j]));
    OneMoreMove(states, moves, n, key);
    EffectOnAgent(s, s', file, moves[n], j);
    EffectOnDebts(s, s', file, moves[n], j);
    assert Restores(states, moves, n, key) <==> PutsBack(s, moves[n], key);
    hide Next, WriteOf, KeyOf, PlansInv, PutBefore, AnyLost, AnyRestored, Owes, PutsBack, Behaviour, Stored;
    forall i: nat | Lost(states, moves, i, n + 1, key)
      ensures moves[i].t < |s'.tasks|
      ensures Owes(s'.tasks[moves[i].t], file, j) || CrashedOwing(states, moves, file, i, n + 1, j)
    {
      StillOwed(states, moves, file, i, n, j);
    }
  }

  lemma StillOwed(states: seq<System>, moves: seq<Move>, file: seq<Entry>, i: nat, n: nat, j: nat)
    requires n < |moves| && n + 1 < |states| && j < |file| && Lost(states, moves, i, n + 1, KeyOf(file[j]))
    requires |states[n + 1].tasks| == |states[n].tasks|
    requires i < n ==> AgentInv(states, moves, file, n, j)
    requires i == n ==> moves[n].t < |states[n].tasks| && Owes(states[n + 1].tasks[moves[n].t], file, j)
    requires forall t | 0 <= t < |states[n].tasks| && Owes(states[n].tasks[t], file, j) ::
               || Owes(states[n + 1].tasks[t], file, j)
               || moves[n] == Crash(t)
               || Restores(states, moves, n, KeyOf(file[j]))
    ensures moves[i].t < |states[n + 1].tasks|
    ensures Owes(states[n + 1].tasks[moves[i].t], file, j) || CrashedOwing(states, moves, file, i, n + 1, j)
  {
    hide Owes, KeyOf, Restores, Stored;
    assert moves[i].Advance?;
    OneMoreMove(states, moves, n, KeyOf(file[j]));
    if i < n {
      assert Lost(states, moves, i, n, KeyOf(file[j]));
      var t := moves[i].t;
      if Owes(states[n].tasks[t], file, j) && moves[n] == Crash(t) {
        assert OwingCrash(states, moves, file, n, t, j);
      } else if CrashedOwing(states, moves, file, i, n, j) {
        var c: nat :| i < c < n && OwingCrash(states, moves, file, c, t, j);
        assert c < n + 1;
      }
    }
  }

  lemma {:induction false} AgentInvThroughout(states: seq<System>, moves: seq<Move>, file: seq<Entry>, n: nat, j: nat)
    requires DistinctIds(file) && Behaviour(states, moves, file) && Start(states[0])
    requires n < |states| && j < |file|
    ensures AgentInv(states, moves, file, n, j)
  {
    if n == 0 {
      assert forall t | 0 <= t < |states[0].tasks| :: states[0].tasks[t] in states[0].tasks;
    } else {
      AgentInvThroughout(states, moves, file, n - 1, j);
      InvHoldsThroughout(states, moves, file, n - 1);
      AgentStep(states, moves, file, n - 1, j);
    }
  }

  /* ---------- What every run comes to ---------- */

  /** All tasks are over, and at least one finished. */
  ghost predicate Over(s: System) {
    (forall task | task in s.tasks :: task == Finished || task == Crashed) && Finished in s.tasks
  }

  /** At no instant is a delete of agent j outstanding unless its task owes the agent or crashed owing it. */
  lemma DeletesAreOwed(states: seq<System>, moves: seq<Move>, file: seq<Entry>, n: nat, j: nat)
    requires DistinctIds(file) && Behaviour(states, moves, file) && Start(states[0])
    requires n < |states| && j < |file| && PutBefore(states[n], file, j) && !Stored(states[n].items, file[j])
    ensures exists i: nat ::
              && Lost(states, moves, i, n, KeyOf(file[j])) && moves[i].t < |states[n].tasks|
              && (Owes(states[n].tasks[moves[i].t], file, j) || CrashedOwing(states, moves, file, i, n, j))
  {
    AgentInvThroughout(states, moves, file, n, j);
    hide Lost, Behaviour, CrashedOwing;
    var i: nat :| Lost(states, moves, i, n, KeyOf(file[j]));
  }

  /**
   Agent j is stored, or else absent, exactly if nobody lost it; whoever lost it crashed owing it.
   */
  ghost predicate AgentOutcome(states: seq<System>, moves: seq<Move>, file: seq<Entry>, j: nat)
    requires |moves| < |states| && j < |file|
  {
    var (n, key) := (|moves|, KeyOf(file[j]));
    && (Stored(states[n].items, file[j]) <==> !AnyLost(states, moves, n, key))
    && (key in states[n].items <==> !AnyLost(states, moves, n, key))
    && forall i: nat | Lost(states, moves, i, n, key) :: CrashedOwing(states, moves, file, i, n, j)
  }

  /**
   Any number of tasks seeding from one valid file, in any interleaving, over any leftover agent
   items, with any crashes: once all are over, META counts the file and nothing but the file's
   agents is stored. An agent is missing exactly if it was deleted and not put back afterwards,
   and every such delete was made by a task that crashed owing the agent.
   */
  lemma EverySeedingRun(states: seq<System>, moves: seq<Move>, file: seq<Entry>)
    requires ValidCatalog(file)
    requires Behaviour(states, moves, file) && Start(states[0]) && Over(states[|moves|])
    ensures var items := states[|moves|].items;
            && Lookup(items, MetaKey()) == Some(CatalogMeta(|file|, true))
            && (forall k | k in CatalogPart(items) ::
                  k in EntryItems(file) && CatalogPart(items)[k] == EntryItems(file)[k])
    ensures forall j | 0 <= j < |file| :: AgentOutcome(states, moves, file, j)
    ensures CatalogPart(states[|moves|].items) == EntryItems(file) <==>
            forall j | 0 <= j < |file| :: !AnyLost(states, moves, |moves|, KeyOf(file[j]))
  {
    hide Next, Start, Over, Inv, EntryItems, Lost, AnyLost, CrashedOwing, Stored, KeyOf, MetaKey, Stale, CatalogPart;
    hide Lookup, WellNamed, TwoDefaults;

    InvHoldsThroughout(states, moves, file, |moves|);
    MetaAtTheEnd(states[|moves|], file);
    forall j | 0 <= j < |file| ensures AgentOutcome(states, moves, file, j) {
      AgentAtTheEnd(states, moves, file, j);
    }
    NothingButTheFile(states, moves, file);
    StoredMeansWhole(states[|moves|].items, file);
    forall j | 0 <= j < |file|
      ensures Stored(states[|moves|].items, file[j]) <==> !AnyLost(states, moves, |moves|, KeyOf(file[j]))
    {
      assert AgentOutcome(states, moves, file, j);
    }
  }

  lemma MetaAtTheEnd(s: System, file: seq<Entry>)
    requires Inv(s, file) && Over(s)
    ensures Lookup(s.items, MetaKey()) == Some(CatalogMeta(|file|, true))
    ensures MetaKey() in s.items && forall key :: !Stale(s.items, file, key)
  {
  }

  lemma AgentAtTheEnd(states: seq<System>, moves: seq<Move>, file: seq<Entry>, j: nat)
    requires DistinctIds(file) && Behaviour(states, moves, file) && Start(states[0]) && Over(states[|moves|])
    requires MetaKey() in states[|moves|].items && j < |file|
    ensures AgentOutcome(states, moves, file, j)
  {
    var last := states[|moves|];
    AgentInvThroughout(states, moves, file, |moves|, j);
    assert forall t | 0 <= t < |last.tasks| :: last.tasks[t] in last.tasks;
    assert forall t | 0 <= t < |last.tasks| :: !Owes(last.tasks[t], file, j);
    hide Behaviour, Owes, Over, CrashedOwing, MetaKey;
  }

  lemma NothingButTheFile(states: seq<System>, moves: seq<Move>, file: seq<Entry>)
    requires DistinctIds(file) && |moves| < |states|
    requires forall j | 0 <= j < |file| :: AgentOutcome(states, moves, file, j)
    requires forall key :: !Stale(states[|moves|].items, file, key)
    ensures var items := states[|moves|].items;
            forall k | k in CatalogPart(items) :: k in EntryItems(file) && CatalogPart(items)[k] == EntryItems(file)[k]
  {
    hide EntryItems, IsAgentKey, Lost, AnyLost, CrashedOwing, DistinctIds;
    EntryItemsAreTheEntries(file);
    var items := states[|moves|].items;
    forall k | k in CatalogPart(items) ensures k in EntryItems(file) && CatalogPart(items)[k] == EntryItems(file)[k] {
      assert !Stale(items, file, k);
      var e := EntryItems(file)[k].entry;
      var j :| 0 <= j < |file| && file[j] == e;
      assert AgentOutcome(states, moves, file, j) && KeyOf(file[j]) == k;
    }
  }

  lemma StoredMeansWhole(items: Items, file: seq<Entry>)
    requires DistinctIds(file) && forall key :: !Stale(items, file, key)
    ensures CatalogPart(items) == EntryItems(file) <==> forall j | 0 <= j < |file| :: Stored(items, file[j])
  {
    hide EntryItems, IsAgentKey, DistinctIds;
    EntryItemsAreTheEntries(file);
    if CatalogPart(items) == EntryItems(file) {
      forall j | 0 <= j < |file| ensures Stored(items, file[j]) {
        assert file[j] in file && KeyOf(file[j]) in CatalogPart(items);
      }
    }
    if forall j | 0 <= j < |file| :: Stored(items, file[j]) {
      StoredAndNothingStale(items, file);
    }
  }

  lemma StoredAndNothingStale(items: Items, file: seq<Entry>)
    requires DistinctIds(file)
    requires forall e | e in file :: Stored(items, e)
    requires forall key :: !Stale(items, file, key)
    ensures CatalogPart(items) == EntryItems(file)
  {
    EntryItemsAreTheEntries(file);
    hide EntryItems, AgentKey;
    forall k | k in EntryItems(file) ensures k in CatalogPart(items) && items[k] == EntryItems(file)[k] {
      assert Stored(items, EntryItems(file)[k].entry);
    }
    forall k | k in CatalogPart(items) ensures k in EntryItems(file) {
      assert !Stale(items, file, k);
    }
  }

  /** No task crashes between deleting one of the file's agents and putting it back. */
  ghost predicate CrashesOweNothing(states: seq<System>, moves: seq<Move>, file: seq<Entry>) {
    forall i | 0 <= i < |moves| && i < |states| && moves[i].Crash? ::
      moves[i].t < |states[i].tasks| && OwesNothing(states[i].tasks[moves[i].t], file)
  }

  lemma NobodyLost(states: seq<System>, moves: seq<Move>, file: seq<Entry>, j: nat)
    requires CrashesOweNothing(states, moves, file) && j < |file|
    requires forall i: nat | Lost(states, moves, i, |moves|, KeyOf(file[j])) ::
               CrashedOwing(states, moves, file, i, |moves|, j)
    ensures !AnyLost(states, moves, |moves|, KeyOf(file[j]))
  {
    hide Owes, Removes, Restores, KeyOf;
    assert forall c: nat, t: nat :: !OwingCrash(states, moves, file, c, t, j);
  }

  /** If no task crashes owing an agent, the agent items are exactly the file's, and META counts them. */
  lemma ConcurrentSeedsConverge(states: seq<System>, moves: seq<Move>, file: seq<Entry>)
    requires ValidCatalog(file)
    requires Behaviour(states, moves, file) && Start(states[0]) && CrashesOweNothing(states, moves, file)
    requires Over(states[|states| - 1])
    ensures var items := states[|states| - 1].items;
            CatalogPart(items) == EntryItems(file) && Lookup(items, MetaKey()) == Some(CatalogMeta(|file|, true))
  {
    hide Next, Start, Over, Lost, AnyLost, CrashedOwing, KeyOf, MetaKey, EntryItems, CatalogPart, ValidCatalog;
    hide CrashesOweNothing, Lookup, Stored;
    EverySeedingRun(states, moves, file);
    forall j | 0 <= j < |file| ensures !AnyLost(states, moves, |moves|, KeyOf(file[j])) {
      assert AgentOutcome(states, moves, file, j);
      NobodyLost(states, moves, file, j);
    }
  }

  /** Without crashes, the tasks need only have finished, and there need only be one. */
  lemma ConcurrentStartsConverge(states: seq<System>, moves: seq<Move>, file: seq<Entry>)
    requires ValidCatalog(file)
    requires Behaviour(states, moves, file) && Start(states[0])
    requires forall m | m in moves :: !m.Crash?
    requires var tasks := states[|states| - 1].tasks; tasks != [] && forall task | task in tasks :: task == Finished
    ensures var items := states[|states| - 1].items;
            CatalogPart(items) == EntryItems(file) && Lookup(items, MetaKey()) == Some(CatalogMeta(|file|, true))
  {
    assert CrashesOweNothing(states, moves, file) by {
      assert forall i | 0 <= i < |moves| :: moves[i] in moves;
    }
    var last := states[|states| - 1];
    assert last.tasks[0] in last.tasks;
    ConcurrentSeedsConverge(states, moves, file);
  }

  /* ---------- Why a crash must owe nothing ---------- */

  /** The run of `OwingCrashLosesTheAgent`, state by state. */
  ghost function LossStates(entry: Entry): (states: seq<System>)
    ensures |states| == 9
  {
    var one: Items := map[AgentKey(entry.virtualAgentId) := AgentItem(entry)];
    var first, second := WritePlan(map[], [entry], true), WritePlan(one, [entry], true);
    [
      System(map[], [Checking, Checking]),
      System(map[], [Snapshotting, Checking]),
      System(map[], [Writing(first, 0), Checking]),
      System(map[], [Writing(first, 0), Snapshotting]),
      System(one, [Writing(first, 1), Snapshotting]),
      System(one, [Writing(first, 1), Writing(second, 0)]),
      System(map[], [Writing(first, 1), Writing(second, 1)]),
      System(map[], [Writing(first, 1), Crashed]),
      System(map[MetaKey() := CatalogMeta(1, true)], [Finished, Crashed])
    ]
  }

  const LOSS_MOVES: seq<Move> :=
    [Advance(0), Advance(0), Advance(1), Advance(0), Advance(1), Advance(1), Crash(1), Advance(0)]

  /**
   Two tasks, one agent. The second task's snapshot already sees the agent the first has put; it
   deletes it and crashes; the first then writes META. The catalog is empty for good, since META
   keeps every later start from seeding.
   */
  lemma OwingCrashLosesTheAgent(entry: Entry)
    requires ValidCatalog([entry])
    ensures var states := LossStates(entry);
            && Behaviour(states, LOSS_MOVES, [entry]) && Start(states[0]) && Over(states[8])
            && LOSS_MOVES[6] == Crash(1) && Owes(states[6].tasks[1], [entry], 0)
            && CatalogPart(states[8].items) == map[] && MetaKey() in states[8].items
  {
    hide AgentKey, MetaKey, CatalogPart;
    LossUntilSecondSnapshot(entry);
    LossAfterSecondSnapshot(entry);
    PlansOfOne(entry);
    var states := LossStates(entry);
    forall i | 0 <= i < 8 ensures Next(states[i], states[i + 1], [entry], LOSS_MOVES[i]) {
      assert i == 0 || i == 1 || i == 2 || i == 3 || i == 4 || i == 5 || i == 6 || i == 7;
    }
    assert states[6].tasks[1].plan[0] == Delete(AgentKey([entry][0].virtualAgentId));
    EmptyButForMeta(CatalogMeta(1, true));
  }

  lemma LossUntilSecondSnapshot(entry: Entry)
    ensures forall i | 0 <= i < 4 :: Next(LossStates(entry)[i], LossStates(entry)[i + 1], [entry], LOSS_MOVES[i])
  {
    PlansOfOne(entry);
    hide AgentKey, MetaKey, WritePlan;
    var states := LossStates(entry);
    assert Next(states[0], states[1], [entry], Advance(0));
    assert Next(states[1], states[2], [entry], Advance(0));
    assert Next(states[2], states[3], [entry], Advance(1));
    assert Next(states[3], states[4], [entry], Advance(0));
  }

  lemma LossAfterSecondSnapshot(entry: Entry)
    ensures forall i | 4 <= i < 8 :: Next(LossStates(entry)[i], LossStates(entry)[i + 1], [entry], LOSS_MOVES[i])
  {
    PlansOfOne(entry);
    hide AgentKey, MetaKey, WritePlan;
    var states := LossStates(entry);
    assert Apply(states[5].items, Delete(AgentKey(entry.virtualAgentId))) == map[];
    assert Next(states[4], states[5], [entry], Advance(1));
    assert Next(states[5], states[6], [entry], Advance(1));
    assert Next(states[6], states[7], [entry], Crash(1));
    assert Next(states[7], states[8], [entry], Advance(0));
  }

  lemma EmptyButForMeta(meta: Item)
    ensures CatalogPart(map[MetaKey() := meta]) == map[]
  {
    MetaIsNoAgent();
  }

  lemma PlansOfOne(entry: Entry)
    ensures var key, agent := AgentKey(entry.virtualAgentId), AgentItem(entry);
            var first := [Put(key, agent), Put(MetaKey(), CatalogMeta(1, true))];
            && WritePlan(map[], [entry], true) == first
            && WritePlan(map[key := agent], [entry], true) == [Delete(key)] + first
  {
    var key, agent := AgentKey(entry.virtualAgentId), AgentItem(entry);
    var one: Items := map[key := agent];
    assert forall k :: k !in OldKeys(map[]);
    OnlyKey(one, key);
    assert Deletes([]) == [] && Deletes([key]) == [Delete(key)] && Puts([entry]) == [Put(key, agent)];
  }

  lemma OnlyKey(items: Items, key: Key)
    requires IsAgentKey(key) && items.Keys == {key}
    ensures OldKeys(items) == [key]
  {
    var keys := OldKeys(items);
    assert key in keys;
    assert forall i | 0 <= i < |keys| :: keys[i] in keys && keys[i] == key;
    if |keys| > 1 {
      Text.BeforeIsStrict(keys[0].sk, keys[1].sk);
    }
  }
}
