/** The catalog management commands (`scripts/manage_virtual_agents.py`). */
module CatalogCli {
  import opened Results
  import opened Text
  import opened Catalog
  import opened Store
  import opened CatalogRepository
  import opened CatalogRefinement
  import opened CatalogCrash

  datatype Command =
    | Add(id: string, name: string, isDefault: bool)
    | Update(id: string, newName: Option<string>, newDefault: Option<bool>)
    | Remove(id: string)
    | SetDefault(id: string)

  /** The exit status, and for a failure what is printed. */
  datatype Exit =
    | Ok
    | DuplicateIdPrinted
    | NotFoundPrinted
    | EmptyCatalogPrinted
    | ErrorPrinted(error: CatalogError)

  /* ---------- The new list of entries ---------- */

  function WithDefault(e: Entry, isDefault: bool): Entry {
    e.(isDefault := isDefault)
  }

  function ClearDefaults(es: seq<Entry>): (r: seq<Entry>)
    ensures |r| == |es| && forall i | 0 <= i < |es| :: r[i] == WithDefault(es[i], false)
  {
    seq(|es|, i requires 0 <= i < |es| => WithDefault(es[i], false))
  }

  /** The entries with exactly the named one marked as default. */
  function OnlyDefault(es: seq<Entry>, id: string): (r: seq<Entry>)
    ensures |r| == |es| && forall i | 0 <= i < |es| :: r[i] == WithDefault(es[i], es[i].virtualAgentId == id)
  {
    seq(|es|, i requires 0 <= i < |es| => WithDefault(es[i], es[i].virtualAgentId == id))
  }

  function Renamed(e: Entry, id: string, newName: Option<string>, newDefault: Option<bool>): Entry {
    if e.virtualAgentId != id then e
    else Entry(id, if newName.Some? then newName.value else e.virtualAgentName,
               if newDefault.Some? then newDefault.value else e.isDefault)
  }

  function RenamedAll(es: seq<Entry>, id: string, newName: Option<string>, newDefault: Option<bool>): (r: seq<Entry>)
    ensures |r| == |es| && forall i | 0 <= i < |es| :: r[i] == Renamed(es[i], id, newName, newDefault)
  {
    seq(|es|, i requires 0 <= i < |es| => Renamed(es[i], id, newName, newDefault))
  }

  function Added(es: seq<Entry>, id: string, name: string, isDefault: bool): Result<seq<Entry>, Exit> {
    if HasId(es, id) then Failure(DuplicateIdPrinted)
    else Success((if isDefault then ClearDefaults(es) else es) + [Entry(id, name, isDefault)])
  }

  function Updated(es: seq<Entry>, id: string, newName: Option<string>, newDefault: Option<bool>)
    : Result<seq<Entry>, Exit>
  {
    if !HasId(es, id) then Failure(NotFoundPrinted)
    else
      var renamed := RenamedAll(es, id, newName, newDefault);
      Success(if newDefault == Some(true) then OnlyDefault(renamed, id) else renamed)
  }

  /* ---------- Commands on the table ---------- */

  /** The list that add, update and set-default ask the repository to store. */
  function Edited(es: seq<Entry>, command: Command): Result<seq<Entry>, Exit>
    requires !command.Remove?
  {
    match command
    case Add(id, name, isDefault) => Added(es, id, name, isDefault)
    case Update(id, newName, newDefault) => Updated(es, id, newName, newDefault)
    case SetDefault(id) => Updated(es, id, None, Some(true))
  }

  /** Store an edited list, or print why it is invalid. */
  function ReplaceStep(items: Items, es: seq<Entry>): (Items, Exit)
    requires Shaped(items)
  {
    match DynStep(items, ReplaceAll(es))
    case (items', Raised(error)) => (items', ErrorPrinted(error))
    case (items', _) => (items', Ok)
  }

  /** A command's effect on the table, and its exit. */
  function CliStep(items: Items, command: Command): (Items, Exit)
    requires Shaped(items)
  {
    if command.Remove? then
      var (items', reply) := DynStep(items, RemoveAgent(command.id));
      (items', RemoveExit(reply))
    else
      match DynList(items)
      case Failure(error) => (items, ErrorPrinted(error))
      case Success(es) =>
        match Edited(es, command)
        case Failure(exit) => (items, exit)
        case Success(edited) => ReplaceStep(items, edited)
  }

  /** The text of the repository's own error. */
  function NotFoundText(id: string): string {
    "Agent not found: " + id
  }

  function Lower(text: string): string {
    seq(|text|, i requires 0 <= i < |text| => if 'A' <= text[i] <= 'Z' then 'a' + (text[i] - 'A') else text[i])
  }

  predicate SaysNotFoundAt(text: string, i: nat) {
    i + 9 <= |text| && Lower(text[i..i + 9]) == "not found"
  }

  /** Whether `"not found" in text.lower()`. */
  predicate SaysNotFound(text: string) {
    exists i | 0 <= i < |text| :: SaysNotFoundAt(text, i)
  }

  function RemoveExit(reply: Reply): Exit {
    match reply
    case Raised(AgentNotFound(id)) => if SaysNotFound(NotFoundText(id)) then NotFoundPrinted else EmptyCatalogPrinted
    case Raised(error) => ErrorPrinted(error)
    case _ => Ok
  }

  method CmdAdd(repo: DynamoDBCatalogRepository, id: string, name: string, isDefault: bool) returns (exit: Exit)
    requires Shaped(repo.table.items)
    modifies repo.table
    ensures (repo.table.items, exit) == CliStep(old(repo.table.items), Add(id, name, isDefault))
  {
    var listed := repo.ListAgents();
    if listed.Failure? {
      return ErrorPrinted(listed.error);
    }
    var es := listed.value;
    if exists e :: e in es && e.virtualAgentId == id {
      return DuplicateIdPrinted;
    }
    if isDefault {
      es := ClearDefaults(es);
    }
    es := es + [Entry(id, name, isDefault)];
    exit := ValidateAndReplace(repo, es);
  }

  /** The last two steps of add and update. */
  method ValidateAndReplace(repo: DynamoDBCatalogRepository, es: seq<Entry>) returns (exit: Exit)
    requires Shaped(repo.table.items)
    modifies repo.table
    ensures (repo.table.items, exit) == ReplaceStep(old(repo.table.items), es)
  {
    var verdict := ValidateCatalogEntries(es);
    if verdict.Fail? {
      return ErrorPrinted(verdict.error);
    }
    var replaced := repo.ReplaceAll(es);
    assert replaced.Pass?;
    return Ok;
  }

  method CmdUpdate(repo: DynamoDBCatalogRepository, id: string, newName: Option<string>, newDefault: Option<bool>)
    returns (exit: Exit)
    requires Shaped(repo.table.items)
    modifies repo.table
    ensures (repo.table.items, exit) == CliStep(old(repo.table.items), Update(id, newName, newDefault))
  {
    var listed := repo.ListAgents();
    if listed.Failure? {
      return ErrorPrinted(listed.error);
    }
    var found, updated := RenameAgent(listed.value, id, newName, newDefault);
    if !found {
      return NotFoundPrinted;
    }
    if newDefault == Some(true) {
      updated := OnlyDefault(updated, id);
    }
    exit := ValidateAndReplace(repo, updated);
  }

  /** The loop of `cmd_update`. */
  method RenameAgent(es: seq<Entry>, id: string, newName: Option<string>, newDefault: Option<bool>)
    returns (found: bool, updated: seq<Entry>)
    ensures found <==> HasId(es, id)
    ensures updated == RenamedAll(es, id, newName, newDefault)
  {
    found, updated := false, [];
    for i := 0 to |es|
      invariant |updated| == i && forall j | 0 <= j < i :: updated[j] == Renamed(es[j], id, newName, newDefault)
      invariant found <==> exists j :: 0 <= j < i && es[j].virtualAgentId == id
    {
      var entry := es[i];
      if entry.virtualAgentId != id {
        updated := updated + [entry];
        continue;
      }
      found := true;
      updated := updated + [Entry(id, if newName.Some? then newName.value else entry.virtualAgentName,
                                  if newDefault.Some? then newDefault.value else entry.isDefault)];
    }
  }

  method CmdSetDefault(repo: DynamoDBCatalogRepository, id: string) returns (exit: Exit)
    requires Shaped(repo.table.items)
    modifies repo.table
    ensures (repo.table.items, exit) == CliStep(old(repo.table.items), SetDefault(id))
  {
    exit := CmdUpdate(repo, id, None, Some(true));
  }

  method CmdRemove(repo: DynamoDBCatalogRepository, id: string) returns (exit: Exit)
    requires Shaped(repo.table.items)
    modifies repo.table
    ensures (repo.table.items, exit) == CliStep(old(repo.table.items), Remove(id))
  {
    hide SaysNotFound, DynPlan;
    var removed := repo.RemoveAgent(id);
    match removed
    case Pass => return Ok;
    case Fail(AgentNotFound(missing)) =>
      return if SaysNotFound(NotFoundText(missing)) then NotFoundPrinted else EmptyCatalogPrinted;
    case Fail(error) => return ErrorPrinted(error);
  }

  /* ---------- Edits of a valid catalog ---------- */

  lemma EditKeepsIds(es: seq<Entry>, edited: seq<Entry>)
    requires |edited| == |es| && forall i | 0 <= i < |es| :: edited[i].virtualAgentId == es[i].virtualAgentId
    requires DistinctIds(es)
    ensures DistinctIds(edited)
    ensures forall id :: HasId(edited, id) <==> HasId(es, id)
  {
    forall id ensures HasId(edited, id) <==> HasId(es, id) {
      if HasId(edited, id) {
        var i :| 0 <= i < |edited| && edited[i].virtualAgentId == id;
        assert es[i] in es;
      }
      if HasId(es, id) {
        var i :| 0 <= i < |es| && es[i].virtualAgentId == id;
        assert edited[i] in edited;
      }
    }
  }

  lemma ClearingKeepsValid(es: seq<Entry>)
    requires ValidCatalog(es)
    ensures ValidCatalog(ClearDefaults(es))
    ensures forall id :: HasId(ClearDefaults(es), id) <==> HasId(es, id)
    ensures forall e | e in ClearDefaults(es) :: !e.isDefault
  {
    EditKeepsIds(es, ClearDefaults(es));
    forall e | e in ClearDefaults(es) ensures !Blank(e.virtualAgentId) && !Blank(e.virtualAgentName) {
      var i :| 0 <= i < |es| && ClearDefaults(es)[i] == e;
      assert es[i] in es;
    }
  }

  /**
   Adding a new id to a valid catalog fails only on a blank id or name: the checks for duplicate
   ids and for several defaults never fire. With the flag the new agent is the only default.
   */
  lemma AddFailsOnlyOnBlanks(es: seq<Entry>, id: string, name: string, isDefault: bool)
    requires ValidCatalog(es) && !HasId(es, id)
    ensures Added(es, id, name, isDefault).Success?
    ensures var added := Added(es, id, name, isDefault).value;
            && Verdict(added) ==
               (if Blank(id) then Fail(BlankId) else if Blank(name) then Fail(BlankName(id)) else Pass)
            && (isDefault ==> forall e | e in added :: e.isDefault <==> e.virtualAgentId == id)
  {
    ClearingKeepsValid(es);
    var base := if isDefault then ClearDefaults(es) else es;
    WithoutDropsOnlyTheId(base, id);
    UpsertOfValidCatalog(base, Entry(id, name, isDefault));
    assert forall e | e in base :: e.virtualAgentId != id;
  }

  lemma {:induction false} FirstFaultIsAt(es: seq<Entry>, i: nat, k: nat)
    requires i <= k < |es|
    requires forall j | i <= j < k :: EntryFault(es, j).None?
    requires EntryFault(es, k).Some?
    ensures FirstFault(es, i) == EntryFault(es, k)
    decreases k - i
  {
    if i >= k {
    } else {
      FirstFaultIsAt(es, i + 1, k);
    }
  }

  /**
   Updating an agent of a valid catalog fails only on a blank new name. With the flag it becomes
   the only default; without a flag argument the defaults stay as they are.
   */
  lemma UpdateFailsOnlyOnBlankName(es: seq<Entry>, id: string, newName: Option<string>, newDefault: Option<bool>)
    requires ValidCatalog(es) && HasId(es, id)
    ensures Updated(es, id, newName, newDefault).Success?
    ensures var updated := Updated(es, id, newName, newDefault).value;
            && |updated| == |es|
            && (forall i | 0 <= i < |es| :: updated[i].virtualAgentId == es[i].virtualAgentId)
            && (newDefault == Some(true) ==> forall e | e in updated :: e.isDefault <==> e.virtualAgentId == id)
            && Verdict(updated) == (if newName.Some? && Blank(newName.value) then Fail(BlankName(id)) else Pass)
  {
    hide EntryFault, TwoDefaults, WellNamed, Blank, FirstFault;
    var updated := Updated(es, id, newName, newDefault).value;
    var e :| e in es && e.virtualAgentId == id;
    var k :| 0 <= k < |es| && es[k] == e;
    UpdateFaults(es, updated, id, newName, k);
    UpdateLeavesOneDefault(es, updated, id, newDefault);
    if newName.Some? && Blank(newName.value) {
      FirstFaultIsAt(updated, 0, k);
    } else {
      FirstFaultMeansBadEntry(updated, 0);
    }
  }

  /** Only the updated entry can be at fault, and only for a blank new name. */
  lemma UpdateFaults(es: seq<Entry>, updated: seq<Entry>, id: string, newName: Option<string>, k: nat)
    requires ValidCatalog(es) && k < |es| && es[k].virtualAgentId == id && |updated| == |es|
    requires forall i | 0 <= i < |es| ::
               && updated[i].virtualAgentId == es[i].virtualAgentId
               && updated[i].virtualAgentName ==
                  if es[i].virtualAgentId == id && newName.Some? then newName.value else es[i].virtualAgentName
    ensures forall i | 0 <= i < |es| ::
              EntryFault(updated, i) ==
              if i == k && newName.Some? && Blank(newName.value) then Some(BlankName(id)) else None
  {
    forall i | 0 <= i < |es|
      ensures EntryFault(updated, i) ==
              if i == k && newName.Some? && Blank(newName.value) then Some(BlankName(id)) else None
    {
      assert es[i] in es;
      assert i != k ==> es[i].virtualAgentId != es[k].virtualAgentId;
    }
  }

  lemma UpdateLeavesOneDefault(es: seq<Entry>, updated: seq<Entry>, id: string, newDefault: Option<bool>)
    requires DistinctIds(es) && !TwoDefaults(es) && |updated| == |es|
    requires forall i | 0 <= i < |es| ::
               updated[i].isDefault ==
               if newDefault == Some(true) then es[i].virtualAgentId == id
               else if es[i].virtualAgentId == id && newDefault.Some? then newDefault.value
               else es[i].isDefault
    ensures !TwoDefaults(updated)
  {
    forall i, j | 0 <= i < j < |es| ensures !(updated[i].isDefault && updated[j].isDefault) {
      assert es[i].virtualAgentId != es[j].virtualAgentId && !(es[i].isDefault && es[j].isDefault);
    }
  }

  /* ---------- Runs of commands ---------- */

  lemma NotFoundTextSaysSo(id: string)
    ensures SaysNotFound(NotFoundText(id))
  {
    assert NotFoundText(id)[6..15] == "not found";
    assert SaysNotFoundAt(NotFoundText(id), 6);
  }

  /** The table is seeded and holds some valid catalog. */
  ghost predicate HoldsCatalog(items: Items) {
    exists es :: Agree(Some(es), items)
  }

  /**
   A command on a table holding a valid catalog leaves it holding one; a failing command changes
   nothing; nothing outside the catalog is touched.
   */
  lemma CommandKeepsCatalog(items: Items, command: Command)
    requires HoldsCatalog(items)
    ensures Shaped(items)
    ensures var (items', exit) := CliStep(items, command);
            HoldsCatalog(items') && (exit != Ok ==> items' == items) && OnlyCatalogTouched(items, items')
  {
    hide ValidCatalog, Verdict, EntryItems, CatalogPart, QueryKeys, WritePlan, MemStep, DynPlan;
    var es :| Agree(Some(es), items);
    ListingOfStoredCatalog(items, es);
    if command.Remove? {
      StepKeepsCatalog(items, es, RemoveAgent(command.id));
    } else {
      match Edited(Listing(items), command)
      case Failure(_) =>
      case Success(edited) => StepKeepsCatalog(items, es, ReplaceAll(edited));
    }
  }

  lemma StepKeepsCatalog(items: Items, es: seq<Entry>, op: CatalogOp)
    requires Agree(Some(es), items) && Shaped(items)
    ensures var (items', reply) := DynStep(items, op);
            HoldsCatalog(items') && (reply.Raised? ==> items' == items) && OnlyCatalogTouched(items, items')
  {
    hide ValidCatalog, Verdict, EntryItems, CatalogPart, QueryKeys, WritePlan, MemStep, DynStep;
    EveryStepAgrees(Some(es), Failure(UnreadableFile), items, op);
    var cache := MemStep(Some(es), Failure(UnreadableFile), op).0;
    assert Agree(Some(cache.value), DynStep(items, op).0);
  }

  function CliRun(items: Items, commands: seq<Command>): (Items, seq<Exit>)
    requires HoldsCatalog(items)
    decreases |commands|
  {
    if commands == [] then (items, [])
    else
      CommandKeepsCatalog(items, commands[0]);
      var (items', exit) := CliStep(items, commands[0]);
      var (last, exits) := CliRun(items', commands[1..]);
      (last, [exit] + exits)
  }

  /** Every sequence of commands keeps the stored catalog valid, and listable. */
  lemma {:induction false} EveryRunKeepsCatalog(items: Items, commands: seq<Command>)
    requires HoldsCatalog(items)
    ensures var (last, exits) := CliRun(items, commands);
            && HoldsCatalog(last) && Shaped(last) && OnlyCatalogTouched(items, last)
            && DynList(last).Success? && ValidCatalog(DynList(last).value)
            && ((forall exit | exit in exits :: exit != Ok) ==> last == items)
    decreases |commands|
  {
    hide CliStep, EntryItems, CatalogPart, Verdict, ValidCatalog;
    if commands == [] {
      var es :| Agree(Some(es), items);
      ListingOfStoredCatalog(items, es);
    } else {
      CommandKeepsCatalog(items, commands[0]);
      var (next, exit) := CliStep(items, commands[0]);
      EveryRunKeepsCatalog(next, commands[1..]);
      var exits := CliRun(next, commands[1..]).1;
      assert exit in [exit] + exits && forall e | e in exits :: e in [exit] + exits;
    }
  }

  /* ---------- Setting the default ---------- */

  lemma OnlyDefaultIgnoresOrder(a: seq<Entry>, b: seq<Entry>, id: string)
    requires forall e :: e in a <==> e in b
    ensures forall e | e in OnlyDefault(a, id) :: e in OnlyDefault(b, id)
  {
    forall e | e in OnlyDefault(a, id) ensures e in OnlyDefault(b, id) {
      var i :| 0 <= i < |a| && OnlyDefault(a, id)[i] == e;
      assert a[i] in b;
      var j :| 0 <= j < |b| && b[j] == a[i];
      assert OnlyDefault(b, id)[j] == e;
    }
  }

  /** Setting a known default succeeds, keeps every id and name, and marks that agent alone. */
  lemma SetDefaultMarksOne(items: Items, es: seq<Entry>, id: string)
    requires Agree(Some(es), items) && HasId(es, id)
    ensures Shaped(items)
    ensures CliStep(items, SetDefault(id)).1 == Ok
    ensures Agree(Some(OnlyDefault(es, id)), CliStep(items, SetDefault(id)).0)
  {
    hide EntryItems, CatalogPart, QueryKeys, WritePlan, Verdict;
    ListingOfStoredCatalog(items, es);
    var l := Listing(items);
    SameMembers(l, es);
    assert HasId(l, id);
    UpdateFailsOnlyOnBlankName(l, id, None, Some(true));
    UpdateFailsOnlyOnBlankName(es, id, None, Some(true));
    var (marked, mine) := (Updated(l, id, None, Some(true)).value, Updated(es, id, None, Some(true)).value);
    assert marked == OnlyDefault(l, id);
    assert mine == OnlyDefault(es, id);
    VerdictIsValidity(mine);
    OnlyDefaultIgnoresOrder(l, es, id);
    OnlyDefaultIgnoresOrder(es, l, id);
    RewriteAgrees(es, items, mine, marked);
  }

  /** Whether a command is to make its agent the default. */
  predicate MakesDefault(command: Command) {
    match command
    case Add(_, _, isDefault) => isDefault
    case Update(_, _, newDefault) => newDefault == Some(true)
    case Remove(_) => false
    case SetDefault(_) => true
  }

  /** A successful command that is to make its agent the default leaves it the only one stored as such. */
  lemma NewDefaultIsTheOnlyOne(items: Items, command: Command)
    requires HoldsCatalog(items) && MakesDefault(command)
    ensures Shaped(items)
    ensures var (items', exit) := CliStep(items, command);
            exit == Ok ==>
              && Shaped(items') && DynList(items').Success?
              && forall e | e in Listing(items') :: e.isDefault <==> e.virtualAgentId == command.id
  {
    hide EntryItems, CatalogPart, WritePlan, Run, Verdict, Listing, DynList, Edited, CliStep, Shaped, ValidCatalog;
    hide MakesDefault;
    var es :| Agree(Some(es), items);
    ListingOfStoredCatalog(items, es);
    var (items', exit) := CliStep(items, command);
    if exit == Ok {
      WhatOkMeans(items, command);
      var edited := Edited(Listing(items), command).value;
      EditedDefaultIsTheOnlyOne(Listing(items), command);
      VerdictIsValidity(edited);
      DistinctInValid(edited);
      RewriteStoresTheEntries(items, edited, false);
      ListingOfStoredCatalog(items', edited);
      SameMembers(Listing(items'), edited);
    }
  }

  lemma DistinctInValid(es: seq<Entry>)
    requires ValidCatalog(es)
    ensures DistinctIds(es)
  {
  }

  lemma WhatOkMeans(items: Items, command: Command)
    requires Shaped(items) && DynList(items) == Success(Listing(items)) && MakesDefault(command)
    requires CliStep(items, command).1 == Ok
    ensures !command.Remove? && Edited(Listing(items), command).Success?
    ensures var edited := Edited(Listing(items), command).value;
            Verdict(edited) == Pass && CliStep(items, command).0 == Run(items, WritePlan(items, edited, false))
  {
    hide Verdict, WritePlan, Run, Listing, DynList, Shaped, ClearDefaults, RenamedAll, OnlyDefault;
  }

  lemma EditedDefaultIsTheOnlyOne(es: seq<Entry>, command: Command)
    requires ValidCatalog(es) && MakesDefault(command) && Edited(es, command).Success?
    ensures forall e | e in Edited(es, command).value :: e.isDefault <==> e.virtualAgentId == command.id
  {
    hide ValidCatalog, Verdict;
    match command
    case Add(id, name, isDefault) => AddFailsOnlyOnBlanks(es, id, name, isDefault);
    case Update(id, newName, newDefault) => UpdateFailsOnlyOnBlankName(es, id, newName, newDefault);
    case SetDefault(id) => UpdateFailsOnlyOnBlankName(es, id, None, Some(true));
  }

  /** Repeating set-default changes no agent item, and of two calls the last one wins. */
  lemma LastSetDefaultWins(items: Items, es: seq<Entry>, first: string, second: string)
    requires Agree(Some(es), items) && HasId(es, first) && HasId(es, second)
    ensures Shaped(items)
    ensures var once := CliStep(items, SetDefault(first)).0;
            && Shaped(once)
            && CliStep(once, SetDefault(second)).1 == Ok
            && CatalogPart(CliStep(once, SetDefault(second)).0) == CatalogPart(CliStep(items, SetDefault(second)).0)
  {
    hide CliStep, Agree, ValidCatalog, Shaped;
    SetDefaultMarksOne(items, es, first);
    SetDefaultMarksOne(items, es, second);
    var once, marked := CliStep(items, SetDefault(first)).0, OnlyDefault(es, first);
    AgreedIdsAreDistinct(es, items);
    EditKeepsIds(es, marked);
    SetDefaultMarksOne(once, marked, second);
    assert OnlyDefault(marked, second) == OnlyDefault(es, second);
    var last, direct := CliStep(once, SetDefault(second)).0, CliStep(items, SetDefault(second)).0;
    SameCatalogStored(OnlyDefault(es, second), last, direct);
  }

  lemma AgreedIdsAreDistinct(es: seq<Entry>, items: Items)
    requires Agree(Some(es), items)
    ensures DistinctIds(es)
  {
  }

  lemma SameCatalogStored(es: seq<Entry>, a: Items, b: Items)
    requires Agree(Some(es), a) && Agree(Some(es), b)
    ensures CatalogPart(a) == CatalogPart(b)
  {
  }

  /* ---------- What the command line cannot say or mend ---------- */

  /** The repository's own error always says "not found", so EMPTY_CATALOG is never printed. */
  lemma EmptyCatalogIsNeverPrinted(items: Items, id: string)
    requires Shaped(items)
    ensures CliStep(items, Remove(id)).1 != EmptyCatalogPrinted
  {
    hide DynStep, SaysNotFound;
    match DynStep(items, RemoveAgent(id)).1
    case Raised(AgentNotFound(missing)) => NotFoundTextSaysSo(missing);
    case _ =>
  }

  /** Removing the last agent is refused with the message of the validation. */
  lemma LastAgentStays(items: Items, entry: Entry)
    requires Agree(Some([entry]), items)
    ensures Shaped(items)
    ensures CliStep(items, Remove(entry.virtualAgentId)) == (items, ErrorPrinted(EmptyCatalog))
  {
    hide DynStep, Agree, SaysNotFound;
    EveryStepAgrees(Some([entry]), Failure(UnreadableFile), items, RemoveAgent(entry.virtualAgentId));
    assert Without([entry], entry.virtualAgentId) == [] by {
      assert [entry][..0] == [];
    }
  }

  /**
   A seeded catalog whose rewrite crashed is stored no longer exactly if the crash came right behind
   the deletes. Then every command fails and mends nothing; otherwise commands go on as before.
   */
  lemma CommandsCannotMendACrash(items: Items, op: CatalogOp, k: nat)
    requires HoldsCatalog(items) && Shaped(items) && Target(items, op).Some?
    ensures var crashed := Attempt(items, op, k);
            && Shaped(crashed)
            && (HoldsCatalog(crashed) <==> k != |OldKeys(items)|)
            && (k == |OldKeys(items)| ==>
                  forall command :: CliStep(crashed, command) == (crashed, ErrorPrinted(EmptyTable)))
  {
    hide Attempt, Target, OldKeys, CliStep, ValidCatalog;
    var es :| Agree(Some(es), items);
    var crashed := Attempt(items, op, k);
    if k != |OldKeys(items)| {
      OtherCrashesLeaveACatalog(items, es, op, k);
    } else {
      CrashedRewriteStaysEmpty(items, op, ListAgents);
      forall command ensures CliStep(crashed, command) == (crashed, ErrorPrinted(EmptyTable)) {
        NoCommandMends(items, op, command);
      }
      forall any ensures !Agree(Some(any), crashed) {
        if ValidCatalog(any) {
          CatalogIsNotEmpty(any);
        }
      }
    }
  }

  lemma NoCommandMends(items: Items, op: CatalogOp, command: Command)
    requires Shaped(items) && MetaKey() in items && Target(items, op).Some?
    ensures var crashed := Attempt(items, op, |OldKeys(items)|);
            Shaped(crashed) && CliStep(crashed, command) == (crashed, ErrorPrinted(EmptyTable))
  {
    hide Attempt, Target, OldKeys, SaysNotFound;
    CrashedRewriteStaysEmpty(items, op, ListAgents);
    CrashedRewriteStaysEmpty(items, op, RemoveAgent(command.id));
  }
}
