/**
 What every catalog operation and every management command leaves in the table, agent by agent.
 */
module CatalogLaws {
  import opened Results
  import opened Text
  import opened Catalog
  import opened Store
  import opened CatalogRepository
  import opened CatalogRefinement
  import opened CatalogCli

  /** The agent that is stored under an id, if any. */
  function AgentIn(items: Items, id: string): Option<Entry> {
    match Lookup(items, Key("CATALOG", "AGENT#" + id))
    case Some(AgentItem(e)) => Some(e)
    case _ => None
  }

  /* ---------- Reading a stored catalog ---------- */

  /** A table that stores these entries has each of them under its id, and no other agent. */
  lemma StoredById(items: Items, es: seq<Entry>, id: string)
    requires DistinctIds(es) && CatalogPart(items) == EntryItems(es)
    ensures forall e | e in es && e.virtualAgentId == id :: AgentIn(items, id) == Some(e)
    ensures AgentIn(items, id).Some? ==> AgentIn(items, id).value in es && AgentIn(items, id).value.virtualAgentId == id
    ensures AgentIn(items, id).Some? <==> HasId(es, id)
  {
    hide EntryItems;
    var key := AgentKey(id);
    assert key == Key("CATALOG", "AGENT#" + id);
    EntryItemsAreTheEntries(es);
    assert key in items <==> key in CatalogPart(items);
    assert key in items ==> items[key] == EntryItems(es)[key];
    KeysTellAgentsApart();
  }

  /** After a rewrite the stored agents are the new entries. */
  lemma RewrittenById(items: Items, es: seq<Entry>, seeded: bool, id: string)
    requires DistinctIds(es)
    ensures var after := Run(items, WritePlan(items, es, seeded));
            && (forall e | e in es && e.virtualAgentId == id :: AgentIn(after, id) == Some(e))
            && (AgentIn(after, id).Some? ==>
                  AgentIn(after, id).value in es && AgentIn(after, id).value.virtualAgentId == id)
  {
    hide WritePlan, Run, EntryItems, CatalogPart, AgentIn;
    RewriteStoresTheEntries(items, es, seeded);
    StoredById(Run(items, WritePlan(items, es, seeded)), es, id);
  }

  /** A stored valid catalog is what is listed, agent by agent. */
  lemma ListedById(items: Items, id: string)
    requires HoldsCatalog(items)
    ensures Shaped(items) && DynList(items) == Success(Listing(items)) && ValidCatalog(Listing(items))
    ensures forall e | e in Listing(items) && e.virtualAgentId == id :: AgentIn(items, id) == Some(e)
    ensures AgentIn(items, id).Some? ==>
              AgentIn(items, id).value in Listing(items) && AgentIn(items, id).value.virtualAgentId == id
    ensures AgentIn(items, id).Some? <==> HasId(Listing(items), id)
  {
    hide EntryItems, CatalogPart, AgentIn, DynList, Listing, Shaped, WellNamed, TwoDefaults;
    var es :| Agree(Some(es), items);
    ListingOfStoredCatalog(items, es);
    SameMembers(Listing(items), es);
    StoredById(items, es, id);
  }

  /** Listings are validated: a listing succeeds exactly on a valid catalog, and an empty one says so. */
  lemma ListingsAreValidated(items: Items)
    requires Shaped(items)
    ensures DynList(items).Success? <==> ValidCatalog(Listing(items))
    ensures DynList(items).Success? ==> DynList(items).value == Listing(items)
    ensures DynList(items) == Failure(EmptyTable) <==> Listing(items) == []
  {
    hide ValidCatalog;
    VerdictIsValidity(Listing(items));
    NoVerdictSaysEmptyTable(Listing(items));
  }

  lemma NoVerdictSaysEmptyTable(es: seq<Entry>)
    ensures Verdict(es) != Fail(EmptyTable)
    ensures es == [] ==> Verdict(es) == Fail(EmptyCatalog)
  {
    NoFaultSaysEmptyTable(es, 0);
  }

  lemma {:induction false} NoFaultSaysEmptyTable(es: seq<Entry>, i: nat)
    requires i <= |es|
    ensures FirstFault(es, i) != Some(EmptyTable)
    decreases |es| - i
  {
    if i == |es| {
    } else {
      NoFaultSaysEmptyTable(es, i + 1);
    }
  }

  /* ---------- Repository operations ---------- */

  /** Dropping an agent keeps the others, in their order. */
  lemma {:induction false} WithoutInParts(a: seq<Entry>, b: seq<Entry>, e: Entry, id: string)
    ensures Without([e], id) == if e.virtualAgentId == id then [] else [e]
    ensures Without(a + b, id) == Without(a, id) + Without(b, id)
  {
    hide Without;
    WithoutOfOneMore([], e, id);
    NothingWithout(id);
    assert [] + [e] == [e];
    if b == [] {
      assert a + b == a;
    } else {
      var front, last := b[..|b| - 1], b[|b| - 1];
      WithoutInParts(a, front, e, id);
      WithoutOfOneMore(front, last, id);
      WithoutOfOneMore(a + front, last, id);
      assert b == front + [last];
      Regroup(a, front, [last]);
      Regroup(Without(a, id), Without(front, id), if last.virtualAgentId == id then [] else [last]);
    }
  }

  lemma WithoutOfOneMore(es: seq<Entry>, e: Entry, id: string)
    ensures Without(es + [e], id) == Without(es, id) + if e.virtualAgentId == id then [] else [e]
  {
    assert (es + [e])[..|es|] == es;
  }

  lemma NothingWithout(id: string)
    ensures Without([], id) == []
  {
  }

  lemma SaveStep(items: Items, entry: Entry)
    requires Shaped(items) && DynList(items) == Success(Listing(items))
    ensures var updated := Without(Listing(items), entry.virtualAgentId) + [entry];
            var step := DynStep(items, SaveAgent(entry));
            && (Verdict(updated).Pass? ==> step == (Run(items, WritePlan(items, updated, false)), Done))
            && (Verdict(updated).Fail? ==> step == (items, Raised(Verdict(updated).error)))
  {
    hide WritePlan, Run, Listing, DynList, Verdict, Shaped, Without;
  }

  /**
   A saved agent is stored as given, and every other agent as before; saving fails exactly on a blank id,
   a blank name or a second default, and then changes nothing.
   */
  lemma SaveStoresTheAgent(items: Items, entry: Entry, id: string)
    requires HoldsCatalog(items)
    ensures Shaped(items)
    ensures var (items', reply) := DynStep(items, SaveAgent(entry));
            && (reply == Done <==>
                  && !Blank(entry.virtualAgentId) && !Blank(entry.virtualAgentName)
                  && !(entry.isDefault &&
                       exists e :: e in Listing(items) && e.isDefault && e.virtualAgentId != entry.virtualAgentId))
            && (reply != Done ==> items' == items)
            && (reply == Done ==>
                  && AgentIn(items', id) == (if id == entry.virtualAgentId then Some(entry) else AgentIn(items, id))
                  && Lookup(items', Key("CATALOG", "META")) ==
                     Some(CatalogMeta(|Without(Listing(items), entry.virtualAgentId)| + 1, false)))
  {
    hide WritePlan, Run, AgentIn, Listing, DynList, DynStep, Verdict, Shaped, HoldsCatalog, Blank, Without;
    hide ValidCatalog;
    ListedById(items, id);
    SaveStep(items, entry);
    UpsertOfValidCatalog(Listing(items), entry);
    var updated := Without(Listing(items), entry.virtualAgentId) + [entry];
    VerdictIsValidity(updated);
    MetaIsWritten(items, updated, false);
    if Verdict(updated).Pass? {
      DistinctInValid(updated);
      RewrittenWith(items, Listing(items), entry, id);
    }
  }

  lemma RewrittenWith(items: Items, es: seq<Entry>, entry: Entry, id: string)
    requires DistinctIds(Without(es, entry.virtualAgentId) + [entry])
    requires forall e | e in es && e.virtualAgentId == id :: AgentIn(items, id) == Some(e)
    requires AgentIn(items, id).Some? ==>
               AgentIn(items, id).value in es && AgentIn(items, id).value.virtualAgentId == id
    ensures AgentIn(Run(items, WritePlan(items, Without(es, entry.virtualAgentId) + [entry], false)), id) ==
            if id == entry.virtualAgentId then Some(entry) else AgentIn(items, id)
  {
    hide WritePlan, Run, AgentIn, DistinctIds;
    var updated := Without(es, entry.virtualAgentId) + [entry];
    RewrittenById(items, updated, false, id);
    assert entry in updated;
    assert forall e | e in es && e.virtualAgentId != entry.virtualAgentId :: e in updated;
  }

  lemma MetaIsWritten(items: Items, es: seq<Entry>, seeded: bool)
    ensures Lookup(Run(items, WritePlan(items, es, seeded)), Key("CATALOG", "META")) == Some(CatalogMeta(|es|, seeded))
  {
    hide WritePlan, Run, EntryItems;
    FinishedRewrite(items, es, seeded);
    assert MetaKey() == Key("CATALOG", "META");
  }

  lemma RemoveStep(items: Items, gone: string)
    requires Shaped(items) && DynList(items) == Success(Listing(items))
    ensures var (step, left) := (DynStep(items, RemoveAgent(gone)), Without(Listing(items), gone));
            && (|left| == |Listing(items)| ==> step == (items, Raised(AgentNotFound(gone))))
            && (|left| != |Listing(items)| && Verdict(left).Pass? ==>
                  step == (Run(items, WritePlan(items, left, false)), Done))
            && (|left| != |Listing(items)| && Verdict(left).Fail? ==> step == (items, Raised(Verdict(left).error)))
  {
    hide WritePlan, Run, Listing, DynList, Verdict, Shaped, Without;
  }

  lemma LeftAfter(es: seq<Entry>, gone: string)
    requires ValidCatalog(es)
    ensures |Without(es, gone)| == |es| <==> !HasId(es, gone)
    ensures Without(es, gone) == [] <==> forall e | e in es :: e.virtualAgentId == gone
    ensures Verdict(Without(es, gone)) == if Without(es, gone) == [] then Fail(EmptyCatalog) else Pass
    ensures DistinctIds(Without(es, gone))
  {
    hide Verdict, WellNamed, TwoDefaults;
    WithoutDropsOnlyTheId(es, gone);
    WithoutKeepsIdsDistinct(es, gone);
    RemovalFromValidCatalog(es, gone);
    if e :| e in es && e.virtualAgentId != gone {
      assert e in Without(es, gone);
    }
    if Without(es, gone) != [] {
      assert Without(es, gone)[0] in Without(es, gone);
    }
  }

  /** Removing an agent that is not the last removes it and leaves every other agent as before. */
  lemma RemoveDropsTheAgent(items: Items, gone: string, id: string)
    requires HoldsCatalog(items)
    ensures Shaped(items)
    ensures var (items', reply) := DynStep(items, RemoveAgent(gone));
            && (reply == Done ==> AgentIn(items', id) == if id == gone then None else AgentIn(items, id))
            && (reply == Raised(AgentNotFound(gone)) <==> AgentIn(items, gone) == None)
            && (reply == Done <==>
                  AgentIn(items, gone).Some? && exists e :: e in Listing(items) && e.virtualAgentId != gone)
            && (reply != Done ==>
                  items' == items && (reply == Raised(AgentNotFound(gone)) || reply == Raised(EmptyCatalog)))
  {
    hide WritePlan, Run, AgentIn, Listing, DynList, DynStep, Verdict, Shaped, HoldsCatalog, ValidCatalog, Without;
    ListedById(items, id);
    ListedById(items, gone);
    LeftAfter(Listing(items), gone);
    RemoveStep(items, gone);
    RewrittenWithout(items, Listing(items), gone, id);
  }

  lemma RewrittenWithout(items: Items, es: seq<Entry>, gone: string, id: string)
    requires DistinctIds(Without(es, gone))
    requires forall e | e in es && e.virtualAgentId == id :: AgentIn(items, id) == Some(e)
    requires AgentIn(items, id).Some? ==>
               AgentIn(items, id).value in es && AgentIn(items, id).value.virtualAgentId == id
    ensures AgentIn(Run(items, WritePlan(items, Without(es, gone), false)), id) ==
            if id == gone then None else AgentIn(items, id)
  {
    hide WritePlan, Run, AgentIn;
    RewrittenById(items, Without(es, gone), false, id);
    assert forall e | e in es && e.virtualAgentId != gone :: e in Without(es, gone);
  }

  /** Replacing stores exactly the given entries, if they are a valid catalog, and META counts them. */
  lemma ReplaceStoresTheEntries(items: Items, es: seq<Entry>, id: string)
    requires Shaped(items)
    ensures var (items', reply) := DynStep(items, ReplaceAll(es));
            && (reply == Done <==> ValidCatalog(es))
            && (reply == Done ==>
                  && (forall e | e in es && e.virtualAgentId == id :: AgentIn(items', id) == Some(e))
                  && (AgentIn(items', id).Some? ==> AgentIn(items', id).value in es)
                  && Lookup(items', Key("CATALOG", "META")) == Some(CatalogMeta(|es|, false)))
  {
    hide WritePlan, Run, AgentIn, Verdict, Shaped, WellNamed, TwoDefaults;
    VerdictIsValidity(es);
    if ValidCatalog(es) {
      RewrittenById(items, es, false, id);
      MetaIsWritten(items, es, false);
    }
  }

  /** The first seed stores exactly the file's entries. */
  lemma SeedStoresTheFile(items: Items, file: SeedFile, id: string)
    requires Shaped(items) && file.Success? && Lookup(items, Key("CATALOG", "META")) == None
    ensures var (items', reply) := DynStep(items, EnsureSeeded(file));
            && reply == Done
            && (forall e | e in file.value && e.virtualAgentId == id :: AgentIn(items', id) == Some(e))
            && (AgentIn(items', id).Some? ==> AgentIn(items', id).value in file.value)
            && Lookup(items', Key("CATALOG", "META")) == Some(CatalogMeta(|file.value|, true))
  {
    hide WritePlan, Run, AgentIn, Verdict, Shaped, WellNamed, TwoDefaults;
    VerdictIsValidity(file.value);
    assert MetaKey() == Key("CATALOG", "META");
    RewrittenById(items, file.value, true, id);
    MetaIsWritten(items, file.value, true);
  }

  /** The in-memory repository keeps the order of its entries and puts a saved agent last. */
  lemma InMemoryKeepsTheOrder(es: seq<Entry>, config: SeedFile, op: CatalogOp)
    ensures MemStep(Some(es), config, op).1.Raised? ==> MemStep(Some(es), config, op).0 == Some(es)
    ensures !MemStep(Some(es), config, op).1.Raised? ==>
              MemStep(Some(es), config, op).0 ==
              Some(if op.SaveAgent? then Without(es, op.entry.virtualAgentId) + [op.entry]
                   else if op.RemoveAgent? then Without(es, op.id)
                   else if op.ReplaceAll? then op.entries
                   else es)
    ensures MemStep(Some(es), config, ListAgents).1 == Listed(es)
    ensures config.Success? ==> MemStep(None, config, ListAgents) == (Some(config.value), Listed(config.value))
    ensures config.Failure? ==> MemStep(None, config, ListAgents) == (None, Raised(config.error))
  {
    hide Verdict;
  }

  /* ---------- Management commands ---------- */

  /** An add, update or set-default on a stored catalog stores the edited list, or changes nothing. */
  lemma EditStep(items: Items, command: Command)
    requires HoldsCatalog(items) && !command.Remove?
    ensures Shaped(items)
    ensures var (step, edited) := (CliStep(items, command), Edited(Listing(items), command));
            && (edited.Failure? ==> step == (items, edited.error))
            && (edited.Success? && Verdict(edited.value).Fail? ==>
                  step == (items, ErrorPrinted(Verdict(edited.value).error)))
            && (edited.Success? && Verdict(edited.value).Pass? ==>
                  step == (Run(items, WritePlan(items, edited.value, false)), Ok))
  {
    hide WritePlan, Run, Listing, DynList, Verdict, Shaped, HoldsCatalog, Edited, ValidCatalog;
    ListedById(items, "");
  }

  /** The agent as an update with these arguments leaves it. */
  function AsUpdated(e: Entry, newName: Option<string>, newDefault: Option<bool>): Entry {
    Entry(e.virtualAgentId, if newName.Some? then newName.value else e.virtualAgentName,
          if newDefault.Some? then newDefault.value else e.isDefault)
  }

  /** The agent while another becomes the default. */
  function NotDefault(e: Entry): Entry {
    Entry(e.virtualAgentId, e.virtualAgentName, false)
  }

  /**
   A successful add stores the new agent as given and keeps every earlier one, which loses its default
   flag exactly if the new one is the default. It fails on a known id, a blank id and a blank name, with
   its own message for each, and on nothing else.
   */
  lemma AddKeepsTheOthers(items: Items, newId: string, name: string, isDefault: bool, id: string)
    requires HoldsCatalog(items)
    ensures Shaped(items)
    ensures var (items', exit) := CliStep(items, Add(newId, name, isDefault));
            && exit == (if AgentIn(items, newId).Some? then DuplicateIdPrinted
                        else if Blank(newId) then ErrorPrinted(BlankId)
                        else if Blank(name) then ErrorPrinted(BlankName(newId))
                        else Ok)
            && (exit == Ok ==>
                  AgentIn(items', id) ==
                  if id == newId then Some(Entry(newId, name, isDefault))
                  else if AgentIn(items, id).None? then None
                  else if isDefault then Some(NotDefault(AgentIn(items, id).value))
                  else AgentIn(items, id))
  {
    hide WritePlan, Run, AgentIn, Listing, Verdict, Shaped, HoldsCatalog, CliStep, ValidCatalog, Blank;
    ListedById(items, id);
    ListedById(items, newId);
    EditStep(items, Add(newId, name, isDefault));
    var l := Listing(items);
    if !HasId(l, newId) {
      AddFailsOnlyOnBlanks(l, newId, name, isDefault);
      var added := Added(l, newId, name, isDefault).value;
      if !Blank(newId) && !Blank(name) {
        VerdictIsValidity(added);
        DistinctInValid(added);
        RewrittenById(items, added, false, id);
        MembersOfAdded(l, newId, name, isDefault);
      }
    }
  }

  lemma MembersOfAdded(es: seq<Entry>, id: string, name: string, isDefault: bool)
    requires !HasId(es, id)
    ensures var added := Added(es, id, name, isDefault).value;
            && Entry(id, name, isDefault) in added
            && (forall e | e in es :: (if isDefault then NotDefault(e) else e) in added)
            && (forall e | e in added && e.virtualAgentId != id ::
                  exists o :: o in es && e == if isDefault then NotDefault(o) else o)
  {
    var added := Added(es, id, name, isDefault).value;
    assert added[|es|] == Entry(id, name, isDefault);
    forall e | e in es ensures (if isDefault then NotDefault(e) else e) in added {
      var i :| 0 <= i < |es| && es[i] == e;
      assert added[i] == if isDefault then NotDefault(e) else e;
    }
    forall e | e in added && e.virtualAgentId != id
      ensures exists o :: o in es && e == if isDefault then NotDefault(o) else o
    {
      var i :| 0 <= i < |added| && added[i] == e;
      assert es[i] in es;
    }
  }

  /**
   A successful update, or set-default, stores the agent with its new name and flag, where given, and
   keeps every other one, which loses its default flag exactly if this one is made the default. It fails
   on an unknown id and on a blank new name, and on nothing else.
   */
  lemma UpdateChangesTheAgent(
    items: Items, agent: string, newName: Option<string>, newDefault: Option<bool>, id: string)
    requires HoldsCatalog(items)
    ensures Shaped(items)
    ensures newName == None && newDefault == Some(true) ==>
              CliStep(items, SetDefault(agent)) == CliStep(items, Update(agent, newName, newDefault))
    ensures var (items', exit) := CliStep(items, Update(agent, newName, newDefault));
            && exit == (if AgentIn(items, agent).None? then NotFoundPrinted
                        else if newName.Some? && Blank(newName.value) then ErrorPrinted(BlankName(agent))
                        else Ok)
            && (exit == Ok ==>
                  AgentIn(items', id) ==
                  if AgentIn(items, id).None? then None
                  else if id == agent then Some(AsUpdated(AgentIn(items, id).value, newName, newDefault))
                  else if newDefault == Some(true) then Some(NotDefault(AgentIn(items, id).value))
                  else AgentIn(items, id))
  {
    hide WritePlan, Run, AgentIn, Listing, Verdict, Shaped, HoldsCatalog, CliStep, ValidCatalog, Blank;
    hide HasId, DistinctIds, RenamedAll, OnlyDefault;
    ListedById(items, id);
    ListedById(items, agent);
    EditStep(items, Update(agent, newName, newDefault));
    SetDefaultIsAnUpdate(items, agent);
    var l := Listing(items);
    if HasId(l, agent) {
      UpdateFailsOnlyOnBlankName(l, agent, newName, newDefault);
      var updated := Updated(l, agent, newName, newDefault).value;
      if !(newName.Some? && Blank(newName.value)) {
        VerdictIsValidity(updated);
        DistinctInValid(updated);
        UpdatedById(items, l, agent, newName, newDefault, id);
      }
    }
  }

  lemma SetDefaultIsAnUpdate(items: Items, agent: string)
    requires Shaped(items)
    ensures CliStep(items, SetDefault(agent)) == CliStep(items, Update(agent, None, Some(true)))
  {
    hide DynList, Shaped, Updated, ReplaceStep;
  }

  lemma UpdatedById(
    items: Items, es: seq<Entry>, agent: string, newName: Option<string>, newDefault: Option<bool>, id: string)
    requires HasId(es, agent) && DistinctIds(Updated(es, agent, newName, newDefault).value)
    requires forall e | e in es && e.virtualAgentId == id :: AgentIn(items, id) == Some(e)
    requires AgentIn(items, id).Some? ==>
               AgentIn(items, id).value in es && AgentIn(items, id).value.virtualAgentId == id
    ensures AgentIn(Run(items, WritePlan(items, Updated(es, agent, newName, newDefault).value, false)), id) ==
            if AgentIn(items, id).None? then None
            else Some(OneUpdated(AgentIn(items, id).value, agent, newName, newDefault))
  {
    hide WritePlan, Run, AgentIn, Updated, HasId, DistinctIds;
    MembersOfUpdated(es, agent, newName, newDefault);
    UpdateSucceeds(es, agent, newName, newDefault);
    RewrittenById(items, Updated(es, agent, newName, newDefault).value, false, id);
  }

  lemma UpdateSucceeds(es: seq<Entry>, agent: string, newName: Option<string>, newDefault: Option<bool>)
    requires HasId(es, agent)
    ensures Updated(es, agent, newName, newDefault).Success?
  {
  }

  function OneUpdated(e: Entry, agent: string, newName: Option<string>, newDefault: Option<bool>): Entry {
    if e.virtualAgentId == agent then AsUpdated(e, newName, newDefault)
    else if newDefault == Some(true) then NotDefault(e)
    else e
  }

  lemma MembersOfUpdated(es: seq<Entry>, agent: string, newName: Option<string>, newDefault: Option<bool>)
    requires HasId(es, agent)
    ensures var updated := Updated(es, agent, newName, newDefault).value;
            && (forall e | e in es :: OneUpdated(e, agent, newName, newDefault) in updated)
            && (forall e | e in updated :: exists o :: o in es && e == OneUpdated(o, agent, newName, newDefault))
  {
    var updated := Updated(es, agent, newName, newDefault).value;
    assert forall i | 0 <= i < |es| :: updated[i] == OneUpdated(es[i], agent, newName, newDefault);
    forall e | e in es ensures OneUpdated(e, agent, newName, newDefault) in updated {
      var i :| 0 <= i < |es| && es[i] == e;
      assert updated[i] in updated;
    }
    forall e | e in updated ensures exists o :: o in es && e == OneUpdated(o, agent, newName, newDefault) {
      var i :| 0 <= i < |updated| && updated[i] == e;
      assert es[i] in es;
    }
  }

  /**
   A successful remove drops the agent and keeps every other one as it is; an unknown id and the last
   agent are refused, each with its own message.
   */
  lemma RemoveCommandDropsTheAgent(items: Items, gone: string, id: string)
    requires HoldsCatalog(items)
    ensures Shaped(items)
    ensures var (items', exit) := CliStep(items, Remove(gone));
            && exit == (if AgentIn(items, gone).None? then NotFoundPrinted
                        else if exists e :: e in Listing(items) && e.virtualAgentId != gone then Ok
                        else ErrorPrinted(EmptyCatalog))
            && AgentIn(items', id) == if exit == Ok && id == gone then None else AgentIn(items, id)
  {
    hide AgentIn, Listing, DynStep, Shaped, HoldsCatalog, SaysNotFound;
    RemoveDropsTheAgent(items, gone, id);
    NotFoundTextSaysSo(gone);
  }

  /* ---------- Which error is raised ---------- */

  /**
   The first entry at fault decides: a blank id before a blank name, and both before a repeated id. Only a
   catalog without such an entry can be refused for its defaults.
   */
  lemma ErrorsInOrder(es: seq<Entry>, k: nat)
    requires k <= |es|
    requires forall i | 0 <= i < k ::
               && !Blank(es[i].virtualAgentId) && !Blank(es[i].virtualAgentName)
               && forall j | 0 <= j < i :: es[j].virtualAgentId != es[i].virtualAgentId
    ensures Verdict([]) == Fail(EmptyCatalog)
    ensures k < |es| && Blank(es[k].virtualAgentId) ==> Verdict(es) == Fail(BlankId)
    ensures k < |es| && !Blank(es[k].virtualAgentId) && Blank(es[k].virtualAgentName) ==>
              Verdict(es) == Fail(BlankName(es[k].virtualAgentId))
    ensures k < |es| && !Blank(es[k].virtualAgentId) && !Blank(es[k].virtualAgentName) ==>
              (exists j :: 0 <= j < k && es[j].virtualAgentId == es[k].virtualAgentId) ==>
              Verdict(es) == Fail(DuplicateId(es[k].virtualAgentId))
    ensures k == |es| > 0 ==>
              Verdict(es) ==
              if exists i, j :: 0 <= i < j < |es| && es[i].isDefault && es[j].isDefault then Fail(MultipleDefaults)
              else Pass
  {
    hide Blank;
    assert forall i | 0 <= i < k :: EntryFault(es, i).None?;
    if k < |es| && EntryFault(es, k).Some? {
      FirstFaultIsAt(es, 0, k);
    }
    if k == |es| {
      NoFaultFrom(es, 0);
    }
  }

  lemma {:induction false} NoFaultFrom(es: seq<Entry>, i: nat)
    requires i <= |es| && forall k | i <= k < |es| :: EntryFault(es, k).None?
    ensures FirstFault(es, i) == None
    decreases |es| - i
  {
    if i == |es| {
    } else {
      NoFaultFrom(es, i + 1);
    }
  }
}
