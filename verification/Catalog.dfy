/** The virtual agent catalog and its aggregate rules (`src/byova/catalog.py`). */
module Catalog {
  import opened Results
  import opened Text

  datatype Entry = Entry(virtualAgentId: string, virtualAgentName: string, isDefault: bool)

  /** Everything that loading, validating or changing a catalog can raise. */
  datatype CatalogError =
    | EmptyCatalog
    | BlankId
    | BlankName(id: string)
    | DuplicateId(id: string)
    | MultipleDefaults
    | EmptyTable
    | UnreadableFile
    | AgentNotFound(id: string)

  /* ---------- What a valid catalog is ---------- */

  predicate DistinctIds(es: seq<Entry>) {
    forall i, j | 0 <= i < j < |es| :: es[i].virtualAgentId != es[j].virtualAgentId
  }

  predicate WellNamed(es: seq<Entry>) {
    forall e | e in es :: !Blank(e.virtualAgentId) && !Blank(e.virtualAgentName)
  }

  predicate TwoDefaults(es: seq<Entry>) {
    exists i, j :: 0 <= i < j < |es| && es[i].isDefault && es[j].isDefault
  }

  /** At least one agent, usable names, unique ids and at most one default. */
  predicate ValidCatalog(es: seq<Entry>) {
    es != [] && WellNamed(es) && DistinctIds(es) && !TwoDefaults(es)
  }

  predicate HasId(es: seq<Entry>, id: string) {
    exists e :: e in es && e.virtualAgentId == id
  }

  /* ---------- Which error an invalid catalog raises ---------- */

  /** The complaint about entry i, given the entries before it. */
  function EntryFault(es: seq<Entry>, i: nat): Option<CatalogError>
    requires i < |es|
  {
    if Blank(es[i].virtualAgentId) then Some(BlankId)
    else if Blank(es[i].virtualAgentName) then Some(BlankName(es[i].virtualAgentId))
    else if exists j :: 0 <= j < i && es[j].virtualAgentId == es[i].virtualAgentId then
      Some(DuplicateId(es[i].virtualAgentId))
    else None
  }

  /** The first complaint at or after entry i. */
  function FirstFault(es: seq<Entry>, i: nat): Option<CatalogError>
    requires i <= |es|
    decreases |es| - i
  {
    if i == |es| then None
    else if EntryFault(es, i).Some? then EntryFault(es, i)
    else FirstFault(es, i + 1)
  }

  function Verdict(es: seq<Entry>): Outcome<CatalogError> {
    if es == [] then Fail(EmptyCatalog)
    else match FirstFault(es, 0)
      case Some(error) => Fail(error)
      case None => if TwoDefaults(es) then Fail(MultipleDefaults) else Pass
  }

  /** One pass over the entries with a set of seen ids and a count of defaults. */
  method ValidateCatalogEntries(entries: seq<Entry>) returns (r: Outcome<CatalogError>)
    ensures r == Verdict(entries)
  {
    if entries == [] {
      return Fail(EmptyCatalog);
    }
    var seenIds: set<string> := {};
    var defaultCount := 0;
    for i := 0 to |entries|
      invariant forall id :: id in seenIds <==> exists j :: 0 <= j < i && entries[j].virtualAgentId == id
      invariant FirstFault(entries, 0) == FirstFault(entries, i)
      invariant defaultCount >= 0
      invariant defaultCount == 0 <==> forall j | 0 <= j < i :: !entries[j].isDefault
      invariant defaultCount > 1 <==> TwoDefaults(entries[..i])
    {
      var entry := entries[i];
      assert entries[..i + 1] == entries[..i] + [entry];
      if Blank(entry.virtualAgentId) {
        return Fail(BlankId);
      }
      if Blank(entry.virtualAgentName) {
        return Fail(BlankName(entry.virtualAgentId));
      }
      if entry.virtualAgentId in seenIds {
        return Fail(DuplicateId(entry.virtualAgentId));
      }
      seenIds := seenIds + {entry.virtualAgentId};
      OneMoreDefault(entries, i);
      if entry.isDefault {
        defaultCount := defaultCount + 1;
      }
    }
    assert entries[..|entries|] == entries;
    if defaultCount > 1 {
      return Fail(MultipleDefaults);
    }
    return Pass;
  }

  lemma OneMoreDefault(es: seq<Entry>, i: nat)
    requires i < |es|
    ensures TwoDefaults(es[..i + 1]) <==>
            TwoDefaults(es[..i]) || (es[i].isDefault && exists j :: 0 <= j < i && es[j].isDefault)
  {
    var longer, shorter := es[..i + 1], es[..i];
    if TwoDefaults(shorter) {
      var a, b :| 0 <= a < b < |shorter| && shorter[a].isDefault && shorter[b].isDefault;
      assert longer[a].isDefault && longer[b].isDefault;
    }
    if es[i].isDefault && exists j :: 0 <= j < i && es[j].isDefault {
      var j :| 0 <= j < i && es[j].isDefault;
      assert longer[j].isDefault && longer[i].isDefault;
    }
    if TwoDefaults(longer) {
      var a, b :| 0 <= a < b < |longer| && longer[a].isDefault && longer[b].isDefault;
      if b < i {
        assert shorter[a].isDefault && shorter[b].isDefault;
      } else {
        assert es[a].isDefault;
      }
    }
  }

  lemma {:induction false} FirstFaultMeansBadEntry(es: seq<Entry>, i: nat)
    requires i <= |es|
    ensures FirstFault(es, i).None? <==> forall k | i <= k < |es| :: EntryFault(es, k).None?
    decreases |es| - i
  {
    if i >= |es| {
    } else {
      FirstFaultMeansBadEntry(es, i + 1);
    }
  }

  /** Validation passes exactly on the valid catalogs. */
  lemma VerdictIsValidity(es: seq<Entry>)
    ensures Verdict(es).Pass? <==> ValidCatalog(es)
  {
    FirstFaultMeansBadEntry(es, 0);
    if ValidCatalog(es) {
      forall k | 0 <= k < |es| ensures EntryFault(es, k).None? {
        assert es[k] in es;
      }
    }
    if Verdict(es).Pass? {
      forall e | e in es ensures !Blank(e.virtualAgentId) && !Blank(e.virtualAgentName) {
        var k :| 0 <= k < |es| && es[k] == e;
        assert EntryFault(es, k).None?;
      }
      forall i, j | 0 <= i < j < |es| ensures es[i].virtualAgentId != es[j].virtualAgentId {
        assert EntryFault(es, j).None?;
      }
    }
  }

  /* ---------- The verdict does not depend on the order of the entries ---------- */

  lemma RepeatCountsTwice<T>(s: seq<T>, i: nat, j: nat)
    requires i < j < |s| && s[i] == s[j]
    ensures multiset(s)[s[i]] >= 2
  {
    assert s == s[..j] + s[j..];
    assert s[..j][i] in s[..j] && s[j..][0] in s[j..];
  }

  lemma {:induction false} NoRepeatCountsOnce<T>(s: seq<T>)
    requires NoRepeats(s)
    ensures forall x :: multiset(s)[x] == if x in s then 1 else 0
  {
    if s == [] {
    } else {
      var front := s[..|s| - 1];
      NoRepeatCountsOnce(front);
      assert s == front + [s[|s| - 1]];
      assert s[|s| - 1] !in front;
    }
  }

  /** Sequences without repeats that hold the same elements are permutations of each other. */
  lemma SameElementsSameMultiset<T>(s: seq<T>, t: seq<T>)
    requires NoRepeats(s) && NoRepeats(t)
    requires forall x :: x in s <==> x in t
    ensures multiset(s) == multiset(t)
  {
    NoRepeatCountsOnce(s);
    NoRepeatCountsOnce(t);
    forall x ensures multiset(s)[x] == multiset(t)[x] {
    }
  }

  lemma ValidCatalogIgnoresOrder(a: seq<Entry>, b: seq<Entry>)
    requires multiset(a) == multiset(b)
    requires ValidCatalog(a)
    ensures ValidCatalog(b)
  {
    SameMembers(a, b);
    NoRepeatCountsOnce(a);
    forall i, j | 0 <= i < j < |b| ensures b[i].virtualAgentId != b[j].virtualAgentId {
      if b[i].virtualAgentId == b[j].virtualAgentId {
        assert b[i] in a && b[j] in a;
        assert b[i] == b[j];
        RepeatCountsTwice(b, i, j);
      }
    }
    assert b != [] by {
      assert a[0] in b;
    }
  }

  lemma SameMembers(a: seq<Entry>, b: seq<Entry>)
    requires multiset(a) == multiset(b)
    ensures forall e :: e in a <==> e in b
  {
    forall e ensures e in a <==> e in b {
      assert e in a <==> e in multiset(a);
      assert e in b <==> e in multiset(b);
    }
  }

  /** Permuting a catalog never changes whether it validates. */
  lemma VerdictIgnoresOrder(a: seq<Entry>, b: seq<Entry>)
    requires multiset(a) == multiset(b)
    ensures Verdict(a).Pass? == Verdict(b).Pass?
  {
    VerdictIsValidity(a);
    VerdictIsValidity(b);
    if ValidCatalog(a) {
      ValidCatalogIgnoresOrder(a, b);
    } else if ValidCatalog(b) {
      ValidCatalogIgnoresOrder(b, a);
    }
  }

  /* ---------- Dropping and appending an entry ---------- */

  /** The entries whose id differs, in order. */
  function Without(es: seq<Entry>, id: string): (r: seq<Entry>)
    ensures forall e :: e in r <==> e in es && e.virtualAgentId != id
  {
    if es == [] then []
    else
      var front := es[..|es| - 1];
      var last := es[|es| - 1];
      assert es == front + [last];
      if last.virtualAgentId == id then Without(front, id) else Without(front, id) + [last]
  }

  lemma {:induction false} WithoutDropsOnlyTheId(es: seq<Entry>, id: string)
    ensures |Without(es, id)| <= |es|
    ensures |Without(es, id)| == |es| <==> !HasId(es, id)
    ensures !HasId(es, id) ==> Without(es, id) == es
  {
    if es == [] {
    } else {
      var front, last := es[..|es| - 1], es[|es| - 1];
      WithoutDropsOnlyTheId(front, id);
      assert es == front + [last];
      assert last in es;
      assert HasId(es, id) <==> HasId(front, id) || last.virtualAgentId == id;
    }
  }

  lemma {:induction false} WithoutKeepsIdsDistinct(es: seq<Entry>, id: string)
    requires DistinctIds(es)
    ensures DistinctIds(Without(es, id))
  {
    if es == [] {
    } else {
      var front, last := es[..|es| - 1], es[|es| - 1];
      WithoutKeepsIdsDistinct(front, id);
      forall e | e in Without(front, id) ensures e.virtualAgentId != last.virtualAgentId {
        assert e in front;
      }
    }
  }

  /** Two defaults in a catalog with distinct ids are two different members. */
  lemma TwoDefaultsAsMembers(es: seq<Entry>)
    requires DistinctIds(es)
    ensures TwoDefaults(es) <==>
            exists d, e :: d in es && e in es && d.isDefault && e.isDefault && d.virtualAgentId != e.virtualAgentId
  {
    if TwoDefaults(es) {
      var i, j :| 0 <= i < j < |es| && es[i].isDefault && es[j].isDefault;
      assert es[i] in es && es[j] in es;
    }
    if d, e :| d in es && e in es && d.isDefault && e.isDefault && d.virtualAgentId != e.virtualAgentId {
      var i :| 0 <= i < |es| && es[i] == d;
      var j :| 0 <= j < |es| && es[j] == e;
    }
  }

  /** What validation says when an entry replaces its namesake in, or joins, a valid catalog. */
  function UpsertVerdict(es: seq<Entry>, entry: Entry): Outcome<CatalogError> {
    if Blank(entry.virtualAgentId) then Fail(BlankId)
    else if Blank(entry.virtualAgentName) then Fail(BlankName(entry.virtualAgentId))
    else if entry.isDefault && exists d :: d in es && d.isDefault && d.virtualAgentId != entry.virtualAgentId then
      Fail(MultipleDefaults)
    else Pass
  }

  /** The verdict on an upsert names the new entry's own fault, whatever the order of the others. */
  lemma UpsertOfValidCatalog(es: seq<Entry>, entry: Entry)
    requires ValidCatalog(es)
    ensures Verdict(Without(es, entry.virtualAgentId) + [entry]) == UpsertVerdict(es, entry)
  {
    var rest := Without(es, entry.virtualAgentId);
    var updated := rest + [entry];
    WithoutKeepsIdsDistinct(es, entry.virtualAgentId);
    forall k | 0 <= k < |rest| ensures EntryFault(updated, k).None? {
      assert updated[k] == rest[k] && rest[k] in es;
    }
    FirstFaultAtTheEnd(updated, 0);
    assert updated[|rest|] == entry;
    forall j | 0 <= j < |rest| ensures updated[j].virtualAgentId != entry.virtualAgentId {
      assert updated[j] in rest;
    }
    TwoDefaultsAsMembers(updated);
    TwoDefaultsAsMembers(es);
    assert entry in updated;
    assert forall d :: d in updated <==> d == entry || (d in es && d.virtualAgentId != entry.virtualAgentId);
  }

  lemma {:induction false} FirstFaultAtTheEnd(es: seq<Entry>, i: nat)
    requires i < |es|
    requires forall k | i <= k < |es| - 1 :: EntryFault(es, k).None?
    ensures FirstFault(es, i) == EntryFault(es, |es| - 1)
    decreases |es| - i
  {
    if i < |es| - 1 {
      FirstFaultAtTheEnd(es, i + 1);
    }
  }

  /** Removing entries from a valid catalog can only fail by emptying it. */
  lemma RemovalFromValidCatalog(es: seq<Entry>, id: string)
    requires ValidCatalog(es)
    ensures Verdict(Without(es, id)) == if Without(es, id) == [] then Fail(EmptyCatalog) else Pass
  {
    WithoutKeepsIdsDistinct(es, id);
    TwoDefaultsAsMembers(es);
    TwoDefaultsAsMembers(Without(es, id));
    VerdictIsValidity(Without(es, id));
  }
}
