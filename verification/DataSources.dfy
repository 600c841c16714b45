/** Data source registration for one org (`src/byods/service.py`) over the remote list. */
module DataSources {
  import opened Results
  import opened Text

  /** A data source as the remote service holds it. */
  datatype Record = Record(id: string, url: string)

  /** What a listing shows of a record: the extra fields `url` and `id`, either of which may be missing. */
  datatype ListItem = ListItem(url: Option<string>, id: Option<string>)

  datatype ServiceError = DuplicateUrl

  /** Settings of auto-registration; the URL is absent when none can be built. */
  datatype AutoConfig = AutoConfig(enabled: bool, url: Option<string>)

  type Listing = Record -> ListItem

  /** A listing never shows a wrong url or a wrong id. */
  ghost predicate Truthful(shows: Listing) {
    forall r: Record ::
      && (shows(r).url.Some? ==> shows(r).url.value == r.url)
      && (shows(r).id.Some? ==> shows(r).id.value == "" || shows(r).id.value == r.id)
  }

  /** The listing shows the record's url, or an id to look it up by. */
  predicate Visible(shows: Listing, r: Record) {
    shows(r).url == Some(r.url) || (shows(r).id == Some(r.id) && r.id != "")
  }

  ghost predicate DistinctRecordIds(records: seq<Record>) {
    forall i, j | 0 <= i < j < |records| :: records[i].id != records[j].id
  }

  /** At most one data source per non-empty url. */
  ghost predicate OnePerUrl(records: seq<Record>) {
    forall i, j | 0 <= i < j < |records| && records[i].url == records[j].url :: records[i].url == ""
  }

  predicate HasId(records: seq<Record>, id: string) {
    exists r :: r in records && r.id == id
  }

  /** The check can see a data source with this url. */
  predicate SeesUrl(shows: Listing, records: seq<Record>, url: string) {
    exists r :: r in records && Visible(shows, r) && r.url == url
  }

  function Detail(records: seq<Record>, id: string): (url: string)
    requires HasId(records, id)
    ensures exists r :: r in records && r.id == id && r.url == url
  {
    assert records == [records[0]] + records[1..];
    if records[0].id == id then records[0].url else Detail(records[1..], id)
  }

  function WithoutId(records: seq<Record>, id: string): seq<Record> {
    if records == [] then []
    else (if records[0].id == id then [] else [records[0]]) + WithoutId(records[1..], id)
  }

  /* ---------- The operations ---------- */

  /** Create unless the check, made only for a non-empty url and unless skipped, sees the url. */
  function CreateStep(shows: Listing, records: seq<Record>, url: string, newId: string, skip: bool)
    : (seq<Record>, Outcome<ServiceError>)
  {
    if !skip && url != "" && SeesUrl(shows, records, url) then (records, Fail(DuplicateUrl))
    else (records + [Record(newId, url)], Pass)
  }

  /** The records after auto-registration, and whether one was created. */
  function AutoStep(shows: Listing, records: seq<Record>, config: AutoConfig, newId: string): (seq<Record>, bool) {
    if !config.enabled || config.url.None? || config.url.value == "" then (records, false)
    else if SeesUrl(shows, records, config.url.value) then (records, false)
    else (records + [Record(newId, config.url.value)], true)
  }

  /** The SDK client of one org. */
  class OrgClient {
    const shows: Listing
    var records: seq<Record>

    constructor (shows: Listing)
      ensures this.shows == shows && records == []
    {
      this.shows := shows;
      records := [];
    }

    method UrlExists(url: string) returns (found: bool)
      requires Truthful(shows) && DistinctRecordIds(records)
      ensures found <==> SeesUrl(shows, records, url)
      ensures found <==> exists r :: && r in records && r.url == url
                                     && (shows(r).url == Some(url) || (shows(r).id == Some(r.id) && r.id != ""))
    {
      for i := 0 to |records|
        invariant forall j | 0 <= j < i :: !(Visible(shows, records[j]) && records[j].url == url)
      {
        var item := shows(records[i]);
        assert records[i] in records;
        if item.url == Some(url) {
          return true;
        }
        if item.id.Some? && item.id.value != "" {
          assert HasId(records, item.id.value);
          var detail := Detail(records, item.id.value);
          SameIdSameRecord(records, i, item.id.value, detail);
          if detail == url {
            return true;
          }
        }
      }
      return false;
    }

    method CreateDataSource(url: string, newId: string, skip: bool) returns (r: Outcome<ServiceError>)
      requires Truthful(shows) && DistinctRecordIds(records)
      modifies this`records
      ensures (records, r) == CreateStep(shows, old(records), url, newId, skip)
    {
      if !skip && url != "" {
        var exists' := UrlExists(url);
        if exists' {
          return Fail(DuplicateUrl);
        }
      }
      records := records + [Record(newId, url)];
      return Pass;
    }

    method AutoRegister(config: AutoConfig, newId: string) returns (created: bool)
      requires Truthful(shows) && DistinctRecordIds(records)
      modifies this`records
      ensures (records, created) == AutoStep(shows, old(records), config, newId)
    {
      if !config.enabled {
        return false;
      }
      if config.url.None? || config.url.value == "" {
        return false;
      }
      var exists' := UrlExists(config.url.value);
      if exists' {
        return false;
      }
      var r := CreateDataSource(config.url.value, newId, true);
      return true;
    }

    method DeleteDataSource(id: string)
      modifies this`records
      ensures records == WithoutId(old(records), id)
    {
      records := WithoutId(records, id);
    }
  }

  lemma SameIdSameRecord(records: seq<Record>, i: nat, id: string, url: string)
    requires DistinctRecordIds(records) && i < |records| && records[i].id == id
    requires exists r :: r in records && r.id == id && r.url == url
    ensures records[i].url == url
  {
    var r :| r in records && r.id == id && r.url == url;
    var j :| 0 <= j < |records| && records[j] == r;
  }

  /* ---------- Runs ---------- */

  datatype Op =
    | Create(url: string, newId: string)
    | Auto(config: AutoConfig, newId: string)
    | DeleteById(id: string)

  function Step(shows: Listing, records: seq<Record>, op: Op): seq<Record> {
    match op
    case Create(url, newId) => CreateStep(shows, records, url, newId, false).0
    case Auto(config, newId) => AutoStep(shows, records, config, newId).0
    case DeleteById(id) => WithoutId(records, id)
  }

  function Run(shows: Listing, ops: seq<Op>): seq<Record> {
    if ops == [] then [] else Step(shows, Run(shows, ops[..|ops| - 1]), ops[|ops| - 1])
  }

  lemma {:induction false} WithoutIdIsSubsequence(records: seq<Record>, id: string)
    ensures forall r :: r in WithoutId(records, id) <==> r in records && r.id != id
    ensures OnePerUrl(records) ==> OnePerUrl(WithoutId(records, id))
  {
    if records == [] {
    } else {
      var first, rest := records[0], records[1..];
      WithoutIdIsSubsequence(rest, id);
      assert records == [first] + rest;
      assert WithoutId(records, id) == (if first.id == id then [] else [first]) + WithoutId(rest, id);
      hide WithoutId;
      if OnePerUrl(records) {
        assert forall r | r in rest && r.url == first.url :: r.url == "";
        assert OnePerUrl(rest);
      }
    }
  }

  lemma AppendKeepsOnePerUrl(records: seq<Record>, r: Record)
    requires OnePerUrl(records)
    ensures OnePerUrl(records + [r]) <==> r.url == "" || forall other | other in records :: other.url != r.url
  {
    if other :| other in records && other.url == r.url {
      var i :| 0 <= i < |records| && records[i] == other;
      assert (records + [r])[i].url == (records + [r])[|records|].url;
    }
  }

  /**
   Over every run of creates, auto-registrations and deletes, as long as the listing shows of each
   data source its url or its id, no non-empty url is ever registered twice.
   */
  lemma {:induction false} NoUrlTwice(shows: Listing, ops: seq<Op>)
    requires Truthful(shows) && forall r: Record :: Visible(shows, r)
    ensures OnePerUrl(Run(shows, ops))
  {
    if ops == [] {
    } else {
      var before, op := Run(shows, ops[..|ops| - 1]), ops[|ops| - 1];
      NoUrlTwice(shows, ops[..|ops| - 1]);
      match op
      case Create(url, newId) => AppendKeepsOnePerUrl(before, Record(newId, url));
      case Auto(config, newId) =>
        if config.url.Some? {
          AppendKeepsOnePerUrl(before, Record(newId, config.url.value));
        }
      case DeleteById(id) => WithoutIdIsSubsequence(before, id);
    }
  }

  /** The id that the service would give to what an operation creates. */
  function NewId(op: Op): Option<string> {
    match op
    case Create(_, newId) => Some(newId)
    case Auto(_, newId) => Some(newId)
    case DeleteById(_) => None
  }

  /** The service never gives out an id twice. */
  ghost predicate FreshIds(ops: seq<Op>) {
    forall i, j | 0 <= i < j < |ops| && NewId(ops[i]).Some? :: NewId(ops[i]) != NewId(ops[j])
  }

  /** With fresh ids every run leaves records with distinct ids, which is what the methods ask for. */
  lemma {:induction false} RunsKeepIdsDistinct(shows: Listing, ops: seq<Op>)
    requires FreshIds(ops)
    ensures DistinctRecordIds(Run(shows, ops))
    ensures forall r | r in Run(shows, ops) :: exists i :: 0 <= i < |ops| && NewId(ops[i]) == Some(r.id)
  {
    if ops == [] {
    } else {
      hide Run, Step, WithoutId, DistinctRecordIds;
      var front, op := ops[..|ops| - 1], ops[|ops| - 1];
      RunsKeepIdsDistinct(shows, front);
      RunOfOneMore(shows, ops);
      StepKeepsIdsDistinct(shows, Run(shows, front), op);
    }
  }

  lemma RunOfOneMore(shows: Listing, ops: seq<Op>)
    requires ops != []
    ensures Run(shows, ops) == Step(shows, Run(shows, ops[..|ops| - 1]), ops[|ops| - 1])
  {
  }

  lemma StepKeepsIdsDistinct(shows: Listing, records: seq<Record>, op: Op)
    requires DistinctRecordIds(records)
    requires forall r | r in records :: NewId(op) != Some(r.id)
    ensures DistinctRecordIds(Step(shows, records, op))
    ensures forall r | r in Step(shows, records, op) :: r in records || NewId(op) == Some(r.id)
  {
    match op
    case DeleteById(id) => WithoutIdKeepsIdsDistinct(records, id);
    case _ => assert forall i | 0 <= i < |records| :: records[i] in records;
  }

  lemma {:induction false} WithoutIdKeepsIdsDistinct(records: seq<Record>, id: string)
    requires DistinctRecordIds(records)
    ensures DistinctRecordIds(WithoutId(records, id))
    ensures forall r | r in WithoutId(records, id) :: r in records
  {
    if records == [] {
    } else {
      var first, rest := records[0], records[1..];
      WithoutIdKeepsIdsDistinct(rest, id);
      assert forall r | r in rest :: r in records && r.id != first.id;
    }
  }

  /**
   A checked create of a non-empty url keeps urls unique exactly if some data source with that url
   is visible in the listing, or there is none.
   */
  lemma CheckWorksIfVisible(shows: Listing, records: seq<Record>, url: string, newId: string)
    requires OnePerUrl(records) && url != ""
    ensures OnePerUrl(CreateStep(shows, records, url, newId, false).0) <==>
            SeesUrl(shows, records, url) || forall r | r in records :: r.url != url
  {
    AppendKeepsOnePerUrl(records, Record(newId, url));
  }

  /** Registering an org again adds nothing, if the new data source is visible. */
  lemma AutoRegisterIsIdempotent(
    shows: Listing, records: seq<Record>, config: AutoConfig, first: string, second: string)
    requires config.url.Some? ==> Visible(shows, Record(first, config.url.value))
    ensures var (once, created) := AutoStep(shows, records, config, first);
            AutoStep(shows, once, config, second) == (once, false)
  {
    var once := AutoStep(shows, records, config, first).0;
    if once != records {
      assert Record(first, config.url.value) in once;
    }
  }

  /* ---------- What each operation leaves ---------- */

  /**
   A create adds one data source with the url, behind all others, unless the check was asked for, the url
   is not empty, and the listing shows a data source with that url by its url or its id; then it raises.
   */
  lemma CreateAddsOne(shows: Listing, records: seq<Record>, url: string, newId: string, skip: bool)
    ensures var (after, r) := CreateStep(shows, records, url, newId, skip);
            && (r.Pass? ==> after == records + [Record(newId, url)])
            && (r.Fail? ==> after == records)
            && (r.Fail? <==> && !skip && url != ""
                             && exists e :: && e in records && e.url == url
                                            && (shows(e).url == Some(url) || (shows(e).id == Some(e.id) && e.id != "")))
  {
  }

  /** When enabled and given a url that the listing does not show, auto-registration creates exactly one. */
  lemma AutoRegisterCreatesOne(shows: Listing, records: seq<Record>, config: AutoConfig, newId: string)
    ensures var (after, created) := AutoStep(shows, records, config, newId);
            && (created ==> after == records + [Record(newId, config.url.value)])
            && (!created ==> after == records)
            && (created <==>
                  && config.enabled && config.url.Some? && config.url.value != ""
                  && !exists e :: && e in records && e.url == config.url.value
                                  && (shows(e).url == config.url || (shows(e).id == Some(e.id) && e.id != "")))
  {
  }

  /** A delete drops the data source with the id and keeps the others in their order. */
  lemma {:induction false} DeleteInParts(a: seq<Record>, b: seq<Record>, r: Record, id: string)
    ensures WithoutId([r], id) == if r.id == id then [] else [r]
    ensures WithoutId(a + b, id) == WithoutId(a, id) + WithoutId(b, id)
  {
    assert [r][1..] == [];
    if a == [] {
      assert a + b == b;
    } else {
      assert (a + b)[1..] == a[1..] + b;
      DeleteInParts(a[1..], b, r, id);
      Regroup(if a[0].id == id then [] else [a[0]], WithoutId(a[1..], id), WithoutId(b, id));
    }
  }
}
