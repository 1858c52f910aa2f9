/** The portal page (`app/page.tsx`): the search and category pipeline that
    derives the visible list, the aggregate stats, the status toggle, the
    set of known CNICs, and the state slots the two fetches update. */
module ListView {
  import opened Strings
  import opened Records

  /** The category select. */
  datatype FilterKind = All | ZakaatOnly | PendingOnly | DoneOnly

  /** One test a record must pass to stay in the list. */
  datatype Criterion =
    | Search(q: string)     // the lower-cased name or CNIC contains `q`
    | ZakaatTrue            // `zakaat_eligible === true`
    | HasStatus(s: Status)  // `status === s`

  /** The search test: the lower-cased name (null read as `""`) or the
      lower-cased CNIC contains the query. */
  predicate MatchesQuery(b: Beneficiary, q: string) {
    Contains(ToLower(OrEmpty(b.name)), q) || Contains(ToLower(b.cnic), q)
  }

  predicate Holds(c: Criterion, b: Beneficiary) {
    match c
    case Search(q) => MatchesQuery(b, q)
    case ZakaatTrue => b.zakaatEligible == Some(true)
    case HasStatus(s) => b.status == s
  }

  predicate HoldsAll(cs: seq<Criterion>, b: Beneficiary) {
    forall k | 0 <= k < |cs| :: Holds(cs[k], b)
  }

  /** `list.filter(...)` with every criterion of `cs` as the test. */
  function Keep(list: seq<Beneficiary>, cs: seq<Criterion>): (r: seq<Beneficiary>)
    ensures |r| <= |list|
    ensures forall b :: b in r <==> b in list && HoldsAll(cs, b)
  {
    if list == [] then []
    else if HoldsAll(cs, list[0]) then [list[0]] + Keep(list[1..], cs)
    else Keep(list[1..], cs)
  }

  /** `xs` is `ys` with some elements dropped, the rest in the same order. */
  predicate IsSubsequence(xs: seq<Beneficiary>, ys: seq<Beneficiary>)
    decreases |ys|
  {
    if xs == [] then true
    else if ys == [] then false
    else (xs[0] == ys[0] && IsSubsequence(xs[1..], ys[1..])) || IsSubsequence(xs, ys[1..])
  }

  lemma {:induction false} KeepIsSubsequence(list: seq<Beneficiary>, cs: seq<Criterion>)
    ensures IsSubsequence(Keep(list, cs), list)
    decreases |list|
  {
    if list != [] {
      KeepIsSubsequence(list[1..], cs);
      var r := Keep(list, cs);
      if HoldsAll(cs, list[0]) {
        assert r[0] == list[0] && r[1..] == Keep(list[1..], cs);
      }
    }
  }

  /** Two tests that agree on every record keep the same records. */
  lemma {:induction false} KeepAgrees(list: seq<Beneficiary>, cs: seq<Criterion>, ds: seq<Criterion>)
    requires forall b :: HoldsAll(cs, b) == HoldsAll(ds, b)
    ensures Keep(list, cs) == Keep(list, ds)
    decreases |list|
  {
    if list != [] {
      KeepAgrees(list[1..], cs, ds);
    }
  }

  /** Passing all of `cs + ds` is passing all of `cs` and all of `ds`. */
  lemma HoldsAllAppend(cs: seq<Criterion>, ds: seq<Criterion>, b: Beneficiary)
    ensures HoldsAll(cs + ds, b) <==> HoldsAll(cs, b) && HoldsAll(ds, b)
  {
    if HoldsAll(cs + ds, b) {
      forall k | 0 <= k < |cs| ensures Holds(cs[k], b) {
        assert (cs + ds)[k] == cs[k];
      }
      forall k | 0 <= k < |ds| ensures Holds(ds[k], b) {
        assert (cs + ds)[|cs| + k] == ds[k];
      }
    }
  }

  /** Filtering twice is filtering once by both tests. */
  lemma {:induction false} KeepKeep(list: seq<Beneficiary>, cs: seq<Criterion>, ds: seq<Criterion>)
    ensures Keep(Keep(list, cs), ds) == Keep(list, cs + ds)
    decreases |list|
  {
    if list != [] {
      KeepKeep(list[1..], cs, ds);
      var b := list[0];
      HoldsAllAppend(cs, ds, b);
      if HoldsAll(cs, b) {
        assert Keep(list, cs) == [b] + Keep(list[1..], cs);
        assert Keep(list, cs)[1..] == Keep(list[1..], cs);
      }
    }
  }

  /** No test keeps everything. */
  lemma {:induction false} KeepNothingDropped(list: seq<Beneficiary>)
    ensures Keep(list, []) == list
    decreases |list|
  {
    if list != [] {
      KeepNothingDropped(list[1..]);
    }
  }

  /** `search.trim().toLowerCase()`. */
  function Query(search: string): string {
    ToLower(Trim(search))
  }

  /** An empty search box gives the empty query. */
  lemma EmptySearchIsEmptyQuery()
    ensures Query("") == []
  {
    TrimSpec("");
  }

  /** The search step: skipped when the query is empty. */
  function SearchStep(list: seq<Beneficiary>, q: string): seq<Beneficiary> {
    if q != [] then Keep(list, [Search(q)]) else list
  }

  /** The tests of the category select; `all` has none. */
  function CategoryCriteria(filter: FilterKind): seq<Criterion> {
    match filter
    case All => []
    case ZakaatOnly => [ZakaatTrue]
    case PendingOnly => [HasStatus(Pending)]
    case DoneOnly => [HasStatus(Done)]
  }

  /** Whether a record passes the category select. */
  predicate InCategory(filter: FilterKind, b: Beneficiary) {
    match filter
    case All => true
    case ZakaatOnly => b.zakaatEligible == Some(true)
    case PendingOnly => b.status == Pending
    case DoneOnly => b.status == Done
  }

  /** The category step. */
  function CategoryStep(list: seq<Beneficiary>, filter: FilterKind): seq<Beneficiary> {
    if filter == All then list else Keep(list, CategoryCriteria(filter))
  }

  /** The `filtered` memo: the search step, then the category step. */
  function Filtered(list: seq<Beneficiary>, search: string, filter: FilterKind): seq<Beneficiary> {
    CategoryStep(SearchStep(list, Query(search)), filter)
  }

  /** The tests the whole pipeline applies. */
  function PipelineCriteria(q: string, filter: FilterKind): seq<Criterion> {
    (if q != [] then [Search(q)] else []) + CategoryCriteria(filter)
  }

  lemma CategoryCriteriaMeaning(filter: FilterKind, b: Beneficiary)
    ensures HoldsAll(CategoryCriteria(filter), b) <==> InCategory(filter, b)
  {
    match filter
    case All =>
    case ZakaatOnly => assert CategoryCriteria(filter)[0] == ZakaatTrue;
    case PendingOnly => assert CategoryCriteria(filter)[0] == HasStatus(Pending);
    case DoneOnly => assert CategoryCriteria(filter)[0] == HasStatus(Done);
  }

  lemma CategoryStepIsKeep(list: seq<Beneficiary>, filter: FilterKind)
    ensures CategoryStep(list, filter) == Keep(list, CategoryCriteria(filter))
  {
    if filter == All {
      KeepNothingDropped(list);
    }
  }

  lemma SearchStepIsKeep(list: seq<Beneficiary>, q: string)
    ensures SearchStep(list, q) == Keep(list, if q != [] then [Search(q)] else [])
  {
    if q == [] {
      KeepNothingDropped(list);
    }
  }

  /** The pipeline is one filter by all of its tests. */
  lemma FilteredIsKeep(list: seq<Beneficiary>, search: string, filter: FilterKind)
    ensures Filtered(list, search, filter) == Keep(list, PipelineCriteria(Query(search), filter))
  {
    var q := Query(search);
    SearchStepIsKeep(list, q);
    CategoryStepIsKeep(SearchStep(list, q), filter);
    KeepKeep(list, if q != [] then [Search(q)] else [], CategoryCriteria(filter));
  }

  /** The visible list is the fetched list with some records dropped, in
      the same relative order. */
  lemma FilteredIsSubsequence(list: seq<Beneficiary>, search: string, filter: FilterKind)
    ensures IsSubsequence(Filtered(list, search, filter), list)
  {
    FilteredIsKeep(list, search, filter);
    KeepIsSubsequence(list, PipelineCriteria(Query(search), filter));
  }

  lemma PipelineCriteriaMeaning(q: string, filter: FilterKind, b: Beneficiary)
    ensures HoldsAll(PipelineCriteria(q, filter), b) <==> (q == [] || MatchesQuery(b, q)) && InCategory(filter, b)
  {
    var s: seq<Criterion> := if q != [] then [Search(q)] else [];
    var cs := PipelineCriteria(q, filter);
    CategoryCriteriaMeaning(filter, b);
    forall k | 0 <= k < |CategoryCriteria(filter)| ensures cs[|s| + k] == CategoryCriteria(filter)[k] {
    }
    if HoldsAll(CategoryCriteria(filter), b) && (q == [] || MatchesQuery(b, q)) {
      forall k | 0 <= k < |cs| ensures Holds(cs[k], b) {
        if k >= |s| { assert cs[k] == CategoryCriteria(filter)[k - |s|]; }
      }
    }
    if q != [] && HoldsAll(cs, b) {
      assert cs[0] == Search(q);
    }
  }

  /** A record is visible exactly when it was fetched, matches the query
      (an empty query matches everything) and passes the category select. */
  lemma FilteredMembership(list: seq<Beneficiary>, search: string, filter: FilterKind, b: Beneficiary)
    ensures b in Filtered(list, search, filter) <==>
      b in list && (Query(search) == [] || MatchesQuery(b, Query(search))) && InCategory(filter, b)
  {
    FilteredIsKeep(list, search, filter);
    PipelineCriteriaMeaning(Query(search), filter, b);
  }

  /** The `if (q)` guard changes nothing: the empty query occurs in every name. */
  lemma EmptyQueryKeepsAll(list: seq<Beneficiary>)
    ensures Keep(list, [Search([])]) == list
  {
    forall b ensures HoldsAll([Search([])], b) == HoldsAll([], b) {
      ContainsEmpty(ToLower(OrEmpty(b.name)));
    }
    KeepAgrees(list, [Search([])], []);
    KeepNothingDropped(list);
  }

  /** Filtering the visible list again with the same inputs changes nothing. */
  lemma FilteredIdempotent(list: seq<Beneficiary>, search: string, filter: FilterKind)
    ensures Filtered(Filtered(list, search, filter), search, filter) == Filtered(list, search, filter)
  {
    var cs := PipelineCriteria(Query(search), filter);
    FilteredIsKeep(list, search, filter);
    FilteredIsKeep(Keep(list, cs), search, filter);
    KeepKeep(list, cs, cs);
    forall b ensures HoldsAll(cs + cs, b) == HoldsAll(cs, b) {
      HoldsAllAppend(cs, cs, b);
    }
    KeepAgrees(list, cs + cs, cs);
  }

  /** The category step and the search step can be applied in either order. */
  lemma StepsCommute(list: seq<Beneficiary>, q: string, filter: FilterKind)
    ensures CategoryStep(SearchStep(list, q), filter) == SearchStep(CategoryStep(list, filter), q)
  {
    var s: seq<Criterion> := if q != [] then [Search(q)] else [];
    var c := CategoryCriteria(filter);
    SearchStepIsKeep(list, q);
    CategoryStepIsKeep(SearchStep(list, q), filter);
    KeepKeep(list, s, c);
    CategoryStepIsKeep(list, filter);
    SearchStepIsKeep(CategoryStep(list, filter), q);
    KeepKeep(list, c, s);
    forall b ensures HoldsAll(s + c, b) == HoldsAll(c + s, b) {
      HoldsAllAppend(s, c, b);
      HoldsAllAppend(c, s, b);
    }
    KeepAgrees(list, s + c, c + s);
  }

  /** The `stats` memo. */
  datatype Stats = Stats(total: nat, done: nat, pending: int, zakaat: nat)

  /** The number of records with status `s`. */
  function CountStatus(list: seq<Beneficiary>, s: Status): (n: nat)
    ensures n <= |list|
    decreases |list|
  {
    if list == [] then 0
    else (if list[0].status == s then 1 else 0) + CountStatus(list[1..], s)
  }

  /** The number of records with `zakaat_eligible === true`. */
  function CountZakaat(list: seq<Beneficiary>): (n: nat)
    ensures n <= |list|
    decreases |list|
  {
    if list == [] then 0
    else (if list[0].zakaatEligible == Some(true) then 1 else 0) + CountZakaat(list[1..])
  }

  /** The stats of the whole fetched list: `pending` is `total - done`. */
  function StatsOf(list: seq<Beneficiary>): Stats {
    var done := CountStatus(list, Done);
    Stats(|list|, done, |list| - done, CountZakaat(list))
  }

  /** Status is two-valued, so every record is done or pending. */
  lemma {:induction false} StatusesPartition(list: seq<Beneficiary>)
    ensures CountStatus(list, Done) + CountStatus(list, Pending) == |list|
    decreases |list|
  {
    if list != [] {
      StatusesPartition(list[1..]);
    }
  }

  /** `pending` counts exactly the pending records. */
  lemma PendingCountsPending(list: seq<Beneficiary>)
    ensures StatsOf(list).pending == CountStatus(list, Pending)
  {
    StatusesPartition(list);
  }

  lemma {:induction false} CountStatusIsKeep(list: seq<Beneficiary>, s: Status)
    ensures CountStatus(list, s) == |Keep(list, [HasStatus(s)])|
    decreases |list|
  {
    if list != [] {
      CountStatusIsKeep(list[1..], s);
      assert HoldsAll([HasStatus(s)], list[0]) <==> list[0].status == s by {
        assert [HasStatus(s)][0] == HasStatus(s);
      }
    }
  }

  lemma {:induction false} CountZakaatIsKeep(list: seq<Beneficiary>)
    ensures CountZakaat(list) == |Keep(list, [ZakaatTrue])|
    decreases |list|
  {
    if list != [] {
      CountZakaatIsKeep(list[1..]);
      assert HoldsAll([ZakaatTrue], list[0]) <==> list[0].zakaatEligible == Some(true) by {
        assert [ZakaatTrue][0] == ZakaatTrue;
      }
    }
  }

  /** The counters are the lengths of the list the category select would
      show with an empty search: they ignore the search box and the select. */
  lemma StatsMatchCategories(list: seq<Beneficiary>)
    ensures StatsOf(list).total == |Filtered(list, "", All)|
    ensures StatsOf(list).done == |Filtered(list, "", DoneOnly)|
    ensures StatsOf(list).pending == |Filtered(list, "", PendingOnly)|
    ensures StatsOf(list).zakaat == |Filtered(list, "", ZakaatOnly)|
  {
    EmptySearchIsEmptyQuery();
    CountStatusIsKeep(list, Done);
    CountStatusIsKeep(list, Pending);
    CountZakaatIsKeep(list);
    PendingCountsPending(list);
  }

  /** The status a toggle writes: the other one. */
  function NextStatus(current: Status): (next: Status)
    ensures next != current
  {
    if current == Pending then Done else Pending
  }

  /** Toggling twice restores the status. */
  lemma NextStatusInvolution(s: Status)
    ensures NextStatus(NextStatus(s)) == s
  {
  }

  /** The update `handleToggleStatus` sends: the new status for one id. */
  datatype StatusUpdate = StatusUpdate(id: string, status: Status)

  /** The answer to a list fetch: an error, or `data`, which may be null. */
  datatype FetchReply = FetchFailed | FetchRows(data: Option<seq<Beneficiary>>)

  /** The non-empty CNIC values of a reply (null data read as none). */
  function KnownCnics(data: Option<seq<string>>): set<string> {
    if data.None? then {} else set c | c in data.value && c != ""
  }

  /** The `forEach` of `useAllCnics`: a fresh set, with every truthy CNIC added. */
  method BuildKnownCnics(data: Option<seq<string>>) returns (known: set<string>)
    ensures forall c :: c in known <==> data.Some? && c in data.value && c != ""
  {
    var rows := if data.Some? then data.value else [];
    known := {};
    for i := 0 to |rows|
      invariant forall c :: c in known <==> c in rows[..i] && c != ""
    {
      assert rows[..i + 1] == rows[..i] + [rows[i]];
      if rows[i] != "" {
        known := known + {rows[i]};
      }
    }
    assert rows[..|rows|] == rows;
  }

  /** The state of the portal page: the active tab, the fetched list and its
      loading flag, the known CNICs, and the search and category inputs. */
  class ListPage {
    var tab: Location
    var list: seq<Beneficiary>
    var loading: bool
    var cnics: set<string>
    var search: string
    var filter: FilterKind

    /** The initial state: inside tab, empty list, loading. */
    constructor ()
      ensures tab == InsideGiki && list == [] && loading
      ensures cnics == {} && search == "" && filter == All
    {
      tab := InsideGiki;
      list := [];
      loading := true;
      cnics := {};
      search := "";
      filter := All;
    }

    /** What the table shows. */
    function Visible(): seq<Beneficiary>
      reads this
    {
      Filtered(list, search, filter)
    }

    /** What the stat cards show. */
    function CurrentStats(): Stats
      reads this
    {
      StatsOf(list)
    }

    /** `fetchList` starts: only the loading flag changes. */
    method BeginFetch()
      modifies this
      ensures loading
      ensures list == old(list) && tab == old(tab) && cnics == old(cnics)
      ensures search == old(search) && filter == old(filter)
    {
      loading := true;
    }

    /** The list query answers: an error empties the list, data replaces it
      (null data empties it); loading ends either way. */
    method FetchResolved(reply: FetchReply)
      modifies this
      ensures !loading
      ensures list == (if reply.FetchRows? && reply.data.Some? then reply.data.value else [])
      ensures tab == old(tab) && cnics == old(cnics) && search == old(search) && filter == old(filter)
    {
      if reply.FetchFailed? {
        list := [];
      } else {
        list := if reply.data.Some? then reply.data.value else [];
      }
      loading := false;
    }

    /** The CNIC query (all tabs) answers: the known set is rebuilt. */
    method CnicsResolved(data: Option<seq<string>>)
      modifies this
      ensures cnics == KnownCnics(data)
      ensures list == old(list) && loading == old(loading) && tab == old(tab)
      ensures search == old(search) && filter == old(filter)
    {
      cnics := BuildKnownCnics(data);
    }

    /** `handleToggleStatus(id, current)`: sends the other status for `id`;
        `reply` is how that update ends. Its result is not inspected, so an
        error reply still refreshes the list; only a thrown call leaves the
        handler before the refresh. */
    method ToggleStatus(id: string, current: Status, reply: StoreReply) returns (update: StatusUpdate)
      modifies this
      ensures update.id == id && update.status == NextStatus(current)
      ensures loading == (if reply.Threw? then old(loading) else true)
      ensures list == old(list) && tab == old(tab) && cnics == old(cnics)
      ensures search == old(search) && filter == old(filter)
    {
      update := StatusUpdate(id, NextStatus(current));
      if reply.Threw? {
        return;
      }
      BeginFetch();
    }
  }
}
