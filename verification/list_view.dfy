/** The records table of `src/pages/baby.jsx`: the state behind it and the
    pure derivation of what it shows.

    Two filtering stages run one after the other. The search handler rebuilds
    `filtered` from the full `borns` list whenever the search text changes;
    the table then keeps the `filtered` records whose `leave` matches the
    status filter, sorts them stably by the chosen key and direction, and
    shows one page of ten. */
module ListView {
  import opened Options
  import opened Text
  import opened Seqs
  import opened Records
  import opened Sorting

  /** `itemsPerPage`: fixed at ten; nothing in the screen changes it. */
  const ItemsPerPage: nat := 10

  /** The status filter value that disables status filtering. */
  const AllStatuses: string := "all"

  datatype SortConfig = SortConfig(key: Field, direction: Direction)

  /** The table's state. `filtered` is the search result the derivation
      starts from; `page` is `currentPage`. */
  datatype ListState = ListState(
    borns: seq<RawBorn>,
    filtered: seq<RawBorn>,
    searchTerm: string,
    filterStatus: string,
    sort: SortConfig,
    page: int)

  /** The state on first render: nothing loaded, newest births first. */
  const InitialState: ListState :=
    ListState([], [], "", AllStatuses, SortConfig(DateOfBirth, Desc), 1)

  // ---------------------------------------------------------------------------
  // Loading
  // ---------------------------------------------------------------------------

  /** A successful `fetchBorns`: the response (`data || []`) replaces both
      the full list and the search result; the search text is left as is. */
  function LoadBorns(st: ListState, data: Option<seq<RawBorn>>): (r: ListState)
    ensures r.borns == r.filtered
    ensures data.Some? ==> r.borns == data.value
    ensures data.None? ==> r.borns == []
    ensures r.(borns := st.borns, filtered := st.filtered) == st
  {
    var rows := data.GetOr([]);
    st.(borns := rows, filtered := rows)
  }

  // ---------------------------------------------------------------------------
  // Stage 1: search
  // ---------------------------------------------------------------------------

  /** `baby.name.toLowerCase().includes(term)` for some baby of the list. */
  predicate SomeBabyNameIncludes(babies: seq<Baby>, term: string) {
    exists i :: 0 <= i < |babies| && Includes(Lower(babies[i].name), term)
  }

  /** The search predicate for an already lower-cased term: the mother's
      name, some baby's name (when the record has a babies list) or the
      mother's phone contains it. */
  predicate MatchesSearch(b: RawBorn, term: string) {
    || Includes(Lower(b.info.motherName), term)
    || (b.babies.Some? && SomeBabyNameIncludes(b.babies.value, term))
    || Includes(Lower(b.info.motherPhone), term)
  }

  /** The texts a search looks at, in the order the test tries them: the
      mother's name, each baby's name, the mother's phone. */
  function SearchedTexts(b: RawBorn): (r: seq<string>)
    ensures |r| == |b.babies.GetOr([])| + 2
  {
    var babies := b.babies.GetOr([]);
    [b.info.motherName] + seq(|babies|, j requires 0 <= j < |babies| => babies[j].name) + [b.info.motherPhone]
  }

  /** A record matches a search exactly when one of the texts it offers
      contains the term once lower-cased. */
  lemma MatchesSearchIff(b: RawBorn, term: string)
    ensures MatchesSearch(b, term) <==>
      exists i :: 0 <= i < |SearchedTexts(b)| && Occurs(Lower(SearchedTexts(b)[i]), term)
  {
    var t, babies := SearchedTexts(b), b.babies.GetOr([]);
    assert t[0] == b.info.motherName && t[|t| - 1] == b.info.motherPhone;
    assert forall j :: 0 <= j < |babies| ==> t[j + 1] == babies[j].name;
    if b.babies.Some? && SomeBabyNameIncludes(b.babies.value, term) {
      var j :| 0 <= j < |babies| && Includes(Lower(babies[j].name), term);
      assert Occurs(Lower(t[j + 1]), term);
    }
    if exists i :: 0 <= i < |t| && Occurs(Lower(t[i]), term) {
      var i :| 0 <= i < |t| && Occurs(Lower(t[i]), term);
      if 0 < i < |t| - 1 {
        assert Includes(Lower(babies[i - 1].name), term);
      }
    }
  }

  /** `MatchesSearch` as the callback handed to `filter`. */
  function SearchHit(term: string): RawBorn -> bool {
    (b: RawBorn) => MatchesSearch(b, term)
  }

  /** The records a search text selects from `borns`. Blank text (only
      whitespace) selects everything; otherwise the text is lower-cased but
      NOT trimmed before matching. */
  function Search(borns: seq<RawBorn>, value: string): (r: seq<RawBorn>)
    ensures AllWhitespace(value) ==> r == borns
    ensures !AllWhitespace(value) ==>
      forall i :: 0 <= i < |borns| ==> (borns[i] in r <==> MatchesSearch(borns[i], Lower(value)))
    ensures !AllWhitespace(value) ==>
      forall i :: 0 <= i < |r| ==> MatchesSearch(r[i], Lower(value))
    ensures !AllWhitespace(value) ==>
      forall x :: multiset(r)[x] == if MatchesSearch(x, Lower(value)) then multiset(borns)[x] else 0
    ensures IsSubsequence(r, borns)
  {
    TrimEmptyIff(value);
    SubsequenceReflexive(borns);
    FilterMultiset(borns, SearchHit(Lower(value)));
    if Trim(value) == "" then borns
    else
      Filter(borns, SearchHit(Lower(value)))
  }

  /** `handleSearch`: records the text, goes back to page 1, and rebuilds the
      search result from the full list. */
  function HandleSearch(st: ListState, value: string): (r: ListState)
    ensures r.page == 1 && r.searchTerm == value
    ensures r.filtered == Search(st.borns, value)
    ensures r.borns == st.borns && r.filterStatus == st.filterStatus && r.sort == st.sort
  {
    st.(searchTerm := value, page := 1, filtered := Search(st.borns, value))
  }

  /** A search starts from the full list, never from the previous result:
      what was filtered before has no influence. */
  lemma SearchForgetsPreviousResult(st: ListState, other: seq<RawBorn>, value: string)
    ensures HandleSearch(st.(filtered := other), value) == HandleSearch(st, value)
  {
  }

  /** Lower-casing a character keeps whitespace whitespace and keeps
      everything else not whitespace. */
  lemma LowerKeepsWhitespace(s: string)
    ensures AllWhitespace(Lower(s)) <==> AllWhitespace(s)
  {
    assert forall i :: 0 <= i < |s| ==> (IsWhitespace(Lower(s)[i]) <==> IsWhitespace(s[i]));
  }

  /** Search is case-insensitive in its text: a term and its lower-cased
      form select the same records. */
  lemma SearchCaseInsensitive(borns: seq<RawBorn>, value: string)
    ensures Search(borns, Lower(value)) == Search(borns, value)
  {
    LowerKeepsWhitespace(value);
    LowerIdempotent(value);
    TrimEmptyIff(value);
    TrimEmptyIff(Lower(value));
    assert SearchHit(Lower(Lower(value))) == SearchHit(Lower(value));
  }

  /** Searching for any piece of a record's mother name, in any case, finds
      the record: the whole name, a first name, a few letters. */
  lemma SearchFindsMotherNamePart(borns: seq<RawBorn>, i: int, before: string, part: string, after: string)
    requires 0 <= i < |borns| && borns[i].info.motherName == before + part + after
    ensures borns[i] in Search(borns, part)
  {
    if !AllWhitespace(part) {
      LowerConcat(before + part, after);
      LowerConcat(before, part);
      IncludesTrivial(Lower(part));
      IncludesExtend(Lower(before), Lower(part), Lower(after), Lower(part));
      assert MatchesSearch(borns[i], Lower(part));
    }
  }

  /** A search over two lists laid end to end is the two searches laid end
      to end: each record is kept or dropped on its own. */
  lemma SearchConcat(a: seq<RawBorn>, b: seq<RawBorn>, value: string)
    ensures Search(a + b, value) == Search(a, value) + Search(b, value)
  {
    TrimEmptyIff(value);
    if !AllWhitespace(value) {
      FilterConcat(a, b, SearchHit(Lower(value)));
    }
  }

  // ---------------------------------------------------------------------------
  // Stage 2: status filter and sort
  // ---------------------------------------------------------------------------

  /** `filterStatus !== 'all' ? result.filter(b => b.leave === filterStatus) : result`. */
  function FilterByStatus(s: seq<RawBorn>, status: string): (r: seq<RawBorn>)
    ensures status == AllStatuses ==> r == s
    ensures status != AllStatuses ==> forall i :: 0 <= i < |r| ==> r[i].info.leave == status
    ensures status != AllStatuses ==>
      forall i :: 0 <= i < |s| ==> (s[i] in r <==> s[i].info.leave == status)
    ensures status != AllStatuses ==>
      forall x :: multiset(r)[x] == if x.info.leave == status then multiset(s)[x] else 0
    ensures IsSubsequence(r, s)
  {
    SubsequenceReflexive(s);
    FilterMultiset(s, LeaveIs(status));
    if status == AllStatuses then s
    else Filter(s, LeaveIs(status))
  }

  /** A status every record carries keeps the whole list, and a status no
      record carries empties it. */
  lemma StatusFilterExtremes(s: seq<RawBorn>, status: string)
    requires status != AllStatuses
    ensures (forall i :: 0 <= i < |s| ==> s[i].info.leave == status) ==> FilterByStatus(s, status) == s
    ensures (forall i :: 0 <= i < |s| ==> s[i].info.leave != status) ==> FilterByStatus(s, status) == []
  {
    if forall i :: 0 <= i < |s| ==> s[i].info.leave == status {
      FilterAll(s, LeaveIs(status));
    }
    if forall i :: 0 <= i < |s| ==> s[i].info.leave != status {
      FilterNone(s, LeaveIs(status));
    }
  }

  /** The status test as the callback handed to `filter`. */
  function LeaveIs(status: string): RawBorn -> bool {
    (b: RawBorn) => b.info.leave == status
  }

  /** Both stages' tests as one callback. */
  function SearchAndLeave(term: string, status: string): RawBorn -> bool {
    (b: RawBorn) => MatchesSearch(b, term) && b.info.leave == status
  }

  /** Choosing a status filter: the page is NOT reset. */
  function SetFilterStatus(st: ListState, status: string): (r: ListState)
    ensures r.filterStatus == status && r.page == st.page
    ensures r.(filterStatus := st.filterStatus) == st
  {
    st.(filterStatus := status)
  }

  /** The key a sort configuration reads: `record[sortConfig.key]`. It
      depends on that field alone: changing any other field of a record
      leaves its key, and so its place in the order, as it was. */
  function KeyOf(f: Field): (key: RawBorn -> string)
    ensures forall b: RawBorn :: key(b) == Get(b.info, f)
    ensures forall b: RawBorn, g: Field, v: string :: g != f ==>
      key(b.(info := Set(b.info, g, v))) == key(b)
  {
    (b: RawBorn) => Get(b.info, f)
  }

  /** `result.sort(comparator)` for a sort configuration. */
  function SortRecords(s: seq<RawBorn>, cfg: SortConfig): (r: seq<RawBorn>)
    ensures |r| == |s| && multiset(r) == multiset(s)
    ensures Sorted(r, KeyOf(cfg.key), cfg.direction)
    ensures forall k :: WithKey(r, KeyOf(cfg.key), k) == WithKey(s, KeyOf(cfg.key), k)
  {
    var key := KeyOf(cfg.key);
    assert forall k :: WithKey(SortBy(s, key, cfg.direction), key, k) == WithKey(s, key, k) by {
      forall k ensures WithKey(SortBy(s, key, cfg.direction), key, k) == WithKey(s, key, k) {
        SortStable(s, key, cfg.direction, k);
      }
    }
    SortBy(s, key, cfg.direction)
  }

  /** `sortedAndFilteredBorns`. */
  function SortedAndFiltered(st: ListState): (r: seq<RawBorn>)
    ensures multiset(r) == multiset(FilterByStatus(st.filtered, st.filterStatus))
    ensures Sorted(r, KeyOf(st.sort.key), st.sort.direction)
    ensures forall k ::
      WithKey(r, KeyOf(st.sort.key), k) == WithKey(FilterByStatus(st.filtered, st.filterStatus), KeyOf(st.sort.key), k)
  {
    SortRecords(FilterByStatus(st.filtered, st.filterStatus), st.sort)
  }

  /** The two stages together, after a non-blank search with a status
      chosen: the table holds exactly the records of the full list that
      match both the search and the status, stably sorted. */
  lemma TableAfterSearch(st: ListState, value: string)
    requires !AllWhitespace(value) && st.filterStatus != AllStatuses
    ensures SortedAndFiltered(HandleSearch(st, value)) ==
      SortRecords(Filter(st.borns, SearchAndLeave(Lower(value), st.filterStatus)), st.sort)
  {
    TrimEmptyIff(value);
    var term, status := Lower(value), st.filterStatus;
    var p, q := SearchHit(term), LeaveIs(status);
    var f1 := Filter(st.borns, p);
    assert Search(st.borns, value) == f1;
    assert FilterByStatus(f1, status) == Filter(f1, q);
    TwoStagesAreOne(st.borns, term, status);
  }

  /** Filtering by the search and then by the status is filtering once by
      both. */
  lemma TwoStagesAreOne(s: seq<RawBorn>, term: string, status: string)
    ensures Filter(Filter(s, SearchHit(term)), LeaveIs(status)) == Filter(s, SearchAndLeave(term, status))
  {
    var p, q, both := SearchHit(term), LeaveIs(status), SearchAndLeave(term, status);
    forall i | 0 <= i < |s|
      ensures both(s[i]) == (p(s[i]) && q(s[i]))
    {
    }
    FilterBoth(s, p, q, both);
  }

  /** `handleSort`: choosing the current key while it sorts descending
      switches to ascending; any other choice sorts descending. The page
      goes back to 1. */
  function HandleSort(st: ListState, key: Field): (r: ListState)
    ensures r.sort.key == key && r.page == 1
    ensures r.sort.direction == Asc <==> st.sort.key == key && st.sort.direction == Desc
    ensures r.(sort := st.sort, page := st.page) == st
  {
    var dir := if st.sort.key == key && st.sort.direction == Desc then Asc else Desc;
    st.(sort := SortConfig(key, dir), page := 1)
  }

  /** Choosing the same key again flips the direction each time. */
  lemma HandleSortToggles(st: ListState, key: Field)
    ensures var once := HandleSort(st, key);
      HandleSort(once, key).sort.direction != once.sort.direction
  {
  }

  // ---------------------------------------------------------------------------
  // Stage 3: pagination
  // ---------------------------------------------------------------------------

  function Min(a: int, b: int): int { if a < b then a else b }
  function Max(a: int, b: int): int { if a < b then b else a }

  /** `Math.ceil(len / n)`. */
  function TotalPages(len: nat, n: nat): (r: nat)
    requires n > 0
    ensures len <= r * n
    ensures r == 0 || (r - 1) * n < len
    ensures r == 0 <==> len == 0
  {
    (len + n - 1) / n
  }

  /** The positions page `page` spans in a list of `len` records: from
      `(page - 1) * n` to `page * n`, clipped to the list. */
  function PageWindow(page: int, n: nat, len: nat): (w: (nat, nat))
    requires page >= 1
    ensures w.0 <= w.1 <= len
    ensures w.0 == Min((page - 1) * n, len) && w.1 == Min(page * n, len)
  {
    PageStart(page, n);
    (Min((page - 1) * n, len), Min(page * n, len))
  }

  /** `s.slice((page - 1) * n, (page - 1) * n + n)`. */
  function PageSlice<T>(s: seq<T>, page: int, n: nat): (r: seq<T>)
    ensures |r| <= n
    ensures page >= 1 ==> r == s[PageWindow(page, n, |s|).0..PageWindow(page, n, |s|).1]
    ensures page == 0 ==> r == []
  {
    var start := (page - 1) * n;
    PageStart(page, n);
    Slice(s, start, start + n)
  }

  /** Where a page starts and ends. */
  lemma PageStart(page: int, n: nat)
    ensures (page - 1) * n + n == page * n
    ensures page >= 1 ==> (page - 1) * n >= 0
    ensures page == 0 ==> (page - 1) * n + n == 0
  {
  }

  /** `paginatedBorns`: the rows on screen, the current page's window of
      the sorted table. */
  function Paginated(st: ListState): (r: seq<RawBorn>)
    ensures |r| <= ItemsPerPage
    ensures st.page >= 1 ==>
      var w := PageWindow(st.page, ItemsPerPage, |SortedAndFiltered(st)|);
      r == SortedAndFiltered(st)[w.0..w.1]
    ensures st.page == 0 ==> r == []
  {
    PageSlice(SortedAndFiltered(st), st.page, ItemsPerPage)
  }

  /** `totalPages` of the table: just enough pages of ten for its rows. */
  function PageCount(st: ListState): (r: nat)
    ensures |SortedAndFiltered(st)| <= r * ItemsPerPage
    ensures r == 0 || (r - 1) * ItemsPerPage < |SortedAndFiltered(st)|
    ensures r == 0 <==> SortedAndFiltered(st) == []
  {
    TotalPages(|SortedAndFiltered(st)|, ItemsPerPage)
  }

  /** The first `k` pages, concatenated. */
  function FirstPages<T>(s: seq<T>, n: nat, k: nat): seq<T> {
    if k == 0 then [] else FirstPages(s, n, k - 1) + PageSlice(s, k, n)
  }

  lemma {:induction false} FirstPagesPrefix<T>(s: seq<T>, n: nat, k: nat)
    ensures FirstPages(s, n, k) == s[..Min(k * n, |s|)]
  {
    if k > 0 {
      FirstPagesPrefix(s, n, k - 1);
      var w := PageWindow(k, n, |s|);
      assert FirstPages(s, n, k) == s[..w.0] + s[w.0..w.1];
      PrefixSplit(s, w.0, w.1);
    }
  }

  lemma PrefixSplit<T>(s: seq<T>, lo: nat, hi: nat)
    requires lo <= hi <= |s|
    ensures s[..hi] == s[..lo] + s[lo..hi]
  {
  }

  /** The pages `1..totalPages` laid end to end are the whole list: every
      record is on exactly one page, in order. */
  lemma PagesCoverList<T>(s: seq<T>, n: nat)
    requires n > 0
    ensures FirstPages(s, n, TotalPages(|s|, n)) == s
  {
    FirstPagesPrefix(s, n, TotalPages(|s|, n));
  }

  /** The example of a 25-record result with ten per page: three pages, the
      first holding records 1-10 and the third records 21-25. */
  lemma TwentyFiveRecords<T>(s: seq<T>)
    requires |s| == 25
    ensures TotalPages(|s|, 10) == 3
    ensures PageSlice(s, 1, 10) == s[0..10]
    ensures PageSlice(s, 3, 10) == s[20..25] && |PageSlice(s, 3, 10)| == 5
  {
  }

  /** `goToPreviousPage`: one page back, but never before page 1. */
  function PreviousPage(page: int): (r: int)
    ensures page > 1 ==> r == page - 1
    ensures page <= 1 ==> r == 1
  {
    Max(1, page - 1)
  }

  /** `goToNextPage`: one page on, but never beyond the page count. */
  function NextPage(page: int, total: nat): (r: int)
    ensures page < total ==> r == page + 1
    ensures page >= total ==> r == total
  {
    Min(total, page + 1)
  }

  /** Inside `[1, total]`, next undoes previous and previous undoes next,
      except at the two ends where the clamp holds the page in place. */
  lemma NavigationInverse(page: int, total: nat)
    requires 1 <= page <= total
    ensures page > 1 ==> NextPage(PreviousPage(page), total) == page
    ensures page < total ==> PreviousPage(NextPage(page, total)) == page
    ensures PreviousPage(1) == 1 && NextPage(total, total) == total
  {
  }

  /** Previous never goes below 1 and next never beyond the page count;
      from a page in `[1, total]` both stay in `[1, total]`. With no pages
      at all, next yields page 0. */
  lemma NavigationBounds(page: int, total: nat)
    ensures PreviousPage(page) >= 1 && NextPage(page, total) <= total
    ensures 1 <= page <= total ==>
      1 <= PreviousPage(page) <= total && 1 <= NextPage(page, total) <= total
    ensures total == 0 && page >= -1 ==> NextPage(page, total) == 0
    ensures PreviousPage(1) == 1 && NextPage(total, total) == total
  {
  }

  function GoToFirstPage(st: ListState): (r: ListState)
    ensures r.page == 1 && r.(page := st.page) == st
  {
    st.(page := 1)
  }

  function GoToLastPage(st: ListState): (r: ListState)
    ensures r.page == PageCount(st) && r.(page := st.page) == st
  {
    st.(page := PageCount(st))
  }

  function GoToPreviousPage(st: ListState): (r: ListState)
    ensures r.page == if st.page > 1 then st.page - 1 else 1
    ensures r.(page := st.page) == st
  {
    st.(page := PreviousPage(st.page))
  }

  function GoToNextPage(st: ListState): (r: ListState)
    ensures r.page == if st.page < PageCount(st) then st.page + 1 else PageCount(st)
    ensures r.(page := st.page) == st
  {
    st.(page := NextPage(st.page, PageCount(st)))
  }

  /** Page navigation never changes what the table holds, only which slice
      of it is shown. */
  lemma NavigationKeepsRows(st: ListState)
    ensures SortedAndFiltered(GoToFirstPage(st)) == SortedAndFiltered(st)
    ensures SortedAndFiltered(GoToLastPage(st)) == SortedAndFiltered(st)
    ensures SortedAndFiltered(GoToPreviousPage(st)) == SortedAndFiltered(st)
    ensures SortedAndFiltered(GoToNextPage(st)) == SortedAndFiltered(st)
  {
  }

  /** With an empty result the last-page and next-page buttons lead to page
      0, where the slice is empty: the clamp into `[1, totalPages]` holds
      only when there is at least one page. */
  lemma EmptyResultPageZero(st: ListState)
    requires SortedAndFiltered(st) == [] && st.page >= -1
    ensures GoToLastPage(st).page == 0 && GoToNextPage(st).page == 0
    ensures Paginated(GoToNextPage(st)) == []
  {
  }
}
