/**
  Cursor-paged search over splits.

  The table does not change during a walk, ids are unique, and timestamps are the milliseconds of
  the entity's dates. What full-text, trigram and pattern matching accept, and how a result scores,
  are arbitrary functions of the split. An id stands for a uuid, compared as a number.
 */
module SplitSearch {
  import opened Options
  import opened Sums

  datatype Split = Split(id: nat, createdAt: int, totalAmount: int)

  datatype Cursor = Cursor(createdAt: int, id: nat)

  datatype Features = Features(fts: bool, trgm: bool, materializedView: bool)

  datatype Request = Request(
    hasText: bool,
    fullText: Split -> bool,
    trigram: Split -> bool,
    like: Split -> bool,
    passesFilters: Split -> bool,
    score: Split -> real,
    sort: Option<string>,
    limit: nat)

  const DEFAULT_LIMIT := 20
  const MAX_LIMIT := 100

  // ----- Order and cursor -----

  predicate EndsWith(s: string, suffix: string) {
    |suffix| <= |s| && s[|s| - |suffix|..] == suffix
  }

  predicate KeyLess(key: int, id: nat, key': int, id': nat) {
    key < key' || (key == key' && id < id')
  }

  /** `applySorting`: row `a` comes before row `b`. */
  predicate Before(sort: Option<string>, a: Split, b: Split) {
    if sort == Some("createdAt_asc") then KeyLess(a.createdAt, a.id, b.createdAt, b.id)
    else if sort == Some("amount_desc") then KeyLess(b.totalAmount, b.id, a.totalAmount, a.id)
    else if sort == Some("amount_asc") then KeyLess(a.totalAmount, a.id, b.totalAmount, b.id)
    else KeyLess(b.createdAt, b.id, a.createdAt, a.id)
  }

  /** `applyCursor`: the row is beyond the cursor. */
  predicate Beyond(sort: Option<string>, c: Cursor, s: Split) {
    var isAscending := sort.Some? && EndsWith(sort.value, "_asc");
    if isAscending then KeyLess(c.createdAt, c.id, s.createdAt, s.id)
    else KeyLess(s.createdAt, s.id, c.createdAt, c.id)
  }

  function EncodeCursor(s: Split): Cursor {
    Cursor(s.createdAt, s.id)
  }

  // ----- Queries -----

  function Insert(sort: Option<string>, s: Split, sorted: seq<Split>): seq<Split> {
    if sorted == [] || Before(sort, s, sorted[0]) then [s] + sorted
    else [sorted[0]] + Insert(sort, s, sorted[1..])
  }

  function Ordered(sort: Option<string>, rows: seq<Split>): seq<Split> {
    if rows == [] then [] else Insert(sort, rows[0], Ordered(sort, rows[1..]))
  }

  /** SELECT ... WHERE p ORDER BY sort. */
  function Select(table: seq<Split>, p: Split -> bool, sort: Option<string>): seq<Split> {
    Ordered(sort, Filter(table, p))
  }

  /** What the text search accepts with the features at hand, and the filters. */
  function Primary(f: Features, r: Request): Split -> bool {
    (s: Split) =>
      r.passesFilters(s) &&
      (r.hasText ==> if f.fts then r.fullText(s) else if f.trgm then r.trigram(s) else r.like(s))
  }

  function Fallback(r: Request): Split -> bool {
    (s: Split) => r.passesFilters(s) && r.trigram(s)
  }

  function From(p: Split -> bool, sort: Option<string>, cursor: Option<Cursor>): Split -> bool {
    (s: Split) => p(s) && (cursor.Some? ==> Beyond(sort, cursor.value, s))
  }

  function Take<T>(s: seq<T>, n: nat): seq<T> {
    if |s| <= n then s else s[..n]
  }

  function Limit(r: Request): nat {
    var limit := if r.limit == 0 then DEFAULT_LIMIT else r.limit;
    if limit < MAX_LIMIT then limit else MAX_LIMIT
  }

  /** A page of results, before they are ranked, with what is reported beside them. */
  datatype Page = Page(
    pageResults: seq<Split>, hasMore: bool, cursor: Option<Cursor>, fallbackUsed: bool, total: nat)

  function PageOf(rows: seq<Split>, limit: nat, fallbackUsed: bool, total: nat): Page {
    var hasMore := |rows| > limit;
    var pageResults := if hasMore then rows[..limit] else rows;
    Page(
      pageResults, hasMore,
      if hasMore && pageResults != [] then Some(EncodeCursor(pageResults[|pageResults| - 1])) else None,
      fallbackUsed, total)
  }

  function RowsOf(table: seq<Split>, p: Split -> bool, r: Request, cursor: Option<Cursor>): seq<Split> {
    Take(Select(table, From(p, r.sort, cursor), r.sort), Limit(r) + 1)
  }

  predicate FallsBack(table: seq<Split>, f: Features, r: Request, cursor: Option<Cursor>) {
    RowsOf(table, Primary(f, r), r, cursor) == [] && r.hasText && f.fts && f.trgm
  }

  function Searched(table: seq<Split>, f: Features, r: Request, cursor: Option<Cursor>): Split -> bool {
    if FallsBack(table, f, r, cursor) then Fallback(r) else Primary(f, r)
  }

  function SearchPage(table: seq<Split>, f: Features, r: Request, cursor: Option<Cursor>): Page {
    var p := Searched(table, f, r, cursor);
    PageOf(RowsOf(table, p, r, cursor), Limit(r), FallsBack(table, f, r, cursor), |Filter(table, p)|)
  }

  /** The stable sort by falling score. */
  function Ranked(rows: seq<Split>, score: Split -> real): seq<Split> {
    if rows == [] then [] else InsertRanked(rows[0], Ranked(rows[1..], score), score)
  }

  function InsertRanked(s: Split, ranked: seq<Split>, score: Split -> real): seq<Split> {
    if ranked == [] || score(s) >= score(ranked[0]) then [s] + ranked
    else [ranked[0]] + InsertRanked(s, ranked[1..], score)
  }

  // ----- The service -----

  datatype SearchResult = SearchResult(data: seq<Split>, total: nat, cursor: Option<Cursor>, hasMore: bool)

  class SearchService {
    var features: Features

    constructor ()
      ensures features == Features(false, false, false)
    {
      features := Features(false, false, false);
    }

    method InitializeFeatures(ftsAvailable: bool, trgmAvailable: bool, viewAvailable: bool)
      modifies this
      ensures features.fts == (old(features).fts || ftsAvailable)
      ensures features.trgm == (old(features).trgm || trgmAvailable)
      ensures features.materializedView == (old(features).materializedView || viewAvailable)
    {
      if ftsAvailable {
        features := features.(fts := true);
      }
      if trgmAvailable {
        features := features.(trgm := true);
      }
      if viewAvailable {
        features := features.(materializedView := true);
      }
    }

    /** The rows found, one more than fits on a page, with the fallback if there are none. */
    method FetchRows(table: seq<Split>, r: Request, cursor: Option<Cursor>)
      returns (results: seq<Split>, trigramFallbackUsed: bool)
      ensures trigramFallbackUsed == FallsBack(table, features, r, cursor)
      ensures results == RowsOf(table, Searched(table, features, r, cursor), r, cursor)
    {
      results := RowsOf(table, Primary(features, r), r, cursor);
      trigramFallbackUsed := false;
      if |results| == 0 && r.hasText && features.fts && features.trgm {
        results := RowsOf(table, Fallback(r), r, cursor);
        trigramFallbackUsed := true;
      }
    }

    /** A page, ranked by score when there is a search text. */
    method SearchSplits(table: seq<Split>, r: Request, cursor: Option<Cursor>) returns (result: SearchResult)
      ensures var page := SearchPage(table, features, r, cursor);
        && result.total == page.total && result.cursor == page.cursor && result.hasMore == page.hasMore
        && multiset(result.data) == multiset(page.pageResults)
        && result.data == if r.hasText then Ranked(page.pageResults, r.score) else page.pageResults
      ensures var fellBack := NothingByText(table, features, r, cursor);
        && (forall s <- result.data :: s in table && Matches(features, r, fellBack, s))
        && (forall s <- result.data :: cursor.Some? ==> Beyond(r.sort, cursor.value, s))
        && (UniqueIds(table) ==> result.total == |set s <- table | Matches(features, r, fellBack, s)|)
      ensures r.hasText ==> forall i, j :: 0 <= i < j < |result.data| ==>
        r.score(result.data[i]) >= r.score(result.data[j])
      ensures var limit := if r.limit == 0 then 20 else if r.limit > 100 then 100 else r.limit;
        |result.data| <= limit && (result.hasMore ==> |result.data| == limit)
    {
      var results, trigramFallbackUsed := FetchRows(table, r, cursor);
      var total := |Filter(table, if trigramFallbackUsed then Fallback(r) else Primary(features, r))|;
      var page := Paginate(results, Limit(r), trigramFallbackUsed, total);
      PageRows(table, features, r, cursor);
      RankedRows(page.pageResults, r.score);
      var data := if r.hasText then Ranked(page.pageResults, r.score) else page.pageResults;
      result := SearchResult(data, page.total, page.cursor, page.hasMore);
    }

    method Paginate(results: seq<Split>, limit: nat, fallbackUsed: bool, total: nat) returns (page: Page)
      ensures page == PageOf(results, limit, fallbackUsed, total)
    {
      var hasMore := |results| > limit;
      var pageResults := if hasMore then results[..limit] else results;
      var nextCursor := None;
      if hasMore && |pageResults| > 0 {
        nextCursor := Some(EncodeCursor(pageResults[|pageResults| - 1]));
      }
      page := Page(pageResults, hasMore, nextCursor, fallbackUsed, total);
    }
  }

  lemma {:induction false} InsertRankedPermutes(s: Split, ranked: seq<Split>, score: Split -> real)
    ensures multiset(InsertRanked(s, ranked, score)) == multiset(ranked) + multiset{s}
  {
    if ranked != [] && score(s) < score(ranked[0]) {
      InsertRankedPermutes(s, ranked[1..], score);
      assert ranked == [ranked[0]] + ranked[1..];
    }
  }

  lemma {:induction false} RankedPermutes(rows: seq<Split>, score: Split -> real)
    ensures multiset(Ranked(rows, score)) == multiset(rows)
  {
    if rows != [] {
      RankedPermutes(rows[1..], score);
      InsertRankedPermutes(rows[0], Ranked(rows[1..], score), score);
      assert rows == [rows[0]] + rows[1..];
    }
  }

  lemma {:induction false} InsertRankedFalls(s: Split, ranked: seq<Split>, score: Split -> real)
    requires Falling(ranked, score)
    ensures Falling(InsertRanked(s, ranked, score), score)
    ensures forall x <- InsertRanked(s, ranked, score) :: x == s || x in ranked
  {
    if ranked != [] && score(s) < score(ranked[0]) {
      InsertRankedFalls(s, ranked[1..], score);
    }
  }

  ghost predicate Falling(rows: seq<Split>, score: Split -> real) {
    rows == [] || ((forall s <- rows[1..] :: score(rows[0]) >= score(s)) && Falling(rows[1..], score))
  }

  lemma {:induction false} FallingByIndex(rows: seq<Split>, score: Split -> real)
    requires Falling(rows, score)
    ensures forall i, j :: 0 <= i < j < |rows| ==> score(rows[i]) >= score(rows[j])
  {
    if rows != [] {
      FallingByIndex(rows[1..], score);
      assert forall j :: 0 < j < |rows| ==> rows[j] == rows[1..][j - 1];
    }
  }

  lemma {:induction false} RankedIsFalling(rows: seq<Split>, score: Split -> real)
    ensures Falling(Ranked(rows, score), score)
  {
    if rows != [] {
      RankedIsFalling(rows[1..], score);
      InsertRankedFalls(rows[0], Ranked(rows[1..], score), score);
    }
  }

  function WithScore(score: Split -> real, v: real): Split -> bool {
    (s: Split) => score(s) == v
  }

  /** A ranked page falls in score, and rows of one score keep their order. */
  lemma RankedRows(rows: seq<Split>, score: Split -> real)
    ensures var ranked := Ranked(rows, score);
      && multiset(ranked) == multiset(rows)
      && (forall s :: s in ranked <==> s in rows)
      && |ranked| == |rows|
      && (forall i, j :: 0 <= i < j < |ranked| ==> score(ranked[i]) >= score(ranked[j]))
      && forall v: real :: Filter(ranked, WithScore(score, v)) == Filter(rows, WithScore(score, v))
  {
    var ranked := Ranked(rows, score);
    RankedPermutes(rows, score);
    assert |multiset(ranked)| == |ranked| && |multiset(rows)| == |rows|;
    assert forall s :: s in ranked <==> s in multiset(ranked);
    RankedIsFalling(rows, score);
    FallingByIndex(ranked, score);
    forall v: real
      ensures Filter(ranked, WithScore(score, v)) == Filter(rows, WithScore(score, v))
    {
      RankedIsStable(rows, score, WithScore(score, v), v);
    }
  }

  lemma {:induction false} InsertRankedStable(
    s: Split, ranked: seq<Split>, score: Split -> real, p: Split -> bool, v: real)
    requires forall x :: p(x) <==> score(x) == v
    ensures Filter(InsertRanked(s, ranked, score), p) == (if p(s) then [s] else []) + Filter(ranked, p)
  {
    if ranked != [] && score(s) < score(ranked[0]) {
      InsertRankedStable(s, ranked[1..], score, p, v);
    }
  }

  lemma {:induction false} RankedIsStable(rows: seq<Split>, score: Split -> real, p: Split -> bool, v: real)
    requires forall x :: p(x) <==> score(x) == v
    ensures Filter(Ranked(rows, score), p) == Filter(rows, p)
  {
    if rows != [] {
      RankedIsStable(rows[1..], score, p, v);
      InsertRankedStable(rows[0], Ranked(rows[1..], score), score, p, v);
    }
  }

  // ----- What is found -----

  /** A row that a search accepts: it passes the filters and, if there is a text, the search that applies. */
  predicate Matches(f: Features, r: Request, fellBack: bool, s: Split) {
    && r.passesFilters(s)
    && (r.hasText ==>
      if fellBack then r.trigram(s)
      else if f.fts then r.fullText(s)
      else if f.trgm then r.trigram(s)
      else r.like(s))
  }

  /** With full text and trigrams at hand, no row at or beyond the cursor is found by its text. */
  ghost predicate NothingByText(table: seq<Split>, f: Features, r: Request, cursor: Option<Cursor>) {
    && r.hasText && f.fts && f.trgm
    && !exists s <- table ::
      r.passesFilters(s) && r.fullText(s) && (cursor.Some? ==> Beyond(r.sort, cursor.value, s))
  }

  lemma {:induction false} InsertMembers(sort: Option<string>, s: Split, rows: seq<Split>)
    ensures forall x :: x in Insert(sort, s, rows) <==> x == s || x in rows
    ensures |Insert(sort, s, rows)| == |rows| + 1
  {
    if rows != [] && !Before(sort, s, rows[0]) {
      InsertMembers(sort, s, rows[1..]);
    }
  }

  lemma {:induction false} OrderedMembers(sort: Option<string>, rows: seq<Split>)
    ensures forall x :: x in Ordered(sort, rows) <==> x in rows
    ensures |Ordered(sort, rows)| == |rows|
  {
    if rows != [] {
      OrderedMembers(sort, rows[1..]);
      InsertMembers(sort, rows[0], Ordered(sort, rows[1..]));
    }
  }

  lemma SelectMembers(table: seq<Split>, p: Split -> bool, sort: Option<string>)
    ensures forall x :: x in Select(table, p, sort) <==> x in table && p(x)
  {
    FilterMembers(table, p);
    OrderedMembers(sort, Filter(table, p));
  }

  lemma {:induction false} FilterSize(table: seq<Split>, p: Split -> bool, matching: set<Split>)
    requires UniqueIds(table) && forall s :: s in matching <==> s in table && p(s)
    ensures |Filter(table, p)| == |matching|
  {
    if table != [] {
      var head, tail := table[0], table[1..];
      FilterSize(tail, p, matching - {head});
      assert p(head) <==> head in matching;
      if !p(head) {
        assert matching - {head} == matching;
      }
    }
  }

  /** Falling back happens exactly when the text search finds nothing. */
  lemma FallsBackExactly(table: seq<Split>, f: Features, r: Request, cursor: Option<Cursor>)
    ensures FallsBack(table, f, r, cursor) <==> NothingByText(table, f, r, cursor)
  {
    var p := From(Primary(f, r), r.sort, cursor);
    var selected := Select(table, p, r.sort);
    SelectMembers(table, p, r.sort);
    if selected != [] {
      assert selected[0] in selected;
      assert RowsOf(table, Primary(f, r), r, cursor) != [];
    }
  }

  lemma SearchedMatches(table: seq<Split>, f: Features, r: Request, cursor: Option<Cursor>)
    ensures forall s ::
      Searched(table, f, r, cursor)(s) <==> Matches(f, r, NothingByText(table, f, r, cursor), s)
  {
    FallsBackExactly(table, f, r, cursor);
  }

  /** What a page shows and counts, in terms of the request and the table alone. */
  lemma PageRows(table: seq<Split>, f: Features, r: Request, cursor: Option<Cursor>)
    ensures var page, fellBack := SearchPage(table, f, r, cursor), NothingByText(table, f, r, cursor);
      && page.fallbackUsed == fellBack
      && (forall s <- page.pageResults :: s in table && Matches(f, r, fellBack, s))
      && (forall s <- page.pageResults :: cursor.Some? ==> Beyond(r.sort, cursor.value, s))
      && (UniqueIds(table) ==> page.total == |set s <- table | Matches(f, r, fellBack, s)|)
  {
    var p, fellBack := Searched(table, f, r, cursor), NothingByText(table, f, r, cursor);
    SearchedMatches(table, f, r, cursor);
    FallsBackExactly(table, f, r, cursor);
    SelectMembers(table, From(p, r.sort, cursor), r.sort);
    if UniqueIds(table) {
      FilterSize(table, p, set s <- table | Matches(f, r, fellBack, s));
    }
    var rows := Select(table, From(p, r.sort, cursor), r.sort);
    assert forall s <- SearchPage(table, f, r, cursor).pageResults :: s in rows;
  }

  // ----- Ordered lists -----

  ghost predicate UniqueIds(rows: seq<Split>) {
    rows == [] || ((forall s <- rows[1..] :: s.id != rows[0].id) && UniqueIds(rows[1..]))
  }

  ghost predicate SortedBy(sort: Option<string>, rows: seq<Split>) {
    rows == [] || ((forall s <- rows[1..] :: Before(sort, rows[0], s)) && SortedBy(sort, rows[1..]))
  }

  lemma BeforeIsOrder(sort: Option<string>, a: Split, b: Split, c: Split)
    ensures a.id != b.id ==> Before(sort, a, b) || Before(sort, b, a)
    ensures Before(sort, a, b) ==> !Before(sort, b, a)
    ensures Before(sort, a, b) && Before(sort, b, c) ==> Before(sort, a, c)
  {
  }

  lemma {:induction false} InsertSorts(sort: Option<string>, s: Split, sorted: seq<Split>)
    requires SortedBy(sort, sorted) && forall x <- sorted :: x.id != s.id
    ensures SortedBy(sort, Insert(sort, s, sorted))
    ensures forall x :: x in Insert(sort, s, sorted) <==> x == s || x in sorted
    ensures |Insert(sort, s, sorted)| == |sorted| + 1
  {
    if sorted == [] {
    } else if Before(sort, s, sorted[0]) {
      forall x | x in sorted
        ensures Before(sort, s, x)
      {
        BeforeIsOrder(sort, s, sorted[0], x);
      }
    } else {
      InsertSorts(sort, s, sorted[1..]);
      BeforeIsOrder(sort, s, sorted[0], s);
    }
  }

  lemma {:induction false} OrderedSorts(sort: Option<string>, rows: seq<Split>)
    requires UniqueIds(rows)
    ensures SortedBy(sort, Ordered(sort, rows))
    ensures forall x :: x in Ordered(sort, rows) <==> x in rows
    ensures |Ordered(sort, rows)| == |rows|
  {
    if rows != [] {
      OrderedSorts(sort, rows[1..]);
      InsertSorts(sort, rows[0], Ordered(sort, rows[1..]));
    }
  }

  lemma {:induction false} UniqueFilter(rows: seq<Split>, p: Split -> bool)
    requires UniqueIds(rows)
    ensures UniqueIds(Filter(rows, p))
  {
    if rows != [] {
      UniqueFilter(rows[1..], p);
      FilterMembers(rows[1..], p);
    }
  }

  lemma SelectSorts(table: seq<Split>, p: Split -> bool, sort: Option<string>)
    requires UniqueIds(table)
    ensures SortedBy(sort, Select(table, p, sort))
    ensures forall x :: x in Select(table, p, sort) <==> x in table && p(x)
    ensures |Select(table, p, sort)| == |Filter(table, p)|
  {
    UniqueFilter(table, p);
    FilterMembers(table, p);
    OrderedSorts(sort, Filter(table, p));
  }

  /** A sorted list is determined by its members. */
  lemma {:induction false} SortedUnique(sort: Option<string>, a: seq<Split>, b: seq<Split>)
    requires SortedBy(sort, a) && SortedBy(sort, b)
    requires forall x :: x in a <==> x in b
    ensures a == b
  {
    assert b == [] || b[0] in b;
    if a != [] {
      assert a[0] in b;
      assert b[0] in a;
      BeforeIsOrder(sort, a[0], b[0], a[0]);
      assert a[0] == b[0];
      BeforeIsOrder(sort, a[0], a[0], a[0]);
      forall x
        ensures x in a[1..] <==> x in b[1..]
      {
        assert x in a[1..] ==> x in a && x != a[0];
        assert x in b[1..] ==> x in b && x != b[0];
      }
      SortedUnique(sort, a[1..], b[1..]);
      assert a == [a[0]] + a[1..] && b == [b[0]] + b[1..];
    }
  }

  lemma {:induction false} SortedFrom(sort: Option<string>, rows: seq<Split>, k: nat)
    requires SortedBy(sort, rows) && k <= |rows|
    ensures SortedBy(sort, rows[k..])
    ensures forall x :: x in rows[k..] <==> x in rows && (k == 0 || Before(sort, rows[k - 1], x))
  {
    if k > 0 {
      var tail := rows[1..];
      SortedFrom(sort, tail, k - 1);
      assert rows[k..] == tail[k - 1..];
      BeforeIsOrder(sort, rows[0], rows[0], rows[0]);
      if k > 1 {
        assert tail[k - 2] in tail;
        forall x | x in rows && Before(sort, rows[k - 1], x)
          ensures x in tail
        {
          BeforeIsOrder(sort, rows[0], rows[k - 1], x);
        }
      }
    }
  }

  // ----- Walks -----

  /** The pages that a client sees who follows the returned cursors to the end. */
  predicate IsWalk(table: seq<Split>, f: Features, r: Request, cursor: Option<Cursor>, pages: seq<Page>)
    decreases pages
  {
    && pages != []
    && pages[0] == SearchPage(table, f, r, cursor)
    && if pages[0].cursor.Some? then IsWalk(table, f, r, pages[0].cursor, pages[1..]) else |pages| == 1
  }

  function Visited(pages: seq<Page>): seq<Split> {
    if pages == [] then [] else pages[0].pageResults + Visited(pages[1..])
  }

  /** The direction in which the cursor cuts is the direction in which the rows are ordered. */
  predicate CursorFollowsOrder(sort: Option<string>) {
    sort.None? || (
      && sort.value != "amount_desc" && sort.value != "amount_asc"
      && (EndsWith(sort.value, "_asc") ==> sort.value == "createdAt_asc"))
  }

  lemma BeyondIsAfter(sort: Option<string>, a: Split, b: Split)
    requires CursorFollowsOrder(sort)
    ensures Beyond(sort, EncodeCursor(a), b) <==> Before(sort, a, b)
  {
  }

  /** The rows beyond the cursor of row k - 1 are the rows from k on. */
  lemma SelectFrom(table: seq<Split>, p: Split -> bool, sort: Option<string>, k: nat)
    requires UniqueIds(table) && CursorFollowsOrder(sort) && k <= |Select(table, p, sort)|
    ensures var all := Select(table, p, sort);
      var cursor := if k == 0 then None else Some(EncodeCursor(all[k - 1]));
      Select(table, From(p, sort, cursor), sort) == all[k..]
  {
    var all := Select(table, p, sort);
    var cursor := if k == 0 then None else Some(EncodeCursor(all[k - 1]));
    SelectSorts(table, p, sort);
    SelectSorts(table, From(p, sort, cursor), sort);
    SortedFrom(sort, all, k);
    forall x
      ensures x in Select(table, From(p, sort, cursor), sort) <==> x in all[k..]
    {
      if k > 0 {
        BeyondIsAfter(sort, all[k - 1], x);
      }
    }
    SortedUnique(sort, Select(table, From(p, sort, cursor), sort), all[k..]);
  }

  /** Whether a search without cursor falls back decides it for the whole walk. */
  function ModeOf(table: seq<Split>, f: Features, r: Request): Split -> bool {
    Searched(table, f, r, None)
  }

  function CursorAt(all: seq<Split>, k: nat): Option<Cursor>
    requires k <= |all|
  {
    if k == 0 then None else Some(EncodeCursor(all[k - 1]))
  }

  lemma StillEmpty(table: seq<Split>, p: Split -> bool, sort: Option<string>, cursor: Option<Cursor>)
    requires UniqueIds(table) && Select(table, From(p, sort, None), sort) == []
    ensures Select(table, From(p, sort, cursor), sort) == []
  {
  }

  /** All rows of a walk, in order. */
  function AllRows(table: seq<Split>, f: Features, r: Request): seq<Split> {
    Select(table, ModeOf(table, f, r), r.sort)
  }

  /** Row k exists, or k is the start. */
  predicate AtRow(table: seq<Split>, f: Features, r: Request, k: nat) {
    k == 0 || k < |AllRows(table, f, r)|
  }

  /** The fallback is not entered or left in the middle of a walk. */
  lemma ModeIsKept(table: seq<Split>, f: Features, r: Request, k: nat)
    requires UniqueIds(table) && CursorFollowsOrder(r.sort) && AtRow(table, f, r, k)
    ensures FallsBack(table, f, r, CursorAt(AllRows(table, f, r), k)) == FallsBack(table, f, r, None)
  {
    var cursor := CursorAt(AllRows(table, f, r), k);
    if FallsBack(table, f, r, None) {
      StillEmpty(table, Primary(f, r), r.sort, cursor);
    } else if k > 0 {
      SelectFrom(table, Primary(f, r), r.sort, k);
    }
  }

  function SliceEnd(all: seq<Split>, k: nat, limit: nat): (end: nat)
    requires k <= |all|
    ensures k <= end <= |all|
  {
    if |all| - k > limit then k + limit else |all|
  }

  lemma PageOfSlice(all: seq<Split>, k: nat, limit: nat, fallbackUsed: bool)
    requires k <= |all| && limit > 0
    ensures var end := SliceEnd(all, k, limit);
      PageOf(Take(all[k..], limit + 1), limit, fallbackUsed, |all|)
        == Page(all[k..end], end < |all|, if end < |all| then CursorAt(all, end) else None, fallbackUsed, |all|)
  {
  }

  /** The page that starts at row k is the next slice of the rows, in the mode of the first page. */
  lemma PageAt(table: seq<Split>, f: Features, r: Request, k: nat)
    requires UniqueIds(table) && CursorFollowsOrder(r.sort) && AtRow(table, f, r, k)
    ensures var all := AllRows(table, f, r);
      var end := SliceEnd(all, k, Limit(r));
      SearchPage(table, f, r, CursorAt(all, k)) == Page(
        all[k..end], end < |all|, if end < |all| then CursorAt(all, end) else None, FallsBack(table, f, r, None), |all|)
  {
    var p, all := ModeOf(table, f, r), AllRows(table, f, r);
    ModeIsKept(table, f, r, k);
    SelectSorts(table, p, r.sort);
    SelectFrom(table, p, r.sort, k);
    PageOfSlice(all, k, Limit(r), FallsBack(table, f, r, None));
  }

  lemma WalkStep(table: seq<Split>, f: Features, r: Request, k: nat, pages: seq<Page>)
    requires UniqueIds(table) && CursorFollowsOrder(r.sort) && AtRow(table, f, r, k)
    requires IsWalk(table, f, r, CursorAt(AllRows(table, f, r), k), pages)
    ensures var all := AllRows(table, f, r);
      var end := SliceEnd(all, k, Limit(r));
      && pages[0].pageResults == all[k..end]
      && pages[0].total == |all| && pages[0].fallbackUsed == FallsBack(table, f, r, None)
      && if end < |all| then IsWalk(table, f, r, CursorAt(all, end), pages[1..]) else pages[1..] == []
  {
    PageAt(table, f, r, k);
  }

  ghost predicate SameReport(pages: seq<Page>, total: nat, fallbackUsed: bool) {
    forall p <- pages :: p.total == total && p.fallbackUsed == fallbackUsed
  }

  /** The pages are consecutive slices of a list, from row k to its end. */
  ghost predicate Slices(all: seq<Split>, k: nat, limit: nat, fallbackUsed: bool, pages: seq<Page>)
    decreases pages
  {
    && k <= |all| && pages != []
    && var end := SliceEnd(all, k, limit);
    && pages[0].pageResults == all[k..end]
    && pages[0].total == |all| && pages[0].fallbackUsed == fallbackUsed
    && if end < |all| then Slices(all, end, limit, fallbackUsed, pages[1..]) else pages[1..] == []
  }

  lemma {:induction false} WalkSlices(table: seq<Split>, f: Features, r: Request, k: nat, pages: seq<Page>)
    requires UniqueIds(table) && CursorFollowsOrder(r.sort) && AtRow(table, f, r, k)
    requires IsWalk(table, f, r, CursorAt(AllRows(table, f, r), k), pages)
    ensures Slices(AllRows(table, f, r), k, Limit(r), FallsBack(table, f, r, None), pages)
    decreases pages
  {
    var all := AllRows(table, f, r);
    WalkStep(table, f, r, k, pages);
    if SliceEnd(all, k, Limit(r)) < |all| {
      WalkSlices(table, f, r, SliceEnd(all, k, Limit(r)), pages[1..]);
    }
  }

  lemma {:induction false} SlicesCover(all: seq<Split>, k: nat, limit: nat, fallbackUsed: bool, pages: seq<Page>)
    requires Slices(all, k, limit, fallbackUsed, pages)
    ensures Visited(pages) == all[k..] && SameReport(pages, |all|, fallbackUsed)
    decreases pages
  {
    var end := SliceEnd(all, k, limit);
    if end < |all| {
      SlicesCover(all, end, limit, fallbackUsed, pages[1..]);
    }
    assert all[k..end] + all[end..] == all[k..];
    assert pages == [pages[0]] + pages[1..];
  }

  /**
    Following the cursors from the first page visits each matching split exactly once, in order;
    every page reports the number of rows visited and searches in the mode of the first.
   */
  lemma WalkVisitsEachOnce(table: seq<Split>, f: Features, r: Request, pages: seq<Page>)
    requires UniqueIds(table) && CursorFollowsOrder(r.sort) && IsWalk(table, f, r, None, pages)
    ensures Complete(table, f, r, pages)
  {
    var all := AllRows(table, f, r);
    WalkSlices(table, f, r, 0, pages);
    SlicesCover(all, 0, Limit(r), FallsBack(table, f, r, None), pages);
    SelectSorts(table, ModeOf(table, f, r), r.sort);
    assert all[0..] == all;
  }

  /**
    What a walk over an unchanging table shows: every row that passes the filters and the text
    search, or the trigram search if the text search finds nothing at all, exactly once and by date,
    falling unless it was asked for rising; and every page tells how many there are.
   */
  lemma WalkFinds(table: seq<Split>, f: Features, r: Request, pages: seq<Page>)
    requires UniqueIds(table) && CursorFollowsOrder(r.sort) && IsWalk(table, f, r, None, pages)
    ensures var rows, fellBack := Visited(pages), NothingByText(table, f, r, None);
      && (forall s :: s in rows <==> s in table && Matches(f, r, fellBack, s))
      && (forall p <- pages :: p.total == |rows| && p.fallbackUsed == fellBack)
      && forall i, j :: 0 <= i < j < |rows| ==>
        var a, b := rows[i], rows[j];
        && a != b
        && if r.sort == Some("createdAt_asc")
           then a.createdAt < b.createdAt || (a.createdAt == b.createdAt && a.id < b.id)
           else a.createdAt > b.createdAt || (a.createdAt == b.createdAt && a.id > b.id)
  {
    WalkVisitsEachOnce(table, f, r, pages);
    SearchedMatches(table, f, r, None);
    FallsBackExactly(table, f, r, None);
    SortedByDate(r.sort, Visited(pages));
  }

  lemma {:induction false} SortedByDate(sort: Option<string>, rows: seq<Split>)
    requires SortedBy(sort, rows) && CursorFollowsOrder(sort)
    ensures forall i, j :: 0 <= i < j < |rows| ==>
      var a, b := rows[i], rows[j];
      && a != b
      && if sort == Some("createdAt_asc")
         then a.createdAt < b.createdAt || (a.createdAt == b.createdAt && a.id < b.id)
         else a.createdAt > b.createdAt || (a.createdAt == b.createdAt && a.id > b.id)
  {
    if rows != [] {
      SortedByDate(sort, rows[1..]);
      assert forall j :: 0 < j < |rows| ==> rows[j] == rows[1..][j - 1] && rows[j] in rows[1..];
    }
  }

  ghost predicate Complete(table: seq<Split>, f: Features, r: Request, pages: seq<Page>) {
    var rows := Visited(pages);
    && SortedBy(r.sort, rows)
    && (forall s :: s in rows <==> s in table && ModeOf(table, f, r)(s))
    && SameReport(pages, |rows|, FallsBack(table, f, r, None))
  }

  /** And every walk ends. */
  lemma {:induction false} WalkEnds(table: seq<Split>, f: Features, r: Request, k: nat) returns (pages: seq<Page>)
    requires UniqueIds(table) && CursorFollowsOrder(r.sort) && AtRow(table, f, r, k)
    ensures IsWalk(table, f, r, CursorAt(AllRows(table, f, r), k), pages)
    decreases |AllRows(table, f, r)| - k
  {
    var all := AllRows(table, f, r);
    var end := SliceEnd(all, k, Limit(r));
    PageAt(table, f, r, k);
    pages := [SearchPage(table, f, r, CursorAt(all, k))];
    if end < |all| {
      var rest := WalkEnds(table, f, r, end);
      pages := pages + rest;
      assert pages[1..] == rest;
    }
  }

  // ----- Where walks go wrong -----

  ghost predicate AlwaysComplete(sort: Option<string>) {
    forall table, f, r: Request, pages ::
      UniqueIds(table) && r.sort == sort && IsWalk(table, f, r, None, pages) ==> Complete(table, f, r, pages)
  }

  /** The request for everything, one row a page. */
  function Everything(sort: Option<string>): Request {
    Request(false, s => true, s => true, s => true, s => true, s => 0.0, sort, 1)
  }

  /** Two rows in order, of which the second is not beyond the cursor of the first. */
  lemma RowIsLost(sort: Option<string>, a: Split, b: Split)
    requires Before(sort, a, b) && a.id != b.id && !Beyond(sort, EncodeCursor(a), b)
    ensures !AlwaysComplete(sort)
  {
    var f, r, table := Features(false, false, false), Everything(sort), [a, b];
    var none := Some(EncodeCursor(a));
    assert table[1..] == [b] && [b][1..] == [];
    BeforeIsOrder(sort, a, b, a);
    var all := From(Primary(f, r), sort, None);
    assert all(a) && all(b);
    assert Filter([b], all) == [b] + Filter([], all) == [b];
    assert Filter(table, all) == [a] + Filter([b], all) == table;
    assert Ordered(sort, [b]) == Insert(sort, b, []) == [b];
    assert Ordered(sort, table) == Insert(sort, a, [b]) == table;
    var beyond := From(Primary(f, r), sort, none);
    BeforeIsOrder(sort, a, a, a);
    assert !beyond(a) && !beyond(b);
    assert Filter([b], beyond) == [] && Filter(table, beyond) == [];
    var first, second := SearchPage(table, f, r, None), SearchPage(table, f, r, none);
    assert first.pageResults == [a] && first.cursor == none;
    assert second.pageResults == [] && second.cursor == None;
    var pages := [first, second];
    assert pages[1..] == [second] && [second][1..] == [];
    assert Visited([second]) == [] + Visited([]) == [];
    assert Visited(pages) == [a] + Visited([second]) == [a];
    assert IsWalk(table, f, r, None, pages);
    assert b in table && b !in Visited(pages) && ModeOf(table, f, r)(b);
    assert UniqueIds([b]) && UniqueIds(table);
    assert r.sort == sort && !Complete(table, f, r, pages);
  }

  /**
    Walks are complete on every table exactly for the sorts whose cursor follows the order: not for
    the amount sorts, and not for an unknown sort that ends in _asc, which orders by falling date.
   */
  lemma CompleteExactlyForCreatedAt(sort: Option<string>)
    ensures AlwaysComplete(sort) <==> CursorFollowsOrder(sort)
  {
    if CursorFollowsOrder(sort) {
      forall table, f, r: Request, pages | UniqueIds(table) && r.sort == sort && IsWalk(table, f, r, None, pages)
        ensures Complete(table, f, r, pages)
      {
        WalkVisitsEachOnce(table, f, r, pages);
      }
    } else if sort == Some("amount_desc") {
      assert !EndsWith("amount_desc", "_asc");
      RowIsLost(sort, Split(1, 1, 10), Split(2, 2, 5));
    } else if sort == Some("amount_asc") {
      assert EndsWith("amount_asc", "_asc");
      RowIsLost(sort, Split(1, 2, 5), Split(2, 1, 10));
    } else {
      RowIsLost(sort, Split(1, 2, 0), Split(2, 1, 0));
    }
  }
}
