/** Route evidence: the reports that match a saved route, newest first, walked page by page through printed cursors. */
module RouteEvidence {
  import opened Base
  import opened Sorting
  import opened Text
  import EvidenceCursor

  const TRACE: int := 9

  datatype Report = Report(id: int, heardAt: int, iata: string, hashSize: int, hopCount: int,
                           pathBytes: Option<seq<nat>>,
                           payloadType: Option<int>)

  /** A saved route: its hash prefixes, one per hop. */
  datatype Route = Route(prefixes: seq<seq<nat>>, hopCount: int)

  // ---- the path a route looks for ----

  function Concat(parts: seq<seq<nat>>): seq<nat> {
    if parts == [] then [] else Concat(parts[..|parts| - 1]) + parts[|parts| - 1]
  }

  /** savedRoutePath: 2 to 63 prefixes of one width between 1 and 3, joined. */
  function SavedRoutePath(route: Route): Option<(int, seq<nat>)> {
    var p := route.prefixes;
    if route.hopCount < 2 || route.hopCount > 63 || |p| != route.hopCount then None
    else if |p[0]| < 1 || |p[0]| > 3 || exists i :: 0 <= i < |p| && |p[i]| != |p[0]| then None
    else Some((|p[0]|, Concat(p)))
  }

  /** The joined bytes keep every prefix in its place, so different routes of one width look for different bytes. */
  lemma {:induction false} ConcatSlices(parts: seq<seq<nat>>, width: nat, i: nat)
    requires (forall j :: 0 <= j < |parts| ==> |parts[j]| == width) && i < |parts|
    ensures |Concat(parts)| == |parts| * width
    ensures i * width + width <= |parts| * width && Concat(parts)[i * width..i * width + width] == parts[i]
  {
    var front, n := parts[..|parts| - 1], |parts| - 1;
    if front == [] {
      assert Concat(parts) == parts[0];
    } else {
      ConcatSlices(front, width, if i < n then i else 0);
      Widened(n, width);
      if i < n {
        SlicePrefix(Concat(front), parts[n], i * width, i * width + width);
      }
    }
  }

  lemma Widened(n: nat, width: nat)
    ensures (n + 1) * width == n * width + width
  {
  }

  lemma SlicePrefix(a: seq<nat>, b: seq<nat>, lo: nat, hi: nat)
    requires lo <= hi <= |a|
    ensures (a + b)[lo..hi] == a[lo..hi]
  {
  }

  lemma SavedPathInjective(a: Route, b: Route)
    requires SavedRoutePath(a).Some? && SavedRoutePath(a) == SavedRoutePath(b) && a.hopCount == b.hopCount
    ensures a.prefixes == b.prefixes
  {
    var width := |a.prefixes[0]|;
    forall i | 0 <= i < |a.prefixes| ensures a.prefixes[i] == b.prefixes[i] {
      ConcatSlices(a.prefixes, width, i);
      ConcatSlices(b.prefixes, width, i);
    }
  }

  // ---- the query ----

  datatype Request = Request(iata: string, key: string, since: int, until: int)

  function Matching(q: Request, route: Route): Report -> bool {
    (r: Report) =>
      && SavedRoutePath(route).Some?
      && r.iata == q.iata && r.hashSize == SavedRoutePath(route).value.0
      && r.pathBytes == Some(SavedRoutePath(route).value.1)
      && r.hopCount >= 2 && r.hopCount == route.hopCount
      && r.payloadType.Some? && r.payloadType.value != TRACE
      && q.since <= r.heardAt < q.until
  }

  /** (heard_at, id) < (at, id). */
  function Before(at: int, id: int): Report -> bool {
    (r: Report) => r.heardAt < at || (r.heardAt == at && r.id < id)
  }

  /** ORDER BY heard_at DESC, id DESC. */
  predicate NewestFirst(a: Report, b: Report) {
    a.heardAt > b.heardAt || (a.heardAt == b.heardAt && a.id >= b.id)
  }

  function ListEvidence(rows: seq<Report>, q: Request, route: Route, at: int, id: int, limit: nat): seq<Report> {
    Take(Sort(Filter(Filter(rows, Matching(q, route)), Before(at, id)), NewestFirst), limit)
  }

  /** The reference: every matching report, newest first. */
  function AllEvidence(rows: seq<Report>, q: Request, route: Route): seq<Report> {
    Sort(Filter(rows, Matching(q, route)), NewestFirst)
  }

  // ---- one page ----

  datatype Response = BadInput | Page(items: seq<Report>, hasMore: bool, next: Option<string>, available: bool)

  predicate CursorFits(c: EvidenceCursor.Cursor, q: Request) {
    && c.iata == q.iata && c.pathKey == q.key && c.since == q.since && c.until == q.until
    && c.id > 0 && q.since <= c.heardAt < q.until
  }

  function NextCursor(q: Request, last: Report): EvidenceCursor.Cursor {
    EvidenceCursor.Cursor(q.iata, q.key, q.since, q.until, last.heardAt, last.id)
  }

  predicate GoodRequest(q: Request, limit: int) {
    EvidenceCursor.ValidKey(q.iata, q.key) && EvidenceCursor.ValidWindow(q.since, q.until) && 1 <= limit <= 200
  }

  /** The page of the rows found: one more than the limit shows that there is more. */
  function PageOf(found: seq<Report>, q: Request, limit: nat): Response
    requires limit > 0
  {
    var items := Take(found, limit);
    if |found| > limit then Page(items, true, Some(EvidenceCursor.Print(NextCursor(q, items[limit - 1]))), true)
    else Page(items, false, None, true)
  }

  function PageAfter(rows: seq<Report>, q: Request, route: Route, at: int, id: int, limit: nat): Response
    requires limit > 0
  {
    PageOf(ListEvidence(rows, q, route, at, id, limit + 1), q, limit)
  }

  /** A request with the cursor text the client sent back, if any. */
  function Respond(rows: seq<Report>, q: Request, route: Route, cursor: Option<string>, limit: int): Response {
    if !GoodRequest(q, limit) then BadInput
    else if cursor.None? then
      if SavedRoutePath(route).None? then Page([], false, None, false)
      else PageAfter(rows, q, route, q.until, MAX_INT64, limit)
    else
      var c := EvidenceCursor.Parse(cursor.value);
      if c.None? || !CursorFits(c.value, q) then BadInput
      else if SavedRoutePath(route).None? then Page([], false, None, false)
      else PageAfter(rows, q, route, c.value.heardAt, c.value.id, limit)
  }

  /** Cuts the extra row that shows there is more. */
  method CutPage(rows: seq<Report>, q: Request, limit: nat) returns (r: Response)
    requires limit > 0
    ensures r == PageOf(rows, q, limit)
  {
    var found := rows;
    var hasMore := |found| > limit;
    if hasMore {
      found := found[..limit];
    }
    var items: seq<Report> := [];
    for i := 0 to |found|
      invariant items == found[..i]
    {
      items := items + [found[i]];
    }
    assert found[..|found|] == found;
    var next := None;
    if hasMore {
      next := Some(EvidenceCursor.Print(NextCursor(q, found[|found| - 1])));
    }
    r := Page(items, hasMore, next, true);
  }

  /** GetRouteEvidence. */
  method GetRouteEvidence(rows: seq<Report>, q: Request, route: Route, cursor: Option<string>,
                          limit: int) returns (r: Response)
    ensures r == Respond(rows, q, route, cursor, limit)
  {
    if !GoodRequest(q, limit) {
      return BadInput;
    }
    var beforeAt, beforeId := q.until, MAX_INT64;
    if cursor.Some? {
      var c := EvidenceCursor.ParseCursor(cursor.value);
      if c.None? || !CursorFits(c.value, q) {
        return BadInput;
      }
      beforeAt, beforeId := c.value.heardAt, c.value.id;
    }
    if SavedRoutePath(route).None? {
      return Page([], false, None, false);
    }
    var found := ListEvidence(rows, q, route, beforeAt, beforeId, limit + 1);
    r := CutPage(found, q, limit);
  }

  // ---- the walk ----

  /** What the table promises: positive, distinct ids. */
  ghost predicate Table(rows: seq<Report>) {
    && (forall r :: r in rows ==> 0 < r.id <= MAX_INT64)
    && (forall i, j :: 0 <= i < j < |rows| ==> rows[i].id != rows[j].id)
  }

  ghost predicate WalkRequest(q: Request, limit: int) {
    GoodRequest(q, limit) && q.since % 1000 == 0 && q.until % 1000 == 0
        && EvidenceCursor.UnixMilli(q.until) <= EvidenceCursor.MAX_MILLI
  }

  /** What a client collects in so many requests, following nextPageCursor until there is none. */
  function Walk(rows: seq<Report>, q: Request, route: Route, cursor: Option<string>, limit: int,
                pages: nat): seq<Report>
    decreases pages
  {
    if pages == 0 then []
    else
      var r := Respond(rows, q, route, cursor, limit);
      if r.BadInput? then []
      else r.items + if r.next.Some? then Walk(rows, q, route, r.next, limit, pages - 1) else []
  }

  lemma NewestFirstIsPreorder()
    ensures TotalPreorder(NewestFirst)
  {
  }

  lemma {:induction false} FilterIds(rows: seq<Report>, p: Report -> bool)
    requires Table(rows)
    ensures Table(Filter(rows, p))
  {
    if rows != [] {
      var front, last := rows[..|rows| - 1], rows[|rows| - 1];
      FilterIds(front, p);
      var kept := Filter(front, p);
      forall i | 0 <= i < |kept| ensures kept[i].id != last.id {
        FilterMember(front, p, kept[i]);
        assert kept[i] in kept;
        var j :| 0 <= j < |front| && front[j] == kept[i];
        assert rows[j] == front[j];
      }
    }
  }

  lemma {:induction false} InsertIds(x: Report, sorted: seq<Report>)
    requires Table(sorted + [x])
    ensures Table(Insert(x, sorted, NewestFirst))
    ensures forall r :: r in Insert(x, sorted, NewestFirst) <==> r in sorted || r == x
  {
    if sorted != [] {
      var front, last := sorted[..|sorted| - 1], sorted[|sorted| - 1];
      var all, shorter := sorted + [x], front + [x];
      assert sorted == front + [last] && all[|sorted|] == x && all[|front|] == last;
      if !NewestFirst(last, x) {
        forall i, j | 0 <= i < j < |shorter| ensures shorter[i].id != shorter[j].id {
          assert shorter[i] == all[i] && shorter[j] == all[if j < |front| then j else |sorted|];
        }
        forall r | r in shorter ensures r in all { }
        InsertIds(x, front);
        var r := Insert(x, front, NewestFirst);
        forall i | 0 <= i < |r| ensures r[i].id != last.id {
          assert r[i] in r;
          if r[i] in front {
            var j :| 0 <= j < |front| && front[j] == r[i];
            assert all[j] == r[i];
          }
        }
        forall y | y in r + [last] ensures y in all { }
      }
    }
  }

  lemma {:induction false} SortIds(rows: seq<Report>)
    requires Table(rows)
    ensures Table(Sort(rows, NewestFirst)) && forall r :: r in Sort(rows, NewestFirst) <==> r in rows
  {
    if rows != [] {
      var front, x := rows[..|rows| - 1], rows[|rows| - 1];
      assert rows == front + [x];
      SortIds(front);
      var sorted := Sort(front, NewestFirst);
      forall i | 0 <= i < |sorted| ensures sorted[i].id != x.id {
        assert sorted[i] in sorted;
        var j :| 0 <= j < |front| && front[j] == sorted[i];
        assert rows[j] == front[j];
      }
      InsertIds(x, sorted);
    }
  }

  /** Every report listed is a matching one inside the window, in strictly descending (heard_at, id) order. */
  lemma Listed(rows: seq<Report>, q: Request, route: Route)
    requires Table(rows)
    ensures var all := AllEvidence(rows, q, route);
            && Table(all) && Ordered(all, NewestFirst)
            && forall r :: r in all <==> r in rows && Matching(q, route)(r)
  {
    NewestFirstIsPreorder();
    var matching := Filter(rows, Matching(q, route));
    FilterIds(rows, Matching(q, route));
    SortIds(matching);
    SortOrders(matching, NewestFirst);
    forall r ensures r in matching <==> r in rows && Matching(q, route)(r) {
      FilterMember(rows, Matching(q, route), r);
    }
  }

  /** The bound that skips the first k reports: nothing at all, or the last report of the page before. */
  predicate Skips(all: seq<Report>, q: Request, k: nat, at: int, id: int)
    requires k <= |all|
  {
    if k == 0 then at == q.until && id == MAX_INT64 else at == all[k - 1].heardAt && id == all[k - 1].id
  }

  lemma QueryIsSuffix(rows: seq<Report>, q: Request, route: Route, k: nat, at: int, id: int, limit: nat)
    requires Table(rows) && k <= |AllEvidence(rows, q, route)| && Skips(AllEvidence(rows, q, route), q, k, at, id)
    ensures ListEvidence(rows, q, route, at, id, limit) == Take(AllEvidence(rows, q, route)[k..], limit)
  {
    var all := AllEvidence(rows, q, route);
    Listed(rows, q, route);
    NewestFirstIsPreorder();
    forall i | 0 <= i < |all| ensures Before(at, id)(all[i]) == (i >= k) {
      assert all[i] in all;
      if 0 < k <= i { assert NewestFirst(all[k - 1], all[i]); }
      if i < k - 1 { assert NewestFirst(all[i], all[k - 1]); }
    }
    FilterSuffix(all, Before(at, id), k);
    FilterSort(Filter(rows, Matching(q, route)), NewestFirst, Before(at, id));
  }

  /** The cursor of a page that ends at report k: printed, sent back and parsed, it still says where to go on. */
  lemma CursorSurvives(rows: seq<Report>, q: Request, route: Route, limit: int, k: nat)
    requires Table(rows) && WalkRequest(q, limit) && 0 < k <= |AllEvidence(rows, q, route)|
    ensures var c := NextCursor(q, AllEvidence(rows, q, route)[k - 1]);
            EvidenceCursor.Parse(EvidenceCursor.Print(c)) == Some(c) && CursorFits(c, q)
  {
    var all := AllEvidence(rows, q, route);
    Listed(rows, q, route);
    assert all[k - 1] in all;
    EvidenceCursor.PrintThenParse(NextCursor(q, all[k - 1]));
  }

  function CursorAt(rows: seq<Report>, q: Request, route: Route, k: nat): Option<string>
    requires k <= |AllEvidence(rows, q, route)|
  {
    if k == 0 then None else Some(EvidenceCursor.Print(NextCursor(q, AllEvidence(rows, q, route)[k - 1])))
  }

  /** The page asked for with the cursor that skips k reports shows the next limit reports and says where to go on. */
  lemma PageAt(rows: seq<Report>, q: Request, route: Route, limit: int, k: nat)
    requires Table(rows) && WalkRequest(q, limit) && SavedRoutePath(route).Some? && k <= |AllEvidence(rows, q, route)|
    ensures var all := AllEvidence(rows, q, route);
            Respond(rows, q, route, CursorAt(rows, q, route, k), limit)
            == if |all| - k > limit then Page(all[k..k + limit], true, CursorAt(rows, q, route, k + limit), true)
               else Page(all[k..], false, None, true)
  {
    var all := AllEvidence(rows, q, route);
    var (at, id) := if k == 0 then (q.until, MAX_INT64) else (all[k - 1].heardAt, all[k - 1].id);
    RespondAt(rows, q, route, limit, k, at, id);
    QueryIsSuffix(rows, q, route, k, at, id, limit + 1);
    PageOfSuffix(rows, q, route, limit, k);
  }

  lemma PageOfSuffix(rows: seq<Report>, q: Request, route: Route, limit: nat, k: nat)
    requires limit > 0 && k <= |AllEvidence(rows, q, route)|
    ensures var all := AllEvidence(rows, q, route);
            PageOf(Take(all[k..], limit + 1), q, limit)
            == if |all| - k > limit then Page(all[k..k + limit], true, CursorAt(rows, q, route, k + limit), true)
               else Page(all[k..], false, None, true)
  {
    CutAt(AllEvidence(rows, q, route), k, limit);
  }

  lemma RespondAt(rows: seq<Report>, q: Request, route: Route, limit: int, k: nat, at: int, id: int)
    requires Table(rows) && WalkRequest(q, limit) && SavedRoutePath(route).Some? && k <= |AllEvidence(rows, q, route)|
    requires Skips(AllEvidence(rows, q, route), q, k, at, id)
    ensures Respond(rows, q, route, CursorAt(rows, q, route, k), limit) == PageAfter(rows, q, route, at, id, limit)
  {
    if k > 0 { CursorSurvives(rows, q, route, limit, k); }
  }

  lemma CutAt(all: seq<Report>, k: nat, limit: nat)
    requires k <= |all|
    ensures Take(Take(all[k..], limit + 1), limit) == if |all| - k > limit then all[k..k + limit] else all[k..]
  {
  }

  /** From report k on, so many pages show exactly the next total reports. */
  ghost predicate Shows(rows: seq<Report>, q: Request, route: Route, limit: int, k: nat, pages: nat, total: nat) {
    && k <= |AllEvidence(rows, q, route)|
    && Walk(rows, q, route, CursorAt(rows, q, route, k), limit, pages) == Take(AllEvidence(rows, q, route)[k..], total)
  }

  lemma {:induction false} WalkFrom(rows: seq<Report>, q: Request, route: Route, limit: int, k: nat, pages: nat,
                                    total: nat)
    requires Table(rows) && WalkRequest(q, limit) && SavedRoutePath(route).Some? && k <= |AllEvidence(rows, q, route)|
    requires total == Capacity(pages, limit)
    ensures Shows(rows, q, route, limit, k, pages, total)
    decreases pages
  {
    if pages == 0 {
      WalkNone(rows, q, route, limit, k);
    } else {
      if k + limit < |AllEvidence(rows, q, route)| {
        WalkFrom(rows, q, route, limit, k + limit, pages - 1, total - limit);
      }
      WalkStep(rows, q, route, limit, k, pages, total - limit);
    }
  }

  /** One page, and then whatever the rest of the walk shows. */
  lemma WalkStep(rows: seq<Report>, q: Request, route: Route, limit: int, k: nat, pages: nat, more: nat)
    requires Table(rows) && WalkRequest(q, limit) && SavedRoutePath(route).Some? && k <= |AllEvidence(rows, q, route)|
             && pages > 0
    requires k + limit < |AllEvidence(rows, q, route)| ==> Shows(rows, q, route, limit, k + limit, pages - 1, more)
    ensures Shows(rows, q, route, limit, k, pages, limit + more)
  {
    if k + limit < |AllEvidence(rows, q, route)| {
      WalkMore(rows, q, route, limit, k, pages, more);
    } else {
      WalkEnds(rows, q, route, limit, k, pages, more);
    }
  }

  /** How many reports so many full pages hold. */
  function Capacity(pages: nat, limit: nat): nat {
    if pages == 0 then 0 else limit + Capacity(pages - 1, limit)
  }

  lemma {:induction false} CapacityIsProduct(pages: nat, limit: nat)
    ensures Capacity(pages, limit) == pages * limit
  {
    if pages > 0 {
      CapacityIsProduct(pages - 1, limit);
      assert pages * limit == limit + (pages - 1) * limit;
    }
  }

  lemma WalkNone(rows: seq<Report>, q: Request, route: Route, limit: int, k: nat)
    requires k <= |AllEvidence(rows, q, route)|
    ensures Shows(rows, q, route, limit, k, 0, 0)
  {
  }

  lemma WalkMore(rows: seq<Report>, q: Request, route: Route, limit: int, k: nat, pages: nat, more: nat)
    requires Table(rows) && WalkRequest(q, limit) && SavedRoutePath(route).Some? && pages > 0
    requires k + limit < |AllEvidence(rows, q, route)| && Shows(rows, q, route, limit, k + limit, pages - 1, more)
    ensures Shows(rows, q, route, limit, k, pages, limit + more)
  {
    var all := AllEvidence(rows, q, route);
    PageAt(rows, q, route, limit, k);
    WalkOn(rows, q, route, CursorAt(rows, q, route, k), limit, pages, all[k..k + limit],
           CursorAt(rows, q, route, k + limit));
    TakeInTwo(all, k, limit, more);
  }

  lemma WalkEnds(rows: seq<Report>, q: Request, route: Route, limit: int, k: nat, pages: nat, more: nat)
    requires Table(rows) && WalkRequest(q, limit) && SavedRoutePath(route).Some? && pages > 0
    requires k <= |AllEvidence(rows, q, route)| <= k + limit
    ensures Shows(rows, q, route, limit, k, pages, limit + more)
  {
    PageAt(rows, q, route, limit, k);
    WalkOn(rows, q, route, CursorAt(rows, q, route, k), limit, pages, AllEvidence(rows, q, route)[k..], None);
  }

  lemma WalkOn(rows: seq<Report>, q: Request, route: Route, cursor: Option<string>, limit: int, pages: nat,
               items: seq<Report>,
               next: Option<string>)
    requires pages > 0 && Respond(rows, q, route, cursor, limit) == Page(items, next.Some?, next, true)
    ensures Walk(rows, q, route, cursor, limit, pages)
         == items + if next.Some? then Walk(rows, q, route, next, limit, pages - 1) else []
  {
  }

  lemma TakeInTwo(all: seq<Report>, k: nat, limit: nat, more: nat)
    requires k + limit <= |all|
    ensures Take(all[k..], limit + more) == all[k..k + limit] + Take(all[k + limit..], more)
  {
  }

  /** The walk is exact: following the cursors to the end shows every matching report exactly once, newest first, for
      every limit, even among equal timestamps. */
  lemma WalkIsExact(rows: seq<Report>, q: Request, route: Route, limit: int, pages: nat)
    requires Table(rows) && WalkRequest(q, limit) && SavedRoutePath(route).Some?
    requires pages * limit >= |AllEvidence(rows, q, route)|
    ensures Walk(rows, q, route, None, limit, pages) == AllEvidence(rows, q, route)
    ensures multiset(Walk(rows, q, route, None, limit, pages)) == multiset(Filter(rows, Matching(q, route)))
    ensures Ordered(Walk(rows, q, route, None, limit, pages), NewestFirst)
  {
    WalkFrom(rows, q, route, limit, 0, pages, Capacity(pages, limit));
    CapacityIsProduct(pages, limit);
    var all := AllEvidence(rows, q, route);
    assert all[0..] == all;
    NewestFirstIsPreorder();
    SortOrders(Filter(rows, Matching(q, route)), NewestFirst);
  }
}
