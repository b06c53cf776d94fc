/** Route evidence, column by column: which requests are refused, which routes can be matched, and which reports a walk
    shows. */
module EvidenceColumns {
  import opened Base
  import opened Sorting
  import opened Text
  import EvidenceCursor
  import opened RouteEvidence

  // ---- routes ----

  /** A route that can be matched: 2 to 63 hops, one prefix each, all of one width from 1 to 3. */
  ghost predicate HasPath(route: Route, width: int) {
    && 2 <= |route.prefixes| <= 63 && |route.prefixes| == route.hopCount
    && 1 <= width <= 3 && forall i :: 0 <= i < |route.prefixes| ==> |route.prefixes[i]| == width
  }

  /** Bytes that hold the prefixes one after the other and nothing else. */
  ghost predicate Spells(bytes: seq<nat>, prefixes: seq<seq<nat>>, width: nat) {
    && |bytes| == |prefixes| * width
    && forall i, j :: 0 <= i < |prefixes| && 0 <= j < width && i * width + j < |bytes| && j < |prefixes[i]| ==>
         bytes[i * width + j] == prefixes[i][j]
  }

  lemma SpelledAt(parts: seq<seq<nat>>, width: nat, i: nat, j: nat)
    requires (forall k :: 0 <= k < |parts| ==> |parts[k]| == width) && i < |parts| && j < width
    ensures i * width + j < |Concat(parts)| && Concat(parts)[i * width + j] == parts[i][j]
  {
    ConcatSlices(parts, width, i);
    Within(Concat(parts), i * width, i * width + width, j);
  }

  lemma Within(bytes: seq<nat>, lo: nat, hi: nat, j: nat)
    requires lo + j < hi <= |bytes|
    ensures bytes[lo..hi][j] == bytes[lo + j]
  {
  }

  lemma {:induction false} ConcatLength(parts: seq<seq<nat>>, width: nat)
    requires forall j :: 0 <= j < |parts| ==> |parts[j]| == width
    ensures |Concat(parts)| == |parts| * width
  {
    if parts != [] {
      ConcatLength(parts[..|parts| - 1], width);
      Widened(|parts| - 1, width);
    }
  }

  lemma ConcatSpells(parts: seq<seq<nat>>, width: nat)
    requires forall j :: 0 <= j < |parts| ==> |parts[j]| == width
    ensures Spells(Concat(parts), parts, width)
  {
    var bytes := Concat(parts);
    ConcatLength(parts, width);
    forall i, j | 0 <= i < |parts| && 0 <= j < width && i * width + j < |bytes| && j < |parts[i]|
      ensures bytes[i * width + j] == parts[i][j]
    {
      SpelledAt(parts, width, i, j);
    }
  }

  lemma Place(k: nat, n: nat, width: nat) returns (i: nat, j: nat)
    requires k < n * width && width > 0
    ensures i < n && j < width && k == i * width + j
  {
    i, j := k / width, k % width;
    if i >= n { Grows(n, i, width); }
  }

  lemma Grows(a: nat, b: nat, width: nat)
    requires a <= b
    ensures a * width <= b * width
  {
  }

  lemma SpelledOnce(a: seq<nat>, b: seq<nat>, prefixes: seq<seq<nat>>, width: nat)
    requires width > 0 && Spells(a, prefixes, width) && Spells(b, prefixes, width)
    requires forall j :: 0 <= j < |prefixes| ==> |prefixes[j]| == width
    ensures a == b
  {
    forall k | 0 <= k < |a| ensures a[k] == b[k] {
      var i, j := Place(k, |prefixes|, width);
      assert a[i * width + j] == prefixes[i][j] && b[i * width + j] == prefixes[i][j];
    }
  }

  /** A route is matched by width and bytes exactly if it has a path of that width and the bytes spell it. */
  lemma SavedPathIff(route: Route, width: int, bytes: seq<nat>)
    ensures SavedRoutePath(route) == Some((width, bytes)) <==>
              HasPath(route, width) && Spells(bytes, route.prefixes, width)
  {
    var p := route.prefixes;
    if SavedRoutePath(route).Some? {
      ConcatSpells(p, |p[0]|);
    }
    if HasPath(route, width) {
      ConcatSpells(p, width);
      if Spells(bytes, p, width) { SpelledOnce(bytes, Concat(p), p, width); }
    }
  }

  // ---- reports ----

  /** A report of the route in the window: neither a trace nor without a type, over the same hops, its bytes the route's
      prefixes. */
  ghost predicate IsEvidence(r: Report, q: Request, route: Route) {
    && r.iata == q.iata && q.since <= r.heardAt && r.heardAt < q.until
    && HasPath(route, r.hashSize) && r.hopCount == route.hopCount
    && r.pathBytes.Some? && Spells(r.pathBytes.value, route.prefixes, r.hashSize)
    && r.payloadType.Some? && r.payloadType.value != 9
  }

  lemma MatchingIsEvidence(r: Report, q: Request, route: Route)
    ensures Matching(q, route)(r) <==> IsEvidence(r, q, route)
  {
    if r.pathBytes.Some? { SavedPathIff(route, r.hashSize, r.pathBytes.value); }
    if SavedRoutePath(route).Some? {
      var (width, bytes) := SavedRoutePath(route).value;
      SavedPathIff(route, width, bytes);
    }
  }

  lemma EvidenceFits(rows: seq<Report>, q: Request, route: Route)
    ensures |AllEvidence(rows, q, route)| <= |rows|
  {
    FilterShorter(rows, Matching(q, route));
    SortLength(Filter(rows, Matching(q, route)), NewestFirst);
  }

  /** A walk of enough pages shows the reports of the route and no other, newest first and among equal times the higher
      id first, so none twice. */
  lemma WalkShowsEvidence(rows: seq<Report>, q: Request, route: Route, width: int, limit: int, pages: nat)
    requires Table(rows) && WalkRequest(q, limit) && HasPath(route, width) && pages * limit >= |rows|
    ensures var walk := Walk(rows, q, route, None, limit, pages);
            && (forall r :: r in walk <==> r in rows && IsEvidence(r, q, route))
            && (forall i, j :: 0 <= i < j < |walk| ==>
                  walk[i].heardAt > walk[j].heardAt || (walk[i].heardAt == walk[j].heardAt && walk[i].id > walk[j].id))
  {
    ConcatSpells(route.prefixes, width);
    SavedPathIff(route, width, Concat(route.prefixes));
    EvidenceFits(rows, q, route);
    WalkIsExact(rows, q, route, limit, pages);
    Listed(rows, q, route);
    var walk := Walk(rows, q, route, None, limit, pages);
    forall r ensures r in walk <==> r in rows && IsEvidence(r, q, route) { MatchingIsEvidence(r, q, route); }
    forall i, j | 0 <= i < j < |walk|
      ensures walk[i].heardAt > walk[j].heardAt || (walk[i].heardAt == walk[j].heardAt && walk[i].id > walk[j].id)
    {
      assert NewestFirst(walk[i], walk[j]) && walk[i].id != walk[j].id;
    }
  }

  // ---- requests ----

  /** A site of three capital letters or digits, and a route key of 32 lower-case hex digits. */
  ghost predicate IsKey(iata: string, key: string) {
    && |iata| == 3 && (forall c :: c in iata ==> 'A' <= c <= 'Z' || '0' <= c <= '9')
    && |key| == 32 && (forall c :: c in key ==> '0' <= c <= '9' || 'a' <= c <= 'f')
  }

  /** With those a window of at most 30 days that does not begin before 1970, and 1 to 200 reports. */
  ghost predicate IsAsked(q: Request, limit: int) {
    && IsKey(q.iata, q.key)
    && 0 <= q.since && q.since < q.until && q.until <= q.since + 2_592_000_000_000
    && 1 <= limit <= 200
  }

  lemma GoodIsAsked(q: Request, limit: int)
    ensures GoodRequest(q, limit) <==> IsAsked(q, limit)
  {
    KeyIs(q.iata, q.key);
  }

  lemma KeyIs(iata: string, key: string)
    ensures EvidenceCursor.ValidKey(iata, key) <==> IsKey(iata, key)
  {
    if EvidenceCursor.ValidKey(iata, key) {
      forall c | c in iata ensures 'A' <= c <= 'Z' || '0' <= c <= '9' {
        var i :| 0 <= i < |iata| && iata[i] == c;
      }
      forall c | c in key ensures '0' <= c <= '9' || 'a' <= c <= 'f' {
        var i :| 0 <= i < |key| && key[i] == c;
      }
    }
    if IsKey(iata, key) {
      forall i | 0 <= i < |iata| ensures 'A' <= iata[i] <= 'Z' || '0' <= iata[i] <= '9' {
        assert iata[i] in iata;
      }
      forall i | 0 <= i < |key| ensures EvidenceCursor.IsHex(key[i]) && key[i] == EvidenceCursor.Lower(key[i]) {
        assert key[i] in key;
      }
    }
  }

  /** The text of a cursor: version, site, route key, the window in milliseconds, and the last report's time in
      microseconds and id. */
  ghost function CursorText(q: Request, at: int, id: int): string {
    "v1" + ":" + q.iata + ":" + q.key + ":" + FormatInt(q.since / 1000) + ":" + FormatInt(q.until / 1000) + ":"
    + FormatInt(at) + ":" + FormatInt(id)
  }

  lemma {:induction false} JoinSnoc(front: seq<string>, last: string)
    requires front != []
    ensures Join(front + [last], ':') == Join(front, ':') + ":" + last
  {
    var all := front + [last];
    assert all[1..] == front[1..] + [last];
    if |front| == 1 {
      assert all[1..] == [last];
    } else {
      JoinSnoc(front[1..], last);
    }
  }

  lemma PrintIsText(q: Request, at: int, id: int)
    ensures EvidenceCursor.Print(EvidenceCursor.Cursor(q.iata, q.key, q.since, q.until, at, id))
         == CursorText(q, at, id)
  {
    JoinSeven("v1", q.iata, q.key, FormatInt(q.since / 1000), FormatInt(q.until / 1000), FormatInt(at), FormatInt(id));
  }

  lemma JoinSeven(a: string, b: string, c: string, d: string, e: string, f: string, g: string)
    ensures Join([a, b, c, d, e, f, g], ':')
         == a + ":" + b + ":" + c + ":" + d + ":" + e + ":" + f + ":" + g
  {
    JoinSnoc([a], b);
    JoinSnoc([a, b], c);
    JoinSnoc([a, b, c], d);
    JoinSnoc([a, b, c, d], e);
    JoinSnoc([a, b, c, d, e], f);
    JoinSnoc([a, b, c, d, e, f], g);
    assert [a] + [b] == [a, b] && [a, b] + [c] == [a, b, c] && [a, b, c] + [d] == [a, b, c, d];
    assert [a, b, c, d] + [e] == [a, b, c, d, e] && [a, b, c, d, e] + [f] == [a, b, c, d, e, f];
    assert [a, b, c, d, e, f] + [g] == [a, b, c, d, e, f, g];
  }

  /** A cursor this request may carry: a whole-millisecond window up to the year 9999, and a report inside it. */
  ghost predicate IsCursorOf(text: string, q: Request) {
    && q.since % 1000 == 0 && q.until % 1000 == 0 && q.until <= 253_402_300_799_999_000
    && exists at, id :: q.since <= at < q.until && 0 < id < 0x8000_0000_0000_0000 && text == CursorText(q, at, id)
  }

  /** Refused exactly if the request is no good, or comes with a cursor that is not one of its own. */
  lemma RefusedIff(rows: seq<Report>, q: Request, route: Route, cursor: Option<string>, limit: int)
    ensures Respond(rows, q, route, cursor, limit).BadInput? <==>
              !IsAsked(q, limit) || (cursor.Some? && !IsCursorOf(cursor.value, q))
  {
    GoodIsAsked(q, limit);
    if IsAsked(q, limit) && cursor.Some? { CursorIff(cursor.value, q, limit); }
  }

  lemma CursorIff(text: string, q: Request, limit: int)
    requires GoodRequest(q, limit)
    ensures var c := EvidenceCursor.Parse(text);
            c.Some? && CursorFits(c.value, q) <==> IsCursorOf(text, q)
  {
    var c := EvidenceCursor.Parse(text);
    if c.Some? && CursorFits(c.value, q) {
      EvidenceCursor.ParseThenPrint(text);
      PrintIsText(q, c.value.heardAt, c.value.id);
    }
    if IsCursorOf(text, q) {
      var at, id :| q.since <= at < q.until && 0 < id < 0x8000_0000_0000_0000 && text == CursorText(q, at, id);
      PrintIsText(q, at, id);
      EvidenceCursor.PrintThenParse(EvidenceCursor.Cursor(q.iata, q.key, q.since, q.until, at, id));
    }
  }

  /** A request that is not refused says whether the route can be matched, and shows nothing if it cannot. */
  lemma AvailableIff(rows: seq<Report>, q: Request, route: Route, cursor: Option<string>, limit: int)
    requires Respond(rows, q, route, cursor, limit).Page?
    ensures var r := Respond(rows, q, route, cursor, limit);
            && (r.available <==> exists width :: HasPath(route, width))
            && (!r.available ==> r.items == [] && !r.hasMore && r.next == None)
  {
    if width :| HasPath(route, width) {
      ConcatSpells(route.prefixes, width);
      SavedPathIff(route, width, Concat(route.prefixes));
    }
    if SavedRoutePath(route).Some? {
      SavedPathIff(route, SavedRoutePath(route).value.0, SavedRoutePath(route).value.1);
    }
  }
}
