/** Keyset pagination: one page of a query, and walks over all pages while the table
    changes (internal/domain/pagination.go, internal/store/query.go,
    internal/store/audit_query.go). */
module Pagination {
  import opened Core

  const DEFAULT_PAGE_SIZE := 50
  const MAXIMUM_PAGE_SIZE := 200

  datatype Cursor = Cursor(sortTime: Instant, id: string)

  datatype PageRequest = PageRequest(limit: int, cursor: string)

  datatype Page<T> = Page(items: seq<T>, nextCursor: string, hasMore: bool)

  /** The text form of cursors: JSON in base64, kept abstract. */
  datatype Codec = Codec(encode: Cursor -> string, decode: string -> Option<Cursor>)

  predicate Encodable(c: Cursor) { c.sortTime != ZERO_INSTANT && TrimSpace(c.id) != "" }

  /** Decoding inverts encoding, and encoded cursors are nonempty without outer space. */
  ghost predicate Faithful(codec: Codec) {
    forall c :: codec.decode(codec.encode(c)) == Some(c) && codec.encode(c) != "" && TrimSpace(codec.encode(c)) == codec.encode(c)
  }

  function EncodeCursor(codec: Codec, c: Cursor): Result<string> {
    if Encodable(c) then Ok(codec.encode(c)) else Err(Invalid)
  }

  function DecodeCursor(codec: Codec, text: string): Result<Cursor> {
    var c := codec.decode(TrimSpace(text));
    if c.None? || !Encodable(c.value) then Err(Invalid) else Ok(c.value)
  }

  function Normalize(codec: Codec, request: PageRequest): Result<PageRequest> {
    if request.limit < 0 || request.limit > MAXIMUM_PAGE_SIZE then Err(Invalid)
    else
      var limit := if request.limit == 0 then DEFAULT_PAGE_SIZE else request.limit;
      var cursor := TrimSpace(request.cursor);
      if cursor != "" && DecodeCursor(codec, cursor).Err? then Err(Invalid) else Ok(PageRequest(limit, cursor))
  }

  /** The row comes after the cursor: later, or at the same time under a greater id. */
  predicate After(c: Cursor, k: Cursor) {
    c.sortTime < k.sortTime || (c.sortTime == k.sortTime && StringLess(c.id, k.id))
  }

  /** A request for a negative number of rows or more than two hundred, or with a cursor
      that is not the text of one with a time and an id, is refused. */
  predicate BadRequest(codec: Codec, request: PageRequest) {
    var text := TrimSpace(request.cursor);
    || request.limit < 0 || request.limit > 200
    || (text != "" && match codec.decode(TrimSpace(text))
                      case None => true
                      case Some(c) => c.sortTime == 0 || TrimSpace(c.id) == "")
  }

  /** What is asked for: fifty rows unless a number is given, from the start unless there is
      a cursor. */
  function RowsAsked(request: PageRequest): int { if request.limit == 0 then 50 else request.limit }

  function StartAsked(codec: Codec, request: PageRequest): Option<Cursor> {
    if TrimSpace(request.cursor) == "" then None else codec.decode(TrimSpace(TrimSpace(request.cursor)))
  }

  lemma NormalizeTells(codec: Codec, request: PageRequest)
    ensures Normalize(codec, request).Err? <==> BadRequest(codec, request)
    ensures Normalize(codec, request).Ok? ==>
              var n := Normalize(codec, request).value;
              && n.limit == RowsAsked(request) && n.cursor == TrimSpace(request.cursor)
              && CursorOf(codec, n.cursor) == StartAsked(codec, request)
  {
  }

  function BuildPage<T>(codec: Codec, items: seq<T>, limit: int, cursorFor: T -> Cursor): Result<Page<T>> {
    if limit <= 0 then Err(Invalid)
    else if |items| > limit then
      var next :- EncodeCursor(codec, cursorFor(items[limit - 1]));
      Ok(Page(items[..limit], next, true))
    else Ok(Page(items, "", false))
  }

  // ---- The order of rows -----------------------------------------------------------

  predicate Before(a: Cursor, b: Cursor) {
    a.sortTime < b.sortTime || (a.sortTime == b.sortTime && StringLess(a.id, b.id))
  }

  predicate Beyond(after: Option<Cursor>, c: Cursor) { after.None? || Before(after.value, c) }

  lemma BeforeIsStrictOrder()
    ensures forall a, b :: Before(a, b) || a == b || Before(b, a)
    ensures forall a, b :: Before(a, b) ==> !Before(b, a) && a != b
    ensures forall a, b, c :: Before(a, b) && Before(b, c) ==> Before(a, c)
  {
    StringLessIsStrictOrder();
  }

  ghost predicate Ascending<T(!new)>(key: T -> Cursor, s: seq<T>) {
    forall i, j :: 0 <= i < j < |s| ==> Before(key(s[i]), key(s[j]))
  }

  ghost predicate DistinctKeys<T(!new)>(key: T -> Cursor, rows: set<T>) {
    forall a, b :: a in rows && b in rows && key(a) == key(b) ==> a == b
  }

  // ---- One page ----------------------------------------------------------------------

  /** The first rows beyond the cursor, in key order, and as many as there are up to the
      limit. */
  ghost predicate IsPage<T(!new)>(key: T -> Cursor, rows: set<T>, after: Option<Cursor>, limit: nat, items: seq<T>) {
    && Ascending(key, items) && |items| <= limit
    && (forall r :: r in items ==> r in rows && Beyond(after, key(r)))
    && (forall r :: Missing(key, rows, after, items, r) ==> |items| == limit && forall x :: x in items ==> Before(key(x), key(r)))
  }

  ghost predicate Missing<T(!new)>(key: T -> Cursor, rows: set<T>, after: Option<Cursor>, items: seq<T>, r: T) {
    r in rows && Beyond(after, key(r)) && r !in items
  }

  /** The page leaves out rows beyond the cursor. */
  ghost predicate More<T(!new)>(key: T -> Cursor, rows: set<T>, after: Option<Cursor>, items: seq<T>) {
    exists r :: Missing(key, rows, after, items, r)
  }

  /** The matching rows of a table. */
  ghost function Matching<T(!new)>(table: seq<T>, matches: T -> bool): set<T> {
    set r | r in table && matches(r)
  }

  function KeyOrder<T>(key: T -> Cursor): (T, T) -> bool {
    (a: T, b: T) => key(a) == key(b) || Before(key(a), key(b))
  }

  /** SELECT ... WHERE ... AND key > cursor ORDER BY key LIMIT n. */
  method QueryRows<T(!new)>(table: seq<T>, matches: T -> bool, key: T -> Cursor, after: Option<Cursor>, n: nat)
    returns (items: seq<T>)
    requires NoRepeats(table) && DistinctKeys(key, Rows(table))
    ensures IsPage(key, Matching(table, matches), after, n, items)
  {
    var wanted := (x: T) => matches(x) && Beyond(after, key(x));
    var selected := Select(table, wanted);
    SelectMembers(table, wanted);
    SelectKeepsDistinct(table, wanted);
    BeforeIsStrictOrder();
    var ordered := Sort(KeyOrder(key), selected);
    DistinctStaysOrdered(key, Rows(table), selected, ordered);
    PrefixIsPage(key, Matching(table, matches), after, n, ordered);
    items := if |ordered| > n then ordered[..n] else ordered;
  }

  /** What a successful listing answers. */
  ghost predicate Answers<T(!new)>(codec: Codec, key: T -> Cursor, rows: set<T>, after: Option<Cursor>, limit: nat, page: Page<T>) {
    && IsPage(key, rows, after, limit, page.items)
    && (page.hasMore <==> More(key, rows, after, page.items))
    && (page.hasMore ==> page.items != [] && EncodeCursor(codec, LastKey(key, page.items)) == Ok(page.nextCursor))
    && (!page.hasMore ==> page.nextCursor == "")
  }

  method ListRows<T(!new)>(codec: Codec, table: seq<T>, matches: T -> bool, key: T -> Cursor, request: PageRequest)
    returns (r: Result<Page<T>>)
    requires Faithful(codec) && NoRepeats(table) && DistinctKeys(key, Rows(table))
    ensures Normalize(codec, request).Err? ==> r == Err(Invalid)
    ensures Normalize(codec, request).Ok? ==>
              var n := Normalize(codec, request).value;
              n.limit > 0 && (r.Ok? ==> Answers(codec, key, Matching(table, matches), CursorOf(codec, n.cursor), n.limit, r.value))
    ensures Normalize(codec, request).Ok? && (forall x :: x in table ==> Encodable(key(x))) ==> r.Ok?
    ensures BadRequest(codec, request) ==> r == Err(Invalid)
    ensures !BadRequest(codec, request) && (forall x :: x in table ==> key(x).sortTime != 0 && TrimSpace(key(x).id) != "") ==> r.Ok?
    ensures r.Ok? ==> Listed(codec, key, Matching(table, matches), StartAsked(codec, request), RowsAsked(request), r.value)
  {
    NormalizeTells(codec, request);
    var normalized := Normalize(codec, request);
    if normalized.Err? {
      return Err(Invalid);
    }
    var limit := normalized.value.limit;
    var after := CursorOf(codec, normalized.value.cursor);
    var items := QueryRows(table, matches, key, after, limit + 1);
    BuildAnswers(codec, key, Matching(table, matches), after, limit, items);
    assert |items| > limit ==> items[limit - 1] in table;
    r := BuildPage(codec, items, limit, key);
    if r.Ok? {
      AnswersAreListed(codec, key, Matching(table, matches), after, limit, r.value);
    }
  }

  /** The page in plain terms: at most the rows asked for, in order of time and then id, all
      after the start; and if it leaves out any such row, it is full, says so, and leaves
      out only rows after its own, and its cursor is the text of its last key. */
  ghost predicate Listed<T(!new)>(codec: Codec, key: T -> Cursor, rows: set<T>, start: Option<Cursor>, limit: int, page: Page<T>) {
    && |page.items| <= limit
    && (forall i, j :: 0 <= i < j < |page.items| ==> After(key(page.items[i]), key(page.items[j])))
    && (forall r :: r in page.items ==> r in rows && (start.Some? ==> After(start.value, key(r))))
    && (forall r :: r in rows && (start.Some? ==> After(start.value, key(r))) && r !in page.items ==>
          page.hasMore && |page.items| == limit && forall x :: x in page.items ==> After(key(x), key(r)))
    && (page.hasMore ==> exists r :: r in rows && r !in page.items && (start.Some? ==> After(start.value, key(r))))
    && (!page.hasMore ==> page.nextCursor == "")
    && (page.hasMore ==> page.items != [] && page.nextCursor == codec.encode(key(page.items[|page.items| - 1])))
  }

  lemma AnswersAreListed<T(!new)>(codec: Codec, key: T -> Cursor, rows: set<T>, after: Option<Cursor>, limit: nat, page: Page<T>)
    requires Answers(codec, key, rows, after, limit, page)
    ensures Listed(codec, key, rows, after, limit, page)
  {
    assert forall a, b :: Before(a, b) <==> After(a, b);
    forall r | r in rows && (after.Some? ==> After(after.value, key(r))) && r !in page.items
      ensures page.hasMore && |page.items| == limit && forall x :: x in page.items ==> After(key(x), key(r))
    {
      assert Missing(key, rows, after, page.items, r);
    }
    if page.hasMore {
      var r :| Missing(key, rows, after, page.items, r);
    }
  }

  lemma BuildAnswers<T(!new)>(codec: Codec, key: T -> Cursor, rows: set<T>, after: Option<Cursor>, limit: nat, items: seq<T>)
    requires limit > 0 && IsPage(key, rows, after, limit + 1, items)
    ensures BuildPage(codec, items, limit, key).Ok? <==> |items| > limit ==> Encodable(key(items[limit - 1]))
    ensures BuildPage(codec, items, limit, key).Ok? ==>
              Answers(codec, key, rows, after, limit, BuildPage(codec, items, limit, key).value)
    ensures |items| > limit ==> items[limit - 1] in rows
  {
    TrimPage(key, rows, after, limit, items);
    if |items| > limit {
      assert items[limit - 1] in items;
      FullAnswers(codec, key, rows, after, limit, items);
    }
  }

  lemma FullAnswers<T(!new)>(codec: Codec, key: T -> Cursor, rows: set<T>, after: Option<Cursor>, limit: nat, items: seq<T>)
    requires 0 < limit < |items| && IsPage(key, rows, after, limit, items[..limit]) && More(key, rows, after, items[..limit])
    ensures BuildPage(codec, items, limit, key).Ok? <==> Encodable(key(items[limit - 1]))
    ensures BuildPage(codec, items, limit, key).Ok? ==>
              Answers(codec, key, rows, after, limit, BuildPage(codec, items, limit, key).value)
  {
    assert LastKey(key, items[..limit]) == key(items[limit - 1]);
  }

  /** The decoded cursor of a normalized request; an empty cursor means the start. */
  function CursorOf(codec: Codec, text: string): Option<Cursor> {
    if text == "" || DecodeCursor(codec, text).Err? then None else Some(DecodeCursor(codec, text).value)
  }

  /** One row more than the limit tells whether there is another page. */
  lemma TrimPage<T(!new)>(key: T -> Cursor, rows: set<T>, after: Option<Cursor>, limit: nat, items: seq<T>)
    requires limit > 0 && IsPage(key, rows, after, limit + 1, items)
    ensures var kept := if |items| > limit then items[..limit] else items;
            IsPage(key, rows, after, limit, kept) && (More(key, rows, after, kept) <==> |items| > limit)
  {
    if |items| > limit {
      BeforeIsStrictOrder();
      var kept := items[..limit];
      assert items == kept + [items[limit]];
      assert items[limit] in items && items[limit] !in kept;
      assert Missing(key, rows, after, kept, items[limit]);
      forall r | Missing(key, rows, after, kept, r)
        ensures forall x :: x in kept ==> Before(key(x), key(r))
      {
        assert r != items[limit] ==> Missing(key, rows, after, items, r);
        assert forall x :: x in kept ==> x in items;
      }
    } else {
      assert forall r :: !Missing(key, rows, after, items, r);
    }
  }

  lemma {:induction false} SelectKeepsDistinct<T(!new)>(s: seq<T>, p: T -> bool)
    requires NoRepeats(s)
    ensures NoRepeats(Select(s, p))
  {
    if s != [] {
      var front, last := s[..|s| - 1], s[|s| - 1];
      SelectKeepsDistinct(front, p);
      SelectMembers(front, p);
      assert last !in front;
      assert last !in Select(front, p);
    }
  }

  lemma DistinctStaysOrdered<T(!new)>(key: T -> Cursor, rows: set<T>, s: seq<T>, ordered: seq<T>)
    requires DistinctKeys(key, rows) && NoRepeats(s) && forall x :: x in s ==> x in rows
    requires multiset(s) == multiset(ordered) && SortedBy(KeyOrder(key), ordered)
    ensures Ascending(key, ordered)
  {
    SameElements(s, ordered);
    DistinctStaysDistinct(s, ordered);
    assert forall i :: 0 <= i < |ordered| ==> ordered[i] in rows;
  }

  lemma PrefixIsPage<T(!new)>(key: T -> Cursor, rows: set<T>, after: Option<Cursor>, n: nat, ordered: seq<T>)
    requires Ascending(key, ordered)
    requires forall r :: r in ordered <==> r in rows && Beyond(after, key(r))
    ensures IsPage(key, rows, after, n, if |ordered| > n then ordered[..n] else ordered)
  {
    var items := if |ordered| > n then ordered[..n] else ordered;
    forall r | Missing(key, rows, after, items, r)
      ensures |items| == n && forall x :: x in items ==> Before(key(x), key(r))
    {
      var j :| 0 <= j < |ordered| && ordered[j] == r;
    }
  }

  // ---- Walks -------------------------------------------------------------------------

  /** A walk fetches page after page by NextCursor until one has no more; rows[i] are the
      matching rows at the time of the i-th fetch. */
  ghost predicate Walk<T(!new)>(key: T -> Cursor, rows: seq<set<T>>, after: Option<Cursor>, limit: nat, pages: seq<seq<T>>)
    decreases |pages|
  {
    && |rows| == |pages| > 0 && limit > 0
    && IsPage(key, rows[0], after, limit, pages[0])
    && if |pages| == 1 then !More(key, rows[0], after, pages[0])
       else More(key, rows[0], after, pages[0]) && pages[0] != [] && Walk(key, rows[1..], Some(LastKey(key, pages[0])), limit, pages[1..])
  }

  function LastKey<T>(key: T -> Cursor, page: seq<T>): Cursor
    requires page != []
  {
    key(page[|page| - 1])
  }

  function Flatten<T>(pages: seq<seq<T>>): seq<T> {
    if pages == [] then [] else pages[0] + Flatten(pages[1..])
  }

  ghost predicate AnswersRequest<T(!new)>(codec: Codec, key: T -> Cursor, rows: set<T>, n: PageRequest, page: Page<T>) {
    n.limit > 0 && Answers(codec, key, rows, CursorOf(codec, n.cursor), n.limit, page)
  }

  /** Listing calls, each with the cursor of the page before, until a page has no more. */
  ghost predicate Fetches<T(!new)>(codec: Codec, key: T -> Cursor, rows: seq<set<T>>, request: PageRequest, pages: seq<Page<T>>)
    decreases |pages|
  {
    && |rows| == |pages| > 0 && Normalize(codec, request).Ok?
    && AnswersRequest(codec, key, rows[0], Normalize(codec, request).value, pages[0])
    && if |pages| == 1 then !pages[0].hasMore
       else pages[0].hasMore && Fetches(codec, key, rows[1..], request.(cursor := pages[0].nextCursor), pages[1..])
  }

  function ItemsOf<T>(pages: seq<Page<T>>): (items: seq<seq<T>>)
    ensures |items| == |pages|
  {
    if pages == [] then [] else [pages[0].items] + ItemsOf(pages[1..])
  }

  /** The calls of a client make a walk: the cursor text carries the last key over. */
  lemma {:induction false} FetchesWalk<T(!new)>(codec: Codec, key: T -> Cursor, rows: seq<set<T>>, request: PageRequest, pages: seq<Page<T>>)
    requires Faithful(codec) && Fetches(codec, key, rows, request, pages)
    ensures var n := Normalize(codec, request).value;
            Walk(key, rows, CursorOf(codec, n.cursor), n.limit, ItemsOf(pages))
    decreases |pages|
  {
    var items := ItemsOf(pages);
    assert items[0] == pages[0].items && items[1..] == ItemsOf(pages[1..]);
    if |pages| > 1 {
      var next := request.(cursor := pages[0].nextCursor);
      FetchesWalk(codec, key, rows[1..], next, pages[1..]);
      CursorCarriesOver(codec, LastKey(key, pages[0].items), next);
    }
  }

  lemma CursorCarriesOver(codec: Codec, c: Cursor, next: PageRequest)
    requires Faithful(codec) && EncodeCursor(codec, c) == Ok(next.cursor) && Normalize(codec, next).Ok?
    ensures CursorOf(codec, Normalize(codec, next).value.cursor) == Some(c)
  {
  }

  /** What a walk returns is in strict key order, so no row comes twice, and lies beyond
      the cursor it started from. */
  lemma {:induction false} WalkIsOrdered<T(!new)>(key: T -> Cursor, rows: seq<set<T>>, after: Option<Cursor>, limit: nat, pages: seq<seq<T>>)
    requires Walk(key, rows, after, limit, pages)
    ensures Ascending(key, Flatten(pages))
    ensures forall r :: r in Flatten(pages) ==> Beyond(after, key(r))
    decreases |pages|
  {
    BeforeIsStrictOrder();
    if |pages| == 1 {
      assert Flatten(pages) == pages[0] + Flatten(pages[1..]) == pages[0];
    } else {
      var last := Some(LastKey(key, pages[0]));
      WalkIsOrdered(key, rows[1..], last, limit, pages[1..]);
      var rest := Flatten(pages[1..]);
      assert pages[0][|pages[0]| - 1] in pages[0];
      assert forall i :: 0 <= i < |rest| ==> rest[i] in rest;
      AppendAscending(key, pages[0], rest);
    }
  }

  lemma AppendAscending<T(!new)>(key: T -> Cursor, a: seq<T>, b: seq<T>)
    requires Ascending(key, a) && Ascending(key, b) && a != []
    requires forall i :: 0 <= i < |b| ==> Before(key(a[|a| - 1]), key(b[i]))
    ensures Ascending(key, a + b)
  {
    BeforeIsStrictOrder();
    var s := a + b;
    forall i, j | 0 <= i < j < |s|
      ensures Before(key(s[i]), key(s[j]))
    {
      if i < |a| <= j {
        assert i == |a| - 1 || Before(key(a[i]), key(a[|a| - 1]));
        assert Before(key(a[|a| - 1]), key(b[j - |a|]));
      }
    }
  }

  /** Some row has the key. */
  ghost predicate HasKey<T(!new)>(key: T -> Cursor, rows: set<T>, k: Cursor) {
    exists r :: r in rows && key(r) == k
  }

  ghost predicate Returned<T(!new)>(key: T -> Cursor, items: seq<T>, k: Cursor) {
    exists i :: 0 <= i < |items| && key(items[i]) == k
  }

  /** If some row has the key at every fetch, a row with that key is returned: its other
      columns may change between fetches, and so may the rest of the table. */
  lemma {:induction false} WalkMissesNothing<T(!new)>(key: T -> Cursor, rows: seq<set<T>>, after: Option<Cursor>, limit: nat,
                                                      pages: seq<seq<T>>, k: Cursor)
    requires Walk(key, rows, after, limit, pages)
    requires Beyond(after, k) && forall i :: 0 <= i < |rows| ==> HasKey(key, rows[i], k)
    ensures Returned(key, Flatten(pages), k)
    decreases |pages|
  {
    var r :| r in rows[0] && key(r) == k;
    if r in pages[0] {
      ReturnedFirst(key, pages, r);
    } else {
      assert Missing(key, rows[0], after, pages[0], r);
      assert pages[0][|pages[0]| - 1] in pages[0];
      WalkMissesNothing(key, rows[1..], Some(LastKey(key, pages[0])), limit, pages[1..], k);
      ReturnedLater(key, pages, k);
    }
  }

  lemma ReturnedFirst<T(!new)>(key: T -> Cursor, pages: seq<seq<T>>, r: T)
    requires pages != [] && r in pages[0]
    ensures Returned(key, Flatten(pages), key(r))
  {
    var i :| 0 <= i < |pages[0]| && pages[0][i] == r;
    assert Flatten(pages)[i] == r;
  }

  lemma ReturnedLater<T(!new)>(key: T -> Cursor, pages: seq<seq<T>>, k: Cursor)
    requires pages != [] && Returned(key, Flatten(pages[1..]), k)
    ensures Returned(key, Flatten(pages), k)
  {
    var i :| 0 <= i < |Flatten(pages[1..])| && key(Flatten(pages[1..])[i]) == k;
    assert Flatten(pages)[|pages[0]| + i] == Flatten(pages[1..])[i];
  }

  /** A row that does not change at all is itself returned. */
  lemma {:induction false} WalkReturnsUnchanged<T(!new)>(key: T -> Cursor, rows: seq<set<T>>, after: Option<Cursor>, limit: nat,
                                                         pages: seq<seq<T>>, r: T)
    requires Walk(key, rows, after, limit, pages)
    requires Beyond(after, key(r)) && forall i :: 0 <= i < |rows| ==> r in rows[i]
    ensures r in Flatten(pages)
    decreases |pages|
  {
    if r !in pages[0] {
      assert Missing(key, rows[0], after, pages[0], r);
      assert pages[0][|pages[0]| - 1] in pages[0];
      WalkReturnsUnchanged(key, rows[1..], Some(LastKey(key, pages[0])), limit, pages[1..], r);
    }
  }

  /** Nothing is made up: every returned row was there at some fetch. */
  lemma {:induction false} WalkReturnsRows<T(!new)>(key: T -> Cursor, rows: seq<set<T>>, after: Option<Cursor>, limit: nat,
                                                    pages: seq<seq<T>>, r: T)
    requires Walk(key, rows, after, limit, pages) && r in Flatten(pages)
    ensures exists i :: 0 <= i < |rows| && r in rows[i]
    decreases |pages|
  {
    if r in pages[0] {
      assert r in rows[0];
    } else {
      WalkReturnsRows(key, rows[1..], Some(LastKey(key, pages[0])), limit, pages[1..], r);
      var i :| 0 <= i < |rows[1..]| && r in rows[1..][i];
      assert rows[i + 1] == rows[1..][i];
    }
  }

  /** From the start of the listing: a row whose key is present throughout is returned
      exactly once, in key order, whatever its other columns do meanwhile. */
  lemma WalkReturnsEachRowOnce<T(!new)>(key: T -> Cursor, rows: seq<set<T>>, limit: nat, pages: seq<seq<T>>, k: Cursor)
    requires Walk(key, rows, None, limit, pages) && forall i :: 0 <= i < |rows| ==> HasKey(key, rows[i], k)
    ensures Returned(key, Flatten(pages), k)
    ensures var all := Flatten(pages);
            forall i, j :: 0 <= i < |all| && 0 <= j < |all| && key(all[i]) == k && key(all[j]) == k ==> i == j
    ensures Ascending(key, Flatten(pages))
  {
    WalkIsOrdered(key, rows, None, limit, pages);
    WalkMissesNothing(key, rows, None, limit, pages, k);
    BeforeIsStrictOrder();
  }

  /** And a row that does not change is itself the one returned. */
  lemma UnchangedRowOnce<T(!new)>(key: T -> Cursor, rows: seq<set<T>>, limit: nat, pages: seq<seq<T>>, r: T)
    requires Walk(key, rows, None, limit, pages) && forall i :: 0 <= i < |rows| ==> r in rows[i]
    ensures multiset(Flatten(pages))[r] == 1
  {
    WalkIsOrdered(key, rows, None, limit, pages);
    WalkReturnsUnchanged(key, rows, None, limit, pages, r);
    BeforeIsStrictOrder();
    NoRepeatsCounts(Flatten(pages));
  }

  /** Every page but the last is full, and a page after a full one is not empty. */
  lemma {:induction false} PagesAreFull<T(!new)>(key: T -> Cursor, rows: seq<set<T>>, fixed: set<T>, after: Option<Cursor>,
                                                 limit: nat, pages: seq<seq<T>>)
    requires Walk(key, rows, after, limit, pages) && forall i :: 0 <= i < |rows| ==> rows[i] == fixed
    ensures (|pages| - 1) * limit <= |Flatten(pages)| <= |pages| * limit
    ensures (exists r :: r in fixed && Beyond(after, key(r))) ==> (|pages| - 1) * limit < |Flatten(pages)|
    decreases |pages|
  {
    if |pages| == 1 {
      assert Flatten(pages) == pages[0] + Flatten(pages[1..]) == pages[0];
      if r :| r in fixed && Beyond(after, key(r)) {
        assert !Missing(key, rows[0], after, pages[0], r);
      }
    } else {
      var last := Some(LastKey(key, pages[0]));
      PagesAreFull(key, rows[1..], fixed, last, limit, pages[1..]);
      var r :| Missing(key, rows[0], after, pages[0], r);
      assert pages[0][|pages[0]| - 1] in pages[0];
      assert Beyond(last, key(r));
      assert |Flatten(pages)| == limit + |Flatten(pages[1..])|;
      assert (|pages| - 1) * limit == limit + (|pages| - 2) * limit;
      assert |pages| * limit == limit + (|pages| - 1) * limit;
    }
  }

  /** On a table that does not change, the pages concatenate to all its rows in key
      order, in max(1, ceil(n / limit)) fetches. */
  lemma FixedTableWalk<T(!new)>(key: T -> Cursor, rows: seq<set<T>>, fixed: set<T>, limit: nat, pages: seq<seq<T>>)
    requires Walk(key, rows, None, limit, pages) && forall i :: 0 <= i < |rows| ==> rows[i] == fixed
    ensures Ascending(key, Flatten(pages)) && Rows(Flatten(pages)) == fixed
    ensures |pages| == Max(1, (|fixed| + limit - 1) / limit)
  {
    var all := Flatten(pages);
    WalkIsOrdered(key, rows, None, limit, pages);
    forall r
      ensures r in all <==> r in fixed
    {
      if r in all {
        WalkReturnsRows(key, rows, None, limit, pages, r);
      }
      if r in fixed {
        WalkReturnsUnchanged(key, rows, None, limit, pages, r);
      }
    }
    assert Rows(all) == fixed;
    BeforeIsStrictOrder();
    DistinctCardinality(all);
    PagesAreFull(key, rows, fixed, None, limit, pages);
    if fixed != {} {
      var r :| r in fixed;
      assert Beyond(None, key(r));
    }
    CeilingUnique(|fixed|, limit, |pages|);
  }

  lemma {:induction false} DistinctCardinality<T(!new)>(s: seq<T>)
    requires NoRepeats(s)
    ensures |Rows(s)| == |s|
  {
    if s != [] {
      var front, last := s[..|s| - 1], s[|s| - 1];
      assert s == front + [last];
      DistinctCardinality(front);
      RowsAppend(front, last);
      assert last !in Rows(front);
    }
  }

  /** Fetches on a table that does not change, all of which promised more. */
  ghost predicate Fetching<T(!new)>(key: T -> Cursor, fixed: set<T>, after: Option<Cursor>, limit: nat, pages: seq<seq<T>>)
    decreases |pages|
  {
    pages == [] ||
    (&& IsPage(key, fixed, after, limit, pages[0]) && More(key, fixed, after, pages[0]) && pages[0] != []
     && Fetching(key, fixed, Some(LastKey(key, pages[0])), limit, pages[1..]))
  }

  /** The rows that are still to come. */
  ghost function Remaining<T(!new)>(key: T -> Cursor, fixed: set<T>, after: Option<Cursor>): set<T> {
    set r | r in fixed && Beyond(after, key(r))
  }

  /** Fetching ends: pages that promise more are full and leave rows over, so that there are
      fewer of them than the table can fill. */
  lemma {:induction false} FetchingEnds<T(!new)>(key: T -> Cursor, fixed: set<T>, after: Option<Cursor>, limit: nat, pages: seq<seq<T>>)
    requires Fetching(key, fixed, after, limit, pages) && pages != []
    ensures |pages| * limit < |Remaining(key, fixed, after)|
    decreases |pages|
  {
    var last := Some(LastKey(key, pages[0]));
    PageTakesRows(key, fixed, after, limit, pages[0]);
    if |pages| > 1 {
      FetchingEnds(key, fixed, last, limit, pages[1..]);
      assert |pages| * limit == (|pages| - 1) * limit + limit;
    }
  }

  /** A page that promises more takes as many rows as its limit off those to come. */
  lemma PageTakesRows<T(!new)>(key: T -> Cursor, fixed: set<T>, after: Option<Cursor>, limit: nat, page: seq<T>)
    requires IsPage(key, fixed, after, limit, page) && More(key, fixed, after, page) && page != []
    ensures |Remaining(key, fixed, Some(LastKey(key, page)))| + limit <= |Remaining(key, fixed, after)|
    ensures |Remaining(key, fixed, Some(LastKey(key, page)))| > 0
  {
    BeforeIsStrictOrder();
    var later := Remaining(key, fixed, Some(LastKey(key, page)));
    MoreIsLater(key, fixed, after, limit, page);
    LaterIsDisjoint(key, fixed, after, limit, page);
    DistinctCardinality(page);
    SubsetSize(Rows(page) + later, Remaining(key, fixed, after));
  }

  lemma MoreIsLater<T(!new)>(key: T -> Cursor, fixed: set<T>, after: Option<Cursor>, limit: nat, page: seq<T>)
    requires IsPage(key, fixed, after, limit, page) && More(key, fixed, after, page) && page != []
    ensures |page| == limit && Remaining(key, fixed, Some(LastKey(key, page))) != {}
  {
    var r :| Missing(key, fixed, after, page, r);
    assert page[|page| - 1] in page;
    assert r in Remaining(key, fixed, Some(LastKey(key, page)));
  }

  lemma LaterIsDisjoint<T(!new)>(key: T -> Cursor, fixed: set<T>, after: Option<Cursor>, limit: nat, page: seq<T>)
    requires IsPage(key, fixed, after, limit, page) && page != []
    ensures Rows(page) !! Remaining(key, fixed, Some(LastKey(key, page)))
    ensures Rows(page) + Remaining(key, fixed, Some(LastKey(key, page))) <= Remaining(key, fixed, after)
  {
    var last := LastKey(key, page);
    assert page[|page| - 1] in page;
    forall x | x in page
      ensures !Before(last, key(x))
    {
      var i :| 0 <= i < |page| && page[i] == x;
      NotBeforeEarlier(key(page[i]), last, i == |page| - 1);
    }
    forall x | x in Remaining(key, fixed, Some(last))
      ensures Beyond(after, key(x))
    {
      BeyondCarries(after, last, key(x));
    }
  }

  lemma NotBeforeEarlier(a: Cursor, last: Cursor, same: bool)
    requires if same then a == last else Before(a, last)
    ensures !Before(last, a)
  {
    BeforeIsStrictOrder();
  }

  lemma BeyondCarries(after: Option<Cursor>, a: Cursor, b: Cursor)
    requires Beyond(after, a) && Before(a, b)
    ensures Beyond(after, b)
  {
    BeforeIsStrictOrder();
  }

  lemma SubsetSize<T>(a: set<T>, b: set<T>)
    requires a <= b
    ensures |a| <= |b|
  {
    assert b == a + (b - a);
  }

  lemma CeilingUnique(n: nat, limit: nat, pages: nat)
    requires limit > 0 && pages > 0
    requires (pages - 1) * limit <= n <= pages * limit
    requires n > 0 ==> (pages - 1) * limit < n
    requires n == 0 ==> pages == 1
    ensures pages == Max(1, (n + limit - 1) / limit)
  {
    if n > 0 {
      assert (pages - 1) * limit == pages * limit - limit && (pages + 1) * limit == pages * limit + limit;
      QuotientUnique(n + limit - 1, limit, pages);
    }
  }

  lemma QuotientUnique(x: nat, d: nat, q: nat)
    requires d > 0 && q * d <= x < (q + 1) * d
    ensures x / d == q
  {
    var p := x / d;
    assert p * d <= x < p * d + d;
    Multiples(p, q, d);
    Multiples(q, p, d);
  }

  lemma {:induction false} Multiples(p: nat, q: nat, d: nat)
    ensures p < q ==> p * d + d <= q * d
  {
    if p < q {
      Multiples(p, q - 1, d);
      assert q * d == (q - 1) * d + d;
    }
  }
}
