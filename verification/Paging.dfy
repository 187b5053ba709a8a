/** Paging through the list of open workshops by key: the store's pages, the server's cursors and the
client that follows them. */
module Paging {
  import opened Wrappers

  const PAGE_SIZE: nat := 4

  /** A workshop in the list; its creation time is the stamp in UTC, as the server prints it. */
  datatype Row = Row(stamp: string, code: string) {
    function CreatedAt(): string {
      stamp + "+00:00"
    }

    function ToCursor(): Cursor {
      Cursor(CreatedAt(), code)
    }
  }

  datatype Cursor = Cursor(createdAt: string, code: string)

  datatype Request = First | After(cursor: Cursor) | Before(cursor: Cursor)

  datatype Page = Page(rows: seq<Row>, hasMoreAfter: bool, hasMoreBefore: bool)

  datatype Response = Response(rows: seq<Row>, next: Option<Cursor>, prev: Option<Cursor>)

  // ----- The store and the server -----

  predicate Less(a: string, b: string) {
    b != "" && (a == "" || a[0] < b[0] || (a[0] == b[0] && Less(a[1..], b[1..])))
  }

  /** The zone of a time printed by the server, written the short way. */
  function Normalize(createdAt: string): string {
    if |createdAt| >= 6 && createdAt[|createdAt| - 6..] == "+00:00" then createdAt[..|createdAt| - 6] + "Z"
    else createdAt
  }

  predicate IsOlder(row: Row, cursor: Cursor) {
    var mine, theirs := Normalize(row.CreatedAt()), Normalize(cursor.createdAt);
    Less(mine, theirs) || (mine == theirs && Less(cursor.code, row.code))
  }

  predicate IsNewer(row: Row, cursor: Cursor) {
    var mine, theirs := Normalize(row.CreatedAt()), Normalize(cursor.createdAt);
    Less(theirs, mine) || (mine == theirs && Less(row.code, cursor.code))
  }

  function Filter(rows: seq<Row>, keeps: Row -> bool): seq<Row> {
    if rows == [] then []
    else (if keeps(rows[0]) then [rows[0]] else []) + Filter(rows[1..], keeps)
  }

  function Truncate(rows: seq<Row>): seq<Row> {
    if |rows| > PAGE_SIZE then rows[..PAGE_SIZE] else rows
  }

  function OlderThan(list: seq<Row>, cursor: Cursor): seq<Row> {
    Filter(list, row => IsOlder(row, cursor))
  }

  function NewerThan(list: seq<Row>, cursor: Cursor): seq<Row> {
    Filter(list, row => IsNewer(row, cursor))
  }

  /** The last rows of a list, as many as a page holds. */
  function LastPage(rows: seq<Row>): seq<Row> {
    if |rows| > PAGE_SIZE then rows[|rows| - PAGE_SIZE..] else rows
  }

  /** One page of the sorted list: the rows next to the cursor, on its older or its newer side. */
  function ListOpen(list: seq<Row>, request: Request): Page {
    match request
    case First => Page(Truncate(list), |list| > PAGE_SIZE, false)
    case After(cursor) =>
      var older := OlderThan(list, cursor);
      Page(Truncate(older), |older| > PAGE_SIZE, true)
    case Before(cursor) =>
      var newer := NewerThan(list, cursor);
      Page(LastPage(newer), true, |newer| > PAGE_SIZE)
  }

  /** The cursors for a page: its bookends, offered only where the list goes on. */
  function Answer(page: Page, request: Request): Response {
    var first := if page.rows == [] then None else Some(page.rows[0].ToCursor());
    var last := if page.rows == [] then None else Some(page.rows[|page.rows| - 1].ToCursor());
    match request
    case First => Response(page.rows, if page.hasMoreAfter then last else None, None)
    case After(_) => Response(page.rows, if page.hasMoreAfter then last else None, first)
    case Before(_) => Response(page.rows, last, if page.hasMoreBefore then first else None)
  }

  function Respond(list: seq<Row>, request: Request): Response {
    Answer(ListOpen(list, request), request)
  }

  // ----- A list in cursor order -----

  predicate IsAbove(a: Row, b: Row) {
    IsOlder(b, a.ToCursor())
  }

  predicate IsOrdered(list: seq<Row>) {
    forall i, j {:trigger IsAbove(list[i], list[j])} :: 0 <= i < j < |list| ==> IsAbove(list[i], list[j])
  }

  lemma {:induction false} LessIsStrict(a: string, b: string)
    ensures !(Less(a, b) && Less(b, a)) && (Less(a, b) ==> a != b)
  {
    if a != "" && b != "" {
      LessIsStrict(a[1..], b[1..]);
    }
  }

  lemma AboveIsStrict(a: Row, b: Row)
    ensures IsAbove(a, b) <==> IsNewer(a, b.ToCursor())
    ensures !(IsAbove(a, b) && IsAbove(b, a)) && !IsAbove(a, a)
  {
    LessIsStrict(Normalize(a.CreatedAt()), Normalize(b.CreatedAt()));
    LessIsStrict(a.code, b.code);
    LessIsStrict(a.code, a.code);
    LessIsStrict(Normalize(a.CreatedAt()), Normalize(a.CreatedAt()));
  }

  lemma {:induction false} FilterDropsPrefix(rows: seq<Row>, keeps: Row -> bool, k: nat)
    requires k <= |rows|
    requires forall i :: 0 <= i < |rows| ==> (keeps(rows[i]) <==> k <= i)
    ensures Filter(rows, keeps) == rows[k..]
  {
    if rows != [] {
      FilterDropsPrefix(rows[1..], keeps, if k == 0 then 0 else k - 1);
      if k > 0 {
        assert rows[1..][k - 1..] == rows[k..];
      }
    }
  }

  lemma {:induction false} FilterKeepsPrefix(rows: seq<Row>, keeps: Row -> bool, k: nat)
    requires k <= |rows|
    requires forall i :: 0 <= i < |rows| ==> (keeps(rows[i]) <==> i < k)
    ensures Filter(rows, keeps) == rows[..k]
  {
    if rows != [] {
      FilterKeepsPrefix(rows[1..], keeps, if k == 0 then 0 else k - 1);
      if k > 0 {
        assert [rows[0]] + rows[1..][..k - 1] == rows[..k];
      }
    }
  }

  lemma OrderedListSplits(list: seq<Row>, k: nat)
    requires IsOrdered(list) && k < |list|
    ensures var cursor := list[k].ToCursor();
            && OlderThan(list, cursor) == list[k + 1..]
            && NewerThan(list, cursor) == list[..k]
  {
    var cursor := list[k].ToCursor();
    forall i | 0 <= i < |list|
      ensures IsOlder(list[i], cursor) <==> k < i
      ensures IsNewer(list[i], cursor) <==> i < k
    {
      assert k < i ==> IsAbove(list[k], list[i]);
      assert i < k ==> IsAbove(list[i], list[k]);
      AboveIsStrict(list[k], list[i]);
      AboveIsStrict(list[i], list[k]);
    }
    FilterDropsPrefix(list, row => IsOlder(row, cursor), k + 1);
    FilterKeepsPrefix(list, row => IsNewer(row, cursor), k);
  }

  // ----- Page numbers -----

  /** The response shows the rows from this index on: Next is offered when more follow, Prev when any precede. */
  predicate IsPageAt(list: seq<Row>, start: nat, response: Response) {
    && (start == 0 || start < |list|)
    && response.rows == Truncate(list[start..])
    && response.next == (if start + PAGE_SIZE < |list| then Some(list[start + PAGE_SIZE - 1].ToCursor()) else None)
    && response.prev == (if start > 0 then Some(list[start].ToCursor()) else None)
  }

  lemma FirstStartsAtZero(list: seq<Row>)
    ensures IsPageAt(list, 0, Respond(list, First))
  {
    assert list[0..] == list;
  }

  lemma AfterStartsBehindCursor(list: seq<Row>, start: nat)
    requires IsOrdered(list) && 0 < start < |list|
    ensures IsPageAt(list, start, Respond(list, After(list[start - 1].ToCursor())))
  {
    OrderedListSplits(list, start - 1);
  }

  lemma BeforeEndsAtCursor(list: seq<Row>, end: nat)
    requires IsOrdered(list) && PAGE_SIZE <= end < |list|
    ensures IsPageAt(list, end - PAGE_SIZE, Respond(list, Before(list[end].ToCursor())))
  {
    OrderedListSplits(list, end);
    var page := Page(LastPage(list[..end]), true, end > PAGE_SIZE);
    assert page.rows == list[end - PAGE_SIZE..][..PAGE_SIZE];
    assert ListOpen(list, Before(list[end].ToCursor())) == page;
  }

  /** The requests that ask for the page from this index on. */
  predicate AsksFor(list: seq<Row>, start: nat, request: Request) {
    match request
    case First => start == 0
    case After(cursor) => 0 < start < |list| && cursor == list[start - 1].ToCursor()
    case Before(cursor) => start + PAGE_SIZE < |list| && cursor == list[start + PAGE_SIZE].ToCursor()
  }

  lemma RequestGivesPage(list: seq<Row>, start: nat, request: Request)
    requires IsOrdered(list) && AsksFor(list, start, request)
    ensures IsPageAt(list, start, Respond(list, request))
  {
    match request {
      case First => FirstStartsAtZero(list);
      case After(_) => AfterStartsBehindCursor(list, start);
      case Before(_) => BeforeEndsAtCursor(list, start + PAGE_SIZE);
    }
  }

  // ----- The client's pager -----

  /** A previous page with nothing before it is asked for again as the first; what is then asked and shown. */
  function Synced(list: seq<Row>, request: Request): (Request, Response) {
    var response := Respond(list, request);
    if request.Before? && response.prev.None? then (First, Respond(list, First)) else (request, response)
  }

  class Pager {
    var current: Request
    var rows: seq<Row>
    var next: Option<Cursor>
    var prev: Option<Cursor>
    ghost var start: nat

    /** The pager shows a whole page and will ask for the same one again. */
    ghost predicate Shows(list: seq<Row>)
      reads this
    {
      && start % PAGE_SIZE == 0 && IsPageAt(list, start, Response(rows, next, prev))
      && AsksFor(list, start, current) && !(current.Before? && start == 0)
    }

    constructor (list: seq<Row>)
      ensures Shows(list) && start == 0
    {
      current := First;
      var response := Respond(list, First);
      rows, next, prev := response.rows, response.next, response.prev;
      start := 0;
      FirstStartsAtZero(list);
    }

    method RequestPage(list: seq<Row>, request: Request)
      modifies this
      ensures (current, Response(rows, next, prev)) == Synced(list, request) && start == old(start)
    {
      current := request;
      var response := Respond(list, request);
      if request.Before? && response.prev.None? {
        current := First;
        response := Respond(list, First);
      }
      rows, next, prev := response.rows, response.next, response.prev;
    }

    /** Over a list in cursor order the page asked for is shown. */
    method RequestAndSync(list: seq<Row>, request: Request, ghost from: nat)
      requires IsOrdered(list) && AsksFor(list, from, request) && from % PAGE_SIZE == 0
      modifies this
      ensures Shows(list) && start == from
      ensures current == if request.Before? && from == 0 then First else request
    {
      RequestGivesPage(list, from, request);
      FirstStartsAtZero(list);
      RequestPage(list, request);
      start := from;
    }

    method ClickNext(list: seq<Row>)
      requires IsOrdered(list) && Shows(list)
      modifies this
      ensures Shows(list)
      ensures start == if old(start) + PAGE_SIZE < |list| then old(start) + PAGE_SIZE else old(start)
    {
      if next.Some? {
        RequestAndSync(list, After(next.value), start + PAGE_SIZE);
      }
    }

    method ClickPrev(list: seq<Row>)
      requires IsOrdered(list) && Shows(list)
      modifies this
      ensures Shows(list) && start == if old(start) > 0 then old(start) - PAGE_SIZE else 0
    {
      if prev.Some? {
        RequestAndSync(list, Before(prev.value), start - PAGE_SIZE);
      }
    }

    /** The regular refresh asks for the current page again. */
    method Refresh(list: seq<Row>)
      requires IsOrdered(list) && Shows(list)
      modifies this
      ensures Shows(list) && start == old(start) && rows == old(rows) && current == old(current)
    {
      RequestAndSync(list, current, start);
    }
  }

  // ----- Walking the whole list -----

  /** The rows seen by following the next cursor for at most this many more pages; None if it goes on. */
  function Walk(list: seq<Row>, request: Request, pages: nat): Option<seq<Row>>
    decreases pages
  {
    var response := Respond(list, request);
    if response.next.None? then Some(response.rows)
    else if pages == 0 then None
    else
      var rest := Walk(list, After(response.next.value), pages - 1);
      if rest.None? then None else Some(response.rows + rest.value)
  }

  lemma WalkGoesOn(list: seq<Row>, request: Request, cursor: Cursor, pages: nat)
    requires pages > 0 && Respond(list, request).next == Some(cursor) && Walk(list, After(cursor), pages - 1).Some?
    ensures Walk(list, request, pages) == Some(Respond(list, request).rows + Walk(list, After(cursor), pages - 1).value)
  {
  }

  lemma WalkContinues(list: seq<Row>, request: Request, cursor: Cursor, pages: nat, page: seq<Row>, rest: seq<Row>)
    requires pages > 0 && Respond(list, request).next == Some(cursor) && Respond(list, request).rows == page
    ensures Walk(list, request, pages) == Some(page + rest) <==> Walk(list, After(cursor), pages - 1) == Some(rest)
  {
    var later := Walk(list, After(cursor), pages - 1);
    if later.Some? {
      WalkGoesOn(list, request, cursor, pages);
      assert (page + later.value)[|page|..] == later.value && (page + rest)[|page|..] == rest;
    }
  }

  lemma NextPageDecides(list: seq<Row>, request: Request, start: nat, pages: nat)
    requires IsPageAt(list, start, Respond(list, request)) && start + PAGE_SIZE < |list| && pages > 0
    ensures Walk(list, request, pages) == Some(list[start..]) <==>
            Walk(list, After(list[start + PAGE_SIZE - 1].ToCursor()), pages - 1) == Some(list[start + PAGE_SIZE..])
  {
    var later := start + PAGE_SIZE;
    assert list[start..] == list[start..later] + list[later..];
    assert Truncate(list[start..]) == list[start..later];
    WalkContinues(list, request, list[later - 1].ToCursor(), pages, list[start..later], list[later..]);
  }

  /** Behind a cursor that splits the list a page is right, and what follows is decided where it ends. */
  lemma SplitCursorStep(list: seq<Row>, at: nat, pages: nat)
    requires at < |list| - 1 && OlderThan(list, list[at].ToCursor()) == list[at + 1..] && pages > 0
    ensures var later := at + PAGE_SIZE;
            var shown := Walk(list, After(list[at].ToCursor()), pages);
            if later + 1 < |list| then
              shown == Some(list[at + 1..]) <==>
              Walk(list, After(list[later].ToCursor()), pages - 1) == Some(list[later + 1..])
            else shown == Some(list[at + 1..])
  {
    var request := After(list[at].ToCursor());
    assert IsPageAt(list, at + 1, Respond(list, request));
    if at + 1 + PAGE_SIZE < |list| {
      NextPageDecides(list, request, at + 1, pages);
    }
  }

  lemma {:induction false} WalkBehind(list: seq<Row>, at: nat, pages: nat)
    requires IsOrdered(list) && at < |list| - 1 && pages + at + 1 >= |list|
    ensures Walk(list, After(list[at].ToCursor()), pages) == Some(list[at + 1..])
    decreases pages
  {
    OrderedListSplits(list, at);
    SplitCursorStep(list, at, pages);
    if at + PAGE_SIZE + 1 < |list| {
      WalkBehind(list, at + PAGE_SIZE, pages - 1);
    }
  }

  lemma FirstPageStep(list: seq<Row>, pages: nat)
    requires pages >= |list|
    ensures if PAGE_SIZE < |list| then
              Walk(list, First, pages) == Some(list) <==>
              Walk(list, After(list[PAGE_SIZE - 1].ToCursor()), pages - 1) == Some(list[PAGE_SIZE..])
            else Walk(list, First, pages) == Some(list)
  {
    FirstStartsAtZero(list);
    assert list[0..] == list;
    if PAGE_SIZE < |list| {
      NextPageDecides(list, First, 0, pages);
    }
  }

  /** Following next from the first page visits every row exactly once, in order, and ends. */
  lemma WalkVisitsEveryRow(list: seq<Row>, pages: nat)
    requires IsOrdered(list) && pages >= |list|
    ensures Walk(list, First, pages) == Some(list)
  {
    FirstPageStep(list, pages);
    if PAGE_SIZE < |list| {
      WalkBehind(list, PAGE_SIZE - 1, pages - 1);
    }
  }

  // ----- The store sorts by the raw text -----

  /** Characters of a printed UTC time without its zone. */
  predicate IsStamp(stamp: string) {
    forall i :: 0 <= i < |stamp| ==> '0' <= stamp[i] <= '9' || stamp[i] in "-.:T"
  }

  predicate SortsAbove(a: Row, b: Row) {
    Less(b.CreatedAt(), a.CreatedAt()) || (a.CreatedAt() == b.CreatedAt() && Less(a.code, b.code))
  }

  predicate IsSorted(list: seq<Row>) {
    forall i, j {:trigger SortsAbove(list[i], list[j])} :: 0 <= i < j < |list| ==> SortsAbove(list[i], list[j])
  }

  lemma ShorterStampTurnsRound(y: string)
    requires IsStamp(y) && y != ""
    ensures Less("+00:00", y + "+00:00") && !Less(y + "+00:00", "+00:00")
    ensures !Less("Z", y + "Z") && Less(y + "Z", "Z")
  {
    assert (y + "Z")[0] == y[0] && (y + "+00:00")[0] == y[0];
  }

  lemma SuffixKeepsOrder(x: string, y: string, suffix: string)
    requires x != "" && y != ""
    ensures Less(x + suffix, y + suffix) <==> x[0] < y[0] || (x[0] == y[0] && Less(x[1..] + suffix, y[1..] + suffix))
  {
    assert (x + suffix)[1..] == x[1..] + suffix && (y + suffix)[1..] == y[1..] + suffix;
  }

  lemma {:induction false} ZonesCompareAlike(x: string, y: string)
    requires IsStamp(x) && IsStamp(y)
    ensures (Less(x + "+00:00", y + "+00:00") <==> Less(x + "Z", y + "Z")) <==> !(x < y) && !(y < x)
  {
    if x == "" || y == "" {
      assert "" + "Z" == "Z" && "" + "+00:00" == "+00:00";
      if y != "" {
        ShorterStampTurnsRound(y);
      } else if x != "" {
        ShorterStampTurnsRound(x);
      } else {
        LessIsStrict("+00:00", "+00:00");
        LessIsStrict("Z", "Z");
      }
    } else {
      SuffixKeepsOrder(x, y, "Z");
      SuffixKeepsOrder(x, y, "+00:00");
      if x[0] == y[0] {
        ZonesCompareAlike(x[1..], y[1..]);
        assert x == [x[0]] + x[1..] && y == [y[0]] + y[1..];
      }
    }
  }

  lemma NormalizedIsShort(stamp: string)
    ensures Normalize(stamp + "+00:00") == stamp + "Z"
  {
    var text := stamp + "+00:00";
    assert text[|text| - 6..] == "+00:00" && text[..|text| - 6] == stamp;
  }

  lemma SuffixIsInjective(x: string, y: string, suffix: string)
    requires x + suffix == y + suffix
    ensures x == y
  {
    assert x == (x + suffix)[..|x + suffix| - |suffix|];
    assert y == (y + suffix)[..|y + suffix| - |suffix|];
  }

  /** Two rows sorted by text keep their order under the cursor comparison exactly when neither time is
  the other with more digits. */
  lemma SortedPairStaysOrderedExactly(a: Row, b: Row)
    requires IsStamp(a.stamp) && IsStamp(b.stamp) && SortsAbove(a, b)
    ensures IsAbove(a, b) <==> !(a.stamp < b.stamp) && !(b.stamp < a.stamp)
  {
    NormalizedIsShort(a.stamp);
    NormalizedIsShort(b.stamp);
    ZonesCompareAlike(b.stamp, a.stamp);
    if a.stamp + "Z" == b.stamp + "Z" {
      SuffixIsInjective(a.stamp, b.stamp, "Z");
    }
    if a.CreatedAt() == b.CreatedAt() {
      SuffixIsInjective(a.stamp, b.stamp, "+00:00");
    }
  }

  predicate NoneExtends(list: seq<Row>) {
    forall i, j :: 0 <= i < |list| && 0 <= j < |list| ==> !(list[i].stamp < list[j].stamp)
  }

  predicate HasStamps(list: seq<Row>) {
    forall i {:trigger IsStamp(list[i].stamp)} :: 0 <= i < |list| ==> IsStamp(list[i].stamp)
  }

  /** Row `at` has the time of row `k` with more digits. */
  predicate Extends(list: seq<Row>, at: nat, k: nat)
    requires at < |list| && k < |list|
  {
    list[k].stamp < list[at].stamp
  }

  /** The sorted list is in cursor order exactly when no time in it is another with more digits. */
  lemma SortedListIsOrderedExactly(list: seq<Row>)
    requires IsSorted(list) && HasStamps(list)
    ensures IsOrdered(list) <==> NoneExtends(list)
  {
    forall i, j | 0 <= i < j < |list|
      ensures IsAbove(list[i], list[j]) <==> !(list[i].stamp < list[j].stamp) && !(list[j].stamp < list[i].stamp)
    {
      assert SortsAbove(list[i], list[j]);
      SortedPairStaysOrderedExactly(list[i], list[j]);
    }
    if IsOrdered(list) {
      forall i, j | 0 <= i < |list| && 0 <= j < |list| ensures !(list[i].stamp < list[j].stamp) {
        if i < j {
          assert IsAbove(list[i], list[j]);
        } else if j < i {
          assert IsAbove(list[j], list[i]);
        }
      }
    }
  }
}
