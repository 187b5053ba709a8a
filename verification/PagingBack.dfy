/** When Prev undoes Next in the list that the in-memory store sorts. */
module PagingBack {
  import opened Paging
  import opened PagingExactness
  import opened Wrappers

  // ----- Filters that keep a piece of the list -----

  lemma {:induction false} FilterKeepsSome(rows: seq<Row>, keeps: Row -> bool)
    ensures |Filter(rows, keeps)| <= |rows|
    ensures Filter(rows, keeps) == [] <==> forall row :: row in rows ==> !keeps(row)
    ensures |Filter(rows, keeps)| == |rows| <==> forall row :: row in rows ==> keeps(row)
  {
    if rows != [] {
      FilterKeepsSome(rows[1..], keeps);
      assert rows == [rows[0]] + rows[1..];
    }
  }

  predicate IsApart(a: seq<Row>, b: seq<Row>) {
    forall row :: row in a ==> row !in b
  }

  /** The first page of what passes is the middle piece exactly when nothing before it passes and it passes
  itself. */
  lemma FirstPageIsPiece(a: seq<Row>, b: seq<Row>, c: seq<Row>, keeps: Row -> bool)
    requires b != [] && |b| <= PAGE_SIZE && (|b| < PAGE_SIZE ==> c == []) && IsApart(a, b) && IsApart(c, b)
    ensures Truncate(Filter(a + (b + c), keeps)) == b <==>
            (forall row :: row in a ==> !keeps(row)) && (forall row :: row in b ==> keeps(row))
  {
    var all := Filter(a + (b + c), keeps);
    FilterAppends(a, b + c, keeps);
    FilterAppends(b, c, keeps);
    FilterKeepsSome(a, keeps);
    FilterKeepsSome(b, keeps);
    if Filter(a, keeps) != [] {
      FilterIsFrom(a, keeps);
      assert all[0] == Filter(a, keeps)[0] && Filter(a, keeps)[0] in a;
      assert b[0] in b;
    } else if |Filter(b, keeps)| == |b| {
      FilterTakes(b, [], keeps);
      assert b + [] == b;
    } else {
      FilterIsFrom(c, keeps);
      MissingRowShifts(b, Filter(b, keeps), Filter(c, keeps), c);
    }
  }

  lemma {:induction false} FilterAppends(a: seq<Row>, b: seq<Row>, keeps: Row -> bool)
    ensures Filter(a + b, keeps) == Filter(a, keeps) + Filter(b, keeps)
  {
    if a == [] {
      assert a + b == b;
    } else {
      FilterAppends(a[1..], b, keeps);
      FilterStarts(a[0], a[1..], keeps);
      FilterStarts(a[0], a[1..] + b, keeps);
      assert a + b == [a[0]] + (a[1..] + b) && a == [a[0]] + a[1..];
    }
  }

  lemma MissingRowShifts(b: seq<Row>, fewer: seq<Row>, more: seq<Row>, c: seq<Row>)
    requires |fewer| < |b| <= PAGE_SIZE && IsApart(c, b) && forall row :: row in more ==> row in c
    ensures Truncate(fewer + more) != b
  {
    if more != [] {
      assert Truncate(fewer + more)[|fewer|] == more[0] && more[0] in c;
      assert b[|fewer|] in b;
    }
  }

  lemma PiecesAreApart(list: seq<Row>, low: nat, high: nat)
    requires IsSorted(list) && low <= high <= |list|
    ensures IsApart(list[..low], list[low..high]) && IsApart(list[high..], list[low..high])
  {
    forall row | row in list[..low] ensures row !in list[low..high] {
      if row in list[low..high] {
        var i: nat :| i < low && list[i] == row;
        var j: nat :| low <= j < high && list[j] == row;
        SortedRowsDiffer(list, i, j);
      }
    }
    forall row | row in list[high..] ensures row !in list[low..high] {
      if row in list[low..high] {
        var i: nat :| high <= i < |list| && list[i] == row;
        var j: nat :| low <= j < high && list[j] == row;
        SortedRowsDiffer(list, j, i);
      }
    }
  }

  lemma ThreePieces<T>(s: seq<T>, low: nat, high: nat)
    requires low <= high <= |s|
    ensures s == s[..low] + (s[low..high] + s[high..])
  {
  }

  // ----- When Next shows the following page -----

  /** The end of the next page, or of the list. */
  function NextEnd(list: seq<Row>, at: nat): nat
    requires at < |list|
  {
    if at + 1 + PAGE_SIZE <= |list| then at + 1 + PAGE_SIZE else |list|
  }

  /** No time above is this row's with more digits, and no time of the next page is this row's with fewer. */
  predicate LeadsOn(list: seq<Row>, at: nat)
    requires at < |list|
  {
    && (forall k {:trigger Extends(list, k, at)} :: 0 <= k < at ==> !Extends(list, k, at))
    && (forall k {:trigger Extends(list, at, k)} :: at < k < NextEnd(list, at) ==> !Extends(list, at, k))
  }

  lemma OlderIsOutsideAbove(list: seq<Row>, at: nat)
    requires IsSorted(list) && HasStamps(list) && at < |list| - 1
    ensures (forall row :: row in list[..at + 1] ==> !IsOlder(row, list[at].ToCursor())) <==>
            (forall k {:trigger Extends(list, k, at)} :: 0 <= k < at ==> !Extends(list, k, at))
  {
    forall k | 0 <= k < |list|
      ensures IsOlder(list[k], list[at].ToCursor()) <==>
                if k > at then !Extends(list, at, k) else k < at && Extends(list, k, at)
    {
      CursorSeesExactly(list, at, k);
    }
    assert forall k :: 0 <= k <= at ==> list[..at + 1][k] == list[k];
    if !(forall k {:trigger Extends(list, k, at)} :: 0 <= k < at ==> !Extends(list, k, at)) {
      var k :| 0 <= k < at && Extends(list, k, at);
      assert list[..at + 1][k] in list[..at + 1];
    }
  }

  lemma OlderIsInsideBelow(list: seq<Row>, at: nat)
    requires IsSorted(list) && HasStamps(list) && at < |list| - 1
    ensures (forall row :: row in list[at + 1..NextEnd(list, at)] ==> IsOlder(row, list[at].ToCursor())) <==>
            (forall k {:trigger Extends(list, at, k)} :: at < k < NextEnd(list, at) ==> !Extends(list, at, k))
  {
    var page := list[at + 1..NextEnd(list, at)];
    forall k | at < k < |list|
      ensures IsOlder(list[k], list[at].ToCursor()) <==> !Extends(list, at, k)
    {
      CursorSeesExactly(list, at, k);
    }
    assert forall i :: 0 <= i < |page| ==> page[i] == list[at + 1 + i];
    forall k | at < k < NextEnd(list, at)
      ensures page[k - at - 1] == list[k] && list[k] in page
    {
    }
  }

  lemma NextPageIs(list: seq<Row>, at: nat)
    requires at < |list| - 1
    ensures Truncate(list[at + 1..]) == list[at + 1..NextEnd(list, at)]
  {
  }

  lemma AfterShows(list: seq<Row>, cursor: Cursor)
    ensures var response := Respond(list, After(cursor));
            && response.rows == Truncate(OlderThan(list, cursor))
            && response.prev == if response.rows == [] then None else Some(response.rows[0].ToCursor())
  {
  }

  /** Next shows the rows that follow exactly when the last row of the page leads on. */
  lemma NextIsRightExactly(list: seq<Row>, at: nat)
    requires IsSorted(list) && HasStamps(list) && at < |list| - 1
    ensures Respond(list, After(list[at].ToCursor())).rows == Truncate(list[at + 1..]) <==> LeadsOn(list, at)
  {
    var cursor, end := list[at].ToCursor(), NextEnd(list, at);
    var a, b, c := list[..at + 1], list[at + 1..end], list[end..];
    ThreePieces(list, at + 1, end);
    PiecesAreApart(list, at + 1, end);
    FirstPageIsPiece(a, b, c, row => IsOlder(row, cursor));
    OlderIsOutsideAbove(list, at);
    OlderIsInsideBelow(list, at);
    AfterShows(list, cursor);
    NextPageIs(list, at);
  }

  // ----- When Prev then shows the page again -----

  /** What Before filters in: above the cursor all but the times that extend its own, below it just those that
  its own extends. */
  lemma NewerSeesExactly(list: seq<Row>, at: nat, k: nat)
    requires IsSorted(list) && HasStamps(list) && at < |list| && k < |list|
    ensures IsNewer(list[k], list[at].ToCursor()) <==>
              if k < at then !Extends(list, k, at) else k > at && Extends(list, at, k)
  {
    AboveIsStrict(list[k], list[at]);
    CursorSeesExactly(list, k, at);
  }

  /** No time above the next page is the time of its first row with more digits. */
  lemma NothingAboveExtendsNext(list: seq<Row>, at: nat, k: nat)
    requires IsSorted(list) && HasStamps(list) && at < |list| - 1 && LeadsOn(list, at) && k <= at
    ensures !Extends(list, k, at + 1)
  {
    assert !Extends(list, at, at + 1);
    if k < at {
      assert !Extends(list, k, at);
      if Extends(list, k, at + 1) {
        StampBetween(list, at + 1, at, k);
      }
    }
  }

  /** No later time is this row's with fewer digits. */
  predicate IsLongest(list: seq<Row>, at: nat)
    requires at < |list|
  {
    forall k {:trigger Extends(list, at, k)} :: at < k < |list| ==> !Extends(list, at, k)
  }

  lemma NewerIsAllAbove(list: seq<Row>, at: nat)
    requires IsSorted(list) && HasStamps(list) && at < |list|
    requires forall k {:trigger Extends(list, k, at)} :: 0 <= k < at ==> !Extends(list, k, at)
    ensures NewerThan(list, list[at].ToCursor()) ==
            list[..at] + Filter(list[at..], row => IsNewer(row, list[at].ToCursor()))
  {
    var keeps := row => IsNewer(row, list[at].ToCursor());
    forall row | row in list[..at] ensures keeps(row) {
      var k: nat :| k < at && list[k] == row;
      NewerSeesExactly(list, at, k);
      assert !Extends(list, k, at);
    }
    FilterTakes(list[..at], list[at..], keeps);
    assert list == list[..at] + list[at..];
  }

  lemma NothingBelowIsNewerExactly(list: seq<Row>, at: nat)
    requires IsSorted(list) && HasStamps(list) && at < |list|
    ensures Filter(list[at..], row => IsNewer(row, list[at].ToCursor())) == [] <==> IsLongest(list, at)
  {
    var cursor := list[at].ToCursor();
    FilterKeepsSome(list[at..], row => IsNewer(row, cursor));
    forall k | at <= k < |list|
      ensures list[at..][k - at] == list[k] && list[k] in list[at..]
      ensures IsNewer(list[k], cursor) <==> k > at && Extends(list, at, k)
    {
      NewerSeesExactly(list, at, k);
    }
    forall row | row in list[at..] ensures exists k :: at <= k < |list| && list[k] == row {
    }
  }

  /** Rows that end with others than the wanted ones are another page. */
  lemma OtherLastRow(all: seq<Row>, tail: seq<Row>, wanted: seq<Row>)
    requires tail != [] && |wanted| == PAGE_SIZE && IsApart(tail, wanted)
    ensures LastPage(all + tail) != wanted
  {
    var page := LastPage(all + tail);
    assert page[|page| - 1] == tail[|tail| - 1] && tail[|tail| - 1] in tail;
    assert wanted[|wanted| - 1] in wanted;
  }

  lemma BeforeShows(list: seq<Row>, cursor: Cursor, newer: seq<Row>)
    requires NewerThan(list, cursor) == newer && |newer| >= PAGE_SIZE
    ensures Synced(list, Before(cursor)).1.rows == if |newer| == PAGE_SIZE then Truncate(list) else LastPage(newer)
  {
  }

  lemma LastPageOfHead(list: seq<Row>, at: nat)
    requires PAGE_SIZE <= at < |list|
    ensures LastPage(list[..at]) == list[at - PAGE_SIZE..at]
    ensures at == PAGE_SIZE ==> Truncate(list) == list[at - PAGE_SIZE..at]
  {
  }

  lemma BeforeShowsPageExactly(list: seq<Row>, at: nat, cursor: Cursor, tail: seq<Row>)
    requires PAGE_SIZE <= at < |list| && NewerThan(list, cursor) == list[..at] + tail
    requires IsApart(tail, list[at - PAGE_SIZE..at])
    ensures Synced(list, Before(cursor)).1.rows == list[at - PAGE_SIZE..at] <==> tail == []
  {
    BeforeShows(list, cursor, list[..at] + tail);
    if tail == [] {
      assert list[..at] + tail == list[..at];
      LastPageOfHead(list, at);
    } else {
      OtherLastRow(list[..at], tail, list[at - PAGE_SIZE..at]);
    }
  }

  /** From a page that nothing above extends, Prev shows the page before it exactly when nothing below is the
  time of its first row with fewer digits. */
  lemma PrevIsRightExactly(list: seq<Row>, at: nat)
    requires IsSorted(list) && HasStamps(list) && PAGE_SIZE <= at < |list|
    requires forall k {:trigger Extends(list, k, at)} :: 0 <= k < at ==> !Extends(list, k, at)
    ensures Synced(list, Before(list[at].ToCursor())).1.rows == list[at - PAGE_SIZE..at] <==> IsLongest(list, at)
  {
    var cursor := list[at].ToCursor();
    var tail := Filter(list[at..], row => IsNewer(row, cursor));
    NewerIsAllAbove(list, at);
    NothingBelowIsNewerExactly(list, at);
    FilterIsFrom(list[at..], row => IsNewer(row, cursor));
    PiecesAreApart(list, at - PAGE_SIZE, at);
    BeforeShowsPageExactly(list, at, cursor, tail);
  }

  /** From a page with rows behind it, Next shows the following page and Prev then this one again exactly when
  the last row leads on and the first row of the following page has no shorter time below it. */
  lemma PrevUndoesNextExactly(list: seq<Row>, start: nat)
    requires IsSorted(list) && HasStamps(list) && start + PAGE_SIZE < |list|
    ensures var last := start + PAGE_SIZE - 1;
            var there := Synced(list, After(list[last].ToCursor())).1;
            (there.rows == Truncate(list[last + 1..]) && there.prev.Some?
             && Synced(list, Before(there.prev.value)).1.rows == list[start..start + PAGE_SIZE])
            <==> LeadsOn(list, last) && IsLongest(list, last + 1)
  {
    var last := start + PAGE_SIZE - 1;
    NextIsRightExactly(list, last);
    if LeadsOn(list, last) {
      forall k {:trigger Extends(list, k, last + 1)} | 0 <= k < last + 1 ensures !Extends(list, k, last + 1) {
        NothingAboveExtendsNext(list, last, k);
      }
      PrevIsRightExactly(list, last + 1);
      AfterShows(list, list[last].ToCursor());
      NextPageIs(list, last);
    }
  }

  /** From the first of six such workshops Next shows the fifth and sixth, but Prev does not come back. */
  lemma PrevFailureExists(prefix: string, codes: seq<string>) returns (list: seq<Row>)
    requires IsStamp(prefix) && |codes| == PAGE_SIZE + 2
    ensures IsSorted(list) && HasStamps(list) && |list| == PAGE_SIZE + 2
    ensures var there := Synced(list, After(list[PAGE_SIZE - 1].ToCursor())).1;
            && there.rows == list[PAGE_SIZE..]
            && there.prev.Some? && Synced(list, Before(there.prev.value)).1.rows != list[..PAGE_SIZE]
  {
    var tails := ["5", "4", "3", "2", "1.500", "1"];
    list := RowsWith(prefix, tails, codes);
    DescendingTailsSort(list, prefix, tails);
    TailsAreStamps(list, prefix, tails);
    var last := PAGE_SIZE - 1;
    forall k {:trigger Extends(list, k, last)} {:trigger Extends(list, last, k)} | 0 <= k < |list| && k != last
      ensures !Extends(list, k, last) && !Extends(list, last, k)
    {
      OtherTailsDiffer(prefix, tails[k], tails[last]);
    }
    assert prefix + "1.500" == prefix + "1" + ".500";
    assert Extends(list, last + 1, last + 2);
    PrevUndoesNextExactly(list, 0);
    AfterShows(list, list[last].ToCursor());
    NextIsRightExactly(list, last);
    NextPageIs(list, last);
    assert list[0..PAGE_SIZE] == list[..PAGE_SIZE];
  }
}
